/**
  The value-level meaning of the tiered limiter: what one container knows about one counter,
  what the stored row holds, and what each of the three phases of `check_key` does to them.
  The clock is whole seconds, so the ceilings and floors on it are exact.
*/
module TieredLease {
  import opened Options

  const MINUTE: int := 60
  const DAY: int := 86_400
  const WRITE_ATTEMPTS: nat := 3

  datatype Quota = Quota(perMinute: nat, perDay: Option<nat>) {
    predicate Valid() {
      perMinute >= 1 && (perDay.Some? ==> perDay.value >= 1)
    }
  }

  datatype Tiers = Tiers(maxLease: nat, leaseDivisor: nat) {
    predicate Valid() {
      maxLease >= 1 && leaseDivisor >= 1
    }
  }

  /** A container's own copy of one counter: the counts it may still hand out, and what it last heard of the row. */
  datatype Lease = Lease(
    minute: int,
    writtenMinute: Option<int>,
    tokens: nat,
    served: nat,
    previousServed: nat,
    minuteRemaining: nat,
    dayRemaining: Option<nat>,
    blockedUntil: int,
    blockedLimit: nat,
    blockedWindow: int)

  function Fresh(minute: int): Lease {
    Lease(minute, None, 0, 0, 0, 0, None, 0, 0, MINUTE)
  }

  datatype Decision = Decision(allowed: bool, limit: nat, remaining: nat, resetAfter: nat, window: int, failedOpen: bool)

  function Max(a: int, b: int): int { if a >= b then a else b }
  function Min(a: int, b: int): int { if a <= b then a else b }

  function FloorTo(now: int, window: int): int
    requires window > 0
  {
    now / window * window
  }

  /** A moment before the end of an aligned minute is in that minute or an earlier one. */
  lemma FloorBelow(now: int, start: int)
    requires start % MINUTE == 0 && now < start + MINUTE
    ensures FloorTo(now, MINUTE) <= start
  {}

  lemma FloorAligned(now: int)
    ensures FloorTo(now, MINUTE) % MINUTE == 0
    ensures FloorTo(now, MINUTE) <= now < FloorTo(now, MINUTE) + MINUTE
  {}

  // ---------------------------------------------------------------- in-process state

  /** The cached state rolled to `minute`: any other minute's tokens are gone. */
  function Touch(state: Option<Lease>, minute: int): Option<Lease> {
    match state
    case None => None
    case Some(s) =>
      if s.minute == minute then state else
      Some(s.(
        previousServed := if s.minute == minute - MINUTE then s.served else 0,
        served := 0,
        tokens := 0,
        minute := minute))
  }

  function LeaseSize(tiers: Tiers, state: Option<Lease>, quota: Quota): (n: nat)
    requires tiers.Valid()
    ensures 1 <= n <= tiers.maxLease
  {
    if tiers.maxLease <= 1 || state.None? then 1 else
    var s := state.value;
    var minuteRemaining := if s.writtenMinute == Some(s.minute) then s.minuteRemaining else quota.perMinute;
    var hot := Max(s.served, s.previousServed) / tiers.leaseDivisor;
    var byMinute := minuteRemaining / tiers.leaseDivisor;
    var bound := Min(tiers.maxLease, Min(hot, byMinute));
    var bounded :=
      if quota.perDay.Some? && s.dayRemaining.Some?
      then Min(bound, s.dayRemaining.value / tiers.leaseDivisor)
      else bound;
    Max(1, bounded)
  }

  function SameMinute(state: Option<Lease>, minute: int): bool {
    state.Some? && state.value.writtenMinute.Some? && state.value.writtenMinute.value >= minute
  }

  function Refusal(s: Lease, now: int): Decision {
    Decision(false, s.blockedLimit, 0, Max(s.blockedUntil - now, 0), s.blockedWindow, false)
  }

  function Admission(s: Lease, quota: Quota, now: int): Decision {
    var minuteLeft := s.minuteRemaining + s.tokens;
    if quota.perDay.Some? && s.dayRemaining.Some? && s.dayRemaining.value + s.tokens < minuteLeft then
      Decision(true, quota.perDay.value, s.dayRemaining.value + s.tokens, Max(FloorTo(now, DAY) + DAY - now, 0), DAY, false)
    else
      Decision(true, quota.perMinute, minuteLeft, Max(FloorTo(now, MINUTE) + MINUTE - now, 0), MINUTE, false)
  }

  /** The store raised: the request is let through uncounted, with its whole limit to report. */
  function FailedOpen(quota: Quota, now: int): Decision {
    Decision(true, quota.perMinute, quota.perMinute, Max(FloorTo(now, MINUTE) + MINUTE - now, 0), MINUTE, true)
  }

  datatype Outcome =
    | Decided(state: Option<Lease>, decision: Decision)
    | NeedsClaim(state: Option<Lease>, lease: nat, sameMinute: bool)

  /** Refuse or serve from a lease of the current minute, or size a claim. */
  function Consult(tiers: Tiers, quota: Quota, state: Option<Lease>, now: int): Outcome
    requires tiers.Valid()
  {
    if state.Some? && state.value.blockedUntil > now then
      Decided(state, Refusal(state.value, now))
    else if state.Some? && state.value.tokens > 0 then
      var s := state.value.(tokens := state.value.tokens - 1, served := state.value.served + 1);
      Decided(Some(s), Admission(s, quota, now))
    else
      NeedsClaim(state, LeaseSize(tiers, state, quota), SameMinute(state, FloorTo(now, MINUTE)))
  }

  /** The first phase, under the lock. */
  function Peek(tiers: Tiers, quota: Quota, cached: Option<Lease>, now: int): Outcome
    requires tiers.Valid()
  {
    Consult(tiers, quota, Touch(cached, FloorTo(now, MINUTE)), now)
  }

  // ---------------------------------------------------------------- the stored row

  /** One counter of one row: the stored minute, its count, and the day's count. */
  datatype Row = Row(w: Option<int>, m: nat, d: nat)

  datatype Path = CountPath | RolloverPath

  predicate Guard(path: Path, row: Row, minute: int) {
    match path
    case CountPath => row.w.Some? && row.w.value >= minute
    case RolloverPath => row.w.None? || row.w.value < minute
  }

  function Write(path: Path, row: Row, lease: nat, minute: int): Row {
    match path
    case CountPath => row.(m := row.m + lease, d := row.d + lease)
    case RolloverPath => Row(Some(minute), lease, row.d + lease)
  }

  function PathOf(sameMinute: bool, attempt: nat): Path {
    if sameMinute == (attempt % 2 == 0) then CountPath else RolloverPath
  }

  /** The order in which a row can only move while no row is deleted. */
  predicate Advances(a: Row, b: Row) {
    && a.d <= b.d
    && (a.w.Some? ==> b.w.Some? && a.w.value <= b.w.value && (a.w == b.w ==> a.m <= b.m))
  }

  lemma AdvancesTransitive(a: Row, b: Row, c: Row)
    requires Advances(a, b) && Advances(b, c)
    ensures Advances(a, c)
  {}

  /** How many of a claim's `lease` counts the caller may use, from the counts after the write. */
  function Grant(quota: Quota, lease: nat, after: Row): (g: nat)
    requires lease <= after.m && lease <= after.d
  {
    var byMinute := Min(lease, quota.perMinute - (after.m - lease));
    var byDay := if quota.perDay.Some? then Min(byMinute, quota.perDay.value - (after.d - lease)) else byMinute;
    Max(byDay, 0)
  }

  // ---------------------------------------------------------------- write-back

  /** What one answered claim makes of a lease in the claim's minute. */
  function Settle(quota: Quota, base: Lease, now: int, lease: nat, after: Row): (Lease, Decision)
    requires lease <= after.m && lease <= after.d
  {
    var granted := Grant(quota, lease, after);
    var recorded := base.(
      writtenMinute := Some(FloorTo(now, MINUTE)),
      served := base.served + 1,
      minuteRemaining := Max(quota.perMinute - after.m, 0),
      dayRemaining := if quota.perDay.None? then None else Some(Max(quota.perDay.value - after.d, 0)));
    if granted >= 1 then
      var s := recorded.(tokens := recorded.tokens + (granted - 1));
      (s, Admission(s, quota, now))
    else
      var s :=
        if quota.perDay.Some? && after.d - lease >= quota.perDay.value then
          recorded.(blockedUntil := FloorTo(now, DAY) + DAY, blockedLimit := quota.perDay.value, blockedWindow := DAY, tokens := 0)
        else
          recorded.(blockedUntil := FloorTo(now, MINUTE) + MINUTE, blockedLimit := quota.perMinute, blockedWindow := MINUTE, tokens := 0);
      (s, Refusal(s, now))
  }

  /** The third phase, under the lock: record what the store answered and decide. */
  function WriteBack(quota: Quota, cached: Option<Lease>, now: int, lease: nat, after: Row): (Lease, Decision)
    requires lease <= after.m && lease <= after.d
  {
    var minute := FloorTo(now, MINUTE);
    var touched := Touch(cached, minute);
    Settle(quota, if touched.Some? then touched.value else Fresh(minute), now, lease, after)
  }
}
