/**
  What one check answers, in terms of its quota, the moment it is made, the row it met and the counts
  its container held. Nothing here speaks of how the answer is computed.
*/
module LeaseAnswers {
  import opened Options
  import opened TieredLease

  /** A window starts `resetAfter` seconds from `now`, and none before. */
  predicate UntilNext(now: int, resetAfter: int, window: int) {
    window > 0 && 0 < resetAfter <= window && (now + resetAfter) % window == 0
  }

  lemma NextMinute(now: int)
    ensures UntilNext(now, FloorTo(now, MINUTE) + MINUTE - now, MINUTE)
  {}

  lemma NextDay(now: int)
    ensures UntilNext(now, FloorTo(now, DAY) + DAY - now, DAY)
  {}

  // ---------------------------------------------------------------- what a row has room for

  /** What the row had counted in the minute a claim made at `now` is charged to. */
  function MinuteCount(met: Row, now: int): nat {
    if met.w.Some? && met.w.value >= FloorTo(now, MINUTE) then met.m else 0
  }

  predicate DaySpent(quota: Quota, met: Row) {
    quota.perDay.Some? && met.d >= quota.perDay.value
  }

  predicate MinuteSpent(quota: Quota, met: Row, now: int) {
    MinuteCount(met, now) >= quota.perMinute
  }

  /** The row has room for `n` more counts. */
  predicate HasRoom(quota: Quota, met: Row, now: int, n: nat) {
    && MinuteCount(met, now) + n <= quota.perMinute
    && (quota.perDay.Some? ==> met.d + n <= quota.perDay.value)
  }

  /** Of `lease` counts, `n` is the most the row has room for. */
  predicate MostOf(quota: Quota, met: Row, now: int, lease: nat, n: nat) {
    n <= lease && (n > 0 ==> HasRoom(quota, met, now, n)) && (n < lease ==> !HasRoom(quota, met, now, n + 1))
  }

  function Room(limit: nat, counted: nat): nat {
    if counted < limit then limit - counted else 0
  }

  /** The row a claim of `lease` counts leaves. */
  predicate ChargedBy(met: Row, now: int, lease: nat, row: Row) {
    && row.d == met.d + lease
    && row.m == MinuteCount(met, now) + lease
    && row.w == if met.w.Some? && met.w.value >= FloorTo(now, MINUTE) then met.w else Some(FloorTo(now, MINUTE))
  }

  // ---------------------------------------------------------------- what is held

  /** The counts a lease holds that are of the minute of `now`. */
  function Kept(lease: Option<Lease>, now: int): nat {
    if lease.Some? && lease.value.minute == FloorTo(now, MINUTE) then lease.value.tokens else 0
  }

  function Held(lease: Option<Lease>): nat {
    if lease.Some? then lease.value.tokens else 0
  }

  predicate Blocked(lease: Option<Lease>, now: int) {
    lease.Some? && lease.value.blockedUntil > now
  }

  // ---------------------------------------------------------------- answers

  predicate RefusedFor(now: int, d: Decision, limit: nat, window: int) {
    && !d.allowed && !d.failedOpen && d.remaining == 0
    && d.limit == limit && d.window == window && UntilNext(now, d.resetAfter, window)
  }

  /** An admission: the day's limit when the day is tighter than the minute, or else the minute's, with what is held on top. */
  predicate Admitted(quota: Quota, now: int, d: Decision, minuteRoom: nat, dayRoom: Option<nat>, held: nat) {
    && d.allowed && !d.failedOpen && UntilNext(now, d.resetAfter, d.window)
    && if quota.perDay.Some? && dayRoom.Some? && dayRoom.value < minuteRoom
       then d.window == DAY && d.limit == quota.perDay.value && d.remaining == dayRoom.value + held
       else d.window == MINUTE && d.limit == quota.perMinute && d.remaining == minuteRoom + held
  }

  /**
    The answer to a claim of `lease` counts on the row `met`: refused for the day when the day was spent,
    else for the minute when that was, else admitted on one of the most counts there was room for, the
    rest of them `held` beside those `kept`.
  */
  predicate ClaimAnswer(quota: Quota, now: int, met: Row, lease: nat, kept: nat, d: Decision, held: nat) {
    if DaySpent(quota, met) then
      held == 0 && RefusedFor(now, d, quota.perDay.value, DAY)
    else if MinuteSpent(quota, met, now) then
      held == 0 && RefusedFor(now, d, quota.perMinute, MINUTE)
    else
      && held + 1 > kept && MostOf(quota, met, now, lease, held + 1 - kept)
      && Admitted(quota, now, d, Room(quota.perMinute, MinuteCount(met, now) + lease),
                  if quota.perDay.Some? then Some(Room(quota.perDay.value, met.d + lease)) else None, held)
  }

  /** The answer from a lease alone: refused until the block ends, else admitted on one of the counts it holds. */
  predicate MemoryAnswer(quota: Quota, now: int, lease: Lease, d: Decision, held: nat) {
    if Blocked(Some(lease), now) then
      d == Decision(false, lease.blockedLimit, 0, lease.blockedUntil - now, lease.blockedWindow, false) && held == Kept(Some(lease), now)
    else
      held + 1 == Kept(Some(lease), now) && Admitted(quota, now, d, lease.minuteRemaining, lease.dayRemaining, held)
  }

  /** The answer when the store raised: let through, with the whole minute's limit. */
  predicate OpenAnswer(quota: Quota, now: int, d: Decision) {
    && d.allowed && d.failedOpen && d.limit == d.remaining == quota.perMinute
    && d.window == MINUTE && UntilNext(now, d.resetAfter, MINUTE)
  }

  lemma AdmissionIs(s: Lease, quota: Quota, now: int)
    ensures Admitted(quota, now, Admission(s, quota, now), s.minuteRemaining, s.dayRemaining, s.tokens)
  {
    NextMinute(now);
    NextDay(now);
  }

  lemma OpenIs(quota: Quota, now: int)
    ensures OpenAnswer(quota, now, FailedOpen(quota, now))
  {
    NextMinute(now);
  }

  /** What is granted is the most of the lease there was room for. */
  lemma GrantIsMost(quota: Quota, met: Row, now: int, lease: nat, after: Row)
    requires ChargedBy(met, now, lease, after) && lease >= 1
    ensures MostOf(quota, met, now, lease, Grant(quota, lease, after))
    ensures Grant(quota, lease, after) == 0 <==> DaySpent(quota, met) || MinuteSpent(quota, met, now)
  {}

  /** A claim's answer, and what it leaves held. */
  lemma ClaimAnswered(quota: Quota, found: Option<Lease>, now: int, lease: nat, met: Row, after: Row)
    requires ChargedBy(met, now, lease, after) && lease >= 1
    ensures var (s, d) := WriteBack(quota, found, now, lease, after);
      ClaimAnswer(quota, now, met, lease, Kept(found, now), d, s.tokens)
  {
    var (s, d) := WriteBack(quota, found, now, lease, after);
    GrantIsMost(quota, met, now, lease, after);
    NextMinute(now);
    NextDay(now);
    AdmissionIs(s, quota, now);
  }

  /** A check is answered from memory exactly when a block is on or a count of its minute is held. */
  lemma MemoryAnswered(tiers: Tiers, quota: Quota, cached: Option<Lease>, now: int)
    requires tiers.Valid()
    ensures var peek := Peek(tiers, quota, cached, now);
      && (peek.Decided? <==> Blocked(cached, now) || Kept(cached, now) > 0)
      && (peek.Decided? ==> MemoryAnswer(quota, now, cached.value, peek.decision, Held(peek.state)))
      && (peek.NeedsClaim? ==> Held(peek.state) == 0)
  {
    var peek := Peek(tiers, quota, cached, now);
    if peek.Decided? && !Blocked(cached, now) { AdmissionIs(peek.state.value, quota, now); }
  }
}
