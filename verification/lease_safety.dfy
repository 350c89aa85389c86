/** What every run of the lease protocol keeps, and what each refusal means. */
module LeaseSafety {
  import opened Options
  import opened TieredLease
  import opened LeaseProtocol

  // ---------------------------------------------------------------- runs

  ghost predicate Possible(c: Config, s: System, steps: seq<Step>)
    requires c.Valid()
    decreases |steps|
  {
    steps == [] ||
    (Placed(s) && GrantFits(s) && Enabled(c, s, steps[0]) && Possible(c, Next(c, s, steps[0]), steps[1..]))
  }

  function Run(c: Config, s: System, steps: seq<Step>): System
    requires c.Valid() && Possible(c, s, steps)
    decreases |steps|
  {
    if steps == [] then s else Run(c, Next(c, s, steps[0]), steps[1..])
  }

  /** One run after another is a run. */
  lemma {:induction false} RunJoin(c: Config, s: System, a: seq<Step>, b: seq<Step>)
    requires c.Valid() && Possible(c, s, a) && Possible(c, Run(c, s, a), b)
    ensures Possible(c, s, a + b) && Run(c, s, a + b) == Run(c, Run(c, s, a), b)
    decreases |a|
  {
    if a == [] {
      assert a + b == b;
    } else {
      var s1 := Next(c, s, a[0]);
      assert (a + b)[0] == a[0] && (a + b)[1..] == a[1..] + b;
      RunJoin(c, s1, a[1..], b);
      assert Possible(c, s, a + b);
    }
  }

  lemma {:induction false} RunKeeps(c: Config, s: System, steps: seq<Step>)
    requires c.Valid() && Inv(c, s) && Possible(c, s, steps)
    ensures Inv(c, Run(c, s, steps))
    ensures Advances(s.row, Run(c, s, steps).row)
    decreases |steps|
  {
    if steps != [] {
      NextKeeps(c, s, steps[0]);
      RowAdvances(c, s, steps[0]);
      RunKeeps(c, Next(c, s, steps[0]), steps[1..]);
      AdvancesTransitive(s.row, Next(c, s, steps[0]).row, Run(c, s, steps).row);
    }
  }

  /**
    Whatever the interleaving, requests let through plus counts still leased or in flight never
    exceed the greatest minute cap any check asked for, for the stored minute they were charged to,
    nor the greatest day cap. When all checks ask for one quota, that is its own.
  */
  lemma NeverOverCap(c: Config, s0: System, steps: seq<Step>, minute: int)
    requires c.Valid() && Init(s0) && Possible(c, s0, steps)
    ensures var s := Run(c, s0, steps);
      && Count(s.admitted, StoredIn(minute)) + Outstanding(s, StoredIn(minute)) <= c.quota.perMinute
      && (c.quota.perDay.Some? ==> |s.admitted| + Outstanding(s, Everything) <= c.quota.perDay.value)
  {
    InitInv(c, s0);
    RunKeeps(c, s0, steps);
    var s := Run(c, s0, steps);
    assert ConservedFor(s, StoredIn(minute));
    assert ConservedFor(s, Everything);
    CountEverything(s.admitted);
    CountEverything(s.charged);
    assert Count(s.charged, StoredIn(minute)) <= Ceiling(c, s.row, minute);
  }

  /**
    Requests let through in wall-clock minute M exceed the cap by no more than what was claimed
    in M behind a later stored minute, and not at all when nothing was.
  */
  lemma NeverOverCapPerClaimMinute(c: Config, s0: System, steps: seq<Step>, minute: int)
    requires c.Valid() && Init(s0) && Possible(c, s0, steps)
    ensures var s := Run(c, s0, steps);
      && Count(s.admitted, ClaimedIn(minute)) <= c.quota.perMinute + Count(s.charged, Behind(minute))
  {
    NeverOverCap(c, s0, steps, minute);
    InitInv(c, s0);
    RunKeeps(c, s0, steps);
    var s := Run(c, s0, steps);
    CountByClaim(s.admitted, minute);
    assert ConservedFor(s, Behind(minute));
  }

  // ---------------------------------------------------------------- the claim loop

  /** However other claims interleave, no claim is still contended after its three attempts. */
  lemma NeverContended(c: Config, s0: System, steps: seq<Step>, t: nat)
    requires c.Valid() && Init(s0) && Possible(c, s0, steps) && t < |s0.threads|
    ensures var s := Run(c, s0, steps); t < |s.threads| ==> !s.threads[t].phase.Contended?
  {
    InitInv(c, s0);
    RunKeeps(c, s0, steps);
    var s := Run(c, s0, steps);
    if t < |s.threads| { assert PhaseOk(c, s.row, s.threads[t].phase); }
  }

  /** An attempt either leaves the row alone or adds its lease once to the minute and the day. */
  lemma AttemptChargesOnce(c: Config, s: System, t: nat)
    requires c.Valid() && Inv(c, s) && Enabled(c, s, Attempt(t))
    ensures var p := s.threads[t].phase; var s' := Next(c, s, Attempt(t)); var q := s'.threads[t].phase;
      var minute := FloorTo(p.now, MINUTE);
      if q.Granted? then
        && s'.row.d == s.row.d + p.lease
        && s'.row.w.Some? && s'.row.w.value >= minute
        && s'.row.m == p.lease + (if s'.row.w == s.row.w then s.row.m else 0)
        && q.after == s'.row && q.lease == p.lease
        && (s.row.w.Some? && s.row.w.value >= minute ==> s'.row.w == s.row.w)
        && (s'.row.w != s.row.w ==> s'.row.w.value == minute)
      else
        s'.row == s.row && q.Claiming? && q.attempt == p.attempt + 1 < WRITE_ATTEMPTS
  {
    assert PhaseOk(c, s.row, s.threads[t].phase);
  }

  // ---------------------------------------------------------------- refusals

  /** Any claim of at least one count would be granted nothing by this row. */
  ghost predicate StoreRefuses(quota: Quota, row: Row, minute: int) {
    forall lease: nat, path: Path :: lease >= 1 && Guard(path, row, minute) ==>
      Grant(quota, lease, Write(path, row, lease, minute)) == 0
  }

  /** The store refuses exactly when, before the write, the minute or the day was at its cap. */
  lemma StoreRefusalJustified(c: Config, s: System, t: nat)
    requires c.Valid() && Inv(c, s) && Enabled(c, s, Attempt(t))
    requires Next(c, s, Attempt(t)).threads[t].phase.Granted?
    ensures var p := s.threads[t].phase; var q := Next(c, s, Attempt(t)).threads[t].phase;
      var counted := if Guard(CountPath, s.row, FloorTo(p.now, MINUTE)) then s.row.m else 0;
      q.tokens == [] <==>
        counted >= p.quota.perMinute || (p.quota.perDay.Some? && s.row.d >= p.quota.perDay.value)
  {
    assert PhaseOk(c, s.row, s.threads[t].phase);
  }

  /** Written back, an empty grant is a refusal and a full one an admission. */
  lemma FinishFollowsGrant(c: Config, s: System, t: nat)
    requires c.Valid() && Inv(c, s) && Enabled(c, s, Finish(t))
    ensures var q := s.threads[t].phase; var s' := Next(c, s, Finish(t));
      && (q.tokens == [] <==> s'.refused == s.refused + 1)
      && (q.tokens != [] <==> s'.admitted == s.admitted + [Tag(FloorTo(q.now, MINUTE), q.after.w.value)])
  {
    assert PhaseOk(c, s.row, s.threads[t].phase);
  }

  /** The quota allows no more than this limit, in the window it limits. */
  predicate NoLooser(quota: Quota, limit: nat, window: int) {
    if window == DAY then quota.perDay.Some? && quota.perDay.value <= limit else quota.perMinute <= limit
  }

  /**
    A refusal from memory is one the store would give to any check of a quota no looser than the limit
    it reports: always for a day block, and for a minute block while the stored minute is the one the
    blocking claim was charged to.
  */
  lemma MemoryRefusalJustified(c: Config, s: System, t: nat, now: int, quota: Quota)
    requires c.Valid() && Inv(c, s) && Enabled(c, s, Begin(t, now, quota))
    requires Next(c, s, Begin(t, now, quota)).refused == s.refused + 1
    ensures var k := s.containers[s.threads[t].home];
      && k.lease.Some? && Peek(c.tiers, quota, k.lease, now).Decided?
      && var d := Peek(c.tiers, quota, k.lease, now).decision;
         forall asked: Quota :: NoLooser(asked, d.limit, d.window) && (d.window == DAY || s.row.w == Some(k.blockedAt)) ==>
           StoreRefuses(asked, s.row, FloorTo(now, MINUTE))
  {
    var k := s.containers[s.threads[t].home];
    assert TokensMatch(k) && BlockBacked(s.row, k);
    assert k.lease.Some? && k.lease.value.blockedUntil > now;
    assert now >= 0;
    if k.lease.value.blockedWindow != DAY && s.row.w == Some(k.blockedAt) {
      BlockedMinute(k.lease.value.blockedUntil, k.blockedAt, now);
    }
  }

  // ---------------------------------------------------------------- one quota

  predicate Asks(step: Step, quota: Quota) {
    step.Begin? ==> step.quota == quota
  }

  predicate OneQuota(steps: seq<Step>, quota: Quota) {
    forall i :: 0 <= i < |steps| ==> Asks(steps[i], quota)
  }

  /** Every block and every claim under way is of this quota. */
  predicate LeaseOf(lease: Option<Lease>, quota: Quota) {
    lease.Some? && lease.value.blockedUntil > 0 ==>
      var s := lease.value;
      if s.blockedWindow == DAY then quota.perDay == Some(s.blockedLimit) else s.blockedLimit == quota.perMinute
  }

  predicate PhaseOf(p: Phase, quota: Quota) {
    match p
    case Claiming(_, _, _, _, asked) => asked == quota
    case Granted(_, _, _, _, asked) => asked == quota
    case _ => true
  }

  predicate Uniform(s: System, quota: Quota) {
    && (forall k :: 0 <= k < |s.containers| ==> LeaseOf(s.containers[k].lease, quota))
    && (forall t :: 0 <= t < |s.threads| ==> PhaseOf(s.threads[t].phase, quota))
  }

  lemma PeekUniform(tiers: Tiers, quota: Quota, cached: Option<Lease>, now: int)
    requires tiers.Valid() && LeaseOf(cached, quota)
    ensures LeaseOf(Peek(tiers, quota, cached, now).state, quota)
  {}

  lemma WriteBackUniform(quota: Quota, cached: Option<Lease>, now: int, lease: nat, after: Row)
    requires lease <= after.m && lease <= after.d && LeaseOf(cached, quota)
    ensures LeaseOf(Some(WriteBack(quota, cached, now, lease, after).0), quota)
  {}

  lemma UniformBegin(c: Config, s: System, t: nat, now: int, quota: Quota)
    requires c.Valid() && Placed(s) && GrantFits(s) && Enabled(c, s, Begin(t, now, quota)) && Uniform(s, quota)
    ensures Uniform(Next(c, s, Begin(t, now, quota)), quota)
  {
    PeekUniform(c.tiers, quota, s.containers[s.threads[t].home].lease, now);
    assert PhaseOf(s.threads[t].phase, quota);
  }

  lemma UniformFinish(c: Config, s: System, t: nat, quota: Quota)
    requires c.Valid() && Placed(s) && GrantFits(s) && Enabled(c, s, Finish(t)) && Uniform(s, quota)
    ensures Uniform(Next(c, s, Finish(t)), quota)
  {
    var p := s.threads[t].phase;
    assert PhaseOf(p, quota);
    WriteBackUniform(quota, s.containers[s.threads[t].home].lease, p.now, p.lease, p.after);
  }

  lemma UniformStep(c: Config, s: System, step: Step, quota: Quota)
    requires c.Valid() && Placed(s) && GrantFits(s) && Enabled(c, s, step) && Uniform(s, quota) && Asks(step, quota)
    ensures Uniform(Next(c, s, step), quota)
  {
    match step
    case Begin(t, now, _) => UniformBegin(c, s, t, now, quota);
    case Finish(t) => UniformFinish(c, s, t, quota);
    case _ =>
  }

  lemma {:induction false} UniformRun(c: Config, s: System, steps: seq<Step>, quota: Quota)
    requires c.Valid() && Possible(c, s, steps) && Uniform(s, quota) && OneQuota(steps, quota)
    ensures Uniform(Run(c, s, steps), quota)
    decreases |steps|
  {
    if steps != [] {
      assert Asks(steps[0], quota);
      UniformStep(c, s, steps[0], quota);
      UniformRun(c, Next(c, s, steps[0]), steps[1..], quota);
    }
  }

  predicate RefusesFromMemory(c: Config, s: System, t: nat, now: int, quota: Quota)
    requires c.Valid()
  {
    Placed(s) && GrantFits(s) && Enabled(c, s, Begin(t, now, quota)) && Next(c, s, Begin(t, now, quota)).refused == s.refused + 1
  }

  /** So under one quota a refusal from memory is one the store would give to the very check it refuses. */
  lemma OneQuotaRefusalJustified(c: Config, s0: System, steps: seq<Step>, t: nat, now: int, quota: Quota)
    requires c.Valid() && Init(s0) && Possible(c, s0, steps) && OneQuota(steps, quota)
    requires RefusesFromMemory(c, Run(c, s0, steps), t, now, quota)
    ensures var s := Run(c, s0, steps); var k := s.containers[s.threads[t].home];
      k.lease.Some? && (k.lease.value.blockedWindow == DAY || s.row.w == Some(k.blockedAt) ==>
        StoreRefuses(quota, s.row, FloorTo(now, MINUTE)))
  {
    InitInv(c, s0);
    RunKeeps(c, s0, steps);
    UniformRun(c, s0, steps, quota);
    var s := Run(c, s0, steps);
    MemoryRefusalJustified(c, s, t, now, quota);
    var k := s.containers[s.threads[t].home];
    BlockedReports(c, s, t, now, quota);
    assert LeaseOf(k.lease, quota);
  }

  /** What a refusal from memory reports is the block itself. */
  lemma BlockedReports(c: Config, s: System, t: nat, now: int, quota: Quota)
    requires c.Valid() && Inv(c, s) && Enabled(c, s, Begin(t, now, quota))
    requires Next(c, s, Begin(t, now, quota)).refused == s.refused + 1
    ensures var k := s.containers[s.threads[t].home];
      && k.lease.Some? && k.lease.value.blockedUntil > now >= 0
      && var d := Peek(c.tiers, quota, k.lease, now).decision;
         d.limit == k.lease.value.blockedLimit && d.window == k.lease.value.blockedWindow
  {
    assert TokensMatch(s.containers[s.threads[t].home]);
  }

  lemma BlockedMinute(until: int, stored: int, now: int)
    requires until % MINUTE == 0 && until <= stored + MINUTE && now < until
    ensures FloorTo(now, MINUTE) <= stored
  {
    FloorBelow(now, until - MINUTE);
  }

  // ---------------------------------------------------------------- exactness

  /** Everyone is in one minute, nothing fails, and no claim takes more than one count. */
  predicate InStep(c: Config, minute: int, step: Step) {
    match step
    case Begin(_, now, quota) => FloorTo(now, MINUTE) == minute && quota == c.quota
    case FailOpen(_, _) => false
    case _ => true
  }

  predicate Plain(c: Config) {
    c.Valid() && c.tiers.maxLease == 1 && c.quota.perDay.None?
  }

  /** How many claims the row has counted for this minute. */
  function Claims(s: System, minute: int): nat {
    if s.row.w == Some(minute) then s.row.m else 0
  }

  function Busy(ts: seq<Thread>): nat {
    if ts == [] then 0 else Busy(ts[..|ts| - 1]) + if ts[|ts| - 1].phase.Idle? then 0 else 1
  }

  lemma {:induction false} BusyUpdate(ts: seq<Thread>, t: nat, next: Thread)
    requires t < |ts|
    ensures Busy(ts[t := next]) == Busy(ts) - (if ts[t].phase.Idle? then 0 else 1) + (if next.phase.Idle? then 0 else 1)
  {
    var n := |ts| - 1;
    if t == n {
      assert ts[t := next][..n] == ts[..n];
    } else {
      assert ts[t := next][..n] == ts[..n][t := next];
      BusyUpdate(ts[..n], t, next);
    }
  }

  lemma {:induction false} BusyNone(ts: seq<Thread>)
    requires forall t :: 0 <= t < |ts| ==> ts[t].phase.Idle?
    ensures Busy(ts) == 0
  {
    if ts != [] { BusyNone(ts[..|ts| - 1]); }
  }

  predicate PhaseInStep(c: Config, minute: int, p: Phase) {
    match p
    case Claiming(now, lease, _, _, quota) => FloorTo(now, MINUTE) == minute && lease == 1 && quota == c.quota
    case Granted(now, lease, after, _, quota) => quota == c.quota && FloorTo(now, MINUTE) == minute && lease == 1 && after.w == Some(minute)
    case _ => true
  }

  ghost predicate Exact(c: Config, s: System, minute: int) {
    Inv(c, s) && InMinute(c, s, minute)
  }

  /** Nothing leased, nothing lost, every count in this minute, and every request accounted for. */
  ghost predicate InMinute(c: Config, s: System, minute: int) {
    && (forall k :: 0 <= k < |s.containers| ==> HoldsNothing(c, s, minute, s.containers[k]))
    && (forall t :: 0 <= t < |s.threads| ==> PhaseInStep(c, minute, s.threads[t].phase))
    && Tallied(c, s, minute)
  }

  predicate HoldsNothing(c: Config, s: System, minute: int, k: Container) {
    k.tokens == [] && (k.lease.Some? && k.lease.value.blockedUntil > 0 ==> Claims(s, minute) >= c.quota.perMinute)
  }

  predicate Tallied(c: Config, s: System, minute: int) {
    && (s.row.w.Some? ==> s.row.w.value <= minute)
    && s.lost == []
    && |s.charged| == Min(Claims(s, minute), c.quota.perMinute)
    && s.requests == |s.admitted| + s.refused + Busy(s.threads)
    && (s.refused > 0 ==> Claims(s, minute) >= c.quota.perMinute)
  }

  lemma BeginTallied(c: Config, s: System, minute: int, t: nat, now: int)
    requires Plain(c) && minute >= 0 && Exact(c, s, minute)
    requires Enabled(c, s, Begin(t, now, c.quota)) && FloorTo(now, MINUTE) == minute
    ensures Tallied(c, Next(c, s, Begin(t, now, c.quota)), minute)
  {
    var s' := Next(c, s, Begin(t, now, c.quota));
    var k := s.containers[s.threads[t].home];
    assert TokensMatch(k) && HoldsNothing(c, s, minute, k);
    BusyUpdate(s.threads, t, s'.threads[t]);
    assert s'.threads == s.threads[t := s'.threads[t]];
    assert s'.lost == s.lost;
  }

  lemma BeginHoldsNothing(c: Config, s: System, minute: int, t: nat, now: int)
    requires Plain(c) && minute >= 0 && Exact(c, s, minute)
    requires Enabled(c, s, Begin(t, now, c.quota)) && FloorTo(now, MINUTE) == minute
    ensures var s' := Next(c, s, Begin(t, now, c.quota)); HoldsNothing(c, s', minute, s'.containers[s.threads[t].home])
  {
    var k := s.containers[s.threads[t].home];
    assert TokensMatch(k) && HoldsNothing(c, s, minute, k);
  }

  lemma BeginInMinute(c: Config, s: System, minute: int, t: nat, now: int)
    requires Plain(c) && minute >= 0 && Exact(c, s, minute)
    requires Enabled(c, s, Begin(t, now, c.quota)) && FloorTo(now, MINUTE) == minute
    ensures InMinute(c, Next(c, s, Begin(t, now, c.quota)), minute)
  {
    var s' := Next(c, s, Begin(t, now, c.quota));
    BeginTallied(c, s, minute, t, now);
    BeginHoldsNothing(c, s, minute, t, now);
    forall k | 0 <= k < |s'.containers| ensures HoldsNothing(c, s', minute, s'.containers[k]) {
      assert HoldsNothing(c, s, minute, s.containers[k]);
    }
    forall u | 0 <= u < |s'.threads| ensures PhaseInStep(c, minute, s'.threads[u].phase) {
      assert PhaseInStep(c, minute, s.threads[u].phase);
    }
  }

  lemma AttemptCharges(c: Config, s: System, minute: int, t: nat)
    requires Plain(c) && minute >= 0 && Exact(c, s, minute) && Enabled(c, s, Attempt(t))
    ensures var s' := Next(c, s, Attempt(t));
      && Claims(s', minute) >= Claims(s, minute) && |s'.charged| == Min(Claims(s', minute), c.quota.perMinute)
      && (s'.row.w.Some? ==> s'.row.w.value <= minute)
  {
    assert PhaseOk(c, s.row, s.threads[t].phase) && PhaseInStep(c, minute, s.threads[t].phase);
  }

  lemma AttemptTallied(c: Config, s: System, minute: int, t: nat)
    requires Plain(c) && minute >= 0 && Exact(c, s, minute) && Enabled(c, s, Attempt(t))
    ensures Tallied(c, Next(c, s, Attempt(t)), minute)
  {
    AttemptCharges(c, s, minute, t);
    BusyUpdate(s.threads, t, Next(c, s, Attempt(t)).threads[t]);
    assert PhaseOk(c, s.row, s.threads[t].phase);
  }

  lemma AttemptInMinute(c: Config, s: System, minute: int, t: nat)
    requires Plain(c) && minute >= 0 && Exact(c, s, minute) && Enabled(c, s, Attempt(t))
    ensures InMinute(c, Next(c, s, Attempt(t)), minute)
  {
    var s' := Next(c, s, Attempt(t));
    AttemptTallied(c, s, minute, t);
    AttemptCharges(c, s, minute, t);
    forall k | 0 <= k < |s'.containers| ensures HoldsNothing(c, s', minute, s'.containers[k]) {
      assert HoldsNothing(c, s, minute, s.containers[k]);
    }
    forall u | 0 <= u < |s'.threads| ensures PhaseInStep(c, minute, s'.threads[u].phase) {
      assert PhaseInStep(c, minute, s.threads[u].phase) && PhaseOk(c, s.row, s.threads[u].phase);
    }
  }

  /** Only a grant of nothing refuses and blocks, and then the claims had already reached the cap. */
  lemma EmptyGrantMeansFull(c: Config, s: System, minute: int, t: nat)
    requires Plain(c) && minute >= 0 && Exact(c, s, minute) && Enabled(c, s, Finish(t)) && s.threads[t].phase.tokens == []
    ensures Claims(s, minute) >= c.quota.perMinute
  {
    assert PhaseOk(c, s.row, s.threads[t].phase) && PhaseInStep(c, minute, s.threads[t].phase);
  }

  /** A grant of one serves its own request and leaves nothing over. */
  lemma FinishHoldsNothing(c: Config, s: System, minute: int, t: nat)
    requires Plain(c) && minute >= 0 && Exact(c, s, minute) && Enabled(c, s, Finish(t))
    ensures var s' := Next(c, s, Finish(t)); s'.lost == [] && HoldsNothing(c, s', minute, s'.containers[s.threads[t].home])
  {
    var q, k := s.threads[t].phase, s.containers[s.threads[t].home];
    assert PhaseOk(c, s.row, q) && PhaseInStep(c, minute, q) && HoldsNothing(c, s, minute, k);
    assert |q.tokens| <= 1;
    if q.tokens == [] { EmptyGrantMeansFull(c, s, minute, t); }
  }

  lemma FinishTallied(c: Config, s: System, minute: int, t: nat)
    requires Plain(c) && minute >= 0 && Exact(c, s, minute) && Enabled(c, s, Finish(t))
    ensures Tallied(c, Next(c, s, Finish(t)), minute)
  {
    FinishHoldsNothing(c, s, minute, t);
    if s.threads[t].phase.tokens == [] { EmptyGrantMeansFull(c, s, minute, t); }
    assert PhaseOk(c, s.row, s.threads[t].phase);
    BusyUpdate(s.threads, t, Next(c, s, Finish(t)).threads[t]);
  }

  lemma FinishInMinute(c: Config, s: System, minute: int, t: nat)
    requires Plain(c) && minute >= 0 && Exact(c, s, minute) && Enabled(c, s, Finish(t))
    ensures InMinute(c, Next(c, s, Finish(t)), minute)
  {
    var s' := Next(c, s, Finish(t));
    FinishHoldsNothing(c, s, minute, t);
    FinishTallied(c, s, minute, t);
    forall k | 0 <= k < |s'.containers| ensures HoldsNothing(c, s', minute, s'.containers[k]) {
      assert HoldsNothing(c, s, minute, s.containers[k]);
    }
    forall u | 0 <= u < |s'.threads| ensures PhaseInStep(c, minute, s'.threads[u].phase) {
      assert PhaseInStep(c, minute, s.threads[u].phase);
    }
  }

  lemma EvictInMinute(c: Config, s: System, minute: int, h: nat)
    requires Plain(c) && Exact(c, s, minute) && Enabled(c, s, Evict(h))
    ensures InMinute(c, Next(c, s, Evict(h)), minute)
  {
    var s' := Next(c, s, Evict(h));
    forall k | 0 <= k < |s'.containers| ensures HoldsNothing(c, s', minute, s'.containers[k]) {
      assert HoldsNothing(c, s, minute, s.containers[k]);
    }
    assert HoldsNothing(c, s, minute, s.containers[h]);
    assert s.lost + [] == s.lost;
  }

  lemma {:induction false} ExactRun(c: Config, s: System, minute: int, steps: seq<Step>)
    requires Plain(c) && minute >= 0 && Exact(c, s, minute) && Possible(c, s, steps)
    requires forall i :: 0 <= i < |steps| ==> InStep(c, minute, steps[i])
    ensures Exact(c, Run(c, s, steps), minute)
    decreases |steps|
  {
    if steps != [] {
      assert InStep(c, minute, steps[0]);
      NextKeeps(c, s, steps[0]);
      match steps[0] {
        case Begin(t, now, _) => BeginInMinute(c, s, minute, t, now);
        case Attempt(t) => AttemptInMinute(c, s, minute, t);
        case Finish(t) => FinishInMinute(c, s, minute, t);
        case Evict(h) => EvictInMinute(c, s, minute, h);
      }
      ExactRun(c, Next(c, s, steps[0]), minute, steps[1..]);
    }
  }

  lemma StartsExact(c: Config, s: System, minute: int)
    requires Plain(c) && Init(s) && (s.row.w.None? || s.row.w.value < minute)
    ensures Exact(c, s, minute)
  {
    InitInv(c, s);
    BusyNone(s.threads);
  }

  /** With nobody under way every count charged has been let through. */
  lemma AllCounted(c: Config, s: System, minute: int)
    requires Exact(c, s, minute)
    requires forall t :: 0 <= t < |s.threads| ==> s.threads[t].phase.Idle?
    ensures |s.charged| == |s.admitted|
  {
    forall k | 0 <= k < |s.containers| ensures s.containers[k].tokens == [] {
      assert HoldsNothing(c, s, minute, s.containers[k]);
    }
    HeldNothing(Tokens(s.containers), Everything);
    HeldNothing(InFlight(s.threads), Everything);
    assert ConservedFor(s, Everything);
    CountEverything(s.admitted);
    CountEverything(s.charged);
  }

  /**
    With leases of one, no day quota and everyone in the same minute, once every request has been
    answered exactly as many were let through as the cap allows.
  */
  lemma ExactlyTheCap(c: Config, s0: System, minute: int, steps: seq<Step>)
    requires Plain(c) && minute >= 0 && Init(s0) && Possible(c, s0, steps)
    requires s0.row.w.None? || s0.row.w.value < minute
    requires forall i :: 0 <= i < |steps| ==> InStep(c, minute, steps[i])
    requires forall t :: 0 <= t < |Run(c, s0, steps).threads| ==> Run(c, s0, steps).threads[t].phase.Idle?
    ensures var s := Run(c, s0, steps);
      |s.admitted| == Min(s.requests, c.quota.perMinute) && s.refused == s.requests - |s.admitted|
  {
    StartsExact(c, s0, minute);
    ExactRun(c, s0, minute, steps);
    var s := Run(c, s0, steps);
    BusyNone(s.threads);
    AllCounted(c, s, minute);
  }

  // ---------------------------------------------------------------- lease sizes and headers

  /** A lease of `n` is within the largest, and a `leaseDivisor`th of the rate and of what remains covers it. */
  predicate Affordable(tiers: Tiers, s: Lease, quota: Quota, n: nat) {
    && n <= tiers.maxLease
    && n * tiers.leaseDivisor <= Max(s.served, s.previousServed)
    && n * tiers.leaseDivisor <= (if s.writtenMinute == Some(s.minute) then s.minuteRemaining else quota.perMinute)
    && (quota.perDay.Some? && s.dayRemaining.Some? ==> n * tiers.leaseDivisor <= s.dayRemaining.value)
  }

  /** A claim asks for the most it can afford, and for one when that is none. A cold key asks for one. */
  lemma LeaseIsMost(tiers: Tiers, s: Lease, quota: Quota, m: nat)
    requires tiers.Valid()
    ensures var n := LeaseSize(tiers, Some(s), quota);
      && (n == 1 || Affordable(tiers, s, quota, n))
      && (Affordable(tiers, s, quota, m) ==> m <= n)
    ensures LeaseSize(tiers, None, quota) == 1
  {
    var n, d := LeaseSize(tiers, Some(s), quota), tiers.leaseDivisor;
    var hot := Max(s.served, s.previousServed);
    var left := if s.writtenMinute == Some(s.minute) then s.minuteRemaining else quota.perMinute;
    ShareBound(n, hot, d);
    ShareBound(n, left, d);
    ShareBound(m, hot, d);
    ShareBound(m, left, d);
    if quota.perDay.Some? && s.dayRemaining.Some? {
      ShareBound(n, s.dayRemaining.value, d);
      ShareBound(m, s.dayRemaining.value, d);
    }
  }

  /** A number of whole shares fits in a total exactly when it is at most the quotient. */
  lemma ShareBound(n: nat, total: nat, divisor: nat)
    requires divisor >= 1
    ensures n * divisor <= total <==> n <= total / divisor
  {
    var q := total / divisor;
    assert q * divisor <= total < q * divisor + divisor;
    if n <= q { SharesGrow(n, q, divisor); } else { SharesGrow(q + 1, n, divisor); }
  }

  lemma SharesGrow(a: nat, b: nat, divisor: nat)
    requires a <= b
    ensures a * divisor <= b * divisor
  {
    assert (b - a) * divisor >= 0;
  }
}
