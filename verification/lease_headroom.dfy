/**
  The `remaining` a check reports. It can exceed the limit: exactly when is stated for every
  write-back and every answer from memory, a run that does it is given, and so are the runs that never do.
*/
module LeaseHeadroom {
  import opened Options
  import opened TieredLease
  import opened LeaseProtocol
  import opened LeaseSafety

  // ---------------------------------------------------------------- one report

  predicate Exceeds(d: Decision) {
    d.allowed && d.remaining > d.limit
  }

  /** The counts a lease still holds for a claim made in `minute`. */
  function HeldFor(cached: Option<Lease>, minute: int): nat {
    if cached.Some? && cached.value.minute == minute then cached.value.tokens else 0
  }

  /** The daily count is the tighter of the two. */
  predicate DayTighter(quota: Quota, row: Row) {
    quota.perDay.Some? && Max(quota.perDay.value - row.d, 0) < Max(quota.perMinute - row.m, 0)
  }

  /** The counts held after the write-back outnumber those the row had counted, or the cap. */
  predicate Outnumbers(quota: Quota, held: nat, lease: nat, after: Row)
    requires lease <= after.m && lease <= after.d
  {
    var granted := Grant(quota, lease, after);
    granted >= 1 &&
    if DayTighter(quota, after) then held + granted - 1 > Min(after.d, quota.perDay.value)
    else held + granted - 1 > Min(after.m, quota.perMinute)
  }

  /** A write-back overstates what remains exactly when it adds to a lease more counts than its row accounts for. */
  lemma WriteBackExceedsExactly(quota: Quota, cached: Option<Lease>, now: int, lease: nat, after: Row)
    requires lease <= after.m && lease <= after.d
    ensures Exceeds(WriteBack(quota, cached, now, lease, after).1)
       <==> Outnumbers(quota, HeldFor(cached, FloorTo(now, MINUTE)), lease, after)
  {}

  /** An answer from memory overstates what remains exactly when what the lease last heard plus what it holds passes the cap it is asked about. */
  lemma MemoryExceedsExactly(tiers: Tiers, quota: Quota, s: Lease, now: int)
    requires tiers.Valid() && s.minute == FloorTo(now, MINUTE) && s.blockedUntil <= now && s.tokens > 0
    ensures var peek := Peek(tiers, quota, Some(s), now);
      var tight := quota.perDay.Some? && s.dayRemaining.Some? && s.dayRemaining.value < s.minuteRemaining;
      && peek.Decided?
      && (Exceeds(peek.decision) <==>
            if tight then s.dayRemaining.value + s.tokens > quota.perDay.value + 1
            else s.minuteRemaining + s.tokens > quota.perMinute + 1)
  {}

  /** The remaining counts a lease reports stay below the caps. */
  predicate Headroom(quota: Quota, s: Lease) {
    && s.minuteRemaining + s.tokens < quota.perMinute
    && (quota.perDay.Some? && s.dayRemaining.Some? ==> s.dayRemaining.value + s.tokens < quota.perDay.value)
  }

  /** A claim written back to a lease that holds nothing. */
  lemma ClaimLeavesRoom(quota: Quota, cached: Option<Lease>, now: int, lease: nat, after: Row)
    requires quota.Valid() && 1 <= lease <= after.m && lease <= after.d
    requires cached.Some? ==> cached.value.minute == FloorTo(now, MINUTE) && cached.value.tokens == 0
    ensures var (s, decision) := WriteBack(quota, cached, now, lease, after);
      Headroom(quota, s) && (decision.allowed ==> decision.remaining < decision.limit)
  {}

  /**
    Under one quota, when no other thread of the container comes between a claim and its write-back,
    every admission reports less than its limit, and the lease stays that way for the next check.
  */
  lemma SequentialHeadroom(tiers: Tiers, quota: Quota, cached: Option<Lease>, now: int, row: Row)
    requires tiers.Valid() && quota.Valid() && (cached.Some? ==> Headroom(quota, cached.value))
    ensures match Peek(tiers, quota, cached, now)
      case Decided(state, decision) =>
        state.Some? && Headroom(quota, state.value) && (decision.allowed ==> decision.remaining < decision.limit)
      case NeedsClaim(state, lease, _) =>
        forall path: Path :: Guard(path, row, FloorTo(now, MINUTE)) ==>
          var (s, decision) := WriteBack(quota, state, now, lease, Write(path, row, lease, FloorTo(now, MINUTE)));
          Headroom(quota, s) && (decision.allowed ==> decision.remaining < decision.limit)
  {
    var peek := Peek(tiers, quota, cached, now);
    if peek.NeedsClaim? {
      forall path: Path | Guard(path, row, FloorTo(now, MINUTE))
        ensures var (s, decision) := WriteBack(quota, peek.state, now, peek.lease, Write(path, row, peek.lease, FloorTo(now, MINUTE)));
          Headroom(quota, s) && (decision.allowed ==> decision.remaining < decision.limit)
      {
        ClaimLeavesRoom(quota, peek.state, now, peek.lease, Write(path, row, peek.lease, FloorTo(now, MINUTE)));
      }
    }
  }

  /**
    The one quota is needed: a lease in good order under one overstates what remains when the next
    check, though nothing came in between, asks about a smaller one.
  */
  lemma SmallerQuotaExceeds(tiers: Tiers, quota: Quota, smaller: Quota, s: Lease, now: int)
    requires tiers.Valid() && s.minute == FloorTo(now, MINUTE) && s.blockedUntil <= now && s.tokens > 0
    requires Headroom(quota, s) && quota.perDay.None? && smaller.perDay.None?
    ensures Exceeds(Peek(tiers, smaller, Some(s), now).decision) <==> smaller.perMinute + 1 < s.minuteRemaining + s.tokens
    ensures smaller.perMinute >= quota.perMinute ==> !Exceeds(Peek(tiers, smaller, Some(s), now).decision)
  {
    MemoryExceedsExactly(tiers, smaller, s, now);
  }

  // ---------------------------------------------------------------- runs that never overstate

  /** What a step tells its caller, if it ends a check. */
  function Report(c: Config, s: System, step: Step): Option<Decision>
    requires c.Valid() && Placed(s) && GrantFits(s) && Enabled(c, s, step)
  {
    match step
    case Begin(t, now, quota) =>
      var peek := Peek(c.tiers, quota, s.containers[s.threads[t].home].lease, now);
      if peek.Decided? then Some(peek.decision) else None
    case Finish(t) =>
      var p := s.threads[t].phase;
      Some(WriteBack(p.quota, s.containers[s.threads[t].home].lease, p.now, p.lease, p.after).1)
    case _ => None
  }

  predicate Waits(s: System, u: nat, h: nat) {
    u < |s.threads| && s.threads[u].home == h && s.threads[u].phase.Granted?
  }

  /** A container writes its claims back in the order the row was charged. */
  predicate WrittenInOrder(s: System, step: Step) {
    step.Finish? ==>
      var t := step.thread;
      t < |s.threads| && s.threads[t].phase.Granted? &&
      forall u :: 0 <= u < |s.threads| && Waits(s, u, s.threads[t].home) ==> s.threads[t].phase.after.d <= s.threads[u].phase.after.d
  }

  /** No claim is made for a minute behind the stored one. */
  predicate NotBehind(s: System, step: Step) {
    step.Attempt? ==>
      var t := step.thread;
      t < |s.threads| && s.threads[t].phase.Claiming? &&
      (s.row.w.Some? ==> s.row.w.value <= FloorTo(s.threads[t].phase.now, MINUTE))
  }

  /** The one quota, written back in the order of the charges. */
  predicate InChargeOrder(c: Config, s: System, step: Step) {
    Asks(step, c.quota) && WrittenInOrder(s, step)
  }

  predicate InOrder(c: Config, s: System, step: Step) {
    InChargeOrder(c, s, step) && NotBehind(s, step)
  }

  ghost predicate AllInOrder(c: Config, s: System, steps: seq<Step>)
    requires c.Valid() && Possible(c, s, steps)
    decreases |steps|
  {
    steps == [] || (InOrder(c, s, steps[0]) && AllInOrder(c, Next(c, s, steps[0]), steps[1..]))
  }

  /** A lease holds no more than the row has counted, and less than the caps leave. */
  predicate LeaseKept(c: Config, row: Row, lease: Option<Lease>) {
    lease.Some? ==>
      var s := lease.value;
      && Headroom(c.quota, s)
      && (s.tokens > 0 ==>
            && row.w.Some? && s.minute <= row.w.value && s.tokens <= row.d
            && (row.w.value == s.minute ==> s.tokens <= row.m))
  }

  /** A grant on its way was charged in its own minute, after everything its container's lease holds. */
  predicate GrantKept(s: System, t: nat)
    requires Placed(s) && t < |s.threads|
  {
    var p := s.threads[t].phase;
    p.Granted? ==>
      var minute := FloorTo(p.now, MINUTE);
      var held := HeldFor(s.containers[s.threads[t].home].lease, minute);
      p.after.w == Some(minute) && held + p.lease <= p.after.m && held + p.lease <= p.after.d
  }

  /** Of two grants on their way to one container, one was charged wholly after the other. */
  predicate Apart(s: System, t: nat, u: nat)
    requires t < |s.threads| && u < |s.threads|
  {
    var p, q := s.threads[t].phase, s.threads[u].phase;
    t != u && p.Granted? && q.Granted? ==>
      && p.after.d != q.after.d
      && (p.after.d < q.after.d ==>
            p.after.d + q.lease <= q.after.d && (p.after.w == q.after.w ==> p.after.m + q.lease <= q.after.m))
  }

  ghost predicate Orderly(c: Config, s: System) {
    && Inv(c, s)
    && (forall k :: 0 <= k < |s.containers| ==> LeaseKept(c, s.row, s.containers[k].lease))
    && (forall t :: 0 <= t < |s.threads| ==> PhaseOf(s.threads[t].phase, c.quota))
    && (forall t :: 0 <= t < |s.threads| ==> GrantKept(s, t))
    && (forall t, u :: 0 <= t < |s.threads| && 0 <= u < |s.threads| ==> Apart(s, t, u))
  }

  lemma LeaseLater(c: Config, a: Row, b: Row, lease: Option<Lease>)
    requires LeaseKept(c, a, lease) && Advances(a, b)
    ensures LeaseKept(c, b, lease)
  {}

  // ---------------------------------------------------------------- a check that ends in memory, or starts a claim

  lemma PeekKeeps(c: Config, row: Row, cached: Option<Lease>, now: int)
    requires c.Valid() && LeaseKept(c, row, cached)
    ensures var peek := Peek(c.tiers, c.quota, cached, now);
      && LeaseKept(c, row, peek.state)
      && (forall minute: int :: HeldFor(peek.state, minute) <= HeldFor(cached, minute))
      && (peek.Decided? && peek.decision.allowed ==> peek.decision.remaining < peek.decision.limit)
  {}

  /** Two grants stay apart where a step leaves each as it was, or ends it. */
  lemma ApartStays(s: System, s': System, u: nat, v: nat)
    requires u < |s.threads| == |s'.threads| && v < |s.threads| && Apart(s, u, v)
    requires s'.threads[u].phase.Granted? ==> s'.threads[u] == s.threads[u]
    requires s'.threads[v].phase.Granted? ==> s'.threads[v] == s.threads[v]
    ensures Apart(s', u, v)
  {}

  /** And a grant is kept where its container comes to hold no more. */
  lemma GrantStays(s: System, s': System, u: nat)
    requires Placed(s) && Placed(s') && u < |s.threads| == |s'.threads| && |s'.containers| == |s.containers| && GrantKept(s, u)
    requires s'.threads[u].phase.Granted? ==> s'.threads[u] == s.threads[u]
    requires var h := s.threads[u].home;
      forall minute: int :: HeldFor(s'.containers[h].lease, minute) <= HeldFor(s.containers[h].lease, minute)
    ensures GrantKept(s', u)
  {}

  /** Where no grant is new and no container holds more, the order stays. */
  lemma GrantsStay(s: System, s': System)
    requires Placed(s) && Placed(s') && |s.threads| == |s'.threads| && |s'.containers| == |s.containers|
    requires forall u :: 0 <= u < |s.threads| ==> GrantKept(s, u)
    requires forall u, v :: 0 <= u < |s.threads| && 0 <= v < |s.threads| ==> Apart(s, u, v)
    requires forall u :: 0 <= u < |s.threads| && s'.threads[u].phase.Granted? ==> s'.threads[u] == s.threads[u]
    requires forall k, minute: int :: 0 <= k < |s.containers| ==>
      HeldFor(s'.containers[k].lease, minute) <= HeldFor(s.containers[k].lease, minute)
    ensures forall u :: 0 <= u < |s'.threads| ==> GrantKept(s', u)
    ensures forall u, v :: 0 <= u < |s'.threads| && 0 <= v < |s'.threads| ==> Apart(s', u, v)
  {
    forall u | 0 <= u < |s'.threads| ensures GrantKept(s', u) { GrantStays(s, s', u); }
    forall u, v | 0 <= u < |s'.threads| && 0 <= v < |s'.threads| ensures Apart(s', u, v) { ApartStays(s, s', u, v); }
  }

  lemma BeginOrderly(c: Config, s: System, t: nat, now: int)
    requires c.Valid() && Orderly(c, s) && Enabled(c, s, Begin(t, now, c.quota))
    ensures Orderly(c, Next(c, s, Begin(t, now, c.quota)))
    ensures var r := Report(c, s, Begin(t, now, c.quota)); r.Some? && r.value.allowed ==> r.value.remaining < r.value.limit
  {
    NextKeeps(c, s, Begin(t, now, c.quota));
    var s' := Next(c, s, Begin(t, now, c.quota));
    PeekKeeps(c, s.row, s.containers[s.threads[t].home].lease, now);
    BeginTouches(c, s, t, now);
    forall k | 0 <= k < |s'.containers| ensures LeaseKept(c, s'.row, s'.containers[k].lease) {
      assert LeaseKept(c, s.row, s.containers[k].lease);
    }
    GrantsStay(s, s');
  }

  /** All a first phase can change: one thread's phase, not to a grant, and its container's lease. */
  lemma BeginTouches(c: Config, s: System, t: nat, now: int)
    requires c.Valid() && Inv(c, s) && Enabled(c, s, Begin(t, now, c.quota))
    ensures var s' := Next(c, s, Begin(t, now, c.quota)); var h := s.threads[t].home;
      && s'.row == s.row && |s'.threads| == |s.threads| && |s'.containers| == |s.containers|
      && (forall u :: 0 <= u < |s.threads| && u != t ==> s'.threads[u] == s.threads[u])
      && s'.threads[t].home == h && !s'.threads[t].phase.Granted?
      && (forall k :: 0 <= k < |s.containers| && k != h ==> s'.containers[k] == s.containers[k])
      && s'.containers[h].lease == Peek(c.tiers, c.quota, s.containers[h].lease, now).state
  {
    assert TokensMatch(s.containers[s.threads[t].home]);
  }

  // ---------------------------------------------------------------- an attempt

  lemma AttemptOrderly(c: Config, s: System, t: nat)
    requires c.Valid() && Orderly(c, s) && Enabled(c, s, Attempt(t)) && InOrder(c, s, Attempt(t))
    ensures Orderly(c, Next(c, s, Attempt(t)))
  {
    NextKeeps(c, s, Attempt(t));
    RowAdvances(c, s, Attempt(t));
    var s' := Next(c, s, Attempt(t));
    forall k | 0 <= k < |s'.containers| ensures LeaseKept(c, s'.row, s'.containers[k].lease) {
      assert LeaseKept(c, s.row, s.containers[k].lease);
      LeaseLater(c, s.row, s'.row, s.containers[k].lease);
    }
    forall u | 0 <= u < |s'.threads| ensures GrantKept(s', u) {
      if u == t { NewGrantKept(c, s, t); } else { assert GrantKept(s, u); }
    }
    AttemptApart(c, s, t);
  }

  lemma AttemptApart(c: Config, s: System, t: nat)
    requires c.Valid() && Orderly(c, s) && Enabled(c, s, Attempt(t)) && InOrder(c, s, Attempt(t))
    ensures var s' := Next(c, s, Attempt(t)); forall u, v :: 0 <= u < |s'.threads| && 0 <= v < |s'.threads| ==> Apart(s', u, v)
  {
    var s' := Next(c, s, Attempt(t));
    forall u, v | 0 <= u < |s'.threads| && 0 <= v < |s'.threads| ensures Apart(s', u, v) {
      if u == t && v != t {
        NewGrantApart(c, s, t, v);
      } else if v == t && u != t {
        NewGrantApart(c, s, t, u);
      } else {
        assert Apart(s, u, v);
      }
    }
  }

  lemma NewGrantKept(c: Config, s: System, t: nat)
    requires c.Valid() && Orderly(c, s) && Enabled(c, s, Attempt(t)) && InOrder(c, s, Attempt(t))
    ensures GrantKept(Next(c, s, Attempt(t)), t)
  {
    assert PhaseOk(c, s.row, s.threads[t].phase);
    assert LeaseKept(c, s.row, s.containers[s.threads[t].home].lease);
  }

  lemma NewGrantApart(c: Config, s: System, t: nat, u: nat)
    requires c.Valid() && Orderly(c, s) && Enabled(c, s, Attempt(t)) && InOrder(c, s, Attempt(t))
    requires u < |s.threads| && u != t
    ensures Apart(Next(c, s, Attempt(t)), t, u) && Apart(Next(c, s, Attempt(t)), u, t)
  {
    assert PhaseOk(c, s.row, s.threads[u].phase) && PhaseOk(c, s.row, s.threads[t].phase);
    assert GrantKept(s, u);
  }

  // ---------------------------------------------------------------- a write-back

  /** A write-back in order leaves headroom, and holds less than its row had counted. */
  lemma SettleKeeps(c: Config, cached: Option<Lease>, now: int, lease: nat, after: Row)
    requires c.Valid() && 1 <= lease <= after.m && lease <= after.d
    requires HeldFor(cached, FloorTo(now, MINUTE)) + lease <= after.m
    requires HeldFor(cached, FloorTo(now, MINUTE)) + lease <= after.d
    ensures var (s, d) := WriteBack(c.quota, cached, now, lease, after);
      && Headroom(c.quota, s) && s.minute == FloorTo(now, MINUTE)
      && s.tokens < after.m && s.tokens < after.d
      && (d.allowed ==> d.remaining < d.limit)
  {}

  lemma FinishTouches(c: Config, s: System, t: nat)
    requires c.Valid() && Inv(c, s) && Enabled(c, s, Finish(t))
    ensures var s' := Next(c, s, Finish(t)); var h := s.threads[t].home; var p := s.threads[t].phase;
      && s'.row == s.row && |s'.threads| == |s.threads| && |s'.containers| == |s.containers|
      && (forall u :: 0 <= u < |s.threads| && u != t ==> s'.threads[u] == s.threads[u])
      && s'.threads[t] == Thread(h, Idle)
      && (forall k :: 0 <= k < |s.containers| && k != h ==> s'.containers[k] == s.containers[k])
      && s'.containers[h].lease == Some(WriteBack(p.quota, s.containers[h].lease, p.now, p.lease, p.after).0)
  {}

  /** In order, what the container then holds is less than its row had counted. */
  lemma FinishLeaves(c: Config, s: System, t: nat)
    requires c.Valid() && Orderly(c, s) && Enabled(c, s, Finish(t))
    ensures LeaseKept(c, s.row, Next(c, s, Finish(t)).containers[s.threads[t].home].lease)
    ensures var r := Report(c, s, Finish(t)).value; r.allowed ==> r.remaining < r.limit
  {
    var h, p := s.threads[t].home, s.threads[t].phase;
    assert PhaseOk(c, s.row, p) && GrantKept(s, t) && PhaseOf(p, c.quota);
    SettleKeeps(c, s.containers[h].lease, p.now, p.lease, p.after);
    FinishTouches(c, s, t);
  }

  lemma FinishOrderly(c: Config, s: System, t: nat)
    requires c.Valid() && Orderly(c, s) && Enabled(c, s, Finish(t)) && InOrder(c, s, Finish(t))
    ensures Orderly(c, Next(c, s, Finish(t)))
    ensures var r := Report(c, s, Finish(t)).value; r.allowed ==> r.remaining < r.limit
  {
    NextKeeps(c, s, Finish(t));
    FinishLeaves(c, s, t);
    FinishTouches(c, s, t);
    var s' := Next(c, s, Finish(t));
    forall k | 0 <= k < |s'.containers| ensures LeaseKept(c, s'.row, s'.containers[k].lease) {
      assert LeaseKept(c, s.row, s.containers[k].lease);
    }
    forall u | 0 <= u < |s'.threads| ensures GrantKept(s', u) {
      if u != t { LaterGrantKept(c, s, t, u); }
    }
    FinishApart(c, s, t);
  }

  lemma FinishApart(c: Config, s: System, t: nat)
    requires c.Valid() && Orderly(c, s) && Enabled(c, s, Finish(t))
    ensures var s' := Next(c, s, Finish(t)); forall u, v :: 0 <= u < |s'.threads| && 0 <= v < |s'.threads| ==> Apart(s', u, v)
  {
    var s' := Next(c, s, Finish(t));
    FinishTouches(c, s, t);
    forall u, v | 0 <= u < |s'.threads| && 0 <= v < |s'.threads| ensures Apart(s', u, v) { ApartStays(s, s', u, v); }
  }

  lemma LaterGrantKept(c: Config, s: System, t: nat, u: nat)
    requires c.Valid() && Orderly(c, s) && Enabled(c, s, Finish(t)) && InOrder(c, s, Finish(t))
    requires u < |s.threads| && u != t
    ensures GrantKept(Next(c, s, Finish(t)), u)
  {
    var h, p := s.threads[t].home, s.threads[t].phase;
    assert PhaseOk(c, s.row, p) && GrantKept(s, t) && GrantKept(s, u) && Apart(s, t, u);
    SettleKeeps(c, s.containers[h].lease, p.now, p.lease, p.after);
    FinishTouches(c, s, t);
    if s.threads[u].home == h && s.threads[u].phase.Granted? { assert Waits(s, u, h); }
  }

  // ---------------------------------------------------------------- whole runs

  /** An eviction or a failure ends a check or empties a container, and touches nothing else. */
  lemma EndTouches(c: Config, s: System, step: Step)
    requires c.Valid() && Placed(s) && GrantFits(s) && Enabled(c, s, step) && (step.FailOpen? || step.Evict?)
    ensures var s' := Next(c, s, step);
      && |s'.threads| == |s.threads| && |s'.containers| == |s.containers|
      && (forall k :: 0 <= k < |s.containers| ==> s'.containers[k].lease == s.containers[k].lease || s'.containers[k].lease.None?)
      && (forall v :: 0 <= v < |s.threads| ==> s'.threads[v] == s.threads[v] || s'.threads[v] == Thread(s.threads[v].home, Idle))
  {}

  lemma OtherOrderly(c: Config, s: System, step: Step)
    requires c.Valid() && Orderly(c, s) && Enabled(c, s, step) && (step.FailOpen? || step.Evict?)
    ensures Orderly(c, Next(c, s, step))
  {
    NextKeeps(c, s, step);
    RowAdvances(c, s, step);
    EndTouches(c, s, step);
    var s' := Next(c, s, step);
    forall k | 0 <= k < |s'.containers| ensures LeaseKept(c, s'.row, s'.containers[k].lease) {
      assert LeaseKept(c, s.row, s.containers[k].lease);
      LeaseLater(c, s.row, s'.row, s.containers[k].lease);
    }
    GrantsStay(s, s');
  }

  lemma StepOrderly(c: Config, s: System, step: Step)
    requires c.Valid() && Orderly(c, s) && Enabled(c, s, step) && InOrder(c, s, step)
    ensures Orderly(c, Next(c, s, step))
    ensures var r := Report(c, s, step); r.Some? && r.value.allowed ==> r.value.remaining < r.value.limit
  {
    match step
    case Begin(t, now, _) => BeginOrderly(c, s, t, now);
    case Attempt(t) => AttemptOrderly(c, s, t);
    case Finish(t) => FinishOrderly(c, s, t);
    case _ => OtherOrderly(c, s, step);
  }

  lemma {:induction false} RunOrderly(c: Config, s: System, steps: seq<Step>)
    requires c.Valid() && Orderly(c, s) && Possible(c, s, steps) && AllInOrder(c, s, steps)
    ensures Orderly(c, Run(c, s, steps))
    decreases |steps|
  {
    if steps != [] {
      StepOrderly(c, s, steps[0]);
      RunOrderly(c, Next(c, s, steps[0]), steps[1..]);
    }
  }

  /**
    Over any run of any containers and threads under one quota that writes claims back in the order
    they were charged, and makes none behind the stored minute, every admission reports less than its limit.
  */
  lemma OrderedNeverExceeds(c: Config, s0: System, steps: seq<Step>, step: Step)
    requires c.Valid() && Init(s0) && Possible(c, s0, steps) && AllInOrder(c, s0, steps)
    requires var s := Run(c, s0, steps); Placed(s) && GrantFits(s) && Enabled(c, s, step) && InOrder(c, s, step)
    ensures var r := Report(c, Run(c, s0, steps), step); r.Some? && r.value.allowed ==> r.value.remaining < r.value.limit
  {
    InitInv(c, s0);
    RunOrderly(c, s0, steps);
    StepOrderly(c, Run(c, s0, steps), step);
  }

  // ---------------------------------------------------------------- one check at a time

  predicate Underway(p: Phase) {
    p.Claiming? || p.Granted?
  }

  /** A check only starts when no other of its container is under way, and brings the one quota. */
  predicate TakesTurns(c: Config, s: System, step: Step) {
    && Asks(step, c.quota)
    && (step.Begin? ==>
          step.thread < |s.threads| &&
          forall u :: 0 <= u < |s.threads| && s.threads[u].home == s.threads[step.thread].home ==> !Underway(s.threads[u].phase))
  }

  ghost predicate AllTakeTurns(c: Config, s: System, steps: seq<Step>)
    requires c.Valid() && Possible(c, s, steps)
    decreases |steps|
  {
    steps == [] || (TakesTurns(c, s, steps[0]) && AllTakeTurns(c, Next(c, s, steps[0]), steps[1..]))
  }

  predicate LeaseRoom(quota: Quota, lease: Option<Lease>) {
    lease.Some? ==> Headroom(quota, lease.value)
  }

  /** A check under way has its container to itself, and the container holds nothing. */
  predicate HasTurn(s: System, t: nat)
    requires Placed(s) && t < |s.threads|
  {
    Underway(s.threads[t].phase) ==>
      var h := s.threads[t].home;
      && (s.containers[h].lease.Some? ==> s.containers[h].lease.value.tokens == 0)
      && forall u :: 0 <= u < |s.threads| && u != t && s.threads[u].home == h ==> !Underway(s.threads[u].phase)
  }

  ghost predicate Turns(c: Config, s: System) {
    && Inv(c, s)
    && (forall k :: 0 <= k < |s.containers| ==> LeaseRoom(c.quota, s.containers[k].lease))
    && (forall t :: 0 <= t < |s.threads| ==> PhaseOf(s.threads[t].phase, c.quota))
    && (forall t :: 0 <= t < |s.threads| ==> HasTurn(s, t))
  }

  lemma PeekRoom(c: Config, cached: Option<Lease>, now: int)
    requires c.Valid() && LeaseRoom(c.quota, cached)
    ensures var peek := Peek(c.tiers, c.quota, cached, now);
      && LeaseRoom(c.quota, peek.state)
      && (peek.NeedsClaim? && peek.state.Some? ==> peek.state.value.tokens == 0)
      && (peek.Decided? && peek.decision.allowed ==> peek.decision.remaining < peek.decision.limit)
  {}

  lemma BeginTurn(c: Config, s: System, t: nat, now: int)
    requires c.Valid() && Turns(c, s) && Enabled(c, s, Begin(t, now, c.quota)) && TakesTurns(c, s, Begin(t, now, c.quota))
    ensures Turns(c, Next(c, s, Begin(t, now, c.quota)))
    ensures var r := Report(c, s, Begin(t, now, c.quota)); r.Some? && r.value.allowed ==> r.value.remaining < r.value.limit
  {
    var step := Begin(t, now, c.quota);
    NextKeeps(c, s, step);
    var s' := Next(c, s, step);
    PeekRoom(c, s.containers[s.threads[t].home].lease, now);
    BeginTouches(c, s, t, now);
    forall u | 0 <= u < |s'.threads| ensures PhaseOf(s'.threads[u].phase, c.quota) { assert PhaseOf(s.threads[u].phase, c.quota); }
    forall u | 0 <= u < |s'.threads| ensures HasTurn(s', u) { assert HasTurn(s, u); }
  }

  /** In its turn a write-back finds nothing held, and leaves room. */
  lemma FinishRoom(c: Config, s: System, t: nat)
    requires c.Valid() && Turns(c, s) && Enabled(c, s, Finish(t))
    ensures LeaseRoom(c.quota, Next(c, s, Finish(t)).containers[s.threads[t].home].lease)
    ensures var r := Report(c, s, Finish(t)).value; r.allowed ==> r.remaining < r.limit
  {
    var h, p := s.threads[t].home, s.threads[t].phase;
    assert PhaseOk(c, s.row, p) && HasTurn(s, t) && PhaseOf(p, c.quota);
    SettleKeeps(c, s.containers[h].lease, p.now, p.lease, p.after);
    FinishTouches(c, s, t);
  }

  /** Where a step leaves a check under way, or its container empty, it has its turn. */
  lemma TurnStays(s: System, s': System, u: nat)
    requires Placed(s) && Placed(s') && u < |s.threads| == |s'.threads| && |s'.containers| == |s.containers| && HasTurn(s, u)
    requires forall v :: 0 <= v < |s.threads| ==> s'.threads[v].home == s.threads[v].home
    requires forall v :: 0 <= v < |s.threads| && Underway(s'.threads[v].phase) ==> Underway(s.threads[v].phase)
    requires var h := s.threads[u].home;
      Underway(s'.threads[u].phase) ==> s'.containers[h] == s.containers[h] || s'.containers[h].lease.None?
    ensures HasTurn(s', u)
  {}

  lemma FinishTurn(c: Config, s: System, t: nat)
    requires c.Valid() && Turns(c, s) && Enabled(c, s, Finish(t))
    ensures Turns(c, Next(c, s, Finish(t)))
    ensures var r := Report(c, s, Finish(t)).value; r.allowed ==> r.remaining < r.limit
  {
    NextKeeps(c, s, Finish(t));
    FinishRoom(c, s, t);
    FinishTouches(c, s, t);
    var s' := Next(c, s, Finish(t));
    forall u | 0 <= u < |s'.threads| ensures PhaseOf(s'.threads[u].phase, c.quota) { assert PhaseOf(s.threads[u].phase, c.quota); }
    forall u | 0 <= u < |s'.threads| ensures HasTurn(s', u) {
      assert HasTurn(s, u) && HasTurn(s, t);
      TurnStays(s, s', u);
    }
  }

  lemma OtherTouches(c: Config, s: System, step: Step)
    requires c.Valid() && Placed(s) && GrantFits(s) && Enabled(c, s, step) && !step.Begin? && !step.Finish?
    ensures var s' := Next(c, s, step);
      && |s'.threads| == |s.threads| && |s'.containers| == |s.containers|
      && (forall k :: 0 <= k < |s.containers| ==> s'.containers[k] == s.containers[k] || s'.containers[k].lease.None?)
      && (forall v :: 0 <= v < |s.threads| ==> s'.threads[v].home == s.threads[v].home)
      && (forall v :: 0 <= v < |s.threads| && Underway(s'.threads[v].phase) ==> Underway(s.threads[v].phase))
  {}

  lemma OtherAsks(c: Config, s: System, step: Step, u: nat)
    requires c.Valid() && Placed(s) && GrantFits(s) && Enabled(c, s, step) && !step.Begin? && !step.Finish?
    requires u < |s.threads| && PhaseOf(s.threads[u].phase, c.quota)
    ensures PhaseOf(Next(c, s, step).threads[u].phase, c.quota)
  {}

  lemma OtherTurn(c: Config, s: System, step: Step)
    requires c.Valid() && Turns(c, s) && Enabled(c, s, step) && !step.Begin? && !step.Finish?
    ensures Turns(c, Next(c, s, step))
  {
    NextKeeps(c, s, step);
    OtherTouches(c, s, step);
    var s' := Next(c, s, step);
    forall u | 0 <= u < |s'.threads| ensures PhaseOf(s'.threads[u].phase, c.quota) { OtherAsks(c, s, step, u); }
    forall u | 0 <= u < |s'.threads| ensures HasTurn(s', u) { TurnStays(s, s', u); }
  }

  lemma StepTurn(c: Config, s: System, step: Step)
    requires c.Valid() && Turns(c, s) && Enabled(c, s, step) && TakesTurns(c, s, step)
    ensures Turns(c, Next(c, s, step))
    ensures var r := Report(c, s, step); r.Some? && r.value.allowed ==> r.value.remaining < r.value.limit
  {
    match step
    case Begin(t, now, _) => BeginTurn(c, s, t, now);
    case Finish(t) => FinishTurn(c, s, t);
    case _ => OtherTurn(c, s, step);
  }

  lemma {:induction false} RunTurns(c: Config, s: System, steps: seq<Step>)
    requires c.Valid() && Turns(c, s) && Possible(c, s, steps) && AllTakeTurns(c, s, steps)
    ensures Turns(c, Run(c, s, steps))
    decreases |steps|
  {
    if steps != [] {
      StepTurn(c, s, steps[0]);
      RunTurns(c, Next(c, s, steps[0]), steps[1..]);
    }
  }

  /**
    Over any run under one quota in which no container has two checks under way, whatever the clocks
    and the other containers do, every admission reports less than its limit.
  */
  lemma TurnsNeverExceed(c: Config, s0: System, steps: seq<Step>, step: Step)
    requires c.Valid() && Init(s0) && Possible(c, s0, steps) && AllTakeTurns(c, s0, steps)
    requires var s := Run(c, s0, steps); Placed(s) && GrantFits(s) && Enabled(c, s, step) && TakesTurns(c, s, step)
    ensures var r := Report(c, Run(c, s0, steps), step); r.Some? && r.value.allowed ==> r.value.remaining < r.value.limit
  {
    InitInv(c, s0);
    RunTurns(c, s0, steps);
    StepTurn(c, Run(c, s0, steps), step);
  }
}
