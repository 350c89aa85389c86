/** How long a refusal lasts, how large a lease gets, and what a lease remembers of its own traffic. */
module LeaseBlocks {
  import opened Options
  import opened TieredLease
  import opened LeaseAnswers
  import opened LeaseProtocol
  import opened LeaseSafety
  import opened TieredLimiter

  // ---------------------------------------------------------------- one container's checks of one key

  /** A check with nobody in between, and the row as it finds it. */
  datatype Visit = Visit(now: int, quota: Quota, row: Row)

  function Answer(tiers: Tiers, lease: Option<Lease>, v: Visit): Result
    requires tiers.Valid()
  {
    var peek := Peek(tiers, v.quota, lease, v.now);
    ResultOf(peek, v.quota, v.now, v.row, v.row, peek.state)
  }

  function LeaseAfter(tiers: Tiers, lease: Option<Lease>, vs: seq<Visit>): Option<Lease>
    requires tiers.Valid()
  {
    if vs == [] then lease else Answer(tiers, LeaseAfter(tiers, lease, vs[..|vs| - 1]), vs[|vs| - 1]).lease
  }

  predicate AllBefore(vs: seq<Visit>, end: int) {
    forall i :: 0 <= i < |vs| ==> vs[i].now < end
  }

  predicate SameBlock(a: Lease, b: Option<Lease>) {
    && b.Some? && b.value.blockedUntil == a.blockedUntil && b.value.blockedLimit == a.blockedLimit
    && b.value.blockedWindow == a.blockedWindow && (a.tokens == 0 ==> b.value.tokens == 0)
  }

  lemma {:induction false} StaysBlocked(tiers: Tiers, lease: Lease, vs: seq<Visit>)
    requires tiers.Valid() && AllBefore(vs, lease.blockedUntil)
    ensures SameBlock(lease, LeaseAfter(tiers, Some(lease), vs))
  {
    if vs != [] {
      StaysBlocked(tiers, lease, vs[..|vs| - 1]);
      MemoryAnswered(tiers, vs[|vs| - 1].quota, LeaseAfter(tiers, Some(lease), vs[..|vs| - 1]), vs[|vs| - 1].now);
    }
  }

  /**
    A refused claim stays refused for exactly as long as it said. After it, and after any other checks made
    before then, a check before then is refused for the same limit with the time that is left, and leaves
    the row alone, whatever quota it brings and whatever the row holds by then. A check at that moment or
    later is not answered from memory.
  */
  lemma BlockLasts(tiers: Tiers, lease: Option<Lease>, refused: Visit, vs: seq<Visit>, v: Visit)
    requires tiers.Valid() && Peek(tiers, refused.quota, lease, refused.now).NeedsClaim?
    requires !Answer(tiers, lease, refused).decision.allowed
    requires AllBefore(vs, refused.now + Answer(tiers, lease, refused).decision.resetAfter)
    ensures var d := Answer(tiers, lease, refused).decision;
      var later := LeaseAfter(tiers, Answer(tiers, lease, refused).lease, vs);
      var end := refused.now + d.resetAfter;
      && end == (if DaySpent(refused.quota, refused.row) then FloorTo(refused.now, DAY) + DAY else FloorTo(refused.now, MINUTE) + MINUTE)
      && if v.now < end then
           && Answer(tiers, later, v).decision == Decision(false, d.limit, 0, end - v.now, d.window, false)
           && Answer(tiers, later, v).row == v.row
         else
           Peek(tiers, v.quota, later, v.now).NeedsClaim?
  {
    var d := Answer(tiers, lease, refused).decision;
    var s := Answer(tiers, lease, refused).lease.value;
    ClaimRefusalEnds(tiers, lease, refused);
    StaysBlocked(tiers, s, vs);
    MemoryAnswered(tiers, v.quota, LeaseAfter(tiers, Some(s), vs), v.now);
  }

  lemma ClaimRefusalEnds(tiers: Tiers, lease: Option<Lease>, v: Visit)
    requires tiers.Valid() && Peek(tiers, v.quota, lease, v.now).NeedsClaim?
    requires !Answer(tiers, lease, v).decision.allowed
    ensures var r := Answer(tiers, lease, v); var s := r.lease.value;
      && r.lease.Some? && s.tokens == 0 && s.blockedUntil == v.now + r.decision.resetAfter
      && s.blockedLimit == r.decision.limit && s.blockedWindow == r.decision.window
      && s.blockedUntil == if DaySpent(v.quota, v.row) then FloorTo(v.now, DAY) + DAY else FloorTo(v.now, MINUTE) + MINUTE
  {
    var peek := Peek(tiers, v.quota, lease, v.now);
    var r := Answer(tiers, lease, v);
    GrantIsMost(v.quota, v.row, v.now, peek.lease, r.row);
  }

  // ---------------------------------------------------------------- traffic

  /** The clock's minute never goes back. */
  predicate MinutesGrow(vs: seq<Visit>) {
    forall i, j :: 0 <= i <= j < |vs| ==> FloorTo(vs[i].now, MINUTE) <= FloorTo(vs[j].now, MINUTE)
  }

  /** How many checks of a minute went past the block, each a request let through or a claim made. */
  function Handled(tiers: Tiers, vs: seq<Visit>, minute: int): nat
    requires tiers.Valid()
  {
    if vs == [] then 0 else
    var n := |vs| - 1;
    Handled(tiers, vs[..n], minute)
    + if FloorTo(vs[n].now, MINUTE) == minute && !Blocked(LeaseAfter(tiers, None, vs[..n]), vs[n].now) then 1 else 0
  }

  lemma {:induction false} HandledLater(tiers: Tiers, vs: seq<Visit>, minute: int)
    requires tiers.Valid() && forall i :: 0 <= i < |vs| ==> FloorTo(vs[i].now, MINUTE) < minute
    ensures Handled(tiers, vs, minute) == 0
  {
    if vs != [] { HandledLater(tiers, vs[..|vs| - 1], minute); }
  }

  /** What one check makes of a lease's counts of its own traffic. */
  predicate Rolled(before: Option<Lease>, after: Option<Lease>, minute: int, handled: nat) {
    && after.Some? && after.value.minute == minute
    && after.value.served == (if before.Some? && before.value.minute == minute then before.value.served else 0) + handled
    && after.value.previousServed ==
         if before.None? then 0 else if before.value.minute == minute then before.value.previousServed
         else if before.value.minute == minute - MINUTE then before.value.served else 0
  }

  lemma VisitRolls(tiers: Tiers, lease: Option<Lease>, v: Visit)
    requires tiers.Valid()
    ensures Rolled(lease, Answer(tiers, lease, v).lease, FloorTo(v.now, MINUTE), if Blocked(lease, v.now) then 0 else 1)
  {}

  /** Minutes follow each other at least a minute apart. */
  lemma MinutesApart(a: int, b: int)
    requires FloorTo(a, MINUTE) < FloorTo(b, MINUTE)
    ensures FloorTo(a, MINUTE) <= FloorTo(b, MINUTE) - MINUTE
  {}

  /** The counts a lease holds of its own traffic. */
  predicate Remembers(tiers: Tiers, lease: Option<Lease>, vs: seq<Visit>, minute: int)
    requires tiers.Valid()
  {
    && lease.Some? && lease.value.minute == minute
    && lease.value.served == Handled(tiers, vs, minute)
    && lease.value.previousServed == Handled(tiers, vs, minute - MINUTE)
  }

  lemma RememberNext(tiers: Tiers, front: seq<Visit>, v: Visit, last: int)
    requires tiers.Valid() && Remembers(tiers, LeaseAfter(tiers, None, front), front, last)
    requires last == FloorTo(v.now, MINUTE) || last <= FloorTo(v.now, MINUTE) - MINUTE
    requires last < FloorTo(v.now, MINUTE) ==> Handled(tiers, front, FloorTo(v.now, MINUTE)) == 0
    requires last < FloorTo(v.now, MINUTE) - MINUTE ==> Handled(tiers, front, FloorTo(v.now, MINUTE) - MINUTE) == 0
    ensures Remembers(tiers, LeaseAfter(tiers, None, front + [v]), front + [v], FloorTo(v.now, MINUTE))
  {
    assert (front + [v])[..|front|] == front;
    VisitRolls(tiers, LeaseAfter(tiers, None, front), v);
  }

  /** A lease remembers exactly the checks it let past a block in its own minute and in the one before. */
  lemma {:induction false} TrafficRemembered(tiers: Tiers, vs: seq<Visit>)
    requires tiers.Valid() && MinutesGrow(vs) && vs != []
    ensures Remembers(tiers, LeaseAfter(tiers, None, vs), vs, FloorTo(vs[|vs| - 1].now, MINUTE))
  {
    var n := |vs| - 1;
    var minute := FloorTo(vs[n].now, MINUTE);
    if n == 0 {
      VisitRolls(tiers, None, vs[0]);
      assert vs[..0] == [];
    } else {
      var last := FloorTo(vs[n - 1].now, MINUTE);
      TrafficRemembered(tiers, vs[..n]);
      if last < minute {
        MinutesApart(vs[n - 1].now, vs[n].now);
        HandledLater(tiers, vs[..n], minute);
      }
      if last < minute - MINUTE { HandledLater(tiers, vs[..n], minute - MINUTE); }
      assert vs == vs[..n] + [vs[n]];
      RememberNext(tiers, vs[..n], vs[n], last);
    }
  }

  // ---------------------------------------------------------------- blocks over every run

  /** A block ends where its window does; a day's ends with the day. */
  predicate BlockEnds(c: Config, lease: Option<Lease>) {
    lease.Some? && lease.value.blockedUntil != 0 ==>
      var s := lease.value;
      if s.blockedWindow == DAY then s.blockedUntil == c.day + DAY
      else s.blockedWindow == MINUTE && s.blockedUntil % MINUTE == 0
  }

  ghost predicate BlocksEnd(c: Config, s: System) {
    && (forall k :: 0 <= k < |s.containers| ==> BlockEnds(c, s.containers[k].lease))
    && (forall t :: 0 <= t < |s.threads| ==> match s.threads[t].phase
          case Claiming(now, _, _, _, _) => FloorTo(now, DAY) == c.day
          case Granted(now, _, _, _, _) => FloorTo(now, DAY) == c.day
          case _ => true)
  }

  lemma PeekEnds(c: Config, quota: Quota, cached: Option<Lease>, now: int)
    requires c.Valid() && BlockEnds(c, cached)
    ensures BlockEnds(c, Peek(c.tiers, quota, cached, now).state)
  {}

  lemma WriteBackEnds(c: Config, quota: Quota, cached: Option<Lease>, now: int, lease: nat, after: Row)
    requires c.Valid() && BlockEnds(c, cached) && FloorTo(now, DAY) == c.day && lease <= after.m && lease <= after.d
    ensures BlockEnds(c, Some(WriteBack(quota, cached, now, lease, after).0))
  {
    FloorAligned(now);
  }

  lemma BeginEnds(c: Config, s: System, t: nat, now: int, quota: Quota)
    requires c.Valid() && Placed(s) && Enabled(c, s, Begin(t, now, quota)) && BlocksEnd(c, s)
    ensures BlocksEnd(c, DoBegin(c, s, t, now, quota))
  {
    PeekEnds(c, quota, s.containers[s.threads[t].home].lease, now);
  }

  lemma FinishEnds(c: Config, s: System, t: nat)
    requires c.Valid() && Placed(s) && GrantFits(s) && Enabled(c, s, Finish(t)) && BlocksEnd(c, s)
    ensures BlocksEnd(c, DoFinish(c, s, t))
  {
    var p := s.threads[t].phase;
    WriteBackEnds(c, p.quota, s.containers[s.threads[t].home].lease, p.now, p.lease, p.after);
  }

  lemma StepEnds(c: Config, s: System, step: Step)
    requires c.Valid() && Placed(s) && GrantFits(s) && Enabled(c, s, step) && BlocksEnd(c, s)
    ensures BlocksEnd(c, Next(c, s, step))
  {
    match step
    case Begin(t, now, quota) => BeginEnds(c, s, t, now, quota);
    case Attempt(t) =>
    case Finish(t) => FinishEnds(c, s, t);
    case FailOpen(t, applied) =>
    case Evict(k) =>
  }

  lemma {:induction false} RunEnds(c: Config, s: System, steps: seq<Step>)
    requires c.Valid() && Possible(c, s, steps) && BlocksEnd(c, s)
    ensures BlocksEnd(c, Run(c, s, steps))
    decreases |steps|
  {
    if steps != [] {
      StepEnds(c, s, steps[0]);
      RunEnds(c, Next(c, s, steps[0]), steps[1..]);
    }
  }

  /** A lease whose block ends right answers right. */
  lemma BlockedAnswer(c: Config, cached: Option<Lease>, now: int, quota: Quota)
    requires c.Valid() && BlockEnds(c, cached) && now >= 0 && FloorTo(now, DAY) == c.day
    requires Peek(c.tiers, quota, cached, now).Decided? && !Peek(c.tiers, quota, cached, now).decision.allowed
    ensures EndsRight(c, now, Peek(c.tiers, quota, cached, now).decision)
  {
    MemoryAnswered(c.tiers, quota, cached, now);
    NextDay(now);
  }

  predicate EndsRight(c: Config, now: int, d: Decision) {
    && d.resetAfter > 0 && (d.window == DAY || d.window == MINUTE)
    && (d.window == DAY ==> now + d.resetAfter == c.day + DAY && UntilNext(now, d.resetAfter, DAY))
    && (d.window == MINUTE ==> (now + d.resetAfter) % MINUTE == 0)
  }

  /**
    Over every run, a refusal from memory names a window and ends where that window does: a day's with
    the day, within a day of it, whatever the other containers' clocks say.
  */
  lemma MemoryRefusalEnds(c: Config, s0: System, steps: seq<Step>, t: nat, now: int, quota: Quota)
    requires c.Valid() && Init(s0) && Possible(c, s0, steps)
    requires RefusesFromMemory(c, Run(c, s0, steps), t, now, quota)
    ensures var s := Run(c, s0, steps);
      EndsRight(c, now, Peek(c.tiers, quota, s.containers[s.threads[t].home].lease, now).decision)
  {
    InitInv(c, s0);
    RunKeeps(c, s0, steps);
    RunEnds(c, s0, steps);
    BlockedReports(c, Run(c, s0, steps), t, now, quota);
    var s := Run(c, s0, steps);
    BlockedAnswer(c, s.containers[s.threads[t].home].lease, now, quota);
  }
}
