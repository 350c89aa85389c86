/**
  Two runs from the start in which a check reports more remaining than its limit. Eighty cold requests
  of one container make it hot; in the next minute two of its threads claim ten counts each. In one
  run the claim charged first is written back last. In the other they are written back as they were
  charged, but another container has rolled the minute over between the two, so the second is charged
  behind the stored minute.
*/
module LeaseOverstated {
  import opened Options
  import opened TieredLease
  import opened LeaseProtocol
  import opened LeaseSafety
  import opened LeaseHeadroom

  const CROWD: nat := 80

  /** A hundred a minute, and the source's own lease sizes. */
  const USUAL: Config := Config(Quota(100, None), Tiers(10, 8), 0)

  /** Eighty threads of the first container, and one of the second. */
  function Idlers(): seq<Thread> {
    seq(CROWD, i => Thread(0, Idle)) + [Thread(1, Idle)]
  }

  const START: System :=
    System(Row(None, 0, 0), [Container(None, [], 0), Container(None, [], 0)], Idlers(), [], [], [], 0, 0, 0)

  // ---------------------------------------------------------------- runs in charge order

  ghost predicate AllInChargeOrder(c: Config, s: System, steps: seq<Step>)
    requires c.Valid() && Possible(c, s, steps)
    decreases |steps|
  {
    steps == [] || (InChargeOrder(c, s, steps[0]) && AllInChargeOrder(c, Next(c, s, steps[0]), steps[1..]))
  }

  /** The steps lead from one state to the other, in charge order. */
  ghost predicate Leads(s: System, steps: seq<Step>, s': System) {
    Possible(USUAL, s, steps) && AllInChargeOrder(USUAL, s, steps) && Run(USUAL, s, steps) == s'
  }

  predicate CanStep(s: System, step: Step) {
    Placed(s) && GrantFits(s) && Enabled(USUAL, s, step)
  }

  lemma OneStep(s: System, step: Step)
    requires CanStep(s, step)
    ensures Possible(USUAL, s, [step]) && Run(USUAL, s, [step]) == Next(USUAL, s, step)
  {
    assert [step][1..] == [];
    assert Possible(USUAL, Next(USUAL, s, step), []);
  }

  lemma LeadsOne(s: System, step: Step)
    requires CanStep(s, step) && InChargeOrder(USUAL, s, step)
    ensures Leads(s, [step], Next(USUAL, s, step))
  {
    OneStep(s, step);
    assert [step][1..] == [];
    assert AllInChargeOrder(USUAL, Next(USUAL, s, step), []);
  }

  lemma {:induction false} LeadsOn(s: System, a: seq<Step>, s1: System, b: seq<Step>, s2: System)
    requires Leads(s, a, s1) && Leads(s1, b, s2)
    ensures Leads(s, a + b, s2)
    decreases |a|
  {
    if a == [] {
      assert a + b == b;
    } else {
      assert (a + b)[0] == a[0] && (a + b)[1..] == a[1..] + b;
      LeadsOn(Next(USUAL, s, a[0]), a[1..], s1, b, s2);
    }
  }

  // ---------------------------------------------------------------- the crowd

  const ONE: Tag := Tag(0, 0)

  function ColdClaim(attempt: nat): Phase { Claiming(0, 1, false, attempt, USUAL.quota) }

  function ColdGrant(i: nat): Phase { Granted(0, 1, Row(Some(0), i + 1, i + 1), [ONE], USUAL.quota) }

  /** Two containers; the second one, and its thread, have not been used. */
  predicate Lone(s: System) {
    && |s.containers| == 2 && s.containers[1] == Container(None, [], 0)
    && |s.threads| == CROWD + 1 && s.threads[CROWD].home == 1 && forall i :: 0 <= i < CROWD ==> s.threads[i].home == 0
  }

  predicate Crowd(s: System) {
    Lone(s) && s.containers[0].tokens == [] && s.threads[CROWD].phase.Idle?
  }

  /** The first `n` threads have a claim under way. */
  predicate Begun(s: System, n: nat) {
    && Crowd(s) && n <= CROWD && s.row == Row(None, 0, 0) && s.containers[0].lease.None?
    && (forall i :: 0 <= i < n ==> s.threads[i].phase == ColdClaim(0))
    && (forall i :: n <= i < CROWD ==> s.threads[i].phase.Idle?)
  }

  /** The first `n` claims have been charged. */
  predicate Charged(s: System, n: nat) {
    && Crowd(s) && n <= CROWD && s.row == (if n == 0 then Row(None, 0, 0) else Row(Some(0), n, n))
    && s.containers[0].lease.None?
    && (forall i :: 0 <= i < n ==> s.threads[i].phase == ColdGrant(i))
    && (forall i :: n <= i < CROWD ==> s.threads[i].phase == ColdClaim(0))
  }

  /** The claim after them has lost the rollover to the first. */
  predicate Beaten(s: System, n: nat) {
    && Crowd(s) && 1 <= n < CROWD && s.row == Row(Some(0), n, n)
    && s.containers[0].lease.None?
    && (forall i :: 0 <= i < n ==> s.threads[i].phase == ColdGrant(i))
    && s.threads[n].phase == ColdClaim(1)
    && (forall i :: n < i < CROWD ==> s.threads[i].phase == ColdClaim(0))
  }

  /** The first `n` grants have been written back: `n` served, and no count to spare. */
  predicate Served(s: System, n: nat) {
    && Crowd(s) && n <= CROWD && s.row == Row(Some(0), CROWD, CROWD)
    && (if n == 0 then s.containers[0].lease.None? else s.containers[0].lease.Some? && ServedLease(s.containers[0].lease.value, n))
    && (forall i :: 0 <= i < n ==> s.threads[i].phase.Idle?)
    && (forall i :: n <= i < CROWD ==> s.threads[i].phase == ColdGrant(i))
  }

  predicate ServedLease(s: Lease, n: nat) {
    s.minute == 0 && s.writtenMinute == Some(0) && s.tokens == 0 && s.served == n && s.blockedUntil == 0
  }

  lemma BeginOne(s: System, n: nat) returns (s': System)
    requires Begun(s, n) && n < CROWD
    ensures Leads(s, [Begin(n, 0, USUAL.quota)], s') && Begun(s', n + 1)
  {
    s' := DoBegin(USUAL, s, n, 0, USUAL.quota);
    assert s'.threads == s.threads[n := Thread(0, ColdClaim(0))];
    LeadsOne(s, Begin(n, 0, USUAL.quota));
  }

  lemma {:induction false} BeginAll(s: System, n: nat) returns (steps: seq<Step>, s': System)
    requires Begun(s, n)
    ensures Leads(s, steps, s') && Begun(s', CROWD)
    decreases CROWD - n
  {
    steps, s' := [], s;
    if n < CROWD {
      var s1 := BeginOne(s, n);
      steps, s' := BeginAll(s1, n + 1);
      LeadsOn(s, [Begin(n, 0, USUAL.quota)], s1, steps, s');
      steps := [Begin(n, 0, USUAL.quota)] + steps;
    }
  }

  lemma LonePlaced(s: System)
    requires Lone(s)
    ensures Placed(s)
  {}

  lemma NoneGranted(s: System)
    requires Charged(s, 0)
    ensures GrantFits(s)
  {
    forall i | 0 <= i < |s.threads| ensures !s.threads[i].phase.Granted? {
      if i < CROWD { assert s.threads[i].phase == ColdClaim(0); }
    }
  }

  lemma ColdRollover(row: Row)
    requires row == Row(None, 0, 0)
    ensures FloorTo(0, MINUTE) == 0 && PathOf(false, 0) == RolloverPath && Guard(RolloverPath, row, 0)
    ensures Write(RolloverPath, row, 1, 0) == Row(Some(0), 1, 1) && Grant(USUAL.quota, 1, Row(Some(0), 1, 1)) == 1
  {}

  lemma FirstWrites(s: System, t: nat)
    requires t < |s.threads| && s.threads[t].phase == ColdClaim(0) && s.row == Row(None, 0, 0)
    ensures DoAttempt(USUAL, s, t)
         == WithPhase(s.(row := Row(Some(0), 1, 1), charged := s.charged + Copies(1, ONE)), t,
                      Granted(0, 1, Row(Some(0), 1, 1), Copies(1, ONE), USUAL.quota))
  {
    ColdRollover(s.row);
  }

  lemma FirstWritesOne(s: System, t: nat, s': System)
    requires t < |s.threads| && s.threads[t].phase == ColdClaim(0) && s.row == Row(None, 0, 0) && s' == DoAttempt(USUAL, s, t)
    ensures s' == WithPhase(s.(row := Row(Some(0), 1, 1), charged := s.charged + [ONE]), t, ColdGrant(0))
  {
    FirstWrites(s, t);
    assert Copies(1, ONE) == [ONE];
  }

  lemma FirstCanStep(s: System)
    requires Charged(s, 0)
    ensures CanStep(s, Attempt(0))
  {
    LonePlaced(s);
    NoneGranted(s);
  }

  lemma FirstGranted(s: System) returns (s': System)
    requires Charged(s, 0)
    ensures s' == DoAttempt(USUAL, s, 0) && Charged(s', 1)
  {
    s' := DoAttempt(USUAL, s, 0);
    FirstWritesOne(s, 0, s');
    OneCharged(s, s');
  }

  lemma OneCharged(s: System, s': System)
    requires Charged(s, 0)
    requires s' == WithPhase(s.(row := Row(Some(0), 1, 1), charged := s.charged + [ONE]), 0, ColdGrant(0))
    ensures Charged(s', 1)
  {
    assert s'.threads == s.threads[0 := Thread(0, ColdGrant(0))];
  }

  lemma ChargeFirst(s: System) returns (s': System)
    requires Charged(s, 0)
    ensures Leads(s, [Attempt(0)], s') && Charged(s', 1)
  {
    FirstCanStep(s);
    s' := FirstGranted(s);
    LeadsOne(s, Attempt(0));
  }

  lemma LoseRollover(s: System, n: nat) returns (s': System)
    requires Charged(s, n) && 1 <= n < CROWD
    ensures Leads(s, [Attempt(n)], s') && Beaten(s', n)
  {
    s' := DoAttempt(USUAL, s, n);
    assert s'.threads == s.threads[n := Thread(0, ColdClaim(1))];
    LeadsOne(s, Attempt(n));
  }

  lemma CountIn(s: System, n: nat) returns (s': System)
    requires Beaten(s, n)
    ensures Leads(s, [Attempt(n)], s') && Charged(s', n + 1)
  {
    s' := DoAttempt(USUAL, s, n);
    assert Copies(1, ONE) == [ONE];
    assert s'.threads == s.threads[n := Thread(0, ColdGrant(n))];
    LeadsOne(s, Attempt(n));
  }

  /** A later claim loses the rollover to the first, and is counted at its second attempt. */
  lemma ChargeNext(s: System, n: nat) returns (s': System)
    requires Charged(s, n) && 1 <= n < CROWD
    ensures Leads(s, [Attempt(n)] + [Attempt(n)], s') && Charged(s', n + 1)
  {
    var s1 := LoseRollover(s, n);
    s' := CountIn(s1, n);
    LeadsOn(s, [Attempt(n)], s1, [Attempt(n)], s');
  }

  lemma {:induction false} ChargeAll(s: System, n: nat) returns (steps: seq<Step>, s': System)
    requires Charged(s, n)
    ensures Leads(s, steps, s') && Charged(s', CROWD)
    decreases CROWD - n
  {
    steps, s' := [], s;
    if n < CROWD {
      var one := if n == 0 then [Attempt(0)] else [Attempt(n)] + [Attempt(n)];
      var s1;
      if n == 0 { s1 := ChargeFirst(s); } else { s1 := ChargeNext(s, n); }
      steps, s' := ChargeAll(s1, n + 1);
      LeadsOn(s, one, s1, steps, s');
      steps := one + steps;
    }
  }

  lemma ServeOne(s: System, n: nat) returns (s': System)
    requires Served(s, n) && n < CROWD
    ensures Leads(s, [Finish(n)], s') && Served(s', n + 1)
  {
    s' := DoFinish(USUAL, s, n);
    assert s'.threads == s.threads[n := Thread(0, Idle)];
    LeadsOne(s, Finish(n));
  }

  lemma {:induction false} ServeAll(s: System, n: nat) returns (steps: seq<Step>, s': System)
    requires Served(s, n)
    ensures Leads(s, steps, s') && Served(s', CROWD)
    decreases CROWD - n
  {
    steps, s' := [], s;
    if n < CROWD {
      var s1 := ServeOne(s, n);
      steps, s' := ServeAll(s1, n + 1);
      LeadsOn(s, [Finish(n)], s1, steps, s');
      steps := [Finish(n)] + steps;
    }
  }

  // ---------------------------------------------------------------- two claims of a hot container

  function HotClaim(attempt: nat): Phase { Claiming(60, 10, false, attempt, USUAL.quota) }

  /** Nine counts to spare, charged by a write that left this row. */
  function HotGrant(after: Row): Phase
    requires after.w.Some?
  {
    Granted(60, 10, after, Copies(10, Tag(60, after.w.value)), USUAL.quota)
  }

  /** The lease the two claims meet: hot in the minute before, nothing heard of this one yet. */
  predicate Hot(s: Lease) {
    s.minute == 60 && s.writtenMinute == Some(0) && s.tokens == 0 && s.served == 0 && s.previousServed == CROWD && s.blockedUntil == 0
  }

  /** Two threads of the hot container and the one of the other are in these phases, and nobody else is under way. */
  predicate Claimed(s: System, row: Row, first: Phase, second: Phase, other: Phase) {
    && Lone(s) && s.row == row && s.containers[0].tokens == [] && s.containers[0].lease.Some? && Hot(s.containers[0].lease.value)
    && s.threads[0].phase == first && s.threads[1].phase == second && s.threads[CROWD].phase == other
    && forall i :: 2 <= i < CROWD ==> s.threads[i].phase.Idle?
  }

  lemma HotPeek(s: Lease)
    requires ServedLease(s, CROWD) || Hot(s)
    ensures var peek := Peek(USUAL.tiers, USUAL.quota, Some(s), 60);
      peek.NeedsClaim? && peek.lease == 10 && !peek.sameMinute && peek.state.Some? && Hot(peek.state.value)
  {
    assert FloorTo(60, MINUTE) == 60;
  }

  const CROWDED: Row := Row(Some(0), CROWD, CROWD)
  const TENTH: Row := Row(Some(60), 10, CROWD + 10)
  const TWENTIETH: Row := Row(Some(60), 20, CROWD + 20)

  lemma FirstBegins(s: System) returns (s': System)
    requires Served(s, CROWD)
    ensures Leads(s, [Begin(0, 60, USUAL.quota)], s') && Claimed(s', CROWDED, HotClaim(0), Idle, Idle)
  {
    HotPeek(s.containers[0].lease.value);
    s' := DoBegin(USUAL, s, 0, 60, USUAL.quota);
    assert s'.threads == s.threads[0 := Thread(0, HotClaim(0))];
    LeadsOne(s, Begin(0, 60, USUAL.quota));
  }

  lemma SecondBegins(s: System) returns (s': System)
    requires Claimed(s, CROWDED, HotClaim(0), Idle, Idle)
    ensures Leads(s, [Begin(1, 60, USUAL.quota)], s') && Claimed(s', CROWDED, HotClaim(0), HotClaim(0), Idle)
  {
    HotPeek(s.containers[0].lease.value);
    s' := DoBegin(USUAL, s, 1, 60, USUAL.quota);
    assert s'.threads == s.threads[1 := Thread(0, HotClaim(0))];
    LeadsOne(s, Begin(1, 60, USUAL.quota));
  }

  lemma FirstCharged(s: System) returns (s': System)
    requires Claimed(s, CROWDED, HotClaim(0), HotClaim(0), Idle)
    ensures Leads(s, [Attempt(0)], s') && Claimed(s', TENTH, HotGrant(TENTH), HotClaim(0), Idle)
  {
    assert FloorTo(60, MINUTE) == 60;
    s' := DoAttempt(USUAL, s, 0);
    assert s'.threads == s.threads[0 := Thread(0, HotGrant(TENTH))];
    LeadsOne(s, Attempt(0));
  }

  /** The phase the other container's thread is in while the two claims go on. */
  predicate Aside(other: Phase) {
    other == Idle || other == OTHER_CLAIM || other == OtherGrant()
  }

  const OTHER_CLAIM: Phase := Claiming(120, 1, false, 0, USUAL.quota)
  const ROLLED: Row := Row(Some(120), 1, CROWD + 11)
  const BEHIND: Row := Row(Some(120), 11, CROWD + 21)

  function OtherGrant(): Phase { Granted(120, 1, ROLLED, [Tag(120, 120)], USUAL.quota) }

  /** The second claim's rollover is refused, whether this minute or a later one is stored. */
  lemma SecondBeaten(s: System, row: Row, other: Phase) returns (s': System)
    requires row.w.Some? && row.w.value >= 60 && Aside(other)
    requires Claimed(s, row, HotGrant(TENTH), HotClaim(0), other)
    ensures Leads(s, [Attempt(1)], s') && Claimed(s', row, HotGrant(TENTH), HotClaim(1), other)
  {
    assert FloorTo(60, MINUTE) == 60;
    s' := DoAttempt(USUAL, s, 1);
    assert s'.threads == s.threads[1 := Thread(0, HotClaim(1))];
    LeadsOne(s, Attempt(1));
  }

  /** Its count is not, and goes to whichever minute is stored. */
  lemma SecondCounted(s: System, row: Row, other: Phase) returns (s': System)
    requires row.w.Some? && row.w.value >= 60 && row.m <= 10 && Aside(other)
    requires Claimed(s, row, HotGrant(TENTH), HotClaim(1), other)
    ensures var after := Row(row.w, row.m + 10, row.d + 10);
      Leads(s, [Attempt(1)], s') && Claimed(s', after, HotGrant(TENTH), HotGrant(after), other)
  {
    var after := Row(row.w, row.m + 10, row.d + 10);
    assert FloorTo(60, MINUTE) == 60 && PathOf(false, 1) == CountPath;
    assert Write(CountPath, row, 10, 60) == after && Grant(USUAL.quota, 10, after) == 10;
    s' := DoAttempt(USUAL, s, 1);
    assert s'.row == after && s'.threads == s.threads[1 := Thread(0, HotGrant(after))];
    LeadsOne(s, Attempt(1));
  }

  // ---------------------------------------------------------------- the two write-backs

  /** The lease holds the nine spare counts of one claim; the other claim has yet to be written back. */
  predicate Spare(s: System, t: nat, after: Row) {
    && t < 2 && after.w.Some? && Lone(s) && Placed(s) && GrantFits(s) && s.threads[t].phase == HotGrant(after)
    && s.containers[0].lease.Some? && s.containers[0].lease.value.minute == 60 && s.containers[0].lease.value.tokens == 9
  }

  lemma NineSpare(s: Lease, after: Row)
    requires Hot(s) && 10 <= after.m <= 20 && 10 <= after.d
    ensures var (lease, d) := WriteBack(USUAL.quota, Some(s), 60, 10, after); d.allowed && lease.minute == 60 && lease.tokens == 9
  {
    assert FloorTo(60, MINUTE) == 60;
  }

  lemma LastWaits(s: System)
    requires Lone(s) && s.threads[0].phase.Idle? && s.threads[1].phase.Granted?
    requires forall i :: 2 <= i < CROWD ==> s.threads[i].phase.Idle?
    ensures InChargeOrder(USUAL, s, Finish(1))
  {}

  lemma FirstFinished(s: System, after: Row, other: Phase) returns (s': System)
    requires after.w.Some? && 10 <= after.m && 90 <= after.d && Aside(other)
    requires Claimed(s, after, HotGrant(TENTH), HotGrant(after), other)
    ensures Leads(s, [Finish(0)], s') && Spare(s', 1, after) && InChargeOrder(USUAL, s', Finish(1))
  {
    NineSpare(s.containers[0].lease.value, TENTH);
    s' := DoFinish(USUAL, s, 0);
    assert s'.threads == s.threads[0 := Thread(0, Idle)];
    LeadsOne(s, Finish(0));
    LastWaits(s');
  }

  lemma SecondFinished(s: System)
    requires Claimed(s, TWENTIETH, HotGrant(TENTH), HotGrant(TWENTIETH), Idle)
    ensures CanStep(s, Finish(1)) && Spare(Next(USUAL, s, Finish(1)), 0, TENTH)
  {
    NineSpare(s.containers[0].lease.value, TWENTIETH);
    assert CanStep(s, Finish(1));
    var s' := DoFinish(USUAL, s, 1);
    assert s'.threads == s.threads[1 := Thread(0, Idle)];
  }

  /** The spare counts of both claims come on top of what the row of this one left. */
  lemma LastReport(s: System, t: nat, after: Row)
    requires Spare(s, t, after) && after.m <= 20
    ensures CanStep(s, Finish(t))
    ensures var d := Report(USUAL, s, Finish(t)).value; d.allowed && d.limit == 100 && d.remaining == 118 - after.m
  {
    assert FloorTo(60, MINUTE) == 60;
  }

  // ---------------------------------------------------------------- the runs

  /** Both threads of the hot container have a claim under way, and the first is charged. */
  lemma HotRun() returns (steps: seq<Step>, s: System)
    ensures Init(START) && Leads(START, steps, s) && Claimed(s, TENTH, HotGrant(TENTH), HotClaim(0), Idle)
  {
    var crowd, s1 := CrowdRun();
    var s2 := FirstBegins(s1);
    LeadsOn(START, crowd, s1, [Begin(0, 60, USUAL.quota)], s2);
    var s3 := SecondBegins(s2);
    LeadsOn(START, crowd + [Begin(0, 60, USUAL.quota)], s2, [Begin(1, 60, USUAL.quota)], s3);
    steps := crowd + [Begin(0, 60, USUAL.quota)] + [Begin(1, 60, USUAL.quota)];
    s := FirstCharged(s3);
    LeadsOn(START, steps, s3, [Attempt(0)], s);
    steps := steps + [Attempt(0)];
  }

  lemma StartBegun()
    ensures Init(START) && Begun(START, 0)
  {}

  lemma CrowdRun() returns (steps: seq<Step>, s: System)
    ensures Init(START) && Leads(START, steps, s) && Served(s, CROWD)
  {
    StartBegun();
    var begins, s1 := BeginAll(START, 0);
    var charges, s2 := ChargeAll(s1, 0);
    LeadsOn(START, begins, s1, charges, s2);
    var serves;
    serves, s := ServeAll(s2, 0);
    LeadsOn(START, begins + charges, s2, serves, s);
    steps := begins + charges + serves;
  }

  /** The second claim of the hot container is charged. */
  lemma SecondCharged(s: System, row: Row, other: Phase) returns (s': System)
    requires row.w.Some? && row.w.value >= 60 && row.m <= 10 && Aside(other)
    requires Claimed(s, row, HotGrant(TENTH), HotClaim(0), other)
    ensures var after := Row(row.w, row.m + 10, row.d + 10);
      Leads(s, [Attempt(1)] + [Attempt(1)], s') && Claimed(s', after, HotGrant(TENTH), HotGrant(after), other)
  {
    var s1 := SecondBeaten(s, row, other);
    s' := SecondCounted(s1, row, other);
    LeadsOn(s, [Attempt(1)], s1, [Attempt(1)], s');
  }

  /** Under the usual settings a run from the start reports 108 remaining of 100. */
  lemma ConcurrentHeadroomFails() returns (steps: seq<Step>)
    ensures Init(START) && Possible(USUAL, START, steps)
    ensures var s := Run(USUAL, START, steps);
      && CanStep(s, Finish(0))
      && var d := Report(USUAL, s, Finish(0)).value; d.allowed && d.limit == 100 && d.remaining == 108
  {
    var hot, s1 := HotRun();
    var s2 := SecondCharged(s1, TENTH, Idle);
    LeadsOn(START, hot, s1, [Attempt(1)] + [Attempt(1)], s2);
    steps := hot + ([Attempt(1)] + [Attempt(1)]);
    SecondFinished(s2);
    OneStep(s2, Finish(1));
    RunJoin(USUAL, START, steps, [Finish(1)]);
    steps := steps + [Finish(1)];
    LastReport(Run(USUAL, START, steps), 0, TENTH);
  }

  lemma OtherBegins(s: System) returns (s': System)
    requires Claimed(s, TENTH, HotGrant(TENTH), HotClaim(0), Idle)
    ensures Leads(s, [Begin(CROWD, 120, USUAL.quota)], s') && Claimed(s', TENTH, HotGrant(TENTH), HotClaim(0), OTHER_CLAIM)
  {
    s' := DoBegin(USUAL, s, CROWD, 120, USUAL.quota);
    assert s'.threads == s.threads[CROWD := Thread(1, OTHER_CLAIM)];
    LeadsOne(s, Begin(CROWD, 120, USUAL.quota));
  }

  /** The other container's clock is a minute ahead: its claim rolls the row over. */
  lemma OtherRolls(s: System) returns (s': System)
    requires Claimed(s, TENTH, HotGrant(TENTH), HotClaim(0), OTHER_CLAIM)
    ensures Leads(s, [Attempt(CROWD)], s') && Claimed(s', ROLLED, HotGrant(TENTH), HotClaim(0), OtherGrant())
  {
    assert FloorTo(120, MINUTE) == 120 && PathOf(false, 0) == RolloverPath;
    assert Write(RolloverPath, TENTH, 1, 120) == ROLLED && Grant(USUAL.quota, 1, ROLLED) == 1;
    assert Copies(1, Tag(120, 120)) == [Tag(120, 120)];
    s' := DoAttempt(USUAL, s, CROWD);
    assert s'.row == ROLLED && s'.threads == s.threads[CROWD := Thread(1, OtherGrant())];
    LeadsOne(s, Attempt(CROWD));
  }

  /** The other container rolls the row over, and the second claim is charged behind the minute it stored. */
  lemma BehindRun() returns (steps: seq<Step>, s: System)
    ensures Init(START) && Leads(START, steps, s) && Claimed(s, BEHIND, HotGrant(TENTH), HotGrant(BEHIND), OtherGrant())
  {
    var hot, s1 := HotRun();
    var s2 := OtherBegins(s1);
    LeadsOn(START, hot, s1, [Begin(CROWD, 120, USUAL.quota)], s2);
    steps := hot + [Begin(CROWD, 120, USUAL.quota)];
    var s3 := OtherRolls(s2);
    LeadsOn(START, steps, s2, [Attempt(CROWD)], s3);
    steps := steps + [Attempt(CROWD)];
    s := SecondCharged(s3, ROLLED, OtherGrant());
    LeadsOn(START, steps, s3, [Attempt(1)] + [Attempt(1)], s);
    steps := steps + ([Attempt(1)] + [Attempt(1)]);
  }

  /**
    Writing the claims back in the order of their charges does not do: a run from the start that
    does, under one quota, reports 107 remaining of 100. One of its claims was charged behind the stored minute.
  */
  lemma BehindHeadroomFails() returns (steps: seq<Step>)
    ensures Init(START) && Possible(USUAL, START, steps) && AllInChargeOrder(USUAL, START, steps)
    ensures var s := Run(USUAL, START, steps);
      && CanStep(s, Finish(1)) && InChargeOrder(USUAL, s, Finish(1))
      && var d := Report(USUAL, s, Finish(1)).value; d.allowed && d.limit == 100 && d.remaining == 107
  {
    var behind, s1 := BehindRun();
    var s2 := FirstFinished(s1, BEHIND, OtherGrant());
    LeadsOn(START, behind, s1, [Finish(0)], s2);
    steps := behind + [Finish(0)];
    LastReport(s2, 1, BEHIND);
  }
}
