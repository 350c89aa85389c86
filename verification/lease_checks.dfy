/**
  The limiter objects as a run of the lease protocol: what `check_key` makes of a lease and a row is
  what the protocol's steps of one request make of them, so what holds of every run holds of the objects.
*/
module LeaseChecks {
  import opened Options
  import opened TieredLease
  import opened LeaseProtocol
  import opened LeaseSafety
  import opened TieredLimiter

  // ---------------------------------------------------------------- one step

  lemma OneStep(c: Config, s: System, step: Step)
    requires c.Valid() && Inv(c, s) && Enabled(c, s, step)
    ensures Placed(s) && GrantFits(s) && Possible(c, s, [step])
    ensures Run(c, s, [step]) == Next(c, s, step) && Inv(c, Next(c, s, step))
  {
    FitsByInv(c, s);
    NextKeeps(c, s, step);
    FitsByInv(c, Next(c, s, step));
    assert [step][1..] == [];
    assert Possible(c, Next(c, s, step), []);
  }

  lemma FitsByInv(c: Config, s: System)
    requires Inv(c, s)
    ensures Placed(s) && GrantFits(s)
  {
    forall t | 0 <= t < |s.threads| && s.threads[t].phase.Granted?
      ensures s.threads[t].phase.lease <= s.threads[t].phase.after.m && s.threads[t].phase.lease <= s.threads[t].phase.after.d
    {
      assert PhaseOk(c, s.row, s.threads[t].phase);
    }
  }

  // ---------------------------------------------------------------- one check

  /** What one container's check does to the lease, the row and the answers, with nobody in between. */
  function Outcome(c: Config, s: System, t: nat, now: int, quota: Quota): Result
    requires c.Valid() && Placed(s) && t < |s.threads|
  {
    var peek := Peek(c.tiers, quota, s.containers[s.threads[t].home].lease, now);
    ResultOf(peek, quota, now, s.row, s.row, peek.state)
  }

  /** The state differs by one finished check of this thread. */
  predicate AfterCheck(s: System, s': System, t: nat, r: Result)
    requires Placed(s) && t < |s.threads|
  {
    var h := s.threads[t].home;
    && s'.row == r.row && s'.threads == s.threads && |s'.containers| == |s.containers|
    && s'.containers[h].lease == r.lease
    && (forall k :: 0 <= k < |s.containers| && k != h ==> s'.containers[k] == s.containers[k])
    && |s'.admitted| == |s.admitted| + (if r.decision.allowed then 1 else 0)
    && s'.refused == s.refused + (if r.decision.allowed then 0 else 1)
  }

  lemma DecidedInMemory(c: Config, s: System, t: nat, now: int, quota: Quota)
    requires c.Valid() && Inv(c, s) && Enabled(c, s, Begin(t, now, quota))
    requires Peek(c.tiers, quota, s.containers[s.threads[t].home].lease, now).Decided?
    ensures AfterCheck(s, Next(c, s, Begin(t, now, quota)), t, Outcome(c, s, t, now, quota))
  {
    assert TokensMatch(s.containers[s.threads[t].home]);
  }

  /** A claim is under way and nothing else has changed. */
  predicate Claims(s: System, s1: System, t: nat, now: int, quota: Quota, lease: nat, same: bool, attempt: nat, cached: Option<Lease>)
    requires Placed(s) && t < |s.threads|
  {
    var h := s.threads[t].home;
    && s1.row == s.row && |s1.containers| == |s.containers| && |s1.threads| == |s.threads|
    && s1.threads == s.threads[t := Thread(h, Claiming(now, lease, same, attempt, quota))]
    && s1.containers[h].lease == cached
    && (forall k :: 0 <= k < |s.containers| && k != h ==> s1.containers[k] == s.containers[k])
    && s1.admitted == s.admitted && s1.refused == s.refused
  }

  lemma StartsClaim(c: Config, s: System, t: nat, now: int, quota: Quota)
    requires c.Valid() && Inv(c, s) && Enabled(c, s, Begin(t, now, quota))
    requires Peek(c.tiers, quota, s.containers[s.threads[t].home].lease, now).NeedsClaim?
    ensures var peek := Peek(c.tiers, quota, s.containers[s.threads[t].home].lease, now);
      Claims(s, Next(c, s, Begin(t, now, quota)), t, now, quota, peek.lease, peek.sameMinute, 0, peek.state)
  {}

  /** The claim was charged, and its grant is on its way. */
  predicate Charged(s: System, s2: System, t: nat, now: int, quota: Quota, lease: nat, cached: Option<Lease>)
    requires Placed(s) && t < |s.threads|
  {
    var h := s.threads[t].home;
    var after := TieredLimiter.Claimed(s.row, lease, FloorTo(now, MINUTE));
    && s2.row == after && |s2.containers| == |s.containers| && |s2.threads| == |s.threads|
    && s2.threads[t].home == h && s2.threads[t].phase.Granted?
    && s2.threads[t].phase.now == now && s2.threads[t].phase.quota == quota && s2.threads[t].phase.lease == lease && s2.threads[t].phase.after == after
    && s2.threads == s.threads[t := s2.threads[t]]
    && s2.containers[h].lease == cached
    && (forall k :: 0 <= k < |s.containers| && k != h ==> s2.containers[k] == s.containers[k])
    && s2.admitted == s.admitted && s2.refused == s.refused
  }

  lemma AttemptCharges(c: Config, s: System, s1: System, t: nat, now: int, quota: Quota, lease: nat, same: bool, attempt: nat, cached: Option<Lease>)
    requires c.Valid() && Placed(s) && t < |s.threads| && Inv(c, s1) && attempt <= 1
    requires Claims(s, s1, t, now, quota, lease, same, attempt, cached)
    ensures Enabled(c, s1, Attempt(t))
    ensures if Guard(PathOf(same, attempt), s.row, FloorTo(now, MINUTE)) then Charged(s, Next(c, s1, Attempt(t)), t, now, quota, lease, cached)
      else Claims(s, Next(c, s1, Attempt(t)), t, now, quota, lease, same, attempt + 1, cached)
  {}

  /** One of the first two attempts holds, the row being left alone. */
  lemma ClaimIsRun(c: Config, s: System, s1: System, t: nat, now: int, quota: Quota, lease: nat, same: bool, cached: Option<Lease>) returns (steps: seq<Step>)
    requires c.Valid() && Placed(s) && t < |s.threads| && Inv(c, s1)
    requires Claims(s, s1, t, now, quota, lease, same, 0, cached)
    ensures Possible(c, s1, steps) && Inv(c, Run(c, s1, steps)) && Charged(s, Run(c, s1, steps), t, now, quota, lease, cached)
  {
    AttemptCharges(c, s, s1, t, now, quota, lease, same, 0, cached);
    OneStep(c, s1, Attempt(t));
    steps := [Attempt(t)];
    if !Guard(PathOf(same, 0), s.row, FloorTo(now, MINUTE)) {
      var s2 := Run(c, s1, [Attempt(t)]);
      AttemptCharges(c, s, s2, t, now, quota, lease, same, 1, cached);
      OneStep(c, s2, Attempt(t));
      RunJoin(c, s1, [Attempt(t)], [Attempt(t)]);
      steps := [Attempt(t)] + [Attempt(t)];
    }
  }

  lemma FinishAnswers(c: Config, s: System, s2: System, t: nat, now: int, quota: Quota, lease: nat, cached: Option<Lease>)
    requires c.Valid() && Placed(s) && t < |s.threads| && s.threads[t].phase.Idle? && Inv(c, s2)
    requires Charged(s, s2, t, now, quota, lease, cached)
    ensures Enabled(c, s2, Finish(t))
    ensures var after := TieredLimiter.Claimed(s.row, lease, FloorTo(now, MINUTE));
      var (l, d) := WriteBack(quota, cached, now, lease, after);
      AfterCheck(s, Next(c, s2, Finish(t)), t, Result(d, after, Some(l)))
  {
    assert PhaseOk(c, s2.row, s2.threads[t].phase);
    var s' := Next(c, s2, Finish(t));
    assert s'.threads == s.threads;
  }

  /** A check of an idle thread is a run of its steps: the same answer, the same lease and the same row. */
  lemma CheckIsRun(c: Config, s: System, t: nat, now: int, quota: Quota) returns (steps: seq<Step>)
    requires c.Valid() && Inv(c, s) && Enabled(c, s, Begin(t, now, quota))
    ensures Possible(c, s, steps) && Inv(c, Run(c, s, steps))
    ensures AfterCheck(s, Run(c, s, steps), t, Outcome(c, s, t, now, quota))
  {
    var peek := Peek(c.tiers, quota, s.containers[s.threads[t].home].lease, now);
    OneStep(c, s, Begin(t, now, quota));
    steps := [Begin(t, now, quota)];
    if peek.Decided? {
      DecidedInMemory(c, s, t, now, quota);
    } else {
      StartsClaim(c, s, t, now, quota);
      var s1 := Run(c, s, steps);
      var attempts := ClaimIsRun(c, s, s1, t, now, quota, peek.lease, peek.sameMinute, peek.state);
      RunJoin(c, s, steps, attempts);
      var s2 := Run(c, s1, attempts);
      FinishAnswers(c, s, s2, t, now, quota, peek.lease, peek.state);
      OneStep(c, s2, Finish(t));
      RunJoin(c, s, steps + attempts, [Finish(t)]);
      steps := steps + attempts + [Finish(t)];
    }
  }

  // ---------------------------------------------------------------- many limiters, one table

  /** What each limiter knows of the key, the shared row, and how many requests were let through. */
  datatype Fleet = Fleet(leases: seq<Option<Lease>>, row: Row, admitted: nat)

  /** One check: by which limiter, when, and under what quota. */
  datatype Request = Request(limiter: nat, now: int, quota: Quota)

  /** One limiter's `check_key`, as its object is proved to make it. */
  function Checked(c: Config, f: Fleet, k: Request): Fleet
    requires c.Valid()
  {
    if k.limiter >= |f.leases| then f else
    var peek := Peek(c.tiers, k.quota, f.leases[k.limiter], k.now);
    var r := ResultOf(peek, k.quota, k.now, f.row, f.row, peek.state);
    Fleet(f.leases[k.limiter := r.lease], r.row, f.admitted + if r.decision.allowed then 1 else 0)
  }

  function AllChecked(c: Config, f: Fleet, ks: seq<Request>): Fleet
    requires c.Valid()
  {
    if ks == [] then f else Checked(c, AllChecked(c, f, ks[..|ks| - 1]), ks[|ks| - 1])
  }

  /** One thread for each container, all idle: the system the limiters are. */
  predicate Mirrors(s: System, f: Fleet) {
    && |s.containers| == |s.threads| == |f.leases| && s.row == f.row && |s.admitted| == f.admitted
    && (forall i :: 0 <= i < |s.threads| ==> s.threads[i] == Thread(i, Idle))
    && (forall i :: 0 <= i < |f.leases| ==> s.containers[i].lease == f.leases[i])
  }

  lemma CheckMirrors(c: Config, s: System, f: Fleet, k: Request) returns (steps: seq<Step>)
    requires c.Valid() && Inv(c, s) && Mirrors(s, f) && FloorTo(k.now, DAY) == c.day && Within(k.quota, c.quota)
    ensures Possible(c, s, steps) && Inv(c, Run(c, s, steps)) && Mirrors(Run(c, s, steps), Checked(c, f, k))
  {
    if k.limiter >= |f.leases| {
      steps := [];
    } else {
      steps := CheckIsRun(c, s, k.limiter, k.now, k.quota);
    }
  }

  /** Any checks by any limiters over one table are a run of the protocol. */
  lemma {:induction false} ChecksAreRun(c: Config, s0: System, f: Fleet, ks: seq<Request>) returns (steps: seq<Step>)
    requires c.Valid() && Init(s0) && Mirrors(s0, f)
    requires forall i :: 0 <= i < |ks| ==> FloorTo(ks[i].now, DAY) == c.day && Within(ks[i].quota, c.quota)
    ensures Possible(c, s0, steps) && Inv(c, Run(c, s0, steps)) && Mirrors(Run(c, s0, steps), AllChecked(c, f, ks))
  {
    if ks == [] {
      InitInv(c, s0);
      FitsByInv(c, s0);
      steps := [];
    } else {
      var front := ChecksAreRun(c, s0, f, ks[..|ks| - 1]);
      var last := CheckMirrors(c, Run(c, s0, front), AllChecked(c, f, ks[..|ks| - 1]), ks[|ks| - 1]);
      RunJoin(c, s0, front, last);
      steps := front + last;
    }
  }

  /** So the limiters together never let through more than the day's cap. */
  lemma LimitersKeepDayCap(c: Config, leases: nat, row: Row, ks: seq<Request>)
    requires c.Valid() && c.quota.perDay.Some?
    requires forall i :: 0 <= i < |ks| ==> FloorTo(ks[i].now, DAY) == c.day && Within(ks[i].quota, c.quota)
    ensures AllChecked(c, Fleet(seq(leases, i => None), row, 0), ks).admitted <= c.quota.perDay.value
  {
    var f := Fleet(seq(leases, i => None), row, 0);
    var s0 := System(row, seq(leases, i => Container(None, [], 0)), seq(leases, i requires 0 <= i < leases => Thread(i, Idle)), [], [], [], 0, 0, 0);
    var steps := ChecksAreRun(c, s0, f, ks);
    NeverOverCap(c, s0, steps, 0);
  }
}
