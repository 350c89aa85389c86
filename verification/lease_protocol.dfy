/**
  Many containers, each with many threads, share one stored counter. A thread runs `check_key`
  in three phases that interleave freely with every other thread's: it peeks at its container's
  lease under the lock, it tries conditional updates on the row one at a time, and it writes the
  grant back under the lock. Containers may forget a lease at any moment, clocks may disagree,
  and a claim may fail after it was applied.

  A ledger tags each granted count with the minute of the claim (`claimed`) and the minute the row
  held when it was charged (`stored`).
*/
module LeaseProtocol {
  import opened Options
  import opened TieredLease

  /** `quota` is the greatest that any check of the key brings: each brings its own. */
  datatype Config = Config(quota: Quota, tiers: Tiers, day: int) {
    predicate Valid() {
      quota.Valid() && tiers.Valid() && day >= 0 && day % DAY == 0
    }
  }

  /** A check's quota asks for no more than the greatest there is. */
  predicate Within(quota: Quota, greatest: Quota) {
    && quota.Valid() && quota.perMinute <= greatest.perMinute
    && (greatest.perDay.Some? ==> quota.perDay.Some? && quota.perDay.value <= greatest.perDay.value)
  }

  // ---------------------------------------------------------------- tagged counts

  datatype Tag = Tag(claimed: int, stored: int)

  datatype Probe = Everything | StoredIn(minute: int) | ClaimedIn(minute: int) | Behind(minute: int)

  /** `Behind(M)` finds the counts a claim made in minute M charged to a later stored minute. */
  predicate Hits(t: Tag, p: Probe) {
    match p
    case Everything => true
    case StoredIn(minute) => t.stored == minute
    case ClaimedIn(minute) => t.claimed == minute
    case Behind(minute) => t.claimed == minute && t.stored != minute
  }

  function Count(tags: seq<Tag>, p: Probe): nat {
    if tags == [] then 0 else
    Count(tags[..|tags| - 1], p) + if Hits(tags[|tags| - 1], p) then 1 else 0
  }

  function Copies(n: nat, t: Tag): (tags: seq<Tag>)
    ensures |tags| == n && forall i :: 0 <= i < n ==> tags[i] == t
  {
    seq(n, _ => t)
  }

  lemma {:induction false} CountConcat(a: seq<Tag>, b: seq<Tag>, p: Probe)
    ensures Count(a + b, p) == Count(a, p) + Count(b, p)
  {
    if b == [] {
      assert a + b == a;
    } else {
      var n := |b| - 1;
      assert (a + b)[..|a + b| - 1] == a + b[..n];
      CountConcat(a, b[..n], p);
    }
  }

  lemma {:induction false} CountCopies(n: nat, t: Tag, p: Probe)
    ensures Count(Copies(n, t), p) == if Hits(t, p) then n else 0
  {
    if n > 0 {
      assert Copies(n, t)[..n - 1] == Copies(n - 1, t);
      CountCopies(n - 1, t, p);
    }
  }

  lemma {:induction false} CountEverything(tags: seq<Tag>)
    ensures Count(tags, Everything) == |tags|
  {
    if tags != [] { CountEverything(tags[..|tags| - 1]); }
  }

  /** A count was charged to its own minute, or it was written behind one. */
  lemma {:induction false} CountByClaim(tags: seq<Tag>, minute: int)
    ensures Count(tags, ClaimedIn(minute)) <= Count(tags, StoredIn(minute)) + Count(tags, Behind(minute))
  {
    if tags != [] { CountByClaim(tags[..|tags| - 1], minute); }
  }

  // ---------------------------------------------------------------- the system

  /** `blockedAt` is the stored minute of the claim that last blocked this container. */
  datatype Container = Container(lease: Option<Lease>, tokens: seq<Tag>, blockedAt: int)

  datatype Phase =
    | Idle
    | Claiming(now: int, lease: nat, sameMinute: bool, attempt: nat, quota: Quota)
    | Granted(now: int, lease: nat, after: Row, tokens: seq<Tag>, quota: Quota)
    | Contended

  datatype Thread = Thread(home: nat, phase: Phase)

  datatype System = System(
    row: Row,
    containers: seq<Container>,
    threads: seq<Thread>,
    charged: seq<Tag>,
    admitted: seq<Tag>,
    lost: seq<Tag>,
    requests: nat,
    refused: nat,
    failedOpen: nat)

  datatype Step =
    | Begin(thread: nat, now: int, quota: Quota)
    | Attempt(thread: nat)
    | Finish(thread: nat)
    | FailOpen(thread: nat, applied: bool)
    | Evict(container: nat)

  predicate Placed(s: System) {
    forall i :: 0 <= i < |s.threads| ==> s.threads[i].home < |s.containers|
  }

  /** A grant never asks for more counts than the row shows after the write. */
  predicate GrantFits(s: System) {
    forall i :: 0 <= i < |s.threads| && s.threads[i].phase.Granted? ==>
      var g := s.threads[i].phase;
      g.lease <= g.after.m && g.lease <= g.after.d && g.after.w.Some?
  }

  predicate Enabled(c: Config, s: System, step: Step) {
    match step
    case Begin(t, now, quota) =>
      t < |s.threads| && s.threads[t].phase.Idle? && FloorTo(now, DAY) == c.day && Within(quota, c.quota)
    case Attempt(t) => t < |s.threads| && s.threads[t].phase.Claiming?
    case Finish(t) => t < |s.threads| && s.threads[t].phase.Granted?
    case FailOpen(t, applied) =>
      t < |s.threads| && s.threads[t].phase.Claiming? &&
      (applied ==> Guard(PathOf(s.threads[t].phase.sameMinute, s.threads[t].phase.attempt), s.row,
                         FloorTo(s.threads[t].phase.now, MINUTE)))
    case Evict(k) => k < |s.containers|
  }

  /** The container after a touch, with the tokens the touch threw away. */
  function TouchTokens(k: Container, minute: int): (seq<Tag>, seq<Tag>) {
    if k.lease.Some? && k.lease.value.minute == minute then (k.tokens, []) else ([], k.tokens)
  }

  function WithPhase(s: System, t: nat, p: Phase): System
    requires t < |s.threads|
  {
    s.(threads := s.threads[t := s.threads[t].(phase := p)])
  }

  function DoBegin(c: Config, s: System, t: nat, now: int, quota: Quota): System
    requires c.Valid() && Placed(s) && t < |s.threads|
  {
    var h := s.threads[t].home;
    var k := s.containers[h];
    var (kept, dropped) := TouchTokens(k, FloorTo(now, MINUTE));
    var s1 := s.(lost := s.lost + dropped, requests := s.requests + 1);
    match Peek(c.tiers, quota, k.lease, now)
    case Decided(lease, decision) =>
      if decision.allowed && |kept| > 0 then
        s1.(containers := s.containers[h := k.(lease := lease, tokens := kept[..|kept| - 1])],
            admitted := s.admitted + [kept[|kept| - 1]])
      else
        s1.(containers := s.containers[h := k.(lease := lease, tokens := kept)], refused := s.refused + 1)
    case NeedsClaim(lease, n, same) =>
      WithPhase(s1.(containers := s.containers[h := k.(lease := lease, tokens := kept)]), t,
                Claiming(now, n, same, 0, quota))
  }

  function DoAttempt(c: Config, s: System, t: nat): System
    requires t < |s.threads| && s.threads[t].phase.Claiming?
  {
    var p := s.threads[t].phase;
    var minute := FloorTo(p.now, MINUTE);
    var path := PathOf(p.sameMinute, p.attempt);
    if Guard(path, s.row, minute) then
      var after := Write(path, s.row, p.lease, minute);
      var tokens := Copies(Grant(p.quota, p.lease, after), Tag(minute, after.w.value));
      WithPhase(s.(row := after, charged := s.charged + tokens), t, Granted(p.now, p.lease, after, tokens, p.quota))
    else if p.attempt + 1 < WRITE_ATTEMPTS then
      WithPhase(s, t, p.(attempt := p.attempt + 1))
    else
      WithPhase(s, t, Contended)
  }

  function DoFinish(c: Config, s: System, t: nat): System
    requires Placed(s) && GrantFits(s) && t < |s.threads| && s.threads[t].phase.Granted?
  {
    var p := s.threads[t].phase;
    var h := s.threads[t].home;
    var k := s.containers[h];
    var (kept, dropped) := TouchTokens(k, FloorTo(p.now, MINUTE));
    var (lease, decision) := WriteBack(p.quota, k.lease, p.now, p.lease, p.after);
    var idle := WithPhase(s, t, Idle);
    if decision.allowed && |p.tokens| > 0 then
      idle.(containers := s.containers[h := k.(lease := Some(lease), tokens := kept + p.tokens[1..])],
            admitted := s.admitted + [p.tokens[0]],
            lost := s.lost + dropped)
    else
      idle.(containers := s.containers[h := Container(Some(lease), [], p.after.w.value)],
            refused := s.refused + 1,
            lost := s.lost + dropped + kept)
  }

  /** A store failure: the request is let through uncounted, whether or not the write landed. */
  function DoFailOpen(s: System, t: nat, applied: bool): System
    requires t < |s.threads| && s.threads[t].phase.Claiming?
  {
    var p := s.threads[t].phase;
    var row := if applied then Write(PathOf(p.sameMinute, p.attempt), s.row, p.lease, FloorTo(p.now, MINUTE)) else s.row;
    WithPhase(s.(row := row, failedOpen := s.failedOpen + 1), t, Idle)
  }

  function DoEvict(s: System, h: nat): System
    requires h < |s.containers|
  {
    var k := s.containers[h];
    s.(containers := s.containers[h := Container(None, [], k.blockedAt)], lost := s.lost + k.tokens)
  }

  function Next(c: Config, s: System, step: Step): System
    requires c.Valid() && Placed(s) && GrantFits(s) && Enabled(c, s, step)
  {
    match step
    case Begin(t, now, quota) => DoBegin(c, s, t, now, quota)
    case Attempt(t) => DoAttempt(c, s, t)
    case Finish(t) => DoFinish(c, s, t)
    case FailOpen(t, applied) => DoFailOpen(s, t, applied)
    case Evict(k) => DoEvict(s, k)
  }

  /** No lease anywhere, no thread under way, and a row that no ledger entry was charged to. */
  predicate Init(s: System) {
    && Placed(s)
    && (forall k :: 0 <= k < |s.containers| ==> s.containers[k].lease.None? && s.containers[k].tokens == [])
    && (forall t :: 0 <= t < |s.threads| ==> s.threads[t].phase.Idle?)
    && s.charged == s.admitted == s.lost == []
    && s.requests == s.refused == s.failedOpen == 0
  }

  // ---------------------------------------------------------------- held tokens

  function Tokens(ks: seq<Container>): (r: seq<seq<Tag>>)
    ensures |r| == |ks| && forall i :: 0 <= i < |r| ==> r[i] == ks[i].tokens
  {
    seq(|ks|, i requires 0 <= i < |ks| => ks[i].tokens)
  }

  function InFlight(ts: seq<Thread>): (r: seq<seq<Tag>>)
    ensures |r| == |ts| && forall i :: 0 <= i < |r| ==> r[i] == PhaseTokens(ts[i].phase)
  {
    seq(|ts|, i requires 0 <= i < |ts| => PhaseTokens(ts[i].phase))
  }

  function PhaseTokens(p: Phase): seq<Tag> {
    if p.Granted? then p.tokens else []
  }

  function Held(hs: seq<seq<Tag>>, p: Probe): nat {
    if hs == [] then 0 else Held(hs[..|hs| - 1], p) + Count(hs[|hs| - 1], p)
  }

  lemma {:induction false} HeldUpdate(hs: seq<seq<Tag>>, i: nat, tags: seq<Tag>, p: Probe)
    requires i < |hs|
    ensures Held(hs[i := tags], p) == Held(hs, p) - Count(hs[i], p) + Count(tags, p)
    ensures Held(hs, p) >= Count(hs[i], p)
  {
    var n := |hs| - 1;
    if i == n {
      assert hs[i := tags][..n] == hs[..n];
    } else {
      assert hs[i := tags][..n] == hs[..n][i := tags];
      HeldUpdate(hs[..n], i, tags, p);
    }
  }

  lemma {:induction false} HeldNothing(hs: seq<seq<Tag>>, p: Probe)
    requires forall i :: 0 <= i < |hs| ==> hs[i] == []
    ensures Held(hs, p) == 0
  {
    if hs != [] { HeldNothing(hs[..|hs| - 1], p); }
  }

  /** Every count still leased to a container or on its way to one. */
  function Outstanding(s: System, p: Probe): nat {
    Held(Tokens(s.containers), p) + Held(InFlight(s.threads), p)
  }

  // ---------------------------------------------------------------- invariant

  /** A container's tokens are exactly what its lease says, all claimed in the lease's minute. */
  predicate TokensMatch(k: Container) {
    if k.lease.None? then k.tokens == [] else
    && |k.tokens| == k.lease.value.tokens
    && forall i :: 0 <= i < |k.tokens| ==> k.tokens[i].claimed == k.lease.value.minute
  }

  /** A block in memory is backed by the row, for as long as the stored minute stays put. */
  predicate BlockBacked(row: Row, k: Container) {
    k.lease.Some? && k.lease.value.blockedUntil > 0 ==>
      var s := k.lease.value;
      if s.blockedWindow == DAY then
        row.d >= s.blockedLimit
      else
        && row.w.Some? && k.blockedAt <= row.w.value
        && s.blockedUntil % MINUTE == 0 && s.blockedUntil <= k.blockedAt + MINUTE
        && (row.w.value == k.blockedAt ==> row.m >= s.blockedLimit)
  }

  /** What a claim in progress has learnt from the attempts that failed. */
  predicate PhaseOk(c: Config, row: Row, p: Phase) {
    match p
    case Idle => true
    case Claiming(now, lease, same, attempt, quota) =>
      && Within(quota, c.quota)
      && lease >= 1 && attempt < WRITE_ATTEMPTS
      && (attempt >= 1 && !same ==> Guard(CountPath, row, FloorTo(now, MINUTE)))
      && (attempt == 2 ==> same && Guard(CountPath, row, FloorTo(now, MINUTE)))
      && FloorTo(now, DAY) == c.day
    case Granted(now, lease, after, tokens, quota) =>
      && Within(quota, c.quota)
      && lease >= 1 && lease <= after.m && lease <= after.d
      && Guard(CountPath, after, FloorTo(now, MINUTE))
      && Advances(after, row)
      && tokens == Copies(Grant(quota, lease, after), Tag(FloorTo(now, MINUTE), after.w.value))
      && FloorTo(now, DAY) == c.day
    case Contended => false
  }

  /** Every count charged is admitted, lost, leased or in flight, exactly once. */
  ghost predicate Conserved(s: System) {
    forall p: Probe :: ConservedFor(s, p)
  }

  ghost predicate ConservedFor(s: System, p: Probe) {
    Count(s.charged, p) == Count(s.admitted, p) + Count(s.lost, p) + Outstanding(s, p)
  }

  /** What a stored minute can still have been charged for. */
  function Ceiling(c: Config, row: Row, minute: int): nat {
    if row.w.None? || minute > row.w.value then 0
    else if minute == row.w.value then Min(row.m, c.quota.perMinute)
    else c.quota.perMinute
  }

  ghost predicate Capped(c: Config, s: System) {
    && (forall M: int :: Count(s.charged, StoredIn(M)) <= Ceiling(c, s.row, M))
    && (c.quota.perDay.Some? ==> |s.charged| <= Min(s.row.d, c.quota.perDay.value))
  }

  ghost predicate Inv(c: Config, s: System) {
    && Placed(s)
    && (forall k :: 0 <= k < |s.containers| ==> TokensMatch(s.containers[k]))
    && (forall k :: 0 <= k < |s.containers| ==> BlockBacked(s.row, s.containers[k]))
    && (forall t :: 0 <= t < |s.threads| ==> PhaseOk(c, s.row, s.threads[t].phase))
    && Conserved(s)
    && Capped(c, s)
  }

  lemma InitInv(c: Config, s: System)
    requires c.Valid() && Init(s)
    ensures Inv(c, s)
  {
    forall p: Probe ensures ConservedFor(s, p) {
      HeldNothing(Tokens(s.containers), p);
      HeldNothing(InFlight(s.threads), p);
    }
  }

  /** The row only ever advances, so a rolled-over minute never comes back. */
  lemma RowAdvances(c: Config, s: System, step: Step)
    requires c.Valid() && Inv(c, s) && Enabled(c, s, step)
    ensures Advances(s.row, Next(c, s, step).row)
  {}

  lemma PhaseKept(c: Config, a: Row, b: Row, p: Phase)
    requires PhaseOk(c, a, p) && Advances(a, b)
    ensures PhaseOk(c, b, p)
  {}

  lemma BlockKept(c: Config, a: Row, b: Row, k: Container)
    requires BlockBacked(a, k) && Advances(a, b)
    ensures BlockBacked(b, k)
  {}

  lemma OthersKept(c: Config, s: System, s': System)
    requires Inv(c, s) && Advances(s.row, s'.row)
    ensures forall k :: 0 <= k < |s.containers| ==> BlockBacked(s'.row, s.containers[k])
    ensures forall t :: 0 <= t < |s.threads| ==> PhaseOk(c, s'.row, s.threads[t].phase)
  {
    forall k | 0 <= k < |s.containers| ensures BlockBacked(s'.row, s.containers[k]) {
      BlockKept(c, s.row, s'.row, s.containers[k]);
    }
    forall t | 0 <= t < |s.threads| ensures PhaseOk(c, s'.row, s.threads[t].phase) {
      PhaseKept(c, s.row, s'.row, s.threads[t].phase);
    }
  }

  // ---------------------------------------------------------------- each step keeps the invariant

  /** Replacing one container's tokens changes what is leased by exactly the difference. */
  lemma ContainerSwapped(ks: seq<Container>, h: nat, k: Container, p: Probe)
    requires h < |ks|
    ensures Held(Tokens(ks[h := k]), p) + Count(ks[h].tokens, p) == Held(Tokens(ks), p) + Count(k.tokens, p)
  {
    assert Tokens(ks[h := k]) == Tokens(ks)[h := k.tokens];
    HeldUpdate(Tokens(ks), h, k.tokens, p);
  }

  lemma ThreadSwapped(ts: seq<Thread>, t: nat, next: Thread, p: Probe)
    requires t < |ts|
    ensures Held(InFlight(ts[t := next]), p) + Count(PhaseTokens(ts[t].phase), p)
         == Held(InFlight(ts), p) + Count(PhaseTokens(next.phase), p)
  {
    assert InFlight(ts[t := next]) == InFlight(ts)[t := PhaseTokens(next.phase)];
    HeldUpdate(InFlight(ts), t, PhaseTokens(next.phase), p);
  }

  /** A step that moves counts between one container, one thread and the logs conserves them. */
  lemma Balanced(s: System, s': System, h: nat, t: nat, charged: seq<Tag>, admitted: seq<Tag>, lost: seq<Tag>, p: Probe)
    requires h < |s.containers| && t < |s.threads|
    requires |s'.containers| == |s.containers| && s'.containers == s.containers[h := s'.containers[h]]
    requires |s'.threads| == |s.threads| && s'.threads == s.threads[t := s'.threads[t]]
    requires s'.charged == s.charged + charged
    requires s'.admitted == s.admitted + admitted
    requires s'.lost == s.lost + lost
    requires ConservedFor(s, p)
    requires Count(charged, p) + Count(s.containers[h].tokens, p) + Count(PhaseTokens(s.threads[t].phase), p)
          == Count(admitted, p) + Count(lost, p) + Count(s'.containers[h].tokens, p)
             + Count(PhaseTokens(s'.threads[t].phase), p)
    ensures ConservedFor(s', p)
  {
    CountConcat(s.charged, charged, p);
    CountConcat(s.admitted, admitted, p);
    CountConcat(s.lost, lost, p);
    ContainerSwapped(s.containers, h, s'.containers[h], p);
    ThreadSwapped(s.threads, t, s'.threads[t], p);
  }

  /** A first phase changes its own container and its own thread, which claims nothing yet. */
  lemma BeginFrame(c: Config, s: System, t: nat, now: int, quota: Quota)
    requires c.Valid() && Inv(c, s) && Enabled(c, s, Begin(t, now, quota))
    ensures var s' := DoBegin(c, s, t, now, quota); var h := s.threads[t].home;
      && s'.containers == s.containers[h := s'.containers[h]] && s'.charged == s.charged
      && s'.threads == s.threads[t := s'.threads[t]] && PhaseTokens(s'.threads[t].phase) == PhaseTokens(s.threads[t].phase) == []
  {}

  /** A first phase serves the last token left, if it serves from memory, and drops what another minute's touch throws away. */
  lemma BeginMoves(c: Config, s: System, t: nat, now: int, quota: Quota) returns (used: seq<Tag>, dropped: seq<Tag>)
    requires c.Valid() && Inv(c, s) && Enabled(c, s, Begin(t, now, quota))
    ensures var s' := DoBegin(c, s, t, now, quota); var h := s.threads[t].home;
      && s'.admitted == s.admitted + used && s'.lost == s.lost + dropped
      && if dropped == [] then s.containers[h].tokens == s'.containers[h].tokens + used
         else s'.containers[h].tokens == used == [] && dropped == s.containers[h].tokens
  {
    var s' := DoBegin(c, s, t, now, quota);
    var k := s.containers[s.threads[t].home];
    var (kept, gone) := TouchTokens(k, FloorTo(now, MINUTE));
    used := if |s'.admitted| > |s.admitted| then [kept[|kept| - 1]] else [];
    dropped := gone;
    assert TokensMatch(k);
    assert kept == s'.containers[s.threads[t].home].tokens + used;
  }

  lemma BeginConserves(c: Config, s: System, t: nat, now: int, quota: Quota)
    requires c.Valid() && Inv(c, s) && Enabled(c, s, Begin(t, now, quota))
    ensures Conserved(DoBegin(c, s, t, now, quota))
  {
    var s' := DoBegin(c, s, t, now, quota);
    var h := s.threads[t].home;
    BeginFrame(c, s, t, now, quota);
    var used, dropped := BeginMoves(c, s, t, now, quota);
    forall p: Probe ensures ConservedFor(s', p) {
      assert ConservedFor(s, p);
      CountConcat(s'.containers[h].tokens, used, p);
      assert s'.charged == s.charged + [];
      Balanced(s, s', h, t, [], used, dropped, p);
    }
  }

  lemma BeginTokens(c: Config, s: System, t: nat, now: int, quota: Quota)
    requires c.Valid() && Inv(c, s) && Enabled(c, s, Begin(t, now, quota))
    ensures var h := s.threads[t].home; var s' := DoBegin(c, s, t, now, quota);
      TokensMatch(s'.containers[h]) && BlockBacked(s.row, s'.containers[h])
  {}

  lemma BeginKeeps(c: Config, s: System, t: nat, now: int, quota: Quota)
    requires c.Valid() && Inv(c, s) && Enabled(c, s, Begin(t, now, quota))
    ensures Inv(c, DoBegin(c, s, t, now, quota))
  {
    BeginConserves(c, s, t, now, quota);
    BeginTokens(c, s, t, now, quota);
    var s' := DoBegin(c, s, t, now, quota);
    assert s'.charged == s.charged && s'.row == s.row;
    assert PhaseOk(c, s'.row, s'.threads[t].phase);
  }

  lemma AttemptConserves(c: Config, s: System, t: nat)
    requires c.Valid() && Inv(c, s) && Enabled(c, s, Attempt(t))
    ensures Conserved(DoAttempt(c, s, t))
  {
    var s' := DoAttempt(c, s, t);
    var tokens := PhaseTokens(s'.threads[t].phase);
    forall p: Probe ensures ConservedFor(s', p) {
      assert ConservedFor(s, p);
      assert s'.charged == s.charged + tokens;
      assert s'.admitted == s.admitted + [] && s'.lost == s.lost + [];
      var h := s.threads[t].home;
      assert s.containers == s.containers[h := s.containers[h]];
      Balanced(s, s', h, t, tokens, [], [], p);
    }
  }

  /** What a write grants fits under what its minute could still be charged for. */
  lemma GrantUnderCeiling(c: Config, quota: Quota, path: Path, row: Row, lease: nat, minute: int, M: int)
    requires c.Valid() && Within(quota, c.quota) && Guard(path, row, minute) && lease >= 1
    ensures var after := Write(path, row, lease, minute);
      Ceiling(c, row, M) + (if after.w == Some(M) then Grant(quota, lease, after) else 0) <= Ceiling(c, after, M)
  {}

  lemma GrantUnderDay(quota: Quota, path: Path, row: Row, lease: nat, minute: int, cap: nat)
    requires Guard(path, row, minute) && quota.perDay.Some? && quota.perDay.value <= cap
    ensures var after := Write(path, row, lease, minute);
      Min(row.d, cap) + Grant(quota, lease, after) <= Min(after.d, cap)
  {}

  /** A write charges the row's minute no further than its cap, whichever path it took. */
  lemma AttemptCaps(c: Config, s: System, t: nat)
    requires c.Valid() && Inv(c, s) && Enabled(c, s, Attempt(t))
    ensures Capped(c, DoAttempt(c, s, t))
  {
    var s' := DoAttempt(c, s, t);
    var p := s.threads[t].phase;
    assert PhaseOk(c, s.row, p);
    if s'.threads[t].phase.Granted? {
      var g := s'.threads[t].phase;
      var path, minute := PathOf(p.sameMinute, p.attempt), FloorTo(p.now, MINUTE);
      var tag := Tag(minute, g.after.w.value);
      var n := Grant(p.quota, p.lease, g.after);
      assert s'.charged == s.charged + Copies(n, tag);
      forall M: int ensures Count(s'.charged, StoredIn(M)) <= Ceiling(c, s'.row, M) {
        assert Count(s.charged, StoredIn(M)) <= Ceiling(c, s.row, M);
        CountConcat(s.charged, Copies(n, tag), StoredIn(M));
        CountCopies(n, tag, StoredIn(M));
        GrantUnderCeiling(c, p.quota, path, s.row, p.lease, minute, M);
      }
      if c.quota.perDay.Some? { GrantUnderDay(p.quota, path, s.row, p.lease, minute, c.quota.perDay.value); }
    }
  }

  /** The two guards are complementary, so the attempt after a lost race is the one that holds. */
  lemma AttemptPhase(c: Config, s: System, t: nat)
    requires c.Valid() && Inv(c, s) && Enabled(c, s, Attempt(t))
    ensures var s' := DoAttempt(c, s, t);
      Advances(s.row, s'.row) && PhaseOk(c, s'.row, s'.threads[t].phase)
  {
    assert PhaseOk(c, s.row, s.threads[t].phase);
  }

  lemma AttemptKeeps(c: Config, s: System, t: nat)
    requires c.Valid() && Inv(c, s) && Enabled(c, s, Attempt(t))
    ensures Inv(c, DoAttempt(c, s, t))
  {
    AttemptConserves(c, s, t);
    AttemptCaps(c, s, t);
    AttemptPhase(c, s, t);
    OthersKept(c, s, DoAttempt(c, s, t));
  }

  /** A finish serves the first granted count and leases the rest, or gives up whatever is held. */
  lemma FinishMoves(c: Config, s: System, t: nat) returns (used: seq<Tag>, lost: seq<Tag>)
    requires c.Valid() && Inv(c, s) && Enabled(c, s, Finish(t))
    ensures var s' := DoFinish(c, s, t); var h := s.threads[t].home;
      && s'.containers == s.containers[h := s'.containers[h]]
      && s'.threads == s.threads[t := s'.threads[t]] && s'.threads[t].phase.Idle?
      && s'.charged == s.charged && s'.admitted == s.admitted + used && s'.lost == s.lost + lost
      && forall p: Probe ::
        Count(s.containers[h].tokens, p) + Count(s.threads[t].phase.tokens, p)
        == Count(used, p) + Count(lost, p) + Count(s'.containers[h].tokens, p)
  {
    var h := s.threads[t].home;
    var g := s.threads[t].phase;
    var (kept, dropped) := TouchTokens(s.containers[h], FloorTo(g.now, MINUTE));
    assert PhaseOk(c, s.row, g);
    if |g.tokens| > 0 {
      var first, rest := [g.tokens[0]], g.tokens[1..];
      used, lost := first, dropped;
      assert g.tokens == first + rest;
      forall p: Probe
        ensures Count(g.tokens, p) == Count(first, p) + Count(rest, p)
        ensures Count(kept + rest, p) == Count(kept, p) + Count(rest, p)
      {
        CountConcat(first, rest, p);
        CountConcat(kept, rest, p);
      }
    } else {
      used, lost := [], dropped + kept;
      forall p: Probe ensures Count(dropped + kept, p) == Count(dropped, p) + Count(kept, p) {
        CountConcat(dropped, kept, p);
      }
    }
  }

  lemma FinishConserves(c: Config, s: System, t: nat)
    requires c.Valid() && Inv(c, s) && Enabled(c, s, Finish(t))
    ensures Conserved(DoFinish(c, s, t))
  {
    var s' := DoFinish(c, s, t);
    var h := s.threads[t].home;
    var used, lost := FinishMoves(c, s, t);
    forall p: Probe ensures ConservedFor(s', p) {
      assert ConservedFor(s, p);
      assert s'.charged == s.charged + [];
      Balanced(s, s', h, t, [], used, lost, p);
    }
  }

  lemma FinishTokens(c: Config, s: System, t: nat)
    requires c.Valid() && Inv(c, s) && Enabled(c, s, Finish(t))
    ensures TokensMatch(DoFinish(c, s, t).containers[s.threads[t].home])
  {
    assert PhaseOk(c, s.row, s.threads[t].phase);
  }

  lemma FinishBlock(c: Config, s: System, t: nat)
    requires c.Valid() && Inv(c, s) && Enabled(c, s, Finish(t))
    ensures BlockBacked(s.row, DoFinish(c, s, t).containers[s.threads[t].home])
  {
    var g := s.threads[t].phase;
    assert PhaseOk(c, s.row, g);
    FloorAligned(g.now);
  }

  lemma FinishKeeps(c: Config, s: System, t: nat)
    requires c.Valid() && Inv(c, s) && Enabled(c, s, Finish(t))
    ensures Inv(c, DoFinish(c, s, t))
  {
    FinishConserves(c, s, t);
    FinishTokens(c, s, t);
    FinishBlock(c, s, t);
    var s' := DoFinish(c, s, t);
    assert s'.charged == s.charged && s'.row == s.row;
  }

  lemma FailOpenKeeps(c: Config, s: System, t: nat, applied: bool)
    requires c.Valid() && Inv(c, s) && Enabled(c, s, FailOpen(t, applied))
    ensures Inv(c, DoFailOpen(s, t, applied))
  {
    var s' := DoFailOpen(s, t, applied);
    OthersKept(c, s, s');
    forall p: Probe ensures ConservedFor(s', p) {
      assert ConservedFor(s, p);
      ThreadSwapped(s.threads, t, s'.threads[t], p);
    }
    forall M: int ensures Count(s'.charged, StoredIn(M)) <= Ceiling(c, s'.row, M) {
      assert Count(s.charged, StoredIn(M)) <= Ceiling(c, s.row, M);
    }
  }

  lemma EvictKeeps(c: Config, s: System, h: nat)
    requires c.Valid() && Inv(c, s) && Enabled(c, s, Evict(h))
    ensures Inv(c, DoEvict(s, h))
  {
    var s' := DoEvict(s, h);
    forall p: Probe ensures ConservedFor(s', p) {
      assert ConservedFor(s, p);
      ContainerSwapped(s.containers, h, s'.containers[h], p);
      CountConcat(s.lost, s.containers[h].tokens, p);
    }
  }

  lemma NextKeeps(c: Config, s: System, step: Step)
    requires c.Valid() && Inv(c, s) && Enabled(c, s, step)
    ensures Inv(c, Next(c, s, step))
  {
    match step
    case Begin(t, now, quota) => BeginKeeps(c, s, t, now, quota);
    case Attempt(t) => AttemptKeeps(c, s, t);
    case Finish(t) => FinishKeeps(c, s, t);
    case FailOpen(t, applied) => FailOpenKeeps(c, s, t, applied);
    case Evict(h) => EvictKeeps(c, s, h);
  }
}
