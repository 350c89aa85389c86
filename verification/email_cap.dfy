/**
  The outbound mail caps: one send is counted against up to three counters in one conditional
  write, a single update when one is on and an all-or-nothing transaction when several are.
*/
module EmailCap {
  import opened Options
  import Split

  // ---------------------------------------------------------------- policy

  datatype Scope = Recipient | Tenant | Daily

  datatype Category = Standard | Transactional

  /** A limit of `None` is off. Windows and limits are at least one. */
  datatype Limits = Limits(perRecipient: Option<nat>, recipientWindow: nat, perTenant: Option<nat>, tenantWindow: nat, daily: Option<nat>)

  datatype Policy = Policy(namespace: string, standard: Limits, transactional: Limits)

  const DAY: nat := 86400

  predicate Sensible(l: Limits) {
    && l.recipientWindow >= 1 && l.tenantWindow >= 1
    && (l.perRecipient.Some? ==> l.perRecipient.value >= 1)
    && (l.perTenant.Some? ==> l.perTenant.value >= 1)
    && (l.daily.Some? ==> l.daily.value >= 1)
  }

  predicate Valid(p: Policy) {
    Sensible(p.standard) && Sensible(p.transactional)
  }

  function LimitsFor(p: Policy, category: Category): Limits {
    if category.Transactional? then p.transactional else p.standard
  }

  function LimitOf(p: Policy, category: Category, scope: Scope): Option<nat> {
    var l := LimitsFor(p, category);
    match scope
    case Recipient => l.perRecipient
    case Tenant => l.perTenant
    case Daily => l.daily
  }

  function WindowOf(p: Policy, category: Category, scope: Scope): nat {
    var l := LimitsFor(p, category);
    match scope
    case Recipient => l.recipientWindow
    case Tenant => l.tenantWindow
    case Daily => DAY
  }

  // ---------------------------------------------------------------- keys

  /** One send to count. `recipient` is the hex digest that stands for the address. */
  datatype Send = Send(recipient: string, tenant: string, category: Category, now: nat)

  /** A digest is hexadecimal, so it holds no separator. */
  predicate Digested(s: Send) {
    '#' !in s.recipient
  }

  /** The clock-aligned start of the window holding `now`. */
  function Start(now: nat, window: nat): nat
    requires window >= 1
  {
    now / window * window
  }

  function Digit(d: nat): char
    requires d < 10
  {
    "0123456789"[d]
  }

  function Text(n: nat): string {
    if n < 10 then [Digit(n)] else Text(n / 10) + [Digit(n % 10)]
  }

  function Name(category: Category): string {
    if category.Transactional? then "transactional" else "standard"
  }

  /** What follows the namespace and the category in a counter's key. */
  function Tail(p: Policy, s: Send, scope: Scope): string
    requires Valid(p)
  {
    var start := Text(Start(s.now, WindowOf(p, s.category, scope)));
    match scope
    case Recipient => "rcpt#" + (s.tenant + "#" + s.recipient + "#" + start)
    case Tenant => "tenant#" + (s.tenant + "#" + start)
    case Daily => "daily#" + start
  }

  function Key(p: Policy, s: Send, scope: Scope): string
    requires Valid(p)
  {
    p.namespace + "#" + (Name(s.category) + "#" + Tail(p, s, scope))
  }

  datatype Counter = Counter(scope: Scope, key: string, limit: nat)

  function CounterFor(p: Policy, s: Send, scope: Scope): seq<Counter>
    requires Valid(p)
  {
    var limit := LimitOf(p, s.category, scope);
    if limit.Some? then [Counter(scope, Key(p, s, scope), limit.value)] else []
  }

  /** The counters that are on for the send's category. */
  function Counters(p: Policy, s: Send): seq<Counter>
    requires Valid(p)
  {
    CounterFor(p, s, Recipient) + CounterFor(p, s, Tenant) + CounterFor(p, s, Daily)
  }

  /** Sends the same counter counts, in the terms of the documentation. */
  predicate SameGroup(p: Policy, scope: Scope, s: Send, t: Send)
    requires Valid(p)
  {
    var window := WindowOf(p, s.category, scope);
    && s.category == t.category
    && Start(s.now, window) == Start(t.now, window)
    && (scope.Daily? || s.tenant == t.tenant)
    && (scope.Recipient? ==> s.recipient == t.recipient)
  }

  lemma {:induction false} TextPlain(n: nat)
    ensures '#' !in Text(n)
  {
    if n >= 10 { TextPlain(n / 10); }
  }

  lemma {:induction false} TextInjective(m: nat, n: nat)
    requires Text(m) == Text(n)
    ensures m == n
  {
    var s, t := Text(m), Text(n);
    assert s[|s| - 1] == Digit(m % 10) && t[|t| - 1] == Digit(n % 10);
    assert m % 10 == n % 10;
    TextNonempty(m);
    TextNonempty(n);
    if m >= 10 && n >= 10 {
      assert s[..|s| - 1] == Text(m / 10) && t[..|t| - 1] == Text(n / 10);
      TextInjective(m / 10, n / 10);
    }
  }

  lemma {:induction false} TextNonempty(n: nat)
    ensures |Text(n)| >= (if n < 10 then 1 else 2)
  {
    if n >= 10 { TextNonempty(n / 10); }
  }

  lemma SameFront(front: string, a: string, b: string)
    requires front + a == front + b
    ensures a == b
  {
    assert a == (front + a)[|front|..] && b == (front + b)[|front|..];
  }

  lemma SplitLast(a: string, x: string, b: string, y: string)
    requires '#' !in x && '#' !in y
    requires a + "#" + x == b + "#" + y
    ensures a == b && x == y
  {
    Split.RPartitionJoin(a, '#', x);
    Split.RPartitionJoin(b, '#', y);
  }

  lemma KeySplits(p: Policy, s: Send, sc: Scope, t: Send, td: Scope)
    requires Valid(p) && Key(p, s, sc) == Key(p, t, td)
    ensures s.category == t.category && sc == td && Tail(p, s, sc) == Tail(p, t, td)
  {
    SameFront(p.namespace + "#", Name(s.category) + "#" + Tail(p, s, sc), Name(t.category) + "#" + Tail(p, t, td));
    assert (Name(s.category) + "#" + Tail(p, s, sc))[0] == Name(s.category)[0];
    assert (Name(t.category) + "#" + Tail(p, t, td))[0] == Name(t.category)[0];
    SameFront(Name(s.category) + "#", Tail(p, s, sc), Tail(p, t, td));
    assert Tail(p, s, sc)[0] == Tail(p, t, td)[0];
  }

  lemma TailMeansGroup(p: Policy, s: Send, t: Send, scope: Scope)
    requires Valid(p) && Digested(s) && Digested(t) && s.category == t.category
    requires Tail(p, s, scope) == Tail(p, t, scope)
    ensures SameGroup(p, scope, s, t)
  {
    var window := WindowOf(p, s.category, scope);
    var a, b := Start(s.now, window), Start(t.now, window);
    TextPlain(a);
    TextPlain(b);
    match scope
    case Daily =>
      SameFront("daily#", Text(a), Text(b));
      TextInjective(a, b);
    case Tenant =>
      SameFront("tenant#", s.tenant + "#" + Text(a), t.tenant + "#" + Text(b));
      SplitLast(s.tenant, Text(a), t.tenant, Text(b));
      TextInjective(a, b);
    case Recipient =>
      SameFront("rcpt#", s.tenant + "#" + s.recipient + "#" + Text(a), t.tenant + "#" + t.recipient + "#" + Text(b));
      SplitLast(s.tenant + "#" + s.recipient, Text(a), t.tenant + "#" + t.recipient, Text(b));
      SplitLast(s.tenant, s.recipient, t.tenant, t.recipient);
      TextInjective(a, b);
  }

  /**
    Two counters are one row exactly when they are the same counter on the same group of sends,
    whatever characters the tenant holds.
  */
  lemma KeysMeanGroups(p: Policy, s: Send, sc: Scope, t: Send, td: Scope)
    requires Valid(p) && Digested(s) && Digested(t)
    ensures Key(p, s, sc) == Key(p, t, td) <==> sc == td && SameGroup(p, sc, s, t)
  {
    if Key(p, s, sc) == Key(p, t, td) {
      KeySplits(p, s, sc, t, td);
      TailMeansGroup(p, s, t, sc);
    }
  }

  // ---------------------------------------------------------------- one check

  type Rows = map<string, nat>

  function Count(rows: Rows, key: string): nat {
    if key in rows then rows[key] else 0
  }

  predicate Below(rows: Rows, c: Counter) {
    c.key !in rows || rows[c.key] < c.limit
  }

  predicate AllBelow(rows: Rows, cs: seq<Counter>) {
    cs == [] || (AllBelow(rows, cs[..|cs| - 1]) && Below(rows, cs[|cs| - 1]))
  }

  function Increment(rows: Rows, cs: seq<Counter>): Rows {
    if cs == [] then rows else
    var before := Increment(rows, cs[..|cs| - 1]);
    before[cs[|cs| - 1].key := Count(before, cs[|cs| - 1].key) + 1]
  }

  /** The scopes at their limit, in counter order. */
  function AtLimit(rows: Rows, cs: seq<Counter>): seq<Scope> {
    if cs == [] then []
    else AtLimit(rows, cs[..|cs| - 1]) + if Below(rows, cs[|cs| - 1]) then [] else [cs[|cs| - 1].scope]
  }

  function Scopes(cs: seq<Counter>): seq<Scope> {
    seq(|cs|, i requires 0 <= i < |cs| => cs[i].scope)
  }

  /**
    What the service does with one write: answer it, listing one reason per counter or not, or
    fail, having applied it or not.
  */
  datatype Fate = Answer(aligned: bool) | Fault(applied: bool)

  datatype Decision = Decision(allowed: bool, exceeded: seq<Scope>, failedOpen: bool, counted: bool)

  function Checked(rows: Rows, cs: seq<Counter>, fate: Fate): (Rows, Decision) {
    if cs == [] then (rows, Decision(true, [], false, false))
    else if fate.Fault? then
      (if fate.applied && AllBelow(rows, cs) then Increment(rows, cs) else rows, Decision(true, [], true, true))
    else if AllBelow(rows, cs) then (Increment(rows, cs), Decision(true, [], false, true))
    else (rows, Decision(false, if fate.aligned || |cs| == 1 then AtLimit(rows, cs) else Scopes(cs), false, true))
  }

  /** A refusal always names a counter, and with the reasons lined up names exactly those at their limit. */
  lemma {:induction false} AtLimitExactly(rows: Rows, cs: seq<Counter>)
    ensures AllBelow(rows, cs) <==> AtLimit(rows, cs) == []
    ensures AllBelow(rows, cs) <==> forall i :: 0 <= i < |cs| ==> Below(rows, cs[i])
    ensures forall scope :: scope in AtLimit(rows, cs) <==> exists i :: 0 <= i < |cs| && cs[i].scope == scope && !Below(rows, cs[i])
  {
    AllBelowAt(rows, cs);
    if cs != [] {
      var front, last := cs[..|cs| - 1], cs[|cs| - 1];
      AtLimitExactly(rows, front);
      forall scope
        ensures scope in AtLimit(rows, cs) <==> exists i :: 0 <= i < |cs| && cs[i].scope == scope && !Below(rows, cs[i])
      {
        if i :| 0 <= i < |front| && front[i].scope == scope && !Below(rows, front[i]) { assert cs[i] == front[i]; }
        if i :| 0 <= i < |cs| && cs[i].scope == scope && !Below(rows, cs[i]) && i < |front| { assert front[i] == cs[i]; }
      }
    }
  }

  lemma {:induction false} AllBelowAt(rows: Rows, cs: seq<Counter>)
    ensures AllBelow(rows, cs) <==> forall i :: 0 <= i < |cs| ==> Below(rows, cs[i])
  {
    if cs != [] { AllBelowAt(rows, cs[..|cs| - 1]); }
  }

  /** A refused send changes no row, whichever write was used and however its reasons were listed. */
  lemma RefusalChangesNothing(rows: Rows, cs: seq<Counter>, fate: Fate)
    requires !Checked(rows, cs, fate).1.allowed
    ensures Checked(rows, cs, fate).0 == rows && Checked(rows, cs, fate).1.exceeded != []
    ensures exists i :: 0 <= i < |cs| && Count(rows, cs[i].key) >= cs[i].limit && cs[i].scope in Checked(rows, cs, fate).1.exceeded
  {
    AtLimitExactly(rows, cs);
    var i :| 0 <= i < |cs| && !Below(rows, cs[i]);
    assert Scopes(cs)[i] == cs[i].scope;
  }

  lemma CounterHits(p: Policy, s: Send, sc: Scope, t: Send, scope: Scope)
    requires Valid(p) && Digested(s) && Digested(t)
    ensures Hits(CounterFor(p, s, sc), Key(p, t, scope))
         == if sc == scope && LimitOf(p, s.category, scope).Some? && SameGroup(p, scope, s, t) then 1 else 0
  {
    KeysMeanGroups(p, s, sc, t, scope);

  }

  /** An increment adds one to the row of each counter, and touches no other row. */
  lemma IncrementCounts(p: Policy, s: Send, rows: Rows, t: Send, scope: Scope)
    requires Valid(p) && Digested(s) && Digested(t)
    ensures Count(Increment(rows, Counters(p, s)), Key(p, t, scope))
         == Count(rows, Key(p, t, scope))
            + if LimitOf(p, s.category, scope).Some? && SameGroup(p, scope, s, t) then 1 else 0
  {
    var key := Key(p, t, scope);
    var a, b, c := CounterFor(p, s, Recipient), CounterFor(p, s, Tenant), CounterFor(p, s, Daily);
    CounterHits(p, s, Recipient, t, scope);
    CounterHits(p, s, Tenant, t, scope);
    CounterHits(p, s, Daily, t, scope);
    IncrementJoin(rows, a, b, key);
    IncrementJoin(rows, a + b, c, key);
  }

  /** How many of the counters are this row. */
  function Hits(cs: seq<Counter>, key: string): nat {
    if cs == [] then 0 else Hits(cs[..|cs| - 1], key) + if cs[|cs| - 1].key == key then 1 else 0
  }

  lemma {:induction false} IncrementHits(rows: Rows, cs: seq<Counter>, key: string)
    ensures Count(Increment(rows, cs), key) == Count(rows, key) + Hits(cs, key)
  {
    if cs != [] { IncrementHits(rows, cs[..|cs| - 1], key); }
  }

  lemma IncrementJoin(rows: Rows, a: seq<Counter>, b: seq<Counter>, key: string)
    requires |b| <= 1
    ensures Count(Increment(rows, a + b), key) == Count(Increment(rows, a), key) + Hits(b, key)
    ensures Count(Increment(rows, a), key) == Count(rows, key) + Hits(a, key)
  {
    IncrementHits(rows, a, key);
    IncrementHits(rows, a + b, key);
    if b == [] { assert a + b == a; } else { assert (a + b)[..|a|] == a && b[..0] == []; }
  }

  // ---------------------------------------------------------------- runs

  datatype Attempt = Attempt(send: Send, fate: Fate)

  /** `admitted` were allowed and counted, `lost` were counted by a write whose answer never came. */
  datatype State = State(rows: Rows, admitted: seq<Send>, lost: seq<Send>)

  function Next(p: Policy, x: State, a: Attempt): State
    requires Valid(p)
  {
    var cs := Counters(p, a.send);
    var (rows, decision) := Checked(x.rows, cs, a.fate);
    if cs == [] || !decision.allowed then x.(rows := rows)
    else if !decision.failedOpen then State(rows, x.admitted + [a.send], x.lost)
    else if a.fate.applied && AllBelow(x.rows, cs) then State(rows, x.admitted, x.lost + [a.send])
    else x.(rows := rows)
  }

  function Run(p: Policy, run: seq<Attempt>): State
    requires Valid(p)
  {
    if run == [] then State(map[], [], []) else Next(p, Run(p, run[..|run| - 1]), run[|run| - 1])
  }

  predicate AllDigested(run: seq<Attempt>) {
    forall i :: 0 <= i < |run| ==> Digested(run[i].send)
  }

  /** How many of these sends one counter counts. */
  function InGroup(p: Policy, sends: seq<Send>, scope: Scope, t: Send): nat
    requires Valid(p)
  {
    if sends == [] then 0
    else InGroup(p, sends[..|sends| - 1], scope, t) + if SameGroup(p, scope, sends[|sends| - 1], t) then 1 else 0
  }

  predicate RowKept(p: Policy, x: State, scope: Scope, t: Send)
    requires Valid(p)
  {
    var limit := LimitOf(p, t.category, scope);
    limit.Some? ==>
      Count(x.rows, Key(p, t, scope)) == InGroup(p, x.admitted, scope, t) + InGroup(p, x.lost, scope, t) <= limit.value
  }

  lemma CounterIsIn(p: Policy, s: Send, scope: Scope)
    requires Valid(p) && LimitOf(p, s.category, scope).Some?
    ensures Counter(scope, Key(p, s, scope), LimitOf(p, s.category, scope).value) in Counters(p, s)
  {
    assert CounterFor(p, s, scope)[0] == Counter(scope, Key(p, s, scope), LimitOf(p, s.category, scope).value);
  }

  lemma InGroupPush(p: Policy, sends: seq<Send>, s: Send, scope: Scope, t: Send)
    requires Valid(p)
    ensures InGroup(p, sends + [s], scope, t) == InGroup(p, sends, scope, t) + if SameGroup(p, scope, s, t) then 1 else 0
  {
    assert (sends + [s])[..|sends|] == sends;
  }

  lemma GuardHolds(p: Policy, rows: Rows, s: Send, scope: Scope, t: Send)
    requires Valid(p) && Digested(s) && Digested(t) && SameGroup(p, scope, s, t)
    requires LimitOf(p, s.category, scope).Some? && AllBelow(rows, Counters(p, s))
    ensures Count(rows, Key(p, t, scope)) < LimitOf(p, t.category, scope).value || Key(p, t, scope) !in rows
  {
    AtLimitExactly(rows, Counters(p, s));
    CounterIsIn(p, s, scope);
    KeysMeanGroups(p, s, scope, t, scope);
  }

  lemma LimitPositive(p: Policy, category: Category, scope: Scope)
    requires Valid(p) && LimitOf(p, category, scope).Some?
    ensures LimitOf(p, category, scope).value >= 1
  {}

  predicate Counts(p: Policy, x: State, a: Attempt)
    requires Valid(p)
  {
    var cs := Counters(p, a.send);
    cs != [] && AllBelow(x.rows, cs) && (a.fate.Answer? || a.fate.applied)
  }

  /** A write that lands increments every counter; any other leaves the rows, and lets through only what failed open. */
  lemma CheckedCases(rows: Rows, cs: seq<Counter>, fate: Fate)
    requires cs != []
    ensures var (after, d) := Checked(rows, cs, fate);
      if AllBelow(rows, cs) && (fate.Answer? || fate.applied)
      then after == Increment(rows, cs) && d.allowed && d.failedOpen == fate.Fault?
      else after == rows && (d.allowed <==> fate.Fault?) && (d.allowed ==> d.failedOpen)
  {
    AtLimitExactly(rows, cs);
  }

  lemma NextCases(p: Policy, x: State, a: Attempt)
    requires Valid(p)
    ensures var y := Next(p, x, a);
      if Counts(p, x, a) then
        && y.rows == Increment(x.rows, Counters(p, a.send))
        && ((y.admitted == x.admitted + [a.send] && y.lost == x.lost) || (y.admitted == x.admitted && y.lost == x.lost + [a.send]))
      else y == x
  {
    var cs := Counters(p, a.send);
    if cs != [] { CheckedCases(x.rows, cs, a.fate); }
  }

  lemma NextKeeps(p: Policy, x: State, a: Attempt, scope: Scope, t: Send)
    requires Valid(p) && Digested(a.send) && Digested(t) && RowKept(p, x, scope, t)
    ensures RowKept(p, Next(p, x, a), scope, t)
  {
    NextCases(p, x, a);
    if Counts(p, x, a) && LimitOf(p, t.category, scope).Some? {
      IncrementCounts(p, a.send, x.rows, t, scope);
      InGroupPush(p, x.admitted, a.send, scope, t);
      InGroupPush(p, x.lost, a.send, scope, t);
      if SameGroup(p, scope, a.send, t) {
        GuardHolds(p, x.rows, a.send, scope, t);
        LimitPositive(p, t.category, scope);
      }
    }
  }

  lemma {:induction false} RunKeeps(p: Policy, run: seq<Attempt>, scope: Scope, t: Send)
    requires Valid(p) && AllDigested(run) && Digested(t)
    ensures RowKept(p, Run(p, run), scope, t)
  {
    if run != [] {
      RunKeeps(p, run[..|run| - 1], scope, t);
      NextKeeps(p, Run(p, run[..|run| - 1]), run[|run| - 1], scope, t);
    }
  }

  /**
    Over any run of checks, by any senders and in any order of their clocks, no recipient, tenant
    or day ever sees more counted sends in a window than its limit.
  */
  lemma NeverOverCap(p: Policy, run: seq<Attempt>, scope: Scope, t: Send)
    requires Valid(p) && AllDigested(run) && Digested(t) && LimitOf(p, t.category, scope).Some?
    ensures InGroup(p, Run(p, run).admitted, scope, t) <= LimitOf(p, t.category, scope).value
  {
    RunKeeps(p, run, scope, t);
  }

  /** A refused send met a window whose limit was spent to the last by counted sends of its own group. */
  lemma RefusalJustified(p: Policy, run: seq<Attempt>, a: Attempt) returns (scope: Scope)
    requires Valid(p) && AllDigested(run) && Digested(a.send)
    requires !Checked(Run(p, run).rows, Counters(p, a.send), a.fate).1.allowed
    ensures scope in Checked(Run(p, run).rows, Counters(p, a.send), a.fate).1.exceeded
    ensures LimitOf(p, a.send.category, scope).Some?
    ensures InGroup(p, Run(p, run).admitted, scope, a.send) + InGroup(p, Run(p, run).lost, scope, a.send)
         == LimitOf(p, a.send.category, scope).value
  {
    var x := Run(p, run);
    var cs := Counters(p, a.send);
    RefusalChangesNothing(x.rows, cs, a.fate);
    var i :| 0 <= i < |cs| && Count(x.rows, cs[i].key) >= cs[i].limit && cs[i].scope in Checked(x.rows, cs, a.fate).1.exceeded;
    scope := cs[i].scope;
    CounterOwn(p, a.send, i);
    RunKeeps(p, run, scope, a.send);
  }

  lemma CounterOwn(p: Policy, s: Send, i: nat)
    requires Valid(p) && i < |Counters(p, s)|
    ensures var c := Counters(p, s)[i];
      LimitOf(p, s.category, c.scope) == Some(c.limit) && c.key == Key(p, s, c.scope)
  {}

  /** Mail of one category never moves a counter of the other, so standard mail cannot spend identity mail's allowance. */
  lemma CategoriesApart(p: Policy, x: State, a: Attempt, t: Send, scope: Scope)
    requires Valid(p) && Digested(a.send) && Digested(t) && a.send.category != t.category
    ensures Count(Next(p, x, a).rows, Key(p, t, scope)) == Count(x.rows, Key(p, t, scope))
  {
    NextCases(p, x, a);
    IncrementCounts(p, a.send, x.rows, t, scope);
  }

  // ---------------------------------------------------------------- the object

  datatype Written = Done | Conditional(reasons: seq<bool>) | Error

  /** One reason per action: whether its own condition failed. */
  function Reasons(rows: Rows, cs: seq<Counter>): (r: seq<bool>)
    ensures |r| == |cs| && forall i :: 0 <= i < |cs| ==> r[i] == !Below(rows, cs[i])
  {
    seq(|cs|, i requires 0 <= i < |cs| => !Below(rows, cs[i]))
  }

  /** The counter table. A cancelled transaction lists a reason per action, or a list that does not line up. */
  class CounterRows {
    var rows: Rows

    constructor ()
      ensures rows == map[]
    {
      rows := map[];
    }

    method Update(c: Counter) returns (w: Written, ghost fate: Fate)
      modifies this
      ensures w.Error? <==> fate.Fault?
      ensures fate.Answer? ==> (w.Done? <==> Below(old(rows), c))
      ensures rows == if (fate.Answer? || fate.applied) && Below(old(rows), c) then Increment(old(rows), [c]) else old(rows)
    {
      var answers: bool := *;
      var applied: bool := *;
      fate := if answers then Answer(true) else Fault(applied);
      var below := Below(rows, c);
      if (answers || applied) && below {
        assert [c][..0] == [];
        rows := rows[c.key := Count(rows, c.key) + 1];
      }
      w := if !answers then Error else if below then Done else Conditional([true]);
    }

    method TransactWrite(cs: seq<Counter>) returns (w: Written, ghost fate: Fate)
      modifies this
      ensures w.Error? <==> fate.Fault?
      ensures fate.Answer? ==> (w.Done? <==> AllBelow(old(rows), cs))
      ensures w.Conditional? ==> (|w.reasons| == |cs| <==> fate.aligned)
      ensures w.Conditional? && fate.aligned ==> forall i :: 0 <= i < |cs| ==> w.reasons[i] == !Below(old(rows), cs[i])
      ensures rows == if (fate.Answer? || fate.applied) && AllBelow(old(rows), cs) then Increment(old(rows), cs) else old(rows)
    {
      var answers: bool := *;
      var applied: bool := *;
      var short: bool := *;
      fate := if answers then Answer(!short) else Fault(applied);
      var below := AllBelow(rows, cs);
      w := if !answers then Error else if below then Done
           else if short then Conditional(seq(|cs| + 1, i => true))
           else Conditional(Reasons(rows, cs));
      if (answers || applied) && below {
        rows := Increment(rows, cs);
      }
    }
  }

  /** The scopes whose reason is a failed condition, or all of them when the reasons do not line up. */
  function FailedScopes(cs: seq<Counter>, reasons: seq<bool>): seq<Scope> {
    if |reasons| != |cs| then Scopes(cs)
    else if cs == [] then []
    else FailedScopes(cs[..|cs| - 1], reasons[..|cs| - 1]) + if reasons[|cs| - 1] then [cs[|cs| - 1].scope] else []
  }

  lemma {:induction false} FailedScopesAreAtLimit(rows: Rows, cs: seq<Counter>, reasons: seq<bool>)
    requires |reasons| == |cs| && forall i :: 0 <= i < |cs| ==> reasons[i] == !Below(rows, cs[i])
    ensures FailedScopes(cs, reasons) == AtLimit(rows, cs)
  {
    if cs != [] { FailedScopesAreAtLimit(rows, cs[..|cs| - 1], reasons[..|cs| - 1]); }
  }

  class EmailSendCap {
    const policy: Policy
    const table: CounterRows

    constructor (policy: Policy, table: CounterRows)
      requires Valid(policy)
      ensures this.policy == policy && this.table == table
    {
      this.policy := policy;
      this.table := table;
    }

    /** `None` is the fault that `check` turns into a send let through. */
    method CountSend(cs: seq<Counter>) returns (exceeded: Option<seq<Scope>>, ghost fate: Fate)
      requires cs != []
      modifies table
      ensures (table.rows, if exceeded.None? then Decision(true, [], true, true) else Decision(exceeded.value == [], exceeded.value, false, true))
           == Checked(old(table.rows), cs, fate)
    {
      ghost var rows := table.rows;
      AtLimitExactly(rows, cs);
      var w;
      if |cs| == 1 {
        assert cs[..0] == [] && cs == [cs[0]];
        assert AtLimit(rows, cs) == if Below(rows, cs[0]) then [] else [cs[0].scope];
        w, fate := table.Update(cs[0]);
        return if w.Error? then None else if w.Done? then Some([]) else Some([cs[0].scope]), fate;
      }
      w, fate := table.TransactWrite(cs);
      if w.Error? {
        return None, fate;
      }
      if w.Done? {
        return Some([]), fate;
      }
      if fate.aligned {
        FailedScopesAreAtLimit(rows, cs, w.reasons);
      }
      exceeded := Some(FailedScopes(cs, w.reasons));
    }

    method Check(send: Send) returns (d: Decision, ghost fate: Fate)
      requires Valid(policy)
      modifies table
      ensures (table.rows, d) == Checked(old(table.rows), Counters(policy, send), fate)
    {
      fate := Answer(true);
      var cs := Counters(policy, send);
      if cs == [] {
        return Decision(true, [], false, false), fate;
      }
      var exceeded;
      exceeded, fate := CountSend(cs);
      if exceeded.None? {
        return Decision(true, [], true, true), fate;
      }
      d := Decision(exceeded.value == [], exceeded.value, false, true);
    }
  }
}
