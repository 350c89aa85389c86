/** The caps in the policy's own fields: how many sends to one recipient, for one tenant and in one day. */
module EmailWindows {
  import opened Options
  import opened EmailCap

  /** How many of these sends have a property. */
  function Sent(sends: seq<Send>, counted: Send -> bool): nat {
    if sends == [] then 0 else Sent(sends[..|sends| - 1], counted) + if counted(sends[|sends| - 1]) then 1 else 0
  }

  /** Mail of one category to one recipient of one tenant, in the recipient window of this moment. */
  function ToRecipient(category: Category, tenant: string, recipient: string, window: nat, moment: nat): Send -> bool
    requires window >= 1
  {
    (s: Send) => s.category == category && s.tenant == tenant && s.recipient == recipient && s.now / window == moment / window
  }

  /** Mail of one category for one tenant, in the tenant window of this moment. */
  function ForTenant(category: Category, tenant: string, window: nat, moment: nat): Send -> bool
    requires window >= 1
  {
    (s: Send) => s.category == category && s.tenant == tenant && s.now / window == moment / window
  }

  /** Mail of one category in the day of this moment. */
  function InDay(category: Category, moment: nat): Send -> bool {
    (s: Send) => s.category == category && s.now / 86400 == moment / 86400
  }

  lemma SameStart(a: nat, b: nat, window: nat)
    requires window >= 1
    ensures Start(a, window) == Start(b, window) <==> a / window == b / window
  {
    var d := a / window - b / window;
    assert Start(a, window) - Start(b, window) == d * window;
    if d > 0 { Grows(1, d, window); }
    if d < 0 { Grows(1, -d, window); }
  }

  lemma Grows(a: int, b: int, window: nat)
    requires 0 <= a <= b
    ensures a * window <= b * window
  {
    assert (b - a) * window >= 0;
  }

  lemma {:induction false} GroupIsSent(p: Policy, sends: seq<Send>, scope: Scope, t: Send, counted: Send -> bool)
    requires Valid(p) && forall s: Send :: SameGroup(p, scope, s, t) <==> counted(s)
    ensures InGroup(p, sends, scope, t) == Sent(sends, counted)
  {
    if sends != [] { GroupIsSent(p, sends[..|sends| - 1], scope, t, counted); }
  }

  /** A counter that is on, in the terms of its group: its limit, and what it counts. */
  ghost predicate Means(p: Policy, scope: Scope, t: Send, limit: Option<nat>, counted: Send -> bool)
    requires Valid(p)
  {
    match scope
    case Recipient =>
      var l := if t.category == Transactional then p.transactional else p.standard;
      limit == l.perRecipient && counted == ToRecipient(t.category, t.tenant, t.recipient, l.recipientWindow, t.now)
    case Tenant =>
      var l := if t.category == Transactional then p.transactional else p.standard;
      limit == l.perTenant && counted == ForTenant(t.category, t.tenant, l.tenantWindow, t.now)
    case Daily =>
      var l := if t.category == Transactional then p.transactional else p.standard;
      limit == l.daily && counted == InDay(t.category, t.now)
  }

  lemma GroupMeans(p: Policy, sends: seq<Send>, scope: Scope, t: Send, limit: Option<nat>, counted: Send -> bool)
    requires Valid(p) && Means(p, scope, t, limit, counted)
    ensures LimitOf(p, t.category, scope) == limit && InGroup(p, sends, scope, t) == Sent(sends, counted)
  {
    forall s: Send ensures SameGroup(p, scope, s, t) <==> counted(s) {
      if s.category == t.category { SameStart(s.now, t.now, WindowOf(p, t.category, scope)); }
    }
    GroupIsSent(p, sends, scope, t, counted);
  }

  // ---------------------------------------------------------------- the caps

  /** Over any run, no recipient of a tenant is sent more counted mail in a window than its limit. */
  lemma RecipientCap(p: Policy, run: seq<Attempt>, category: Category, tenant: string, recipient: string, moment: nat)
    requires Valid(p) && AllDigested(run) && '#' !in recipient
    ensures var l := if category == Transactional then p.transactional else p.standard;
      l.perRecipient.Some? ==>
        Sent(Run(p, run).admitted, ToRecipient(category, tenant, recipient, l.recipientWindow, moment)) <= l.perRecipient.value
  {
    var l := if category == Transactional then p.transactional else p.standard;
    var t := Send(recipient, tenant, category, moment);
    GroupMeans(p, Run(p, run).admitted, Recipient, t, l.perRecipient, ToRecipient(category, tenant, recipient, l.recipientWindow, moment));
    if l.perRecipient.Some? { NeverOverCap(p, run, Recipient, t); }
  }

  /** Nor does a tenant send more in its window. */
  lemma TenantCap(p: Policy, run: seq<Attempt>, category: Category, tenant: string, moment: nat)
    requires Valid(p) && AllDigested(run)
    ensures var l := if category == Transactional then p.transactional else p.standard;
      l.perTenant.Some? ==> Sent(Run(p, run).admitted, ForTenant(category, tenant, l.tenantWindow, moment)) <= l.perTenant.value
  {
    var l := if category == Transactional then p.transactional else p.standard;
    var t := Send("", tenant, category, moment);
    GroupMeans(p, Run(p, run).admitted, Tenant, t, l.perTenant, ForTenant(category, tenant, l.tenantWindow, moment));
    if l.perTenant.Some? { NeverOverCap(p, run, Tenant, t); }
  }

  /** Nor is more sent in a day. */
  lemma DailyCap(p: Policy, run: seq<Attempt>, category: Category, moment: nat)
    requires Valid(p) && AllDigested(run)
    ensures var l := if category == Transactional then p.transactional else p.standard;
      l.daily.Some? ==> Sent(Run(p, run).admitted, InDay(category, moment)) <= l.daily.value
  {
    var l := if category == Transactional then p.transactional else p.standard;
    var t := Send("", "", category, moment);
    GroupMeans(p, Run(p, run).admitted, Daily, t, l.daily, InDay(category, moment));
    if l.daily.Some? { NeverOverCap(p, run, Daily, t); }
  }

  // ---------------------------------------------------------------- exactly which sends go

  /** A limit that is on and spent by what was counted, admitted or lost to a fault. */
  predicate Spent(limit: Option<nat>, x: State, counted: Send -> bool) {
    limit.Some? && Sent(x.admitted, counted) + Sent(x.lost, counted) >= limit.value
  }

  lemma CounterSpent(p: Policy, run: seq<Attempt>, s: Send, scope: Scope, limit: Option<nat>, counted: Send -> bool)
    requires Valid(p) && AllDigested(run) && Digested(s) && Means(p, scope, s, limit, counted)
    ensures Spent(limit, Run(p, run), counted) <==>
      exists i :: 0 <= i < |Counters(p, s)| && Counters(p, s)[i].scope == scope && !Below(Run(p, run).rows, Counters(p, s)[i])
  {
    var x := Run(p, run);
    GroupMeans(p, x.admitted, scope, s, limit, counted);
    GroupMeans(p, x.lost, scope, s, limit, counted);
    RunKeeps(p, run, scope, s);
    if limit.Some? {
      CounterIsIn(p, s, scope);
      LimitPositive(p, s.category, scope);
      var c := Counter(scope, Key(p, s, scope), limit.value);
      var i :| 0 <= i < |Counters(p, s)| && Counters(p, s)[i] == c;
      assert !Below(x.rows, c) <==> Spent(limit, x, counted);
    }
    if i :| 0 <= i < |Counters(p, s)| && Counters(p, s)[i].scope == scope && !Below(x.rows, Counters(p, s)[i]) { CounterOwn(p, s, i); }
  }

  /** The spent limits of a send's own category. */
  predicate RecipientSpent(p: Policy, x: State, s: Send)
    requires Valid(p)
  {
    var l := if s.category == Transactional then p.transactional else p.standard;
    Spent(l.perRecipient, x, ToRecipient(s.category, s.tenant, s.recipient, l.recipientWindow, s.now))
  }

  predicate TenantSpent(p: Policy, x: State, s: Send)
    requires Valid(p)
  {
    var l := if s.category == Transactional then p.transactional else p.standard;
    Spent(l.perTenant, x, ForTenant(s.category, s.tenant, l.tenantWindow, s.now))
  }

  predicate DaySpent(p: Policy, x: State, s: Send)
    requires Valid(p)
  {
    var l := if s.category == Transactional then p.transactional else p.standard;
    Spent(l.daily, x, InDay(s.category, s.now))
  }

  /**
    After any run, a send whose write is answered goes exactly when none of its recipient's, tenant's and
    day's limits is spent. With a reason for each counter a refusal names exactly the spent ones.
  */
  lemma AnsweredExactly(p: Policy, run: seq<Attempt>, s: Send, aligned: bool)
    requires Valid(p) && AllDigested(run) && Digested(s)
    ensures var x := Run(p, run); var d := Checked(x.rows, Counters(p, s), Answer(aligned)).1;
      && (d.allowed <==> !RecipientSpent(p, x, s) && !TenantSpent(p, x, s) && !DaySpent(p, x, s))
      && (aligned && !d.allowed ==>
            (Recipient in d.exceeded <==> RecipientSpent(p, x, s))
            && (Tenant in d.exceeded <==> TenantSpent(p, x, s))
            && (Daily in d.exceeded <==> DaySpent(p, x, s)))
  {
    var x, l := Run(p, run), if s.category == Transactional then p.transactional else p.standard;
    CounterSpent(p, run, s, Recipient, l.perRecipient, ToRecipient(s.category, s.tenant, s.recipient, l.recipientWindow, s.now));
    CounterSpent(p, run, s, Tenant, l.perTenant, ForTenant(s.category, s.tenant, l.tenantWindow, s.now));
    CounterSpent(p, run, s, Daily, l.daily, InDay(s.category, s.now));
    AtLimitExactly(x.rows, Counters(p, s));
    Which(x.rows, Counters(p, s));
  }

  /** Some counter is at its limit exactly when one of the three kinds is. */
  lemma Which(rows: Rows, cs: seq<Counter>)
    ensures !AllBelow(rows, cs) <==>
      (exists i :: 0 <= i < |cs| && cs[i].scope == Recipient && !Below(rows, cs[i]))
      || (exists i :: 0 <= i < |cs| && cs[i].scope == Tenant && !Below(rows, cs[i]))
      || (exists i :: 0 <= i < |cs| && cs[i].scope == Daily && !Below(rows, cs[i]))
  {
    AtLimitExactly(rows, cs);
    if i :| 0 <= i < |cs| && !Below(rows, cs[i]) {
      match cs[i].scope
      case Recipient => assert cs[i].scope == Recipient;
      case Tenant => assert cs[i].scope == Tenant;
      case Daily => assert cs[i].scope == Daily;
    }
  }

  // ---------------------------------------------------------------- sends that are not capped

  /**
    A send of a category with no limit on goes uncounted and touches no row. With a limit on, a write that
    fails lets the send go, failed open and with no counter named; one that is answered never fails open.
  */
  lemma UncappedExactly(p: Policy, rows: Rows, s: Send, fate: Fate)
    requires Valid(p)
    ensures var l := if s.category == Transactional then p.transactional else p.standard;
      var (after, d) := Checked(rows, Counters(p, s), fate);
      && (d.counted <==> l.perRecipient.Some? || l.perTenant.Some? || l.daily.Some?)
      && (!d.counted ==> d.allowed && !d.failedOpen && d.exceeded == [] && after == rows)
      && (d.failedOpen <==> d.counted && fate.Fault?)
      && (d.failedOpen ==> d.allowed && d.exceeded == [])
      && (d.allowed <==> d.exceeded == [])
  {
    var cs := Counters(p, s);
    assert CounterFor(p, s, Recipient) != [] || CounterFor(p, s, Tenant) != [] || CounterFor(p, s, Daily) != [] <==> cs != [];
    if cs != [] { AtLimitExactly(rows, cs); }
  }
}
