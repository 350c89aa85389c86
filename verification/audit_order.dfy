/** Events newest first: strictly descending ids, sorting, and why the order is unique. */
module AuditOrder {
  import opened Options
  import opened Lex
  import opened AuditEvents

  ghost predicate Descending(s: seq<Event>) {
    s == [] ||
    var n := |s| - 1;
    Descending(s[..n]) && forall e :: e in s[..n] ==> Less(s[n].id, e.id)
  }

  /** Ids are unique per tenant, as a table's primary key makes them. */
  ghost predicate Keyed(rows: seq<Event>) {
    forall a, b :: a in rows && b in rows && a.tenant == b.tenant && a.id == b.id ==> a == b
  }

  predicate Before(id: string, mark: Option<string>) {
    mark.Some? ==> Less(id, mark.value)
  }

  /** Everything read so far lies at or above the mark; at the end of a walk there is none. */
  predicate Reached(id: string, mark: Option<string>) {
    mark.Some? ==> AtMost(mark.value, id)
  }

  // ---------------------------------------------------------------- the order is unique

  lemma {:induction false} DescendingConcat(a: seq<Event>, b: seq<Event>)
    requires Descending(a) && Descending(b)
    requires forall x, y :: x in a && y in b ==> Less(y.id, x.id)
    ensures Descending(a + b)
  {
    if b == [] {
      assert a + b == a;
    } else {
      var n := |b| - 1;
      assert (a + b)[..|a + b| - 1] == a + b[..n];
      DescendingConcat(a, b[..n]);
    }
  }

  lemma {:induction false} DescendingSplit(a: seq<Event>, b: seq<Event>)
    requires Descending(a + b)
    ensures Descending(a) && Descending(b)
    ensures forall x, y :: x in a && y in b ==> Less(y.id, x.id)
  {
    if b == [] {
      assert a + b == a;
    } else {
      var n := |b| - 1;
      assert (a + b)[..|a + b| - 1] == a + b[..n];
      DescendingSplit(a, b[..n]);
    }
  }

  /** The last of a descending sequence is below all others. */
  lemma LowestLast(s: seq<Event>, e: Event)
    requires Descending(s) && e in s
    ensures s != [] && AtMost(s[|s| - 1].id, e.id)
    ensures e == s[|s| - 1] || e in s[..|s| - 1]
  {
    var n := |s| - 1;
    assert s == s[..n] + [s[n]];
  }

  lemma SameLast(a: seq<Event>, b: seq<Event>)
    requires Descending(a) && Descending(b) && a != [] && b != []
    requires b[|b| - 1] in a && a[|a| - 1] in b
    ensures a[|a| - 1] == b[|b| - 1]
  {
    var x, y := a[|a| - 1], b[|b| - 1];
    LowestLast(a, y);
    LowestLast(b, x);
    if x.id != y.id { Asymmetric(x.id, y.id); }
    Irreflexive(x.id);
  }

  lemma FrontMembers(s: seq<Event>, e: Event)
    requires Descending(s) && s != []
    ensures e in s[..|s| - 1] <==> e in s && e != s[|s| - 1]
  {
    var n := |s| - 1;
    Irreflexive(s[n].id);
    assert s == s[..n] + [s[n]];
  }

  lemma SomeMember(s: seq<Event>)
    ensures s == [] || exists e :: e in s
  {
    if s != [] { assert s[0] in s; }
  }

  lemma SameFronts(a: seq<Event>, b: seq<Event>, frontA: seq<Event>, frontB: seq<Event>)
    requires Descending(a) && Descending(b) && a != [] && b != []
    requires frontA == a[..|a| - 1] && frontB == b[..|b| - 1]
    requires forall e :: e in a <==> e in b
    ensures a[|a| - 1] == b[|b| - 1]
    ensures forall e :: e in frontA <==> e in frontB
  {
    assert a[|a| - 1] in b && b[|b| - 1] in a;
    SameLast(a, b);
    forall e ensures e in frontA <==> e in frontB {
      FrontMembers(a, e);
      FrontMembers(b, e);
    }
  }

  /** Two strictly descending sequences of the same events are equal. */
  lemma {:induction false} SameEventsSameOrder(a: seq<Event>, b: seq<Event>)
    requires Descending(a) && Descending(b)
    requires forall e :: e in a <==> e in b
    ensures a == b
  {
    if a == [] {
      SomeMember(b);
    } else {
      assert a[0] in b;
      var m, n := |a| - 1, |b| - 1;
      SameFronts(a, b, a[..m], b[..n]);
      SameEventsSameOrder(a[..m], b[..n]);
      assert a == a[..m] + [a[m]] && b == b[..n] + [b[n]];
    }
  }

  // ---------------------------------------------------------------- selecting and sorting

  function Insert(s: seq<Event>, e: Event): (r: seq<Event>)
    ensures forall x :: x in r <==> x in s || x == e
    ensures |r| == |s| + 1
  {
    if s == [] then [e] else
    var n := |s| - 1;
    if Less(e.id, s[n].id) then s + [e] else
    assert s == s[..n] + [s[n]];
    Insert(s[..n], e) + [s[n]]
  }

  function Sort(s: seq<Event>): (r: seq<Event>)
    ensures forall x :: x in r <==> x in s
    ensures |r| == |s|
  {
    if s == [] then [] else
    assert s == s[..|s| - 1] + [s[|s| - 1]];
    Insert(Sort(s[..|s| - 1]), s[|s| - 1])
  }

  lemma {:induction false} InsertDescends(s: seq<Event>, e: Event)
    requires Descending(s) && forall x :: x in s ==> x.id != e.id
    ensures Descending(Insert(s, e))
  {
    if s != [] {
      var n := |s| - 1;
      if Less(e.id, s[n].id) {
        forall x | x in s ensures Less(e.id, x.id) {
          LowestLast(s, x);
          if x != s[n] { Transitive(e.id, s[n].id, x.id); }
        }
        assert (s + [e])[..|s|] == s;
      } else {
        assert s[n] in s;
        Total(e.id, s[n].id);
        InsertDescends(s[..n], e);
        var r := Insert(s[..n], e) + [s[n]];
        assert r[..|r| - 1] == Insert(s[..n], e);
      }
    }
  }

  /** No two of these events share an id, and none is listed twice. */
  ghost predicate IdsDiffer(s: seq<Event>) {
    s == [] ||
    var n := |s| - 1;
    IdsDiffer(s[..n]) && forall e :: e in s[..n] ==> e.id != s[n].id
  }

  lemma {:induction false} SortDescends(s: seq<Event>)
    requires IdsDiffer(s)
    ensures Descending(Sort(s))
  {
    if s != [] {
      SortDescends(s[..|s| - 1]);
      InsertDescends(Sort(s[..|s| - 1]), s[|s| - 1]);
    }
  }

  function Filter(s: seq<Event>, p: Event -> bool): (r: seq<Event>)
    ensures forall e :: e in r <==> e in s && p(e)
    ensures |r| <= |s|
  {
    if s == [] then [] else
    var n := |s| - 1;
    assert s == s[..n] + [s[n]];
    Filter(s[..n], p) + if p(s[n]) then [s[n]] else []
  }

  lemma {:induction false} FilterDescends(s: seq<Event>, p: Event -> bool)
    requires Descending(s)
    ensures Descending(Filter(s, p))
  {
    if s != [] {
      var n := |s| - 1;
      FilterDescends(s[..n], p);
      var r := Filter(s, p);
      if p(s[n]) { assert r[..|r| - 1] == Filter(s[..n], p); } else { assert r == Filter(s[..n], p); }
    }
  }

  /** Rows of one tenant each listed once have different ids. */
  lemma {:induction false} FilterDiffers(s: seq<Event>, p: Event -> bool, tenant: string)
    requires Rows(s) && forall e :: e in s && p(e) ==> e.tenant == tenant
    ensures IdsDiffer(Filter(s, p))
  {
    if s != [] {
      var n := |s| - 1;
      FilterDiffers(s[..n], p, tenant);
      var r := Filter(s, p);
      if p(s[n]) { assert r[..|r| - 1] == Filter(s[..n], p) && s[n] in s; } else { assert r == Filter(s[..n], p); }
    }
  }

  /** A table's rows: valid events, one per tenant and id, in the order they were put. */
  predicate Rows(s: seq<Event>) {
    s == [] ||
    var n := |s| - 1;
    && Rows(s[..n])
    && Valid(s[n])
    && forall e :: e in s[..n] ==> e.tenant != s[n].tenant || e.id != s[n].id
  }

  lemma {:induction false} RowsValid(s: seq<Event>, e: Event)
    requires Rows(s) && e in s
    ensures Valid(e)
  {
    var n := |s| - 1;
    assert s == s[..n] + [s[n]];
    if e != s[n] { RowsValid(s[..n], e); }
  }

  /** The in-memory answer: the wanted events before the mark, newest first. */
  function Listing(rows: seq<Event>, tenant: string, q: Query, mark: Option<string>): seq<Event> {
    var b := BoundsOf(q);
    if !b.Range? then [] else
    Sort(Filter(rows, (e: Event) => Wanted(tenant, q, b.low, b.high, e) && Before(e.id, mark)))
  }

  lemma ListingIs(rows: seq<Event>, tenant: string, q: Query, mark: Option<string>)
    requires Rows(rows)
    ensures Descending(Listing(rows, tenant, q, mark))
    ensures BoundsOf(q).Range? ==> var b := BoundsOf(q);
      forall e :: e in Listing(rows, tenant, q, mark) <==>
        e in rows && Wanted(tenant, q, b.low, b.high, e) && Before(e.id, mark)
  {
    var b := BoundsOf(q);
    if b.Range? {
      var p := (e: Event) => Wanted(tenant, q, b.low, b.high, e) && Before(e.id, mark);
      FilterDiffers(rows, p, tenant);
      SortDescends(Filter(rows, p));
    }
  }
}
