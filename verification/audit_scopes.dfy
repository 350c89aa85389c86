/** Which listings take up a cursor: its own tenant's on its own target, over a range that holds its row, and no others. */
module AuditScopes {
  import opened Options
  import opened Lex
  import opened AuditEvents
  import opened AuditAnswers
  import opened AuditCursors
  import opened AuditStore
  import K = StartKeys

  /** The two queries narrow to one target, or to none. */
  predicate SameTarget(q1: Query, q2: Query) {
    match (Narrowed(q1), Narrowed(q2))
    case (None, None) => true
    case (Some(a), Some(b)) => a.kind == b.kind && a.id == b.id
    case _ => false
  }

  /** As every event's target type does, a query's holds no `#`. */
  predicate PlainKind(q: Query) {
    Narrowed(q).Some? ==> '#' !in Narrowed(q).value.kind
  }

  lemma SameRest(front: string, a: string, b: string)
    requires front + a == front + b
    ensures a == b
  {
    assert a == (front + a)[|front|..] && b == (front + b)[|front|..];
  }

  /** Of one tenant, the listings of one target share a scope, and no others do. */
  lemma ScopesApart(tenant: string, q1: Query, q2: Query)
    requires PlainKind(q1) && PlainKind(q2)
    ensures CursorScope(tenant, q1) == CursorScope(tenant, q2) <==> SameTarget(q1, q2)
  {
    var a, b := Narrowed(q1), Narrowed(q2);
    if a.Some? && b.Some? && CursorScope(tenant, q1) == CursorScope(tenant, q2) {
      var front := "audit:" + tenant + ":target:";
      var x, y := a.value.kind + "#" + a.value.id, b.value.kind + "#" + b.value.id;
      assert CursorScope(tenant, q1) == front + x && CursorScope(tenant, q2) == front + y;
      SameRest(front, x, y);
      CutJoin(a.value.kind, a.value.id);
      CutJoin(b.value.kind, b.value.id);
    }
  }

  lemma MintedReads(c: K.Codec, k: PageKey, minted: string, scope: string)
    requires K.Faithful(c)
    ensures ReadCursor(c, Some(Mint(c, k, minted)), scope)
         == if |Mint(c, k, minted)| <= K.MAX_LENGTH && scope == minted then At(k) else Unreadable
  {
    KeyShape(k);
    MintIsToken(c, k, minted);
    K.RoundTripExactly(c, KeyOf(k), Some(minted), Some(scope));
  }

  /**
    A cursor handed out at a row is taken up by a listing exactly when the listing is of the same tenant
    and the same target, its range holds the row, and the cursor is within the decoder's bound. Any other
    listing refuses it as no start key of its own.
  */
  lemma CursorIsItsListings(c: K.Codec, indexed: bool, t1: string, q1: Query, e: Event, t2: string, q2: Query, limit: int)
    requires K.Faithful(c) && MayEnd(indexed, t1, q1, e) && PlainKind(q1) && PlainKind(q2)
    requires Fault(t2, q2, limit, Top).None? && BoundsOf(q2).Range?
    ensures var start := ReadCursor(c, NextCursor(c, indexed, t1, q1, Some(e)), CursorScope(t2, q2));
      Fault(t2, q2, limit, start)
      == if t1 == t2 && SameTarget(q1, q2) && Within(e.id, BoundsOf(q2).low, BoundsOf(q2).high) && !TooLong(c, indexed, t1, q1, e)
         then None else Some(InvalidStartKey)
  {
    var start := ReadCursor(c, NextCursor(c, indexed, t1, q1, Some(e)), CursorScope(t2, q2));
    MintedReads(c, PageEnd(indexed, q1, e), CursorScope(t1, q1), CursorScope(t2, q2));
    if t1 == t2 { ScopesApart(t1, q1, q2); }
    assert start.Unreadable? || start == At(PageEnd(indexed, q1, e));
  }

  /** In times: the range holds the row exactly when the row's own millisecond is in it. */
  lemma CursorInTime(c: K.Codec, indexed: bool, t1: string, q1: Query, e: Event, t2: string, q2: Query, limit: int, ms: nat, random: nat)
    requires K.Faithful(c) && MayEnd(indexed, t1, q1, e) && PlainKind(q1) && PlainKind(q2) && MintedAt(e, ms, random)
    requires Fault(t2, q2, limit, Top).None? && BoundsOf(q2).Range?
    ensures Fault(t2, q2, limit, ReadCursor(c, NextCursor(c, indexed, t1, q1, Some(e)), CursorScope(t2, q2))).None?
      <==> t1 == t2 && SameTarget(q1, q2) && !TooLong(c, indexed, t1, q1, e)
           && (q2.since.Some? ==> q2.since.value <= ms) && (q2.until.Some? ==> ms < q2.until.value)
  {
    CursorIsItsListings(c, indexed, t1, q1, e, t2, q2, limit);
    BoundsMeanTimes(q2, e.id, ms, random);
  }
}
