/**
  The in-memory audit store, which filters and sorts, and what both stores make of a call: which
  arguments and cursors are refused, and where a listing starts.
*/
module AuditStore {
  import opened Options
  import opened Lex
  import opened Ulid
  import opened AuditEvents
  import opened AuditOrder
  import opened AuditAnswers
  import opened AuditCursors
  import StartKeys

  const MAX_ROUNDS: nat := 10
  const MAX_PAGE_SIZE: nat := 1000

  // ---------------------------------------------------------------- calls

  /** `KeyRejected` is the table's own refusal of a start key that is not one of the read's. */
  datatype ListError = BadListing | InvalidStartKey | KeyRejected

  datatype Answer = Page(events: seq<Event>, next: Option<string>) | Refused(error: ListError)

  /** A position is taken up only inside the listing's own tenant and range. */
  predicate Resumes(at: Position, tenant: string, b: Bounds)
    requires b.Range?
  {
    && at.tenant == Some(tenant)
    && at.eventId.Some?
    && (b.low.Some? ==> AtMost(b.low.value, at.eventId.value))
    && (b.high.Some? ==> Less(at.eventId.value, b.high.value))
  }

  /** What is wrong with a listing call, if anything: arguments, then the cursor, then its position. */
  function Fault(tenant: string, q: Query, limit: int, start: Start): Option<ListError> {
    if tenant == "" || !(1 <= limit <= MAX_PAGE_SIZE) then Some(BadListing)
    else if start.Unreadable? then Some(InvalidStartKey)
    else match BoundsOf(q)
      case OutOfEpoch => Some(BadListing)
      case NoIds => None
      case Range(_, _) =>
        if start.Below? && !Resumes(start.at, tenant, BoundsOf(q)) then Some(InvalidStartKey) else None
  }

  /** Where a listing resumes: strictly below the cursor's id. */
  function Mark(start: Start): Option<string> {
    if start.Below? then start.at.eventId else None
  }

  // ---------------------------------------------------------------- the in-memory store

  class InMemoryAuditLogStore {
    const codec: StartKeys.Codec
    var events: seq<Event>

    constructor (codec: StartKeys.Codec)
      ensures this.codec == codec && events == []
    {
      this.codec := codec;
      events := [];
    }

    /** Refuses a duplicate id, otherwise stores the event last. */
    method Append(e: Event) returns (stored: bool)
      requires Rows(events) && Valid(e)
      modifies this
      ensures Rows(events)
      ensures stored <==> forall x :: x in old(events) ==> x.tenant != e.tenant || x.id != e.id
      ensures events == if stored then old(events) + [e] else old(events)
    {
      stored := forall x | x in events :: x.tenant != e.tenant || x.id != e.id;
      if stored {
        events := events + [e];
      }
    }

    /** One page: the first `limit` of the listing, and a cursor exactly when more remain. */
    method ListEvents(tenant: string, q: Query, limit: int, cursor: Option<string>) returns (answer: Answer)
      requires Rows(events)
      ensures answer == MemoryPage(codec, events, tenant, q, limit, ReadCursor(codec, cursor, CursorScope(tenant, q)))
      ensures PageAnswers(events, tenant, q, limit, Mark(ReadCursor(codec, cursor, CursorScope(tenant, q))), answer)
    {
      MemoryPageAnswers(codec, events, tenant, q, limit, ReadCursor(codec, cursor, CursorScope(tenant, q)));
      if tenant == "" || !(1 <= limit <= MAX_PAGE_SIZE) {
        return Refused(BadListing);
      }
      var start := ReadCursor(codec, cursor, CursorScope(tenant, q));
      if start.Unreadable? {
        return Refused(InvalidStartKey);
      }
      var b := BoundsOf(q);
      if b.OutOfEpoch? {
        return Refused(BadListing);
      }
      if b.NoIds? {
        return Page([], None);
      }
      var resume: Option<string> := None;
      if start.Below? {
        if !Resumes(start.at, tenant, b) {
          return Refused(InvalidStartKey);
        }
        resume := start.at.eventId;
      }
      var candidates := Sort(Filter(events, (e: Event) => Wanted(tenant, q, b.low, b.high, e) && Before(e.id, resume)));
      if |candidates| > limit {
        answer := Page(candidates[..limit], NextCursor(codec, false, tenant, q, Some(candidates[limit - 1])));
      } else {
        answer := Page(candidates, None);
      }
    }
  }

  function MemoryPage(c: StartKeys.Codec, rows: seq<Event>, tenant: string, q: Query, limit: int, start: Start): Answer {
    var fault := Fault(tenant, q, limit, start);
    if fault.Some? then Refused(fault.value) else
    FirstOf(c, Listing(rows, tenant, q, Mark(start)), tenant, q, limit)
  }

  /** The first `limit` events of a listing, and a cursor when that is not all of them. */
  function FirstOf(c: StartKeys.Codec, all: seq<Event>, tenant: string, q: Query, limit: int): Answer {
    if 1 <= limit < |all| then Page(all[..limit], NextCursor(c, false, tenant, q, Some(all[limit - 1])))
    else Page(all, None)
  }

  /**
    A page holds, newest first, exactly the stored events asked for below its mark: all of them, or the
    newest `limit`, and then it has a cursor.
  */
  ghost predicate PageAnswers(rows: seq<Event>, tenant: string, q: Query, limit: int, mark: Option<string>, answer: Answer) {
    answer.Page? ==>
      && Descending(answer.events) && |answer.events| <= limit
      && (answer.next.Some? ==> |answer.events| == limit >= 1)
      && Answers(rows, rows, tenant, q, mark, answer.events, LowEnd(answer))
  }

  /** How far down a page goes: to the end, or to its last event when it has a cursor. */
  function LowEnd(answer: Answer): Option<string>
    requires answer.Page?
  {
    if answer.next.None? || answer.events == [] then None else Some(answer.events[|answer.events| - 1].id)
  }

  lemma Taken(all: seq<Event>, limit: nat) returns (first: seq<Event>)
    requires Descending(all) && 1 <= limit < |all|
    ensures first == all[..limit] && Descending(first)
    ensures forall e: Event :: e in first <==> e in all && AtMost(all[limit - 1].id, e.id)
  {
    first := all[..limit];
    assert all == first + all[limit..];
    DescendingSplit(first, all[limit..]);
    forall e: Event ensures e in first <==> e in all && AtMost(all[limit - 1].id, e.id) { TakenAbove(all, limit, e); }
  }

  lemma FirstAnswers(rows: seq<Event>, tenant: string, q: Query, mark: Option<string>, all: seq<Event>, limit: int)
    requires BoundsOf(q).Range? && Rows(rows) && all == Listing(rows, tenant, q, mark) && 1 <= limit < |all|
    ensures Descending(all[..limit]) && Answers(rows, rows, tenant, q, mark, all[..limit], Some(all[limit - 1].id))
  {
    ListingIs(rows, tenant, q, mark);
    var first := Taken(all, limit);
    WantedAnswers(rows, rows, tenant, q, mark, first, Some(all[limit - 1].id));
  }

  lemma AllAnswers(rows: seq<Event>, tenant: string, q: Query, mark: Option<string>, all: seq<Event>)
    requires !BoundsOf(q).OutOfEpoch? && Rows(rows) && all == Listing(rows, tenant, q, mark)
    ensures Descending(all) && Answers(rows, rows, tenant, q, mark, all, None)
  {
    ListingIs(rows, tenant, q, mark);
    if BoundsOf(q).NoIds? {
      NothingAnswers(rows, rows, tenant, q, mark);
    } else {
      WantedAnswers(rows, rows, tenant, q, mark, all, None);
    }
  }

  lemma CutAnswers(c: StartKeys.Codec, rows: seq<Event>, tenant: string, q: Query, limit: int, mark: Option<string>, all: seq<Event>)
    requires !BoundsOf(q).OutOfEpoch? && Rows(rows) && all == Listing(rows, tenant, q, mark) && limit >= 1
    ensures PageAnswers(rows, tenant, q, limit, mark, FirstOf(c, all, tenant, q, limit))
  {
    if limit < |all| {
      FirstAnswers(rows, tenant, q, mark, all, limit);
    } else {
      AllAnswers(rows, tenant, q, mark, all);
    }
  }

  lemma MemoryPageAnswers(c: StartKeys.Codec, rows: seq<Event>, tenant: string, q: Query, limit: int, start: Start)
    requires Rows(rows)
    ensures PageAnswers(rows, tenant, q, limit, Mark(start), MemoryPage(c, rows, tenant, q, limit, start))
  {
    if Fault(tenant, q, limit, start).None? {
      CutAnswers(c, rows, tenant, q, limit, Mark(start), Listing(rows, tenant, q, Mark(start)));
    }
  }

  /** What a walk of a listing yields, and the refusal it ends with, if any. */
  datatype Walk = Walk(events: seq<Event>, fault: Option<ListError>)

  function Then(first: seq<Event>, rest: Walk): Walk {
    Walk(first + rest.events, rest.fault)
  }

  /** Following the in-memory cursors until the last page or the first refusal. */
  function MemoryWalk(c: StartKeys.Codec, rows: seq<Event>, tenant: string, q: Query, limit: int, start: Start): Walk
    decreases |Listing(rows, tenant, q, Mark(start))|
  {
    var page := MemoryPage(c, rows, tenant, q, limit, start);
    if page.Refused? then Walk([], Some(page.error))
    else if page.next.None? then Walk(page.events, None)
    else
      var next := ReadCursor(c, page.next, CursorScope(tenant, q));
      if Fault(tenant, q, limit, next).Some? then Walk(page.events, Fault(tenant, q, limit, next))
      else if |Listing(rows, tenant, q, Mark(next))| >= |Listing(rows, tenant, q, Mark(start))| then Walk(page.events, None)
      else Then(page.events, MemoryWalk(c, rows, tenant, q, limit, next))
  }

  /** A listing served page by page, up to the first page whose cursor passes the decoder's bound. */
  function Served(c: StartKeys.Codec, all: seq<Event>, tenant: string, q: Query, limit: int): Walk
    decreases |all|
  {
    if !(1 <= limit < |all|) then Walk(all, None)
    else if TooLong(c, false, tenant, q, all[limit - 1]) then Walk(all[..limit], Some(InvalidStartKey))
    else Then(all[..limit], Served(c, all[limit..], tenant, q, limit))
  }

  lemma TakenAbove(all: seq<Event>, n: nat, e: Event)
    requires Descending(all) && 1 <= n <= |all|
    ensures e in all[n..] <==> e in all && Less(e.id, all[n - 1].id)
    ensures e in all[..n] <==> e in all && AtMost(all[n - 1].id, e.id)
  {
    assert all == all[..n] + all[n..];
    DescendingSplit(all[..n], all[n..]);
    assert all[..n][n - 1] in all[..n];
    if e in all[..n] {
      LowestLast(all[..n], e);
      if e in all[n..] { Irreflexive(e.id); }
      if Less(e.id, all[n - 1].id) {
        if e.id == all[n - 1].id { Irreflexive(e.id); } else { Asymmetric(e.id, all[n - 1].id); }
      }
    }
    if e in all[n..] { Asymmetric(e.id, all[n - 1].id); }
  }

  lemma DescendingTail(all: seq<Event>, n: nat)
    requires Descending(all) && n <= |all|
    ensures Descending(all[n..])
  {
    assert all == all[..n] + all[n..];
    DescendingSplit(all[..n], all[n..]);
  }

  /** The listing from a page's cursor is what the page left. */
  lemma ListingAfter(rows: seq<Event>, tenant: string, q: Query, mark: Option<string>, n: nat)
    requires Rows(rows) && 1 <= n <= |Listing(rows, tenant, q, mark)| && BoundsOf(q).Range?
    ensures var all := Listing(rows, tenant, q, mark);
      Listing(rows, tenant, q, Some(all[n - 1].id)) == all[n..]
  {
    var all := Listing(rows, tenant, q, mark);
    var rest := Listing(rows, tenant, q, Some(all[n - 1].id));
    ListingIs(rows, tenant, q, mark);
    ListingIs(rows, tenant, q, Some(all[n - 1].id));
    RestIsTail(all, rest, mark, n);
  }

  lemma RestIsTail(all: seq<Event>, rest: seq<Event>, mark: Option<string>, n: nat)
    requires 1 <= n <= |all| && Descending(all) && Descending(rest)
    requires forall e :: e in rest && Before(e.id, mark) ==> e in all
    requires forall e :: e in rest ==> Less(e.id, all[n - 1].id)
    requires forall e :: e in all ==> Before(e.id, mark) && (Less(e.id, all[n - 1].id) ==> e in rest)
    ensures rest == all[n..]
  {
    DescendingTail(all, n);
    assert all[n - 1] in all;
    forall e ensures e in rest <==> e in all[n..] {
      TakenAbove(all, n, e);
      if e in rest && mark.Some? { Transitive(e.id, all[n - 1].id, mark.value); }
    }
    SameEventsSameOrder(rest, all[n..]);
  }

  lemma PositionResumes(tenant: string, q: Query, limit: int, e: Event, key: StartKeys.Key)
    requires Fault(tenant, q, limit, Top).None? && BoundsOf(q).Range?
    requires Wanted(tenant, q, BoundsOf(q).low, BoundsOf(q).high, e)
    ensures Fault(tenant, q, limit, Below(Position(Some(tenant), Some(e.id)), key)).None?
  {}

  lemma AnyStart(tenant: string, q: Query, limit: int, start: Start)
    requires Fault(tenant, q, limit, start).None?
    ensures Fault(tenant, q, limit, Top).None?
  {}

  /** What a cursor handed out at a row is when it comes back: the row's own position, unless it is too long. */
  function Returned(c: StartKeys.Codec, indexed: bool, tenant: string, q: Query, e: Event): Start {
    if TooLong(c, indexed, tenant, q, e) then Unreadable else At(PageEnd(indexed, q, e))
  }

  lemma CursorReturns(c: StartKeys.Codec, indexed: bool, tenant: string, q: Query, e: Event)
    requires StartKeys.Faithful(c)
    ensures ReadCursor(c, NextCursor(c, indexed, tenant, q, Some(e)), CursorScope(tenant, q)) == Returned(c, indexed, tenant, q, e)
  {
    MintReads(c, PageEnd(indexed, q, e), CursorScope(tenant, q));
  }

  /** A page's own cursor is taken up exactly when it is within the decoder's bound. */
  lemma MemoryCursorAccepted(c: StartKeys.Codec, rows: seq<Event>, tenant: string, q: Query, limit: int, start: Start)
    requires StartKeys.Faithful(c) && Rows(rows) && Fault(tenant, q, limit, start).None?
    ensures var page := MemoryPage(c, rows, tenant, q, limit, start);
      page.Page? && (page.next.Some? ==>
        (Fault(tenant, q, limit, ReadCursor(c, page.next, CursorScope(tenant, q))).None? <==> |page.next.value| <= StartKeys.MAX_LENGTH))
  {
    var all := Listing(rows, tenant, q, Mark(start));
    if 1 <= limit < |all| {
      ListingIs(rows, tenant, q, Mark(start));
      assert all[limit - 1] in all;
      AnyStart(tenant, q, limit, start);
      PositionResumes(tenant, q, limit, all[limit - 1], KeyOf(PageEnd(false, q, all[limit - 1])));
      CursorReturns(c, false, tenant, q, all[limit - 1]);
    }
  }

  lemma FullPage(c: StartKeys.Codec, rows: seq<Event>, tenant: string, q: Query, limit: int, start: Start, all: seq<Event>)
    requires Fault(tenant, q, limit, start).None?
    requires all == Listing(rows, tenant, q, Mark(start)) && 1 <= limit < |all|
    ensures MemoryPage(c, rows, tenant, q, limit, start) == Page(all[..limit], NextCursor(c, false, tenant, q, Some(all[limit - 1])))
  {}

  /** Where the walk goes after a full page: nowhere when the cursor is refused, else to the rest of the listing. */
  lemma AfterPage(c: StartKeys.Codec, rows: seq<Event>, tenant: string, q: Query, limit: int, start: Start, all: seq<Event>)
    requires Rows(rows) && Fault(tenant, q, limit, start).None?
    requires all == Listing(rows, tenant, q, Mark(start)) && 1 <= limit < |all|
    ensures var next := Returned(c, false, tenant, q, all[limit - 1]);
      if TooLong(c, false, tenant, q, all[limit - 1]) then Fault(tenant, q, limit, next) == Some(InvalidStartKey)
      else Fault(tenant, q, limit, next).None? && Listing(rows, tenant, q, Mark(next)) == all[limit..]
  {
    ListingIs(rows, tenant, q, Mark(start));
    assert all[limit - 1] in all;
    AnyStart(tenant, q, limit, start);
    PositionResumes(tenant, q, limit, all[limit - 1], KeyOf(PageEnd(false, q, all[limit - 1])));
    ListingAfter(rows, tenant, q, Mark(start), limit);
  }

  lemma WalkRefused(c: StartKeys.Codec, rows: seq<Event>, tenant: string, q: Query, limit: int, start: Start, page: Answer, next: Start)
    requires page == MemoryPage(c, rows, tenant, q, limit, start) && page.Page? && page.next.Some?
    requires next == ReadCursor(c, page.next, CursorScope(tenant, q)) && Fault(tenant, q, limit, next) == Some(InvalidStartKey)
    ensures MemoryWalk(c, rows, tenant, q, limit, start) == Walk(page.events, Some(InvalidStartKey))
  {}

  lemma WalkGoesOn(c: StartKeys.Codec, rows: seq<Event>, tenant: string, q: Query, limit: int, start: Start, page: Answer, next: Start)
    requires page == MemoryPage(c, rows, tenant, q, limit, start) && page.Page? && page.next.Some?
    requires next == ReadCursor(c, page.next, CursorScope(tenant, q)) && Fault(tenant, q, limit, next).None?
    requires |Listing(rows, tenant, q, Mark(next))| < |Listing(rows, tenant, q, Mark(start))|
    ensures MemoryWalk(c, rows, tenant, q, limit, start) == Then(page.events, MemoryWalk(c, rows, tenant, q, limit, next))
  {}

  /** Paging through memory serves the listing, for every page size, up to the first cursor it refuses itself. */
  lemma {:induction false} MemoryWalkServes(c: StartKeys.Codec, rows: seq<Event>, tenant: string, q: Query, limit: int, start: Start)
    requires StartKeys.Faithful(c) && Rows(rows) && Fault(tenant, q, limit, start).None?
    ensures MemoryWalk(c, rows, tenant, q, limit, start) == Served(c, Listing(rows, tenant, q, Mark(start)), tenant, q, limit)
    decreases |Listing(rows, tenant, q, Mark(start))|
  {
    var all := Listing(rows, tenant, q, Mark(start));
    if 1 <= limit < |all| {
      var next := Returned(c, false, tenant, q, all[limit - 1]);
      FullPage(c, rows, tenant, q, limit, start, all);
      AfterPage(c, rows, tenant, q, limit, start, all);
      CursorReturns(c, false, tenant, q, all[limit - 1]);
      var page := MemoryPage(c, rows, tenant, q, limit, start);
      if next.Unreadable? {
        WalkRefused(c, rows, tenant, q, limit, start, page, next);
      } else {
        WalkGoesOn(c, rows, tenant, q, limit, start, page, next);
        MemoryWalkServes(c, rows, tenant, q, limit, next);
      }
    }
  }

  /** Every event may end a page of the listing. */
  ghost predicate AllMayEnd(tenant: string, q: Query, all: seq<Event>) {
    forall e :: e in all ==> MayEnd(false, tenant, q, e)
  }

  lemma ListingMayEnd(rows: seq<Event>, tenant: string, q: Query, mark: Option<string>)
    requires Rows(rows) && BoundsOf(q).Range?
    ensures AllMayEnd(tenant, q, Listing(rows, tenant, q, mark))
  {
    ListingIs(rows, tenant, q, mark);
    forall e | e in Listing(rows, tenant, q, mark) ensures MayEnd(false, tenant, q, e) { RowsValid(rows, e); }
  }

  lemma ServedOn(c: StartKeys.Codec, all: seq<Event>, tenant: string, q: Query, limit: int)
    requires 1 <= limit < |all| && !TooLong(c, false, tenant, q, all[limit - 1])
    ensures Served(c, all, tenant, q, limit) == Then(all[..limit], Served(c, all[limit..], tenant, q, limit))
  {}

  lemma {:induction false} ServedWhole(c: StartKeys.Codec, all: seq<Event>, tenant: string, q: Query, limit: int)
    requires forall i :: 0 <= i < |all| ==> !TooLong(c, false, tenant, q, all[i])
    ensures Served(c, all, tenant, q, limit) == Walk(all, None)
    decreases |all|
  {
    if 1 <= limit < |all| {
      var rest := all[limit..];
      assert all[..limit] + rest == all;
      forall i | 0 <= i < |rest| ensures !TooLong(c, false, tenant, q, rest[i]) { assert rest[i] == all[limit + i]; }
      ServedWhole(c, rest, tenant, q, limit);
      ServedOn(c, all, tenant, q, limit);
    }
  }

  /** When the tenant and the target leave room for any cursor, paging concatenates to the whole listing. */
  lemma MemoryWalkIsListing(c: StartKeys.Codec, rows: seq<Event>, tenant: string, q: Query, limit: int, start: Start)
    requires StartKeys.Faithful(c) && Measured(c) && Rows(rows) && Fault(tenant, q, limit, start).None?
    requires CursorsFit(false, tenant, q)
    ensures MemoryWalk(c, rows, tenant, q, limit, start) == Walk(Listing(rows, tenant, q, Mark(start)), None)
  {
    var all := Listing(rows, tenant, q, Mark(start));
    MemoryWalkServes(c, rows, tenant, q, limit, start);
    if BoundsOf(q).Range? { ListingMayEnd(rows, tenant, q, Mark(start)); }
    forall i | 0 <= i < |all| ensures !TooLong(c, false, tenant, q, all[i]) {
      assert all[i] in all;
      FittingNeverTooLong(c, false, tenant, q, all[i]);
    }
    ServedWhole(c, all, tenant, q, limit);
  }

  /** When they leave none, the walk ends refused after one page, unless that page is the whole listing. */
  lemma MemoryWalkRefused(c: StartKeys.Codec, rows: seq<Event>, tenant: string, q: Query, limit: int, start: Start)
    requires StartKeys.Faithful(c) && Measured(c) && Rows(rows) && Fault(tenant, q, limit, start).None?
    requires CursorBytes(false, tenant, q, LENGTH) > MAX_BYTES
    ensures var all := Listing(rows, tenant, q, Mark(start));
      MemoryWalk(c, rows, tenant, q, limit, start)
      == if |all| <= limit then Walk(all, None) else Walk(all[..limit], Some(InvalidStartKey))
  {
    var all := Listing(rows, tenant, q, Mark(start));
    MemoryWalkServes(c, rows, tenant, q, limit, start);
    if limit < |all| {
      ListingMayEnd(rows, tenant, q, Mark(start));
      assert all[limit - 1] in all;
      TooLongExactly(c, false, tenant, q, all[limit - 1]);
    }
  }

  /** Two events of a tenant with no room for a cursor, one to a page: the second is never reached. */
  lemma LongTenantStops(c: StartKeys.Codec, tenant: string, older: Event, newer: Event)
    requires StartKeys.Faithful(c) && Measured(c) && Escaped(tenant) >= 1490
    requires Valid(older) && Valid(newer) && older.tenant == newer.tenant == tenant && Less(older.id, newer.id)
    ensures Rows([older, newer])
    ensures MemoryWalk(c, [older, newer], tenant, Everything, 1, Top) == Walk([newer], Some(InvalidStartKey))
  {
    TwoRows(older, newer);
    NoRoom(tenant);
    NewestFirst([older, newer], tenant, older, newer);
    MemoryWalkRefused(c, [older, newer], tenant, Everything, 1, Top);
  }

  lemma TwoRows(older: Event, newer: Event)
    requires Valid(older) && Valid(newer) && Less(older.id, newer.id)
    ensures Rows([older, newer])
  {
    Irreflexive(older.id);
    assert [older, newer][..1] == [older] && [older][..0] == [];
  }

  lemma NoRoom(tenant: string)
    requires Escaped(tenant) >= 1490
    ensures Fault(tenant, Everything, 1, Top).None? && CursorBytes(false, tenant, Everything, LENGTH) > MAX_BYTES
  {}

  const Everything: Query := Query(None, None, "", "", None)

  lemma PairDescends(a: Event, b: Event)
    requires Less(b.id, a.id)
    ensures Descending([a, b])
  {
    assert [a, b][..1] == [a] && [a][..0] == [];
  }

  lemma BothListed(rows: seq<Event>, tenant: string, older: Event, newer: Event)
    requires Rows(rows) && rows == [older, newer] && older.tenant == newer.tenant == tenant
    ensures Descending(Listing(rows, tenant, Everything, None))
    ensures forall e :: e in Listing(rows, tenant, Everything, None) <==> e in [newer, older]
  {
    ListingIs(rows, tenant, Everything, None);
  }

  lemma NewestFirst(rows: seq<Event>, tenant: string, older: Event, newer: Event)
    requires Rows(rows) && rows == [older, newer] && Less(older.id, newer.id)
    requires older.tenant == newer.tenant == tenant
    ensures Listing(rows, tenant, Everything, None) == [newer, older]
  {
    var all := Listing(rows, tenant, Everything, None);
    BothListed(rows, tenant, older, newer);
    PairDescends(newer, older);
    SameEventsSameOrder(all, [newer, older]);
  }

  /** There are such events: a tenant of 1490 letters has them. */
  lemma LongTenantExists() returns (tenant: string, older: Event, newer: Event)
    ensures |tenant| == Escaped(tenant) == 1490
    ensures Valid(older) && Valid(newer) && older.tenant == newer.tenant == tenant && Less(older.id, newer.id)
  {
    tenant := seq(1490, i => 'a');
    EscapedPlain(tenant);
    var zeros := seq(LENGTH - 1, i => '0');
    older := Plain(tenant, zeros + ['0']);
    newer := Plain(tenant, zeros + ['1']);
    LessConcat(zeros, ['0'], zeros, ['1']);
    PlainValid(tenant, zeros, '0');
    PlainValid(tenant, zeros, '1');
  }

  function Plain(tenant: string, id: string): Event {
    Event(tenant, id, "actor", "action", Target("", "", ""), 0)
  }

  lemma PlainValid(tenant: string, zeros: string, last: char)
    requires tenant != "" && '#' !in tenant && zeros == seq(LENGTH - 1, i => '0') && (last == '0' || last == '1')
    ensures Valid(Plain(tenant, zeros + [last]))
  {
    Digits(zeros, last);
  }

  lemma FirstDigits()
    ensures '0' in ALPHABET && '1' in ALPHABET
  {
    assert ALPHABET[0] == '0' && ALPHABET[1] == '1';
  }

  lemma Digits(zeros: string, last: char)
    requires zeros == seq(LENGTH - 1, i => '0') && (last == '0' || last == '1')
    ensures IsUlid(zeros + [last])
  {
    var id := zeros + [last];
    FirstDigits();
    forall i | 0 <= i < LENGTH ensures id[i] in ALPHABET { assert id[i] == '0' || id[i] == last; }
  }
}
