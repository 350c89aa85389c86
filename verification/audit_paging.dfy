/**
  The table-backed store. A page is up to ten filtered reads, each cut wherever the table likes,
  and other writers append between any two of them.
*/
module AuditPaging {
  import opened Options
  import opened Lex
  import opened Ulid
  import opened AuditEvents
  import opened AuditOrder
  import opened AuditAnswers
  import opened AuditCursors
  import opened AuditStore
  import StartKeys

  function IdOf(last: Option<Event>): Option<string> {
    if last.Some? then Some(last.value.id) else None
  }

  predicate Hit(r: Read, e: Event) {
    KeyHit(r, e) && FilterHit(r, e)
  }

  /**
    `events` answers a read from `mark` down to `last`, or to the end when there is no `last`:
    newest first, nothing that is not a hit of `after`, and every hit that was already in `before`.
  */
  ghost predicate Covered(before: seq<Event>, after: seq<Event>, r: Read, mark: Option<string>, events: seq<Event>, last: Option<Event>) {
    && Descending(events)
    && (forall e :: e in events ==> e in after && Hit(r, e) && Before(e.id, mark) && Reached(e.id, IdOf(last)))
    && (forall e :: e in before && Hit(r, e) && Before(e.id, mark) && Reached(e.id, IdOf(last)) ==> e in events)
    && (last.Some? ==> last.value in after && KeyHit(r, last.value) && Before(last.value.id, mark))
  }

  // ---------------------------------------------------------------- the table

  /** The tenant a key condition stays within. */
  function ReadTenant(r: Read): string {
    if r.indexKey.Some? then KeyParts(r.indexKey.value).0 else r.tenant
  }

  lemma KeyHitOneTenant(r: Read, e: Event)
    requires Valid(e) && KeyHit(r, e)
    ensures e.tenant == ReadTenant(r)
  {
    KeyPartsOf(e.tenant, e.target);
  }

  /** The rows a key condition reaches from a mark down, newest first. */
  function Reach(rows: seq<Event>, r: Read, mark: Option<string>): seq<Event> {
    Sort(Filter(rows, (e: Event) => KeyHit(r, e) && Before(e.id, mark)))
  }

  lemma ReachDescends(rows: seq<Event>, r: Read, mark: Option<string>)
    requires Rows(rows)
    ensures Descending(Reach(rows, r, mark))
    ensures forall e :: e in Reach(rows, r, mark) <==> e in rows && KeyHit(r, e) && Before(e.id, mark)
  {
    var p := (e: Event) => KeyHit(r, e) && Before(e.id, mark);
    forall e | e in rows && p(e) ensures e.tenant == ReadTenant(r) {
      RowsValid(rows, e);
      KeyHitOneTenant(r, e);
    }
    FilterDiffers(rows, p, ReadTenant(r));
    SortDescends(Filter(rows, p));
  }

  /** Reading the first `n` reached rows reads exactly those at or above the n-th. */
  lemma ReachCut(rows: seq<Event>, r: Read, mark: Option<string>, n: nat, e: Event)
    requires Rows(rows) && 1 <= n <= |Reach(rows, r, mark)|
    ensures var reach := Reach(rows, r, mark);
      e in reach[..n] <==> e in rows && KeyHit(r, e) && Before(e.id, mark) && AtMost(reach[n - 1].id, e.id)
  {
    ReachDescends(rows, r, mark);
    TakenAbove(Reach(rows, r, mark), n, e);
  }

  /** The filtered part of a descending read is descending and holds its hits. */
  lemma HitsOf(s: seq<Event>, r: Read)
    requires Descending(s)
    ensures var hits := Filter(s, (e: Event) => FilterHit(r, e));
      Descending(hits) && forall e :: e in hits <==> e in s && FilterHit(r, e)
  {
    FilterDescends(s, (e: Event) => FilterHit(r, e));
  }

  /** The hits among the first `n` reached rows. */
  lemma CutHits(rows: seq<Event>, r: Read, mark: Option<string>, n: nat, k: Event, items: seq<Event>)
    requires Rows(rows) && 1 <= n <= |Reach(rows, r, mark)| && k == Reach(rows, r, mark)[n - 1]
    requires forall e :: e in items <==> e in Reach(rows, r, mark)[..n] && FilterHit(r, e)
    ensures forall e :: e in items <==> e in rows && Hit(r, e) && Before(e.id, mark) && AtMost(k.id, e.id)
  {
    forall e ensures e in items <==> e in rows && Hit(r, e) && Before(e.id, mark) && AtMost(k.id, e.id) {
      ReachCut(rows, r, mark, n, e);
    }
  }

  /** What a read of the first `n` reached rows answers, wherever the table stopped. */
  lemma CutIsCovered(rows: seq<Event>, r: Read, mark: Option<string>, n: nat)
    requires Rows(rows) && 1 <= n <= |Reach(rows, r, mark)|
    ensures var reach := Reach(rows, r, mark);
      Covered(rows, rows, r, mark, Filter(reach[..n], (e: Event) => FilterHit(r, e)), Some(reach[n - 1]))
  {
    var reach := Reach(rows, r, mark);
    ReachDescends(rows, r, mark);
    CutDescends(reach, n);
    HitsOf(reach[..n], r);
    var items := Filter(reach[..n], (e: Event) => FilterHit(r, e));
    CutHits(rows, r, mark, n, reach[n - 1], items);
    CoveredBy(rows, r, mark, items, reach[n - 1]);
  }

  lemma CoveredBy(rows: seq<Event>, r: Read, mark: Option<string>, items: seq<Event>, k: Event)
    requires Descending(items) && k in rows && KeyHit(r, k) && Before(k.id, mark)
    requires forall e :: e in items <==> e in rows && Hit(r, e) && Before(e.id, mark) && AtMost(k.id, e.id)
    ensures Covered(rows, rows, r, mark, items, Some(k))
  {}

  lemma AllIsCovered(rows: seq<Event>, r: Read, mark: Option<string>)
    requires Rows(rows)
    ensures Covered(rows, rows, r, mark, Filter(Reach(rows, r, mark), (e: Event) => FilterHit(r, e)), None)
  {
    var reach := Reach(rows, r, mark);
    ReachDescends(rows, r, mark);
    HitsOf(reach, r);
    AllCoveredBy(rows, r, mark, Filter(reach, (e: Event) => FilterHit(r, e)));
  }

  lemma AllCoveredBy(rows: seq<Event>, r: Read, mark: Option<string>, items: seq<Event>)
    requires Descending(items)
    requires forall e :: e in items <==> e in rows && Hit(r, e) && Before(e.id, mark)
    ensures Covered(rows, rows, r, mark, items, None)
  {}

  /** A read of what is visible covers whatever is settled, and shows nothing that is not stored. */
  lemma VisibleCovers(settled: seq<Event>, visible: seq<Event>, rows: seq<Event>, r: Read, mark: Option<string>,
                      items: seq<Event>, last: Option<Event>)
    requires Covered(visible, visible, r, mark, items, last) && Sees(settled, visible, rows)
    ensures Covered(settled, rows, r, mark, items, last)
  {}

  /** What one read may see: all that is settled, and any of the rest. */
  predicate Sees(settled: seq<Event>, visible: seq<Event>, rows: seq<Event>) {
    && Rows(visible)
    && (forall e :: e in settled ==> e in visible)
    && (forall e :: e in visible ==> e in rows)
  }

  /** The table. Reads are eventually consistent: a row is certain to be seen only once it has settled. */
  class AuditTable {
    var rows: seq<Event>
    var settled: seq<Event>

    ghost predicate Sound()
      reads this
    {
      Rows(rows) && settled <= rows
    }

    constructor ()
      ensures Sound() && rows == []
    {
      rows := [];
      settled := [];
    }

    /** Any number of appends by other writers, and rows settling. */
    method Others()
      requires Sound()
      modifies this
      ensures Sound() && old(rows) <= rows && old(settled) <= settled
    {
      var more: seq<Event> := *;
      if Rows(rows + more) {
        rows := rows + more;
      }
      var longer: seq<Event> := *;
      if settled <= longer <= rows {
        settled := longer;
      }
    }

    /** A conditional put: an id already there is refused and nothing is overwritten. */
    method Put(e: Event) returns (stored: bool)
      requires Sound() && Valid(e)
      modifies this
      ensures Sound() && settled == old(settled)
      ensures stored <==> forall x :: x in old(rows) ==> x.tenant != e.tenant || x.id != e.id
      ensures rows == if stored then old(rows) + [e] else old(rows)
    {
      stored := forall x | x in rows :: x.tenant != e.tenant || x.id != e.id;
      if stored {
        assert (rows + [e])[..|rows|] == rows;
        rows := rows + [e];
      }
    }

    /**
      One read, newest first, of at most `limit` rows before the filter, of some of the rows there are.
      The table may stop short of the limit, and may hand back a last key even at the very end.
    */
    method Query(r: Read, limit: nat, mark: Option<string>) returns (items: seq<Event>, last: Option<Event>)
      requires Sound() && limit >= 1
      modifies this
      ensures Sound() && old(rows) <= rows && old(settled) <= settled
      ensures |items| <= limit
      ensures Covered(settled, rows, r, mark, items, last)
    {
      Others();
      var visible: seq<Event> := *;
      PrefixMembers(settled, rows);
      if !Sees(settled, visible, rows) {
        visible := rows;
      }
      items, last := ReadOf(visible, r, limit, mark);
      VisibleCovers(settled, visible, rows, r, mark, items, last);
    }

    /** The read proper, cut wherever the table likes. */
    static method ReadOf(visible: seq<Event>, r: Read, limit: nat, mark: Option<string>) returns (items: seq<Event>, last: Option<Event>)
      requires Rows(visible) && limit >= 1
      ensures |items| <= limit
      ensures Covered(visible, visible, r, mark, items, last)
    {
      var reach := Reach(visible, r, mark);
      var n: int := *;
      var hasKey: bool := *;
      if !(1 <= n <= limit) {
        n := limit;
      }
      if n >= |reach| {
        n := |reach|;
        hasKey := hasKey && n == limit;
      } else {
        hasKey := true;
      }
      items := Filter(reach[..n], (e: Event) => FilterHit(r, e));
      last := if hasKey then Some(reach[n - 1]) else None;
      if hasKey {
        CutIsCovered(visible, r, mark, n);
      } else {
        assert reach[..n] == reach;
        AllIsCovered(visible, r, mark);
      }
    }
  }

  // ---------------------------------------------------------------- stitching reads

  lemma PrefixMembers(a: seq<Event>, b: seq<Event>)
    requires a <= b
    ensures forall e :: e in a ==> e in b
  {
    forall e | e in a ensures e in b {
      var i :| 0 <= i < |a| && a[i] == e;
      assert b[i] == e;
    }
  }

  /** A read resumed from the last key of another continues it, however the table grew. */
  lemma Stitch(before: seq<Event>, mid: seq<Event>, after: seq<Event>, r: Read, mark: Option<string>,
               events: seq<Event>, k: Event, more: seq<Event>, last: Option<Event>)
    requires mid <= after
    requires Covered(before, mid, r, mark, events, Some(k))
    requires Covered(before, after, r, Some(k.id), more, last)
    ensures Covered(before, after, r, mark, events + more, last)
  {
    PrefixMembers(mid, after);
    StitchOrder(events, k.id, more);
    forall e | e in events ensures Reached(e.id, IdOf(last)) {
      if last.Some? { LessThenAtMost(last.value.id, k.id, e.id); }
    }
    forall e | e in more ensures Before(e.id, mark) {
      if mark.Some? { Transitive(e.id, k.id, mark.value); }
    }
    forall e | e in before && Hit(r, e) && Before(e.id, mark) && Reached(e.id, IdOf(last)) ensures e in events + more {
      Total(e.id, k.id);
    }
    if last.Some? && mark.Some? { Transitive(last.value.id, k.id, mark.value); }
  }

  lemma LessThenAtMost(a: string, b: string, c: string)
    requires Less(a, b) && AtMost(b, c)
    ensures AtMost(a, c) && Less(a, c)
  {
    if b != c { Transitive(a, b, c); }
  }

  lemma StitchOrder(events: seq<Event>, k: string, more: seq<Event>)
    requires Descending(events) && Descending(more)
    requires forall e :: e in events ==> AtMost(k, e.id)
    requires forall e :: e in more ==> Less(e.id, k)
    ensures Descending(events + more)
  {
    forall x, y | x in events && y in more ensures Less(y.id, x.id) {
      LessThenAtMost(y.id, k, x.id);
    }
    DescendingConcat(events, more);
  }

  /** What covers the rows settled by now covers those settled earlier. */
  lemma CoversEarlier(before: seq<Event>, settled: seq<Event>, after: seq<Event>, r: Read, mark: Option<string>,
                      events: seq<Event>, last: Option<Event>)
    requires before <= settled && Covered(settled, after, r, mark, events, last)
    ensures Covered(before, after, r, mark, events, last)
  {
    PrefixMembers(before, settled);
  }

  lemma ReachedCut(k: Event, e: Event, last: Option<Event>)
    requires AtMost(k.id, e.id) && Reached(k.id, IdOf(last))
    ensures Reached(e.id, IdOf(last))
  {
    if last.Some? && e.id != k.id && last.value.id != k.id { Transitive(last.value.id, k.id, e.id); }
  }

  lemma CutDescends(events: seq<Event>, n: nat)
    requires Descending(events) && 1 <= n <= |events|
    ensures Descending(events[..n]) && events[n - 1] in events
  {
    assert events == events[..n] + events[n..];
    DescendingSplit(events[..n], events[n..]);
  }

  lemma CutMembers(events: seq<Event>, n: nat, taken: seq<Event>, k: Event)
    requires Descending(events) && 1 <= n <= |events| && taken == events[..n] && k == events[n - 1]
    ensures forall e :: e in taken <==> e in events && AtMost(k.id, e.id)
  {
    forall e ensures e in taken <==> e in events && AtMost(k.id, e.id) { TakenAbove(events, n, e); }
  }

  /** The part of a covered answer at or above one of its events is covered down to it. */
  lemma CoveredDown(before: seq<Event>, after: seq<Event>, r: Read, mark: Option<string>,
                    events: seq<Event>, last: Option<Event>, k: Event, taken: seq<Event>)
    requires Covered(before, after, r, mark, events, last) && k in events && Descending(taken)
    requires forall e :: e in taken <==> e in events && AtMost(k.id, e.id)
    ensures Covered(before, after, r, mark, taken, Some(k))
  {
    forall e | e in before && Hit(r, e) && Before(e.id, mark) && AtMost(k.id, e.id) ensures e in events {
      ReachedCut(k, e, last);
    }
  }

  /** A covered answer cut after its n-th event is covered down to that event. */
  lemma CoveredCut(before: seq<Event>, after: seq<Event>, r: Read, mark: Option<string>,
                   events: seq<Event>, last: Option<Event>, n: nat)
    requires Covered(before, after, r, mark, events, last) && 1 <= n <= |events|
    ensures Covered(before, after, r, mark, events[..n], Some(events[n - 1]))
  {
    CutDescends(events, n);
    CutMembers(events, n, events[..n], events[n - 1]);
    CoveredDown(before, after, r, mark, events, last, events[n - 1], events[..n]);
  }

  // ---------------------------------------------------------------- the store

  class DynamoAuditLogStore {
    const codec: StartKeys.Codec
    const table: AuditTable
    const indexed: bool

    constructor (codec: StartKeys.Codec, table: AuditTable, indexed: bool)
      ensures this.codec == codec && this.table == table && this.indexed == indexed
    {
      this.codec := codec;
      this.table := table;
      this.indexed := indexed;
    }

    /**
      One page. A bad call is refused as the in-memory store refuses it; otherwise the page holds at
      most `limit` events and covers the listing from the cursor down to the key its own cursor names.
    */
    method ListEvents(tenant: string, q: Query, limit: int, cursor: Option<string>)
      returns (answer: Answer, ghost last: Option<Event>)
      requires table.Sound()
      modifies table
      ensures table.Sound() && old(table.rows) <= table.rows && old(table.settled) <= table.settled
      ensures var start := ReadCursor(codec, cursor, CursorScope(tenant, q));
        Listed(codec, indexed, tenant, q, limit, start, old(table.settled), table.rows, answer, last)
        && (answer.Page? && Separate(indexed, tenant, q) ==>
              Answers(old(table.settled), table.rows, tenant, q, Mark(start), answer.events, IdOf(last)))
    {
      last := None;
      ghost var before := table.settled;
      if tenant == "" || !(1 <= limit <= MAX_PAGE_SIZE) {
        return Refused(BadListing), None;
      }
      var start := ReadCursor(codec, cursor, CursorScope(tenant, q));
      if start.Unreadable? {
        return Refused(InvalidStartKey), None;
      }
      var b := BoundsOf(q);
      if b.OutOfEpoch? {
        return Refused(BadListing), None;
      }
      if b.NoIds? {
        NothingAnswers(table.settled, table.rows, tenant, q, Mark(start));
        return Page([], None), None;
      }
      if start.Below? && !Resumes(start.at, tenant, b) {
        return Refused(InvalidStartKey), None;
      }
      if start.Below? && !OwnKey(indexed, tenant, q, start) {
        return Refused(KeyRejected), None;
      }
      var r := ReadFor(indexed, tenant, q, b.low, b.high);
      var events, key := ReadRounds(r, limit, Mark(start));
      last := key;
      answer := Page(events, NextCursor(codec, indexed, tenant, q, key));
      if Separate(indexed, tenant, q) {
        PrefixMembers(before, table.rows);
        WalkedAnswers(indexed, tenant, q, before, table.rows, Mark(start), events, key);
      }
    }

    /** Filtered reads until the page is full, the table ends, or ten rounds have gone by. */
    method ReadRounds(r: Read, limit: nat, mark: Option<string>) returns (events: seq<Event>, last: Option<Event>)
      requires table.Sound() && limit >= 1
      modifies table
      ensures table.Sound() && old(table.rows) <= table.rows && old(table.settled) <= table.settled
      ensures |events| <= limit
      ensures Covered(old(table.settled), table.rows, r, mark, events, last)
    {
      ghost var before := table.settled;
      events, last := table.Query(r, limit, mark);
      CoversEarlier(before, table.settled, table.rows, r, mark, events, last);
      var round := 1;
      while round < MAX_ROUNDS && last.Some? && |events| < limit
        invariant table.Sound() && old(table.rows) <= table.rows && before <= table.settled
        invariant |events| <= limit
        invariant Covered(before, table.rows, r, mark, events, last)
      {
        ghost var mid := table.rows;
        var items, next := table.Query(r, limit - |events|, Some(last.value.id));
        CoversEarlier(before, table.settled, table.rows, r, Some(last.value.id), items, next);
        Stitch(before, mid, table.rows, r, mark, events, last.value, items, next);
        events := events + items;
        last := next;
        round := round + 1;
      }
    }

    /**
      `iter_events`: every page in turn. It never loses an event settled at the start, never repeats
      one, and ends whatever is appended meanwhile: at the end of the listing, at `maxItems`, or
      refused at the first cursor of its own that is too long. `maxItems` is compared after each
      event, so at least one is yielded when there is one.
    */
    method IterEvents(tenant: string, q: Query, maxItems: Option<int>, pageSize: int)
      returns (walk: Walk, ghost last: Option<Event>)
      requires StartKeys.Faithful(codec) && table.Sound() && Separate(indexed, tenant, q)
      modifies table
      ensures table.Sound() && old(table.rows) <= table.rows
      ensures Iterated(codec, indexed, tenant, q, pageSize, maxItems, old(table.settled), table.rows, walk, last)
      ensures Fault(tenant, q, pageSize, Top).None? ==>
        Answers(old(table.settled), table.rows, tenant, q, None, walk.events, IdOf(last))
    {
      var answer, key := ListEvents(tenant, q, pageSize, None);
      StartsAtTop(codec, tenant, q);
      if answer.Refused? {
        return Walk([], Some(answer.error)), None;
      }
      if !BoundsOf(q).Range? {
        NothingAnswers(old(table.settled), table.rows, tenant, q, None);
        return Walk([], None), None;
      }
      walk, last := Follow(tenant, q, maxItems, pageSize, answer, old(table.settled), key);
      PrefixMembers(old(table.settled), old(table.rows));
      PrefixMembers(old(table.rows), table.rows);
      WalkedAnswers(indexed, tenant, q, old(table.settled), table.rows, None, walk.events, last);
    }

    /** One turn of the walk: the next page, yielded, unless its cursor is refused. */
    method Turn(tenant: string, q: Query, maxItems: Option<int>, pageSize: int, page: Answer, sofar: seq<Event>,
                ghost before: seq<Event>, ghost seen: seq<Event>, ghost key: Option<Event>)
      returns (answer: Answer, events: seq<Event>, stop: bool, ghost all: seq<Event>, ghost last: Option<Event>)
      requires StartKeys.Faithful(codec) && table.Sound() && before <= table.settled
      requires Walkable(indexed, tenant, q, pageSize) && key.Some?
      requires Following(codec, indexed, tenant, q, before, table.rows, seen, key, page, sofar, false, maxItems)
      modifies table
      ensures table.Sound() && old(table.rows) <= table.rows && old(table.settled) <= table.settled
      ensures answer.Page? ==>
        && Following(codec, indexed, tenant, q, before, table.rows, all, last, answer, events, stop, maxItems)
        && (last.Some? ==> MarkRank(IdOf(last)) < MarkRank(IdOf(key)))
      ensures answer.Refused? ==>
        answer == Refused(InvalidStartKey) && !stop && events == sofar && TooLong(codec, indexed, tenant, q, key.value)
    {
      ghost var mid, settled, k := table.rows, table.settled, key.value;
      FollowCursor(codec, indexed, tenant, q, before, mid, seen, k, pageSize);
      events, stop, all, last := sofar, false, seen, key;
      ghost var next;
      answer, next := ListEvents(tenant, q, pageSize, page.next);
      if answer.Refused? {
        return;
      }
      YieldedSoFar(seen, sofar, maxItems);
      WalkedSettled(indexed, tenant, q, before, settled, table.rows, Some(k.id), answer.events, next);
      events, stop := Yield(sofar, answer.events, maxItems);
      FollowPage(codec, indexed, tenant, q, before, mid, table.rows, seen, k, sofar, answer, next, events, stop, maxItems);
      all, last := seen + answer.events, next;
    }

    /** The loop: turn after turn until `maxItems`, the last page or a refusal. */
    method Pages(tenant: string, q: Query, maxItems: Option<int>, pageSize: int, first: Answer, sofar: seq<Event>, done: bool,
                 ghost before: seq<Event>, ghost firstKey: Option<Event>)
      returns (events: seq<Event>, stop: bool, fault: Option<ListError>, ghost seen: seq<Event>, ghost last: Option<Event>)
      requires StartKeys.Faithful(codec) && table.Sound() && before <= table.settled
      requires Walkable(indexed, tenant, q, pageSize) && first.Page?
      requires Following(codec, indexed, tenant, q, before, table.rows, first.events, firstKey, first, sofar, done, maxItems)
      modifies table
      ensures table.Sound() && old(table.rows) <= table.rows
      ensures Walked(indexed, tenant, q, before, table.rows, None, seen, last) && Yielded(seen, events, stop, maxItems)
      ensures fault.None? ==> stop || last.None?
      ensures fault.Some? ==> !stop && RefusedAt(codec, indexed, tenant, q, fault.value, last)
    {
      var answer := first;
      events, stop, fault, seen, last := sofar, done, None, first.events, firstKey;
      while !stop && answer.next.Some?
        invariant table.Sound() && old(table.rows) <= table.rows && before <= table.settled
        invariant Following(codec, indexed, tenant, q, before, table.rows, seen, last, answer, events, stop, maxItems)
        decreases !stop && answer.next.Some?, MarkRank(IdOf(last))
      {
        ghost var rows := table.rows;
        var next;
        ghost var more, k;
        next, events, stop, more, k := Turn(tenant, q, maxItems, pageSize, answer, events, before, seen, last);
        if next.Refused? {
          WalkedLater(indexed, tenant, q, before, rows, table.rows, seen, last);
          fault := Some(next.error);
          return;
        }
        answer, seen, last := next, more, k;
      }
    }

    /** Yields the first page and follows its cursor, page by page. */
    method Follow(tenant: string, q: Query, maxItems: Option<int>, pageSize: int, first: Answer,
                  ghost before: seq<Event>, ghost firstKey: Option<Event>)
      returns (walk: Walk, ghost last: Option<Event>)
      requires StartKeys.Faithful(codec) && table.Sound() && before <= table.settled
      requires Walkable(indexed, tenant, q, pageSize)
      requires first.Page? && first.next == NextCursor(codec, indexed, tenant, q, firstKey)
      requires Walked(indexed, tenant, q, before, table.rows, None, first.events, firstKey)
      modifies table
      ensures table.Sound() && old(table.rows) <= table.rows
      ensures Ended(codec, indexed, tenant, q, maxItems, before, table.rows, walk, last)
    {
      var events, stop := Yield([], first.events, maxItems);
      assert [] + first.events == first.events;
      var fault;
      ghost var seen;
      events, stop, fault, seen, last := Pages(tenant, q, maxItems, pageSize, first, events, stop, before, firstKey);
      WalkEnds(codec, indexed, tenant, q, before, table.rows, seen, last, events, stop, fault, maxItems);
      walk := Walk(events, fault);
      if stop {
        last := Some(events[|events| - 1]);
      }
    }
  }

  // ---------------------------------------------------------------- what a page and a walk promise

  /** What a walk of a listing has answered so far: `Covered` under the listing's own read. */
  ghost predicate Walked(indexed: bool, tenant: string, q: Query, settled: seq<Event>, rows: seq<Event>,
                         mark: Option<string>, events: seq<Event>, last: Option<Event>) {
    BoundsOf(q).Range? ==>
      Covered(settled, rows, ReadFor(indexed, tenant, q, BoundsOf(q).low, BoundsOf(q).high), mark, events, last)
  }

  /** One call: the refusal both stores give, no ids, the table's own refusal of a key not the read's, or a page that covers the listing down to where its cursor points. */
  ghost predicate Listed(c: StartKeys.Codec, indexed: bool, tenant: string, q: Query, limit: int, start: Start,
                         settled: seq<Event>, rows: seq<Event>, answer: Answer, last: Option<Event>) {
    var fault := Fault(tenant, q, limit, start);
    if fault.Some? then answer == Refused(fault.value)
    else if !BoundsOf(q).Range? then answer == Page([], None)
    else if start.Below? && !OwnKey(indexed, tenant, q, start) then answer == Refused(KeyRejected)
    else
      && answer.Page? && |answer.events| <= limit
      && Walked(indexed, tenant, q, settled, rows, Mark(start), answer.events, last)
      && answer.next == NextCursor(c, indexed, tenant, q, last)
  }

  /** What covers a listing's own read answers the query itself. */
  lemma WalkedAnswers(indexed: bool, tenant: string, q: Query, settled: seq<Event>, rows: seq<Event>, mark: Option<string>,
                      events: seq<Event>, last: Option<Event>)
    requires tenant != "" && BoundsOf(q).Range? && Separate(indexed, tenant, q)
    requires Rows(rows) && forall e :: e in settled ==> e in rows
    requires Walked(indexed, tenant, q, settled, rows, mark, events, last)
    ensures Answers(settled, rows, tenant, q, mark, events, IdOf(last))
  {
    var b := BoundsOf(q);
    var r := ReadFor(indexed, tenant, q, b.low, b.high);
    forall e | e in rows ensures Hit(r, e) <==> Wanted(tenant, q, b.low, b.high, e) {
      RowsValid(rows, e);
      ReadSelectsWanted(indexed, tenant, q, e);
    }
    WantedAnswers(settled, rows, tenant, q, mark, events, IdOf(last));
  }

  /** A walk stops early only on reaching `maxItems`, compared after each event. */
  predicate Stopped(events: seq<Event>, maxItems: Option<int>) {
    maxItems.Some? && |events| >= 1 && |events| >= maxItems.value && (|events| == maxItems.value || |events| == 1)
  }

  predicate Unstopped(events: seq<Event>, maxItems: Option<int>) {
    maxItems.Some? ==> events == [] || |events| < maxItems.value
  }

  /** The cursor of the row the walk had come to was the listing's own, and too long. */
  predicate RefusedAt(c: StartKeys.Codec, indexed: bool, tenant: string, q: Query, fault: ListError, last: Option<Event>) {
    fault == InvalidStartKey && last.Some? && TooLong(c, indexed, tenant, q, last.value)
  }

  /** How a walk ends: it yielded everything, or as many as were asked for, or all down to a row whose cursor is refused. */
  ghost predicate Ended(c: StartKeys.Codec, indexed: bool, tenant: string, q: Query, maxItems: Option<int>,
                        settled: seq<Event>, rows: seq<Event>, walk: Walk, last: Option<Event>) {
    && Walked(indexed, tenant, q, settled, rows, None, walk.events, last)
    && match walk.fault
       case None =>
         if last.None? then Unstopped(walk.events, maxItems)
         else Stopped(walk.events, maxItems) && last.value == walk.events[|walk.events| - 1]
       case Some(fault) => Unstopped(walk.events, maxItems) && RefusedAt(c, indexed, tenant, q, fault, last)
  }

  ghost predicate Iterated(c: StartKeys.Codec, indexed: bool, tenant: string, q: Query, pageSize: int, maxItems: Option<int>,
                           settled: seq<Event>, rows: seq<Event>, walk: Walk, last: Option<Event>) {
    var fault := Fault(tenant, q, pageSize, Top);
    if fault.Some? then walk == Walk([], fault)
    else if !BoundsOf(q).Range? then walk == Walk([], None)
    else Ended(c, indexed, tenant, q, maxItems, settled, rows, walk, last)
  }

  /** A listing that may be walked: the call is good, there are ids to list, and the index is the tenant's own. */
  predicate Walkable(indexed: bool, tenant: string, q: Query, limit: int) {
    Fault(tenant, q, limit, Top).None? && BoundsOf(q).Range? && Separate(indexed, tenant, q)
  }

  // ---------------------------------------------------------------- the steps of a walk

  /** What has been yielded of what was seen. */
  predicate Yielded(seen: seq<Event>, events: seq<Event>, stop: bool, maxItems: Option<int>) {
    if stop then events <= seen && Stopped(events, maxItems)
    else events == seen && Unstopped(events, maxItems)
  }

  lemma YieldedSoFar(seen: seq<Event>, events: seq<Event>, maxItems: Option<int>)
    requires Yielded(seen, events, false, maxItems)
    ensures maxItems.Some? ==> events == [] || |events| < maxItems.value
  {}

  lemma StartsAtTop(c: StartKeys.Codec, tenant: string, q: Query)
    ensures ReadCursor(c, None, CursorScope(tenant, q)) == Top
  {}

  /** Where the walk stands: what it has seen and yielded, and the page whose cursor is next. */
  ghost predicate Following(c: StartKeys.Codec, indexed: bool, tenant: string, q: Query, before: seq<Event>, after: seq<Event>,
                            seen: seq<Event>, last: Option<Event>, answer: Answer, events: seq<Event>, stop: bool, maxItems: Option<int>) {
    && Walked(indexed, tenant, q, before, after, None, seen, last)
    && answer.Page? && answer.next == NextCursor(c, indexed, tenant, q, last)
    && Yielded(seen, events, stop, maxItems)
  }

  lemma FollowCursor(c: StartKeys.Codec, indexed: bool, tenant: string, q: Query, before: seq<Event>, after: seq<Event>,
                     seen: seq<Event>, k: Event, limit: int)
    requires StartKeys.Faithful(c) && Walkable(indexed, tenant, q, limit) && Rows(after)
    requires Walked(indexed, tenant, q, before, after, None, seen, Some(k))
    ensures var start := ReadCursor(c, NextCursor(c, indexed, tenant, q, Some(k)), CursorScope(tenant, q));
      && k in after
      && (TooLong(c, indexed, tenant, q, k) ==> Fault(tenant, q, limit, start) == Some(InvalidStartKey))
      && (!TooLong(c, indexed, tenant, q, k) ==>
            Fault(tenant, q, limit, start).None? && Mark(start) == Some(k.id) && OwnKey(indexed, tenant, q, start))
  {
    OwnCursorAccepted(c, after, indexed, tenant, q, limit, k);
  }

  lemma FollowPage(c: StartKeys.Codec, indexed: bool, tenant: string, q: Query, before: seq<Event>, mid: seq<Event>, after: seq<Event>,
                   seen: seq<Event>, k: Event, sofar: seq<Event>, answer: Answer, last: Option<Event>, events: seq<Event>, stop: bool,
                   maxItems: Option<int>)
    requires BoundsOf(q).Range? && mid <= after && Rows(after) && k in mid
    requires Walked(indexed, tenant, q, before, mid, None, seen, Some(k)) && Yielded(seen, sofar, false, maxItems)
    requires answer.Page? && answer.next == NextCursor(c, indexed, tenant, q, last)
    requires Walked(indexed, tenant, q, before, after, Some(k.id), answer.events, last)
    requires Yielded(sofar + answer.events, events, stop, maxItems)
    ensures Following(c, indexed, tenant, q, before, after, seen + answer.events, last, answer, events, stop, maxItems)
    ensures last.Some? ==> MarkRank(IdOf(last)) < MarkRank(Some(k.id))
  {
    WalkedOn(indexed, tenant, q, before, mid, after, seen, k, answer.events, last);
  }

  lemma WalkedOn(indexed: bool, tenant: string, q: Query, before: seq<Event>, mid: seq<Event>, after: seq<Event>,
                 events: seq<Event>, k: Event, more: seq<Event>, last: Option<Event>)
    requires BoundsOf(q).Range? && mid <= after && Rows(after) && k in mid
    requires Walked(indexed, tenant, q, before, mid, None, events, Some(k))
    requires Walked(indexed, tenant, q, before, after, Some(k.id), more, last)
    ensures Walked(indexed, tenant, q, before, after, None, events + more, last)
    ensures last.Some? ==> MarkRank(IdOf(last)) < MarkRank(Some(k.id))
  {
    var r := ReadFor(indexed, tenant, q, BoundsOf(q).low, BoundsOf(q).high);
    Stitch(before, mid, after, r, None, events, k, more, last);
    if last.Some? {
      assert last.value in after && Less(last.value.id, k.id);
      MarkFalls(after, mid, last.value, k);
    }
  }

  /** A walk so far stands for what was settled earlier too, and for a table that has grown. */
  lemma WalkedSettled(indexed: bool, tenant: string, q: Query, before: seq<Event>, settled: seq<Event>, rows: seq<Event>,
                      mark: Option<string>, events: seq<Event>, last: Option<Event>)
    requires before <= settled && Walked(indexed, tenant, q, settled, rows, mark, events, last)
    ensures Walked(indexed, tenant, q, before, rows, mark, events, last)
  {
    PrefixMembers(before, settled);
  }

  lemma WalkedLater(indexed: bool, tenant: string, q: Query, before: seq<Event>, mid: seq<Event>, after: seq<Event>,
                    events: seq<Event>, last: Option<Event>)
    requires mid <= after && Walked(indexed, tenant, q, before, mid, None, events, last)
    ensures Walked(indexed, tenant, q, before, after, None, events, last)
  {
    PrefixMembers(mid, after);
  }

  /** A walk stopped short covers the listing down to the last event it yielded. */
  lemma StoppedCovers(indexed: bool, tenant: string, q: Query, before: seq<Event>, after: seq<Event>, seen: seq<Event>,
                      last: Option<Event>, events: seq<Event>)
    requires BoundsOf(q).Range? && events != [] && events <= seen && Walked(indexed, tenant, q, before, after, None, seen, last)
    ensures Walked(indexed, tenant, q, before, after, None, events, Some(events[|events| - 1]))
  {
    assert events == seen[..|events|];
    CoveredCut(before, after, ReadFor(indexed, tenant, q, BoundsOf(q).low, BoundsOf(q).high), None, seen, last, |events|);
  }

  lemma WalkEnds(c: StartKeys.Codec, indexed: bool, tenant: string, q: Query, before: seq<Event>, after: seq<Event>,
                 seen: seq<Event>, last: Option<Event>, events: seq<Event>, stop: bool, fault: Option<ListError>, maxItems: Option<int>)
    requires BoundsOf(q).Range? && Yielded(seen, events, stop, maxItems)
    requires Walked(indexed, tenant, q, before, after, None, seen, last)
    requires fault.None? ==> stop || last.None?
    requires fault.Some? ==> !stop && RefusedAt(c, indexed, tenant, q, fault.value, last)
    ensures Ended(c, indexed, tenant, q, maxItems, before, after, Walk(events, fault), if stop then Some(events[|events| - 1]) else last)
  {
    if stop { StoppedCovers(indexed, tenant, q, before, after, seen, last, events); }
  }

  /** Yields one page's events, stopping once `maxItems` have been yielded in all. */
  method Yield(sofar: seq<Event>, page: seq<Event>, maxItems: Option<int>) returns (events: seq<Event>, stop: bool)
    requires maxItems.Some? ==> sofar == [] || |sofar| < maxItems.value
    ensures Yielded(sofar + page, events, stop, maxItems)
  {
    events := sofar;
    stop := false;
    var i := 0;
    while i < |page|
      invariant 0 <= i <= |page|
      invariant events == sofar + page[..i]
      invariant maxItems.Some? ==> events == [] || |events| < maxItems.value
    {
      events := events + [page[i]];
      i := i + 1;
      if maxItems.Some? && |events| >= maxItems.value {
        return events, true;
      }
    }
  }

  // ---------------------------------------------------------------- walking

  /** How far below a mark there is left to go, among all ids there could ever be. */
  function MarkRank(mark: Option<string>): nat {
    if mark.None? then 0 else Rank(mark.value, LENGTH + 1)
  }

  lemma UlidAscii(id: string)
    requires IsUlid(id)
    ensures Ascii(id) && |id| <= LENGTH + 1
  {
    forall i | 0 <= i < |id| ensures id[i] < 128 as char {
      if i < LENGTH {
        var j :| 0 <= j < |ALPHABET| && ALPHABET[j] == id[i];
        if j < 31 { Climb(j, 31); }
      }
    }
  }

  /** Every page ends strictly lower among the finitely many ids there could be. */
  lemma MarkFalls(rows: seq<Event>, earlier: seq<Event>, k: Event, mark: Event)
    requires Rows(rows) && k in rows && mark in earlier && earlier <= rows && Less(k.id, mark.id)
    ensures MarkRank(Some(k.id)) < MarkRank(Some(mark.id))
  {
    PrefixMembers(earlier, rows);
    RowsValid(rows, k);
    RowsValid(rows, mark);
    UlidAscii(k.id);
    UlidAscii(mark.id);
    RankGrows(k.id, mark.id, LENGTH + 1);
  }

  /** A row that may end a page is of the listing's own tenant, range and target. */
  lemma HitMayEnd(rows: seq<Event>, indexed: bool, tenant: string, q: Query, limit: int, k: Event)
    requires Rows(rows) && k in rows && Walkable(indexed, tenant, q, limit)
    requires KeyHit(ReadFor(indexed, tenant, q, BoundsOf(q).low, BoundsOf(q).high), k)
    ensures MayEnd(indexed, tenant, q, k) && Within(k.id, BoundsOf(q).low, BoundsOf(q).high)
  {
    RowsValid(rows, k);
    KeyHitTenant(indexed, tenant, q, k);
  }

  lemma PositionTaken(tenant: string, q: Query, limit: int, id: string, key: StartKeys.Key)
    requires Fault(tenant, q, limit, Top).None? && BoundsOf(q).Range? && Within(id, BoundsOf(q).low, BoundsOf(q).high)
    ensures Fault(tenant, q, limit, Below(Position(Some(tenant), Some(id)), key)).None?
  {}

  /** A listing takes up its own cursor exactly when it is within the decoder's bound, and refuses it otherwise. */
  lemma OwnCursorAccepted(c: StartKeys.Codec, rows: seq<Event>, indexed: bool, tenant: string, q: Query, limit: int, k: Event)
    requires StartKeys.Faithful(c) && Rows(rows) && k in rows && Walkable(indexed, tenant, q, limit)
    requires KeyHit(ReadFor(indexed, tenant, q, BoundsOf(q).low, BoundsOf(q).high), k)
    ensures var cursor := NextCursor(c, indexed, tenant, q, Some(k)).value;
      var start := ReadCursor(c, Some(cursor), CursorScope(tenant, q));
      if |cursor| <= StartKeys.MAX_LENGTH
      then Fault(tenant, q, limit, start).None? && Mark(start) == Some(k.id) && OwnKey(indexed, tenant, q, start)
      else Fault(tenant, q, limit, start) == Some(InvalidStartKey)
  {
    HitMayEnd(rows, indexed, tenant, q, limit, k);
    CursorReturns(c, indexed, tenant, q, k);
    EndIsOwn(indexed, tenant, q, k);
    PositionTaken(tenant, q, limit, k.id, KeyOf(PageEnd(indexed, q, k)));
  }

  /** With room for every cursor, checked before the call, a walk is never refused on the way. */
  lemma FittingNeverRefused(c: StartKeys.Codec, indexed: bool, tenant: string, q: Query, pageSize: int, maxItems: Option<int>,
                            settled: seq<Event>, rows: seq<Event>, walk: Walk, last: Option<Event>)
    requires Measured(c) && Rows(rows) && Walkable(indexed, tenant, q, pageSize) && CursorsFit(indexed, tenant, q)
    requires Ended(c, indexed, tenant, q, maxItems, settled, rows, walk, last)
    ensures walk.fault.None?
  {
    if walk.fault.Some? {
      HitMayEnd(rows, indexed, tenant, q, pageSize, last.value);
      FittingNeverTooLong(c, indexed, tenant, q, last.value);
    }
  }

  /** Without room, every cursor the listing hands out is refused, so no walk gets past its first page. */
  lemma NoRoomRefuses(c: StartKeys.Codec, indexed: bool, tenant: string, q: Query, pageSize: int, rows: seq<Event>, k: Event)
    requires StartKeys.Faithful(c) && Measured(c) && Rows(rows) && Walkable(indexed, tenant, q, pageSize) && k in rows
    requires KeyHit(ReadFor(indexed, tenant, q, BoundsOf(q).low, BoundsOf(q).high), k)
    requires CursorBytes(indexed, tenant, q, LENGTH) > MAX_BYTES
    ensures Fault(tenant, q, pageSize, ReadCursor(c, NextCursor(c, indexed, tenant, q, Some(k)), CursorScope(tenant, q)))
         == Some(InvalidStartKey)
  {
    HitMayEnd(rows, indexed, tenant, q, pageSize, k);
    TooLongExactly(c, indexed, tenant, q, k);
    OwnCursorAccepted(c, rows, indexed, tenant, q, pageSize, k);
  }

  /** With nothing appended and every row settled, a walk to the end is the in-memory listing. */
  lemma QuietWalk(rows: seq<Event>, indexed: bool, tenant: string, q: Query, events: seq<Event>)
    requires Rows(rows) && tenant != "" && BoundsOf(q).Range? && Separate(indexed, tenant, q)
    requires Walked(indexed, tenant, q, rows, rows, None, events, None)
    ensures events == Listing(rows, tenant, q, None)
  {
    ListingIs(rows, tenant, q, None);
    forall e ensures e in events <==> e in Listing(rows, tenant, q, None) {
      if e in rows {
        RowsValid(rows, e);
        ReadSelectsWanted(indexed, tenant, q, e);
      }
    }
    SameEventsSameOrder(events, Listing(rows, tenant, q, None));
  }

  /** So with nothing appended and every row settled, a walk to the end yields exactly what the query asks for. */
  lemma QuietWalkAnswers(c: StartKeys.Codec, rows: seq<Event>, indexed: bool, tenant: string, q: Query, pageSize: int,
                         walk: Walk, last: Option<Event>, e: Event, ms: nat, random: nat)
    requires Rows(rows) && tenant != "" && Separate(indexed, tenant, q) && MintedAt(e, ms, random)
    requires Fault(tenant, q, pageSize, Top).None? && walk.fault.None?
    requires Iterated(c, indexed, tenant, q, pageSize, None, rows, rows, walk, last)
    ensures e in walk.events <==> e in rows && Asks(tenant, q, e, ms)
  {
    WantedMeans(tenant, q, e, ms, random);
    if BoundsOf(q).Range? {
      WalkedAnswers(indexed, tenant, q, rows, rows, None, walk.events, last);
    }
  }

  /** A walk keeps its bound exactly when it is asked for at least one event, or meets none. */
  lemma YieldsAtMostExactly(c: StartKeys.Codec, indexed: bool, tenant: string, q: Query, pageSize: int, m: int,
                            settled: seq<Event>, rows: seq<Event>, walk: Walk, last: Option<Event>)
    requires Iterated(c, indexed, tenant, q, pageSize, Some(m), settled, rows, walk, last)
    ensures m >= 0 ==> (|walk.events| <= m <==> m >= 1 || walk.events == [])
    ensures m <= 0 ==> |walk.events| <= 1
  {}

  /** Asked for none, or for fewer, over a settled table, a walk that is not refused yields the newest event there is. */
  lemma NoneYieldsNewest(c: StartKeys.Codec, rows: seq<Event>, indexed: bool, tenant: string, q: Query, pageSize: int, m: int,
                         walk: Walk, last: Option<Event>)
    requires Rows(rows) && Walkable(indexed, tenant, q, pageSize) && m <= 0 && walk.fault.None?
    requires Iterated(c, indexed, tenant, q, pageSize, Some(m), rows, rows, walk, last)
    ensures var all := Listing(rows, tenant, q, None); walk.events == if all == [] then [] else [all[0]]
  {
    var all := Listing(rows, tenant, q, None);
    ListingIs(rows, tenant, q, None);
    if last.None? {
      QuietWalk(rows, indexed, tenant, q, walk.events);
    } else {
      NewestIsFirst(rows, indexed, tenant, q, walk.events, last.value, all);
    }
  }

  lemma NewestIsFirst(rows: seq<Event>, indexed: bool, tenant: string, q: Query, events: seq<Event>, k: Event, all: seq<Event>)
    requires Rows(rows) && tenant != "" && BoundsOf(q).Range? && Separate(indexed, tenant, q) && events == [k]
    requires Walked(indexed, tenant, q, rows, rows, None, events, Some(k)) && all == Listing(rows, tenant, q, None)
    ensures all != [] && all[0] == k
  {
    ListingIs(rows, tenant, q, None);
    assert k in events;
    RowsValid(rows, k);
    ReadSelectsWanted(indexed, tenant, q, k);
    assert k in all;
    var e := all[0];
    RowsValid(rows, e);
    ReadSelectsWanted(indexed, tenant, q, e);
    HeadIsHighest(all, k);
    assert e in events;
  }

  lemma {:induction false} HeadIsHighest(s: seq<Event>, e: Event)
    requires Descending(s) && e in s
    ensures AtMost(e.id, s[0].id)
  {
    var n := |s| - 1;
    assert s == s[..n] + [s[n]];
    if n > 0 {
      assert s[0] in s[..n];
      if e in s[..n] { HeadIsHighest(s[..n], e); }
    }
  }

  /** An input: one settled event, nothing asked for, and the walk yields it. */
  lemma AskedForNone(c: StartKeys.Codec, e: Event, indexed: bool, pageSize: int, walk: Walk, last: Option<Event>)
    requires Valid(e) && 1 <= pageSize <= MAX_PAGE_SIZE
    requires Iterated(c, indexed, e.tenant, Everything, pageSize, Some(0), [e], [e], walk, last)
    ensures walk == Walk([e], None)
  {
    var r := ReadFor(indexed, e.tenant, Everything, None, None);
    assert e in [e] && Hit(r, e);
    assert last.Some? ==> last.value == e by { if last.Some? { assert last.value in [e]; } }
    assert e in walk.events;
    OnlyOne(walk.events, e);
  }

  // ---------------------------------------------------------------- a query that collides

  /** A table of one settled row of the key a listing reads answers that row, whoever's it is. */
  lemma ListsItsKey(c: StartKeys.Codec, tenant: string, q: Query, limit: int, e: Event, answer: Answer, last: Option<Event>)
    requires Fault(tenant, q, limit, Top).None? && BoundsOf(q) == Range(None, None) && q.actor == "" && q.action == ""
    requires Narrowed(q).Some? && InIndex(e, TargetKey(tenant, Narrowed(q).value))
    requires Listed(c, true, tenant, q, limit, Top, [e], [e], answer, last)
    ensures answer.Page? && answer.events == [e]
  {
    var r := ReadFor(true, tenant, q, None, None);
    assert e in [e] && Hit(r, e);
    assert last.Some? ==> last.value == e by { if last.Some? { assert last.value in [e]; } }
    assert e in answer.events;
    OnlyOne(answer.events, e);
  }

  lemma OnlyOne(s: seq<Event>, e: Event)
    requires Descending(s) && e in s && forall x :: x in s ==> x == e
    ensures s == [e]
  {
    var n := |s| - 1;
    assert s[n] in s && s[n] == e;
    if n > 0 {
      assert s[..n][0] in s[..n] && s[..n][0] == s[0] && s[0] in s;
      Irreflexive(e.id);
    }
  }

  /** Over a table of this one settled row, the listing may answer it though it is another tenant's or another target's. */
  ghost predicate Leaks(c: StartKeys.Codec, tenant: string, q: Query, limit: int, e: Event) {
    && Valid(e) && !Wanted(tenant, q, None, None, e)
    && exists answer, last :: Listed(c, true, tenant, q, limit, Top, [e], [e], answer, last) && answer.Page? && e in answer.events
  }

  lemma OwnInIndex(tenant: string, t: Target, e: Event)
    requires t.Named() && e.tenant == tenant && e.target.SameAs(t)
    ensures InIndex(e, TargetKey(tenant, t))
  {}

  lemma RowIsCovered(r: Read, e: Event)
    requires Hit(r, e)
    ensures Covered([e], [e], r, None, [e], None)
  {
    assert [e][..0] == [];
  }

  lemma CollisionLeaks(c: StartKeys.Codec, tenant: string, q: Query, limit: int) returns (e: Event)
    requires Fault(tenant, q, limit, Top).None? && BoundsOf(q) == Range(None, None) && q.actor == "" && q.action == ""
    requires Narrowed(q).Some? && Collides(tenant, Narrowed(q).value)
    ensures Leaks(c, tenant, q, limit, e)
  {
    var t := Narrowed(q).value;
    IndexReadsTarget(tenant, t);
    e :| Valid(e) && !(InIndex(e, TargetKey(tenant, t)) <==> e.tenant == tenant && e.target.SameAs(t));
    if e.tenant == tenant && e.target.SameAs(t) { OwnInIndex(tenant, t, e); }
    assert InIndex(e, TargetKey(tenant, t));
    RowIsCovered(ReadFor(true, tenant, q, None, None), e);
    assert Listed(c, true, tenant, q, limit, Top, [e], [e], Page([e], None), None);
  }

  lemma LeakCollides(c: StartKeys.Codec, tenant: string, q: Query, limit: int, e: Event)
    requires Fault(tenant, q, limit, Top).None? && BoundsOf(q) == Range(None, None) && q.actor == "" && q.action == ""
    requires Narrowed(q).Some? && Leaks(c, tenant, q, limit, e)
    ensures Collides(tenant, Narrowed(q).value)
  {
    IndexReadsTarget(tenant, Narrowed(q).value);
    var answer, last :| Listed(c, true, tenant, q, limit, Top, [e], [e], answer, last) && answer.Page? && e in answer.events;
    AnsweredHits(tenant, q, [e], answer.events, last, e);
  }

  lemma AnsweredHits(tenant: string, q: Query, rows: seq<Event>, events: seq<Event>, last: Option<Event>, e: Event)
    requires BoundsOf(q) == Range(None, None) && Walked(true, tenant, q, rows, rows, None, events, last) && e in events
    ensures Hit(ReadFor(true, tenant, q, None, None), e)
  {}

  /** A listing of one target through the index leaks another's row from some table exactly when its key collides. */
  lemma ListingLeaksExactly(c: StartKeys.Codec, tenant: string, q: Query, limit: int)
    requires Fault(tenant, q, limit, Top).None? && BoundsOf(q) == Range(None, None) && q.actor == "" && q.action == ""
    requires Narrowed(q).Some?
    ensures Collides(tenant, Narrowed(q).value) <==> exists e :: Leaks(c, tenant, q, limit, e)
  {
    if Collides(tenant, Narrowed(q).value) { var e := CollisionLeaks(c, tenant, q, limit); }
    if e :| Leaks(c, tenant, q, limit, e) { LeakCollides(c, tenant, q, limit, e); }
  }

  /** An input: tenant "a#b" asking for "c" "d" is answered the row of tenant "a" about "b" "c#d". */
  lemma ListingLeaks(c: StartKeys.Codec, e: Event, answer: Answer, last: Option<Event>)
    requires Valid(e) && e.tenant == "a" && e.target.kind == "b" && e.target.id == "c#d"
    requires Listed(c, true, "a#b", About("c", "d"), 1, Top, [e], [e], answer, last)
    ensures answer.Page? && answer.events == [e]
  {
    SameKey(e.target);
    ListsItsKey(c, "a#b", About("c", "d"), 1, e, answer, last);
  }

  lemma SameKey(t: Target)
    requires t.kind == "b" && t.id == "c#d"
    ensures TargetKey("a", t) == TargetKey("a#b", Target("c", "d", ""))
  {}

  /** Everything about one target. */
  function About(kind: string, id: string): Query {
    Query(None, None, "", "", Some(Target(kind, id, "")))
  }

  /** So the two stores agree: the same events in the same order, whatever the table's page cuts. */
  lemma StoresAgree(c: StartKeys.Codec, rows: seq<Event>, indexed: bool, tenant: string, q: Query, pageSize: int, walk: Walk, last: Option<Event>)
    requires StartKeys.Faithful(c) && Measured(c) && Rows(rows) && Walkable(indexed, tenant, q, pageSize)
    requires CursorsFit(indexed, tenant, q)
    requires Iterated(c, indexed, tenant, q, pageSize, None, rows, rows, walk, last)
    ensures walk == MemoryWalk(c, rows, tenant, q, pageSize, Top)
  {
    FittingNeverRefused(c, indexed, tenant, q, pageSize, None, rows, rows, walk, last);
    QuietWalk(rows, indexed, tenant, q, walk.events);
    MemoryWalkIsListing(c, rows, tenant, q, pageSize, Top);
  }
}
