/**
  Reading many items by key: requests of at most a hundred keys, of which the service may leave
  any part unprocessed, retried a bounded number of times.
*/
module BatchGet {
  import opened Options
  import opened OrderedDict

  const LIMIT: nat := 100

  datatype Item = Item(key: string, body: nat)

  /** A table keeps each item under its own key. */
  type Table = t: map<string, Item> | forall k :: k in t ==> t[k].key == k

  function Elements(s: seq<string>): set<string> {
    set k | k in s
  }

  /** The items are those of the asked keys that exist, each exactly once, in any order. */
  ghost predicate Exactly(table: Table, asked: set<string>, items: seq<Item>) {
    && (forall i :: 0 <= i < |items| ==> items[i].key in asked && items[i].key in table && items[i] == table[items[i].key])
    && (forall i, j :: 0 <= i < j < |items| ==> items[i].key != items[j].key)
    && (forall k :: k in asked && k in table ==> table[k] in items)
  }

  lemma ExactlyJoin(table: Table, a: set<string>, xs: seq<Item>, b: set<string>, ys: seq<Item>)
    requires a !! b && Exactly(table, a, xs) && Exactly(table, b, ys)
    ensures Exactly(table, a + b, xs + ys)
  {}

  lemma {:induction false} DistinctAll(s: seq<string>)
    ensures Distinct(s) <==> forall i, j :: 0 <= i < j < |s| ==> s[i] != s[j]
  {
    if s != [] { DistinctAll(s[..|s| - 1]); }
  }

  lemma DistinctSlices(s: seq<string>, i: nat, j: nat)
    requires Distinct(s) && i <= j <= |s|
    ensures Distinct(s[i..j]) && Elements(s[..i]) !! Elements(s[i..j])
  {
    DistinctAll(s);
    DistinctAll(s[i..j]);
    forall k | k in s[..i] ensures k !in s[i..j] {
      var a :| 0 <= a < i && s[a] == k;
      assert forall b :: i <= b < j ==> s[b] != k;
    }
  }

  // ---------------------------------------------------------------- the calls

  /** One call to the service: which chunk, which attempt, the keys asked for and those left unprocessed. */
  datatype Call = Call(chunk: nat, attempt: nat, asked: seq<string>, pending: seq<string>)

  function Chunks(keys: seq<string>): nat {
    (|keys| + LIMIT - 1) / LIMIT
  }

  function ChunkAt(keys: seq<string>, i: nat): seq<string>
    requires i < Chunks(keys)
  {
    keys[i * LIMIT..if (i + 1) * LIMIT <= |keys| then (i + 1) * LIMIT else |keys|]
  }

  /** A chunk is asked for once whole, then only for what was left of it, at most `tries` times, before the next begins. */
  predicate Follows(keys: seq<string>, tries: nat, before: seq<Call>, c: Call) {
    && c.chunk < Chunks(keys) && c.attempt < tries
    && 0 < |c.asked| <= LIMIT && Distinct(c.asked) && Elements(c.pending) <= Elements(c.asked) && Distinct(c.pending)
    && if before == [] then c.chunk == c.attempt == 0 && c.asked == ChunkAt(keys, 0) else
       var b := before[|before| - 1];
       if b.pending == [] then c.chunk == b.chunk + 1 && c.attempt == 0 && c.asked == ChunkAt(keys, c.chunk)
       else c.chunk == b.chunk && c.attempt == b.attempt + 1 && c.asked == b.pending
  }

  predicate Paced(keys: seq<string>, tries: nat, calls: seq<Call>) {
    calls == [] || (Paced(keys, tries, calls[..|calls| - 1]) && Follows(keys, tries, calls[..|calls| - 1], calls[|calls| - 1]))
  }

  /** The calls so far, when the next is attempt `attempt` at chunk `n`, for `request`. */
  predicate Asking(keys: seq<string>, tries: nat, calls: seq<Call>, n: nat, attempt: nat, request: seq<string>) {
    && n < Chunks(keys) && attempt < tries
    && 0 < |request| <= LIMIT && Distinct(request)
    && Paced(keys, tries, calls)
    && if attempt == 0 then request == ChunkAt(keys, n) && Ended(calls, n)
       else calls != [] && calls[|calls| - 1].chunk == n && calls[|calls| - 1].attempt == attempt - 1 && calls[|calls| - 1].pending == request
  }

  /** The chunks before this one, and no other, were read to the end. */
  predicate Ended(calls: seq<Call>, n: nat) {
    if n == 0 then calls == [] else calls != [] && calls[|calls| - 1].chunk == n - 1 && calls[|calls| - 1].pending == []
  }

  lemma Asked(keys: seq<string>, tries: nat, calls: seq<Call>, n: nat, attempt: nat, request: seq<string>, pending: seq<string>)
    requires Asking(keys, tries, calls, n, attempt, request)
    requires Distinct(pending) && Elements(pending) <= Elements(request)
    ensures var more := calls + [Call(n, attempt, request, pending)];
      && Paced(keys, tries, more)
      && (pending == [] ==> Ended(more, n + 1))
      && (pending != [] && attempt + 1 == tries ==> Exhausted(tries, more))
      && (pending != [] && attempt + 1 < tries ==> Asking(keys, tries, more, n, attempt + 1, pending))
  {
    var c := Call(n, attempt, request, pending);
    assert (calls + [c])[..|calls|] == calls;
    assert Follows(keys, tries, calls, c);
    PendingFits(request, pending);
  }

  /** What was read of a chunk: the items of `done`, with `request` still to read. */
  ghost predicate Partly(table: Table, chunk: set<string>, done: set<string>, request: set<string>, items: seq<Item>) {
    done !! request && done + request == chunk && Exactly(table, done, items)
  }

  lemma PartlyMore(table: Table, chunk: set<string>, done: set<string>, request: set<string>, items: seq<Item>,
                   pending: set<string>, fetched: seq<Item>)
    requires Partly(table, chunk, done, request, items)
    requires pending <= request && Exactly(table, request - pending, fetched)
    ensures Partly(table, chunk, done + (request - pending), pending, items + fetched)
  {
    ExactlyJoin(table, done, items, request - pending, fetched);
  }

  lemma WhollyRead(table: Table, chunk: set<string>, done: set<string>, items: seq<Item>)
    requires Partly(table, chunk, done, Elements([]), items)
    ensures Exactly(table, chunk, items)
  {
    assert done == chunk;
  }

  /** Every chunk was finished. */
  predicate Finished(keys: seq<string>, calls: seq<Call>) {
    if calls == [] then keys == []
    else calls[|calls| - 1].chunk + 1 == Chunks(keys) && calls[|calls| - 1].pending == []
  }

  /** A chunk was still pending after its last attempt. */
  predicate Exhausted(tries: nat, calls: seq<Call>) {
    calls != [] && calls[|calls| - 1].attempt + 1 == tries && calls[|calls| - 1].pending != []
  }

  function CallsFor(calls: seq<Call>, chunk: nat): nat {
    if calls == [] then 0
    else CallsFor(calls[..|calls| - 1], chunk) + if calls[|calls| - 1].chunk == chunk then 1 else 0
  }

  /** No chunk costs more than `tries` calls, and none is asked for once a later one is. */
  lemma {:induction false} CallsBounded(keys: seq<string>, tries: nat, calls: seq<Call>, chunk: nat)
    requires Paced(keys, tries, calls)
    ensures CallsFor(calls, chunk) <= tries
    ensures calls != [] ==>
      CallsFor(calls, chunk) <= (if chunk > calls[|calls| - 1].chunk then 0 else if chunk == calls[|calls| - 1].chunk then calls[|calls| - 1].attempt + 1 else tries)
  {
    if calls != [] { CallsBounded(keys, tries, calls[..|calls| - 1], chunk); }
  }

  datatype Outcome<T> = BadAttempts | Unprocessed(left: nat) | Found(value: T)

  /** The keys of each call and what was left unprocessed of them. */
  function Sent(calls: seq<Call>): seq<(seq<string>, seq<string>)> {
    if calls == [] then []
    else Sent(calls[..|calls| - 1]) + [(calls[|calls| - 1].asked, calls[|calls| - 1].pending)]
  }

  lemma SentPush(log: seq<(seq<string>, seq<string>)>, calls: seq<Call>, c: Call)
    ensures log + Sent(calls + [c]) == log + Sent(calls) + [(c.asked, c.pending)]
  {
    assert (calls + [c])[..|calls|] == calls;
  }

  /** The service has answered for `keys`: some are pending, and the items are those of the rest. */
  ghost predicate Served(table: Table, keys: seq<string>, pending: seq<string>, items: seq<Item>) {
    Distinct(pending) && Elements(pending) <= Elements(keys) && Exactly(table, Elements(keys) - Elements(pending), items)
  }

  lemma {:induction false} KeyIsNew(keys: seq<string>, i: nat)
    requires Distinct(keys) && i < |keys|
    ensures keys[i] !in keys[..i]
  {
    var n := |keys| - 1;
    if i < n {
      KeyIsNew(keys[..n], i);
      assert keys[..n][..i] == keys[..i];
    }
  }

  lemma NextKey(keys: seq<string>, i: nat)
    requires Distinct(keys) && i < |keys|
    ensures keys[i] !in Elements(keys[..i]) && Elements(keys[..i + 1]) == Elements(keys[..i]) + {keys[i]}
  {
    KeyIsNew(keys, i);
    assert keys[..i + 1] == keys[..i] + [keys[i]];
  }

  lemma OneLeft(table: Table, keys: seq<string>, i: nat, pending: seq<string>, items: seq<Item>)
    requires Distinct(keys) && i < |keys| && Served(table, keys[..i], pending, items)
    ensures Served(table, keys[..i + 1], pending + [keys[i]], items)
  {
    NextKey(keys, i);
    var more := pending + [keys[i]];
    assert more[..|pending|] == pending && Elements(more) == Elements(pending) + {keys[i]};
    assert Elements(keys[..i + 1]) - Elements(more) == Elements(keys[..i]) - Elements(pending);
  }

  lemma OneRead(table: Table, keys: seq<string>, i: nat, pending: seq<string>, items: seq<Item>)
    requires Distinct(keys) && i < |keys| && Served(table, keys[..i], pending, items)
    ensures Served(table, keys[..i + 1], pending, items + if keys[i] in table then [table[keys[i]]] else [])
  {
    NextKey(keys, i);
    var was := Elements(keys[..i]) - Elements(pending);
    assert Elements(keys[..i + 1]) - Elements(pending) == was + {keys[i]};
    ExactlyJoin(table, was, items, {keys[i]}, if keys[i] in table then [table[keys[i]]] else []);
  }

  /**
    The service and its table, with every call on record. Which keys it processes, and in what
    order, is its own affair.
  */
  class Service {
    const table: Table
    ghost var log: seq<(seq<string>, seq<string>)>

    constructor (table: Table)
      ensures this.table == table && log == []
    {
      this.table := table;
      log := [];
    }

    method BatchGetItem(keys: seq<string>) returns (items: seq<Item>, pending: seq<string>)
      requires 0 < |keys| <= LIMIT && Distinct(keys)
      modifies this
      ensures log == old(log) + [(keys, pending)]
      ensures Distinct(pending) && Elements(pending) <= Elements(keys)
      ensures Exactly(table, Elements(keys) - Elements(pending), items)
    {
      items, pending := [], [];
      var i := 0;
      while i < |keys|
        invariant 0 <= i <= |keys| && log == old(log)
        invariant Served(table, keys[..i], pending, items)
      {
        var key := keys[i];
        var processed: bool := *;
        if !processed {
          OneLeft(table, keys, i, pending, items);
          pending := pending + [key];
        } else {
          OneRead(table, keys, i, pending, items);
          items := items + if key in table then [table[key]] else [];
        }
        i := i + 1;
      }
      assert keys[..i] == keys;
      log := log + [(keys, pending)];
    }
  }

  class Repository {
    const service: Service

    constructor (service: Service)
      ensures this.service == service
    {
      this.service := service;
    }

    /**
      Either every existing requested item exactly once, or an error, which is raised exactly
      when a chunk was still pending after its last attempt.
    */
    method BatchGet(keys: seq<string>, tries: int) returns (r: Outcome<seq<Item>>, ghost calls: seq<Call>)
      requires Distinct(keys)
      modifies service
      ensures service.log == old(service.log) + Sent(calls)
      ensures r.BadAttempts? <==> tries < 1
      ensures tries >= 1 ==> Paced(keys, tries, calls)
      ensures r.Found? <==> tries >= 1 && Finished(keys, calls)
      ensures r.Found? ==> Exactly(service.table, Elements(keys), r.value)
      ensures r.Unprocessed? <==> tries >= 1 && Exhausted(tries, calls)
      ensures r.Unprocessed? ==> r.left == |calls[|calls| - 1].pending|
    {
      calls := [];
      if tries < 1 {
        return BadAttempts, calls;
      }
      var found: seq<Item> := [];
      var start, n := 0, 0;
      while start < |keys|
        invariant start == if n * LIMIT <= |keys| then n * LIMIT else |keys|
        invariant 0 <= n <= Chunks(keys)
        invariant Paced(keys, tries, calls) && Ended(calls, n)
        invariant service.log == old(service.log) + Sent(calls)
        invariant Exactly(service.table, Elements(keys[..start]), found)
        decreases |keys| - start
      {
        var end := if start + LIMIT <= |keys| then start + LIMIT else |keys|;
        DistinctSlices(keys, start, end);
        assert n < Chunks(keys) && keys[start..end] == ChunkAt(keys, n);
        var items, left;
        items, left, calls := ReadChunk(keys, n, tries, calls, old(service.log));
        if left > 0 {
          return Unprocessed(left), calls;
        }
        ChunkJoins(service.table, keys, start, end, found, items);
        found := found + items;
        start, n := end, n + 1;
      }
      assert keys[..start] == keys;
      r := Found(found);
    }

    /** The attempts at one chunk. `left` counts the keys still pending after the last of them. */
    method ReadChunk(keys: seq<string>, n: nat, tries: nat, ghost before: seq<Call>, ghost log: seq<(seq<string>, seq<string>)>)
      returns (items: seq<Item>, left: nat, ghost calls: seq<Call>)
      requires tries >= 1 && n < Chunks(keys) && Distinct(ChunkAt(keys, n))
      requires Paced(keys, tries, before) && Ended(before, n) && service.log == log + Sent(before)
      modifies service
      ensures service.log == log + Sent(calls)
      ensures Paced(keys, tries, calls) && calls != [] && left == |calls[|calls| - 1].pending|
      ensures if left == 0 then Ended(calls, n + 1) && Exactly(service.table, Elements(ChunkAt(keys, n)), items)
              else Exhausted(tries, calls)
    {
      var request := ChunkAt(keys, n);
      ghost var chunk := Elements(request);
      var attempt := 0;
      items, calls := [], before;
      ghost var done: set<string> := {};
      while true
        invariant 0 <= attempt < tries && service.log == log + Sent(calls)
        invariant Asking(keys, tries, calls, n, attempt, request)
        invariant Partly(service.table, chunk, done, Elements(request), items)
        decreases tries - attempt
      {
        var fetched, pending := service.BatchGetItem(request);
        ghost var more := calls + [Call(n, attempt, request, pending)];
        SentPush(log, calls, Call(n, attempt, request, pending));
        Asked(keys, tries, calls, n, attempt, request, pending);
        PartlyMore(service.table, chunk, done, Elements(request), items, Elements(pending), fetched);
        calls, items, done := more, items + fetched, done + (Elements(request) - Elements(pending));
        if pending == [] {
          WhollyRead(service.table, chunk, done, items);
          return items, 0, calls;
        }
        if attempt == tries - 1 {
          return items, |pending|, calls;
        }
        request := pending;
        attempt := attempt + 1;
      }
    }

    /**
      `keyed` says whether the projection keeps the key attribute, without which nothing can be paired
      back. The call fails exactly as the read of the wanted ids does.
    */
    method GetMany(ids: seq<string>, tries: int, keyed: bool) returns (r: Outcome<map<string, Item>>, ghost calls: seq<Call>)
      modifies service
      ensures service.log == old(service.log) + Sent(calls)
      ensures Wanted(ids) == [] ==> r == Found(map[]) && calls == []
      ensures Wanted(ids) != [] ==>
        && (tries >= 1 ==> Paced(Wanted(ids), tries, calls))
        && (r.BadAttempts? <==> tries < 1)
        && (r.Found? <==> tries >= 1 && Finished(Wanted(ids), calls))
        && (r.Unprocessed? <==> tries >= 1 && Exhausted(tries, calls))
        && (r.Unprocessed? ==> r.left == |calls[|calls| - 1].pending|)
      ensures r.Found? ==> r.value == if keyed then Present(service.table, ids) else map[]
    {
      var wanted := Wanted(ids);
      WantedExactly(ids);
      if wanted == [] {
        NothingPresent(service.table, ids);
        return Found(map[]), [];
      }
      var found;
      found, calls := BatchGet(wanted, tries);
      match found
      case BadAttempts => r := BadAttempts;
      case Unprocessed(left) => r := Unprocessed(left);
      case Found(items) =>
        if !keyed {
          return Found(map[]), calls;
        }
        PairedIsPresent(service.table, ids, items);
        r := Found(Paired(items));
    }
  }

  /** The distinct nonblank ids that exist, each with its item. */
  function Present(table: Table, ids: seq<string>): map<string, Item> {
    map id | id in ids && id != "" && id in table :: table[id]
  }

  /** Every item under its own key. */
  function Paired(items: seq<Item>): map<string, Item>
    requires forall i, j :: 0 <= i < |items| && 0 <= j < |items| && items[i].key == items[j].key ==> items[i] == items[j]
  {
    map i | 0 <= i < |items| :: items[i].key := items[i]
  }

  lemma NothingPresent(table: Table, ids: seq<string>)
    requires Wanted(ids) == []
    ensures Present(table, ids) == map[]
  {
    WantedExactly(ids);
  }

  /** Items read exactly once each pair back to the ids that asked for them. */
  lemma PairedIsPresent(table: Table, ids: seq<string>, items: seq<Item>)
    requires Exactly(table, Elements(Wanted(ids)), items)
    ensures forall i, j :: 0 <= i < |items| && 0 <= j < |items| && items[i].key == items[j].key ==> items[i] == items[j]
    ensures Paired(items) == Present(table, ids)
  {
    WantedExactly(ids);
    var paired, present := Paired(items), Present(table, ids);
    forall k | k in present ensures k in paired {
      assert table[k] in items;
      var i :| 0 <= i < |items| && items[i] == table[k];
      assert items[i].key == k;
    }
  }

  lemma ChunkJoins(table: Table, keys: seq<string>, start: nat, end: nat, found: seq<Item>, items: seq<Item>)
    requires start <= end <= |keys| && Elements(keys[..start]) !! Elements(keys[start..end])
    requires Exactly(table, Elements(keys[..start]), found) && Exactly(table, Elements(keys[start..end]), items)
    ensures Exactly(table, Elements(keys[..end]), found + items)
  {
    ExactlyJoin(table, Elements(keys[..start]), found, Elements(keys[start..end]), items);
    assert keys[..end] == keys[..start] + keys[start..end];
    assert Elements(keys[..end]) == Elements(keys[..start]) + Elements(keys[start..end]);
  }

  lemma {:induction false} CountDistinct(s: seq<string>)
    requires Distinct(s)
    ensures |Elements(s)| == |s|
  {
    if s != [] {
      CountDistinct(s[..|s| - 1]);
      assert Elements(s) == Elements(s[..|s| - 1]) + {s[|s| - 1]};
    } else {
      assert Elements(s) == {};
    }
  }

  lemma PendingFits(request: seq<string>, pending: seq<string>)
    requires Distinct(request) && Distinct(pending) && Elements(pending) <= Elements(request)
    ensures |pending| <= |request|
  {
    CountDistinct(request);
    CountDistinct(pending);
    SubsetSize(Elements(pending), Elements(request));
  }

  lemma {:induction false} SubsetSize(a: set<string>, b: set<string>)
    requires a <= b
    ensures |a| <= |b|
  {
    if x :| x in a { SubsetSize(a - {x}, b - {x}); }
  }

  /** The distinct nonblank ids, in the order first asked for. */
  function Wanted(ids: seq<string>): seq<string> {
    if ids == [] then []
    else
      var id := ids[|ids| - 1];
      Wanted(ids[..|ids| - 1]) + if id == "" || id in ids[..|ids| - 1] then [] else [id]
  }

  lemma {:induction false} WantedExactly(ids: seq<string>)
    ensures Distinct(Wanted(ids))
    ensures forall id :: id in Wanted(ids) <==> id in ids && id != ""
  {
    if ids != [] {
      WantedExactly(ids[..|ids| - 1]);
      var id := ids[|ids| - 1];
      var before := Wanted(ids[..|ids| - 1]);
      if id == "" || id in ids[..|ids| - 1] {
        assert Wanted(ids) == before;
      } else {
        assert Wanted(ids) == before + [id] && (before + [id])[..|before|] == before;
      }
    }
  }
}
