/**
  The limiter object of one container: an ordered cache of leases, the claim loop against the
  shared table, and the two locked phases around it. Each method is proved against the value
  functions that the lease protocol is built from.
*/
module TieredLimiter {
  import opened Options
  import opened TieredLease
  import opened LeaseAnswers
  import opened OrderedDict

  datatype CacheKey = CacheKey(scope: string, key: string, day: int, counter: string)

  // ---------------------------------------------------------------- the shared table

  function RowIn(rows: map<CacheKey, Row>, k: CacheKey): Row {
    if k in rows then rows[k] else Row(None, 0, 0)
  }

  /** The row one claim leaves: added to the stored minute unless that minute is over. */
  function Claimed(row: Row, lease: nat, minute: int): Row {
    if row.w.Some? && row.w.value >= minute
    then row.(m := row.m + lease, d := row.d + lease)
    else Row(Some(minute), lease, row.d + lease)
  }

  /** Another key's row only moves forward. */
  ghost predicate OthersAdvance(before: map<CacheKey, Row>, after: map<CacheKey, Row>, k: CacheKey) {
    forall other :: other != k ==> Advances(RowIn(before, other), RowIn(after, other))
  }

  lemma AdvanceTwice(a: map<CacheKey, Row>, b: map<CacheKey, Row>, c: map<CacheKey, Row>, k: CacheKey)
    requires OthersAdvance(a, b, k) && OthersAdvance(b, c, k)
    ensures OthersAdvance(a, c, k)
  {}

  datatype Written = Wrote(row: Row) | ConditionFailed | Raised

  class CounterTable {
    var rows: map<CacheKey, Row>

    function RowOf(k: CacheKey): Row
      reads this
    {
      RowIn(rows, k)
    }

    constructor ()
      ensures forall k :: RowOf(k) == Row(None, 0, 0)
    {
      rows := map[];
    }

    /** Any number of claims by other containers: rows only advance, and none is deleted. */
    method Others()
      modifies this
      ensures forall k :: Advances(RowIn(old(rows), k), RowIn(rows, k))
    {
      var next: map<CacheKey, Row> := *;
      if forall k | k in rows.Keys + next.Keys :: Advances(RowIn(rows, k), RowIn(next, k)) {
        rows := next;
      }
    }

    /**
      One conditional update, after whatever others did first. `before` is the row it met. A call that
      raises may have been applied.
    */
    method Update(k: CacheKey, path: Path, lease: nat, minute: int) returns (written: Written, ghost before: Row)
      modifies this
      ensures Advances(old(RowOf(k)), before)
      ensures OthersAdvance(old(rows), rows, k)
      ensures match written
        case Wrote(after) => Guard(path, before, minute) && after == Write(path, before, lease, minute) && RowOf(k) == after
        case ConditionFailed => !Guard(path, before, minute) && RowOf(k) == before
        case Raised => RowOf(k) == before || (Guard(path, before, minute) && RowOf(k) == Write(path, before, lease, minute))
    {
      Others();
      var row := RowOf(k);
      before := row;
      var raises: bool := *;
      var applied: bool := *;
      var guard := Guard(path, row, minute);
      if guard && (!raises || applied) {
        rows := rows[k := Write(path, row, lease, minute)];
      }
      written := if raises then Raised else if guard then Wrote(RowOf(k)) else ConditionFailed;
    }

    /**
      The three alternating attempts. Unless the store raises, the result is a write: the contention
      error after the loop is never reached, whatever the prediction `sameMinute` and the other writers.
    */
    method Claim(k: CacheKey, lease: nat, minute: int, sameMinute: bool) returns (after: Option<Row>, ghost before: Row, ghost raised: bool)
      modifies this
      ensures Advances(old(RowOf(k)), before)
      ensures OthersAdvance(old(rows), rows, k)
      ensures after.Some? <==> !raised
      ensures after.Some? ==> after.value == RowOf(k) == Claimed(before, lease, minute)
      ensures raised ==> RowOf(k) == before || RowOf(k) == Claimed(before, lease, minute)
    {
      var first, second := CountPath, RolloverPath;
      if !sameMinute {
        first, second := RolloverPath, CountPath;
      }
      before, raised := RowOf(k), false;
      var attempt := 0;
      while attempt < WRITE_ATTEMPTS
        invariant 0 <= attempt <= WRITE_ATTEMPTS && !raised
        invariant before == RowOf(k) && Advances(old(RowOf(k)), before)
        invariant OthersAdvance(old(rows), rows, k)
        invariant attempt >= 1 && !sameMinute ==> Guard(CountPath, before, minute)
        invariant attempt >= 2 ==> Guard(CountPath, before, minute)
        invariant attempt < 2 || sameMinute
        invariant attempt < WRITE_ATTEMPTS
      {
        var path := if attempt % 2 == 0 then first else second;
        ghost var earlier := rows;
        var written;
        written, before := Update(k, path, lease, minute);
        AdvanceTwice(old(rows), earlier, rows, k);
        match written
        case Wrote(row) => return Some(row), before, false;
        case Raised => return None, before, true;
        case ConditionFailed => attempt := attempt + 1;
      }
    }
  }

  // ---------------------------------------------------------------- the lease cache

  /** The cache's order lists its keys once each, within its size. */
  ghost predicate Ordered(entries: map<CacheKey, Lease>, order: seq<CacheKey>, size: nat) {
    && Distinct(order)
    && (forall k :: k in order <==> k in entries)
    && |order| <= size
  }

  lemma OrderedBump(entries: map<CacheKey, Lease>, order: seq<CacheKey>, size: nat, k: CacheKey, s: Lease)
    requires Ordered(entries, order, size) && k in entries
    ensures Ordered(entries[k := s], Bump(order, k), size)
  {
    RemoveDistinct(order, k);
  }

  /** The order, least recently used first, after a use of `k`. */
  function Bump(order: seq<CacheKey>, k: CacheKey): seq<CacheKey> {
    Remove(order, k) + [k]
  }

  /** What eviction leaves: the `size` most recently used keys. */
  function Recent(order: seq<CacheKey>, size: nat): seq<CacheKey> {
    if |order| <= size then order else order[|order| - size..]
  }

  lemma RecentHolds(order: seq<CacheKey>, k: CacheKey, size: nat)
    requires size >= 1
    ensures k in Recent(Bump(order, k), size)
  {
    var recent := Recent(Bump(order, k), size);
    assert recent[|recent| - 1] == k;
  }

  /** A key found and then stored is used once. */
  lemma UsedOnce(order: seq<CacheKey>, k: CacheKey, size: nat)
    requires Distinct(order) && |order| <= size
    ensures Bump(Bump(order, k), k) == Bump(order, k)
    ensures k in order ==> Recent(Bump(order, k), size) == Bump(order, k)
  {
    RemoveDistinct(order, k);
    assert Bump(order, k)[..|Remove(order, k)|] == Remove(order, k);
  }

  lemma RecentIs(full: seq<CacheKey>, order: seq<CacheKey>, size: nat)
    requires Min(size, |full|) <= |order| <= size && |order| <= |full| && order == full[|full| - |order|..]
    ensures order == Recent(full, size)
  {}

  function Only(entries: map<CacheKey, Lease>, order: seq<CacheKey>): map<CacheKey, Lease> {
    map k | k in order && k in entries :: entries[k]
  }

  /** What a check consults is a lease of the current minute, and there is one exactly when one was cached. */
  lemma PeekStays(tiers: Tiers, quota: Quota, cached: Option<Lease>, now: int)
    requires tiers.Valid()
    ensures var peek := Peek(tiers, quota, cached, now);
      (peek.state.Some? <==> cached.Some?) && Touch(peek.state, FloorTo(now, MINUTE)) == peek.state
  {}

  /** Storing a lease over another of its key changes neither the keys nor their order. */
  lemma StoredAgain(entries: map<CacheKey, Lease>, order: seq<CacheKey>, size: nat, k: CacheKey, a: Lease, b: Lease)
    requires Ordered(entries[k := a], order, size)
    ensures entries[k := a][k := b] == entries[k := b] && Ordered(entries[k := b], order, size)
  {}

  lemma OrderedSet(entries: map<CacheKey, Lease>, order: seq<CacheKey>, size: nat, k: CacheKey, s: Lease)
    requires Ordered(entries, order, size) && k in entries
    ensures Ordered(entries[k := s], order, size)
  {}

  /** Storing a fresh lease first and its final value after eviction leaves the final value. */
  lemma OnlySet(entries: map<CacheKey, Lease>, order: seq<CacheKey>, k: CacheKey, a: Lease, b: Lease)
    ensures var kept := Only(entries[k := a], order);
      Only(entries[k := b], order) == if k in kept then kept[k := b] else kept
  {}

  lemma OrderedEvict(entries: map<CacheKey, Lease>, order: seq<CacheKey>, size: nat)
    requires Ordered(entries, order, size) && order != []
    ensures Ordered(entries - {order[0]}, order[1..], size)
    ensures entries - {order[0]} == Only(entries, order[1..])
  {
    DistinctRest(order);
  }

  lemma OnlyAll(entries: map<CacheKey, Lease>, order: seq<CacheKey>, size: nat)
    requires Ordered(entries, order, size)
    ensures Only(entries, order) == entries && Recent(order, size) == order
  {}

  /** Another key's lease is as it was, or forgotten. */
  ghost predicate OthersKept(before: map<CacheKey, Lease>, after: map<CacheKey, Lease>, k: CacheKey) {
    forall other :: other != k && other in after ==> other in before && after[other] == before[other]
  }

  /** A check stores its own lease and otherwise only forgets. */
  lemma OnlyKeeps(entries: map<CacheKey, Lease>, order: seq<CacheKey>, k: CacheKey, s: Lease)
    ensures OthersKept(entries, Only(entries[k := s], order), k)
    ensures k in order ==> k in Only(entries[k := s], order) && Only(entries[k := s], order)[k] == s
  {}

  // ---------------------------------------------------------------- the limiter

  datatype Result = Result(decision: Decision, row: Row, lease: Option<Lease>)

  /**
    One check: answered from memory without touching the row, or by a claim on the row it met (`met`),
    whose answer is written back to the lease there is by then (`found`).
  */
  function ResultOf(peek: Outcome, quota: Quota, now: int, before: Row, met: Row, found: Option<Lease>): Result {
    match peek
    case Decided(state, decision) => Result(decision, before, state)
    case NeedsClaim(_, lease, _) =>
      var after := Claimed(met, lease, FloorTo(now, MINUTE));
      var (s, decision) := WriteBack(quota, found, now, lease, after);
      Result(decision, after, Some(s))
  }

  function Lookup(entries: map<CacheKey, Lease>, k: CacheKey): Option<Lease> {
    if k in entries then Some(entries[k]) else None
  }

  /**
    One check's answer, without a word of how it is computed. A lease that is blocked, or holds a count of
    the minute, answers alone and the row is not touched. Otherwise the claim's answer is that of the row
    it met and the counts kept in the lease it found, or open when the store raised.
  */
  predicate Explained(quota: Quota, now: int, cached: Option<Lease>, row: Row, met: Row, raised: bool, found: Option<Lease>,
                      d: Decision, after: Option<Lease>, left: Row) {
    if Blocked(cached, now) || Kept(cached, now) > 0 then
      !raised && left == row && MemoryAnswer(quota, now, cached.value, d, Held(after))
    else if raised then
      OpenAnswer(quota, now, d)
    else
      && left.d > met.d && ChargedBy(met, now, left.d - met.d, left)
      && ClaimAnswer(quota, now, met, left.d - met.d, Kept(found, now), d, Held(after))
  }

  /** A check that follows the value functions is explained; without a cache nothing is ever held. */
  lemma Explains(tiers: Tiers, quota: Quota, now: int, cached: Option<Lease>, row: Row, met: Row, raised: bool, found: Option<Lease>,
                 d: Decision, after: Option<Lease>, left: Row)
    requires tiers.Valid()
    requires var peek := Peek(tiers, quota, cached, now); var r := ResultOf(peek, quota, now, row, met, found);
      && (raised ==> peek.NeedsClaim? && d == FailedOpen(quota, now))
      && (!raised ==> d == r.decision && left == r.row && (after == r.lease || cached == found == after == None))
    ensures Explained(quota, now, cached, row, met, raised, found, d, after, left)
  {
    var peek := Peek(tiers, quota, cached, now);
    MemoryAnswered(tiers, quota, cached, now);
    if raised {
      OpenIs(quota, now);
    } else if peek.NeedsClaim? {
      ClaimAnswered(quota, found, now, peek.lease, met, left);
    }
  }

  datatype Check = Check(key: CacheKey, quota: Quota, decision: Decision)

  /** The lease cache is an ordered dictionary: `entries` in the order of `order`. */
  class TieredRateLimiter {
    const tiers: Tiers
    const cacheSize: nat
    var entries: map<CacheKey, Lease>
    var order: seq<CacheKey>
    /** Every completed check, in order. */
    ghost var history: seq<Check>

    ghost predicate Valid()
      reads this
    {
      tiers.Valid() && Ordered(entries, order, cacheSize)
    }

    function Cached(k: CacheKey): Option<Lease>
      reads this
    {
      Lookup(entries, k)
    }

    constructor (tiers: Tiers, cacheSize: nat)
      requires tiers.Valid()
      ensures Valid() && this.tiers == tiers && this.cacheSize == cacheSize && entries == map[]
    {
      this.tiers := tiers;
      this.cacheSize := cacheSize;
      entries := map[];
      order := [];
      history := [];
    }

    /** The cached lease rolled to `minute` and made most recent, or `None`. */
    method TouchCached(k: CacheKey, minute: int) returns (state: Option<Lease>)
      requires Valid()
      modifies this`entries, this`order
      ensures Valid()
      ensures state == Touch(old(Cached(k)), minute)
      ensures state.Some? ==> entries == old(entries)[k := state.value] && order == Bump(old(order), k)
      ensures state.None? ==> entries == old(entries) && order == old(order)
    {
      state := Cached(k);
      if state.None? {
        return;
      }
      OrderedBump(entries, order, cacheSize, k, Touch(state, minute).value);
      order := Remove(order, k) + [k];
      var s := state.value;
      if s.minute != minute {
        s := s.(previousServed := if s.minute == minute - MINUTE then s.served else 0);
        s := s.(served := 0);
        s := s.(tokens := 0);
        s := s.(minute := minute);
      }
      entries := entries[k := s];
      state := Some(s);
    }

    /** Inserts a lease for a key the cache lacks, evicting the least recently used past the size. */
    method Insert(k: CacheKey, s: Lease)
      requires Valid() && k !in entries
      modifies this`entries, this`order
      ensures Valid()
      ensures order == Recent(old(order) + [k], cacheSize)
      ensures entries == Only(old(entries)[k := s], order)
    {
      entries := entries[k := s];
      order := order + [k];
      ghost var full, all := order, entries;
      while |order| > cacheSize
        invariant |order| <= |full| && order == full[|full| - |order|..]
        invariant |order| >= Min(cacheSize, |full|)
        invariant Ordered(entries, order, |full|)
        invariant entries == Only(all, order)
        decreases |order|
      {
        OrderedEvict(entries, order, |full|);
        entries := entries - {order[0]};
        order := order[1..];
      }
      RecentIs(full, order, cacheSize);
    }

    /** The first locked phase of `check_key`. */
    method BeginCheck(k: CacheKey, quota: Quota, now: int) returns (outcome: Outcome)
      requires Valid()
      modifies this`entries, this`order
      ensures Valid()
      ensures outcome == Peek(tiers, quota, old(Cached(k)), now)
      ensures OthersKept(old(entries), entries, k)
      ensures outcome.state == Cached(k) && Touch(outcome.state, FloorTo(now, MINUTE)) == outcome.state
      ensures outcome.state.Some? ==> entries == old(entries)[k := outcome.state.value] && order == Bump(old(order), k)
      ensures outcome.state.None? ==> entries == old(entries) && order == old(order)
    {
      var state := TouchCached(k, FloorTo(now, MINUTE));
      outcome := ConsultLease(tiers, quota, state, now);
      PeekStays(tiers, quota, old(Cached(k)), now);
      if outcome.state.Some? {
        StoredAgain(old(entries), order, cacheSize, k, state.value, outcome.state.value);
        entries := entries[k := outcome.state.value];
      }
    }

    /** Refuses or serves from the lease at hand, or sizes a claim. */
    static method ConsultLease(tiers: Tiers, quota: Quota, state: Option<Lease>, now: int) returns (outcome: Outcome)
      requires tiers.Valid()
      ensures outcome == Consult(tiers, quota, state, now)
      ensures outcome.state.Some? <==> state.Some?
    {
      if state.Some? && state.value.blockedUntil > now {
        return Decided(state, Refusal(state.value, now));
      }
      if state.Some? && state.value.tokens > 0 {
        var s := state.value;
        s := s.(tokens := s.tokens - 1);
        s := s.(served := s.served + 1);
        return Decided(Some(s), Admission(s, quota, now));
      }
      outcome := NeedsClaim(state, LeaseSize(tiers, state, quota), SameMinute(state, FloorTo(now, MINUTE)));
    }

    /** The bookkeeping of one answered claim on a lease in the claim's minute. */
    static method RecordGrant(quota: Quota, base: Lease, now: int, lease: nat, after: Row) returns (s: Lease, decision: Decision)
      requires lease <= after.m && lease <= after.d
      ensures (s, decision) == Settle(quota, base, now, lease, after)
    {
      var minute := FloorTo(now, MINUTE);
      var granted := Min(lease, quota.perMinute - (after.m - lease));
      if quota.perDay.Some? {
        granted := Min(granted, quota.perDay.value - (after.d - lease));
      }
      granted := Max(granted, 0);

      s := base;
      s := s.(writtenMinute := Some(minute));
      s := s.(served := s.served + 1);
      s := s.(minuteRemaining := Max(quota.perMinute - after.m, 0));
      s := s.(dayRemaining := if quota.perDay.None? then None else Some(Max(quota.perDay.value - after.d, 0)));
      if granted >= 1 {
        s := s.(tokens := s.tokens + (granted - 1));
        decision := Admission(s, quota, now);
      } else {
        if quota.perDay.Some? && after.d - lease >= quota.perDay.value {
          s := s.(blockedUntil := FloorTo(now, DAY) + DAY);
          s := s.(blockedLimit := quota.perDay.value);
          s := s.(blockedWindow := DAY);
        } else {
          s := s.(blockedUntil := minute + MINUTE);
          s := s.(blockedLimit := quota.perMinute);
          s := s.(blockedWindow := MINUTE);
        }
        s := s.(tokens := 0);
        decision := Refusal(s, now);
      }
    }

    /** The cached lease rolled to `minute`, or a fresh one stored in its place. */
    method LeaseAt(k: CacheKey, minute: int) returns (lease: Lease)
      requires Valid()
      modifies this`entries, this`order
      ensures Valid()
      ensures var touched := Touch(old(Cached(k)), minute); lease == if touched.Some? then touched.value else Fresh(minute)
      ensures order == Recent(Bump(old(order), k), cacheSize)
      ensures entries == Only(old(entries)[k := lease], order)
    {
      var state := TouchCached(k, minute);
      if state.None? {
        lease := Fresh(minute);
        Insert(k, lease);
      } else {
        OnlyAll(entries, order, cacheSize);
        lease := state.value;
      }
    }

    /** The last locked phase of `check_key`, given what the table answered. */
    method FinishCheck(k: CacheKey, quota: Quota, now: int, lease: nat, after: Row) returns (decision: Decision)
      requires Valid() && lease <= after.m && lease <= after.d
      modifies this`entries, this`order
      ensures Valid()
      ensures decision == WriteBack(quota, old(Cached(k)), now, lease, after).1
      ensures order == Recent(Bump(old(order), k), cacheSize)
      ensures entries == Only(old(entries)[k := WriteBack(quota, old(Cached(k)), now, lease, after).0], order)
    {
      var state := LeaseAt(k, FloorTo(now, MINUTE));
      var s;
      s, decision := RecordGrant(quota, state, now, lease, after);
      OnlySet(old(entries), order, k, state, s);
      if k in entries {
        OrderedSet(entries, order, cacheSize, k, s);
        entries := entries[k := s];
      }
    }

    /** Any number of other threads' locked sections, on any keys. */
    method OtherThreads() returns (ghost sections: nat)
      requires Valid()
      modifies this`entries, this`order
      ensures Valid()
      ensures sections == 0 ==> entries == old(entries) && order == old(order)
    {
      var n: int := *;
      sections := if n > 0 then n else 0;
      while n > 0
        invariant Valid()
        invariant sections == 0 ==> entries == old(entries) && order == old(order)
      {
        OtherSection();
        n := n - 1;
      }
    }

    method OtherSection()
      requires Valid()
      modifies this`entries, this`order
      ensures Valid()
    {
      var k: CacheKey := *;
      var quota: Quota := *;
      var now: int := *;
      var begins: bool := *;
      if begins {
        var outcome := BeginCheck(k, quota, now);
      } else {
        var lease: nat, after: Row := *, *;
        if 0 <= lease <= after.m && lease <= after.d {
          var decision := FinishCheck(k, quota, now, lease, after);
        }
      }
    }

    /**
      The claim of one check and its write-back, with other threads' sections in between. `met` is the
      row the claim met and `found` the leases the write-back found. When the store raises there is no
      write-back, and the row may have been charged or not.
    */
    method ClaimLease(table: CounterTable, k: CacheKey, quota: Quota, now: int, peek: Outcome)
      returns (decision: Decision, ghost met: Row, ghost raised: bool, ghost sections: nat, ghost found: map<CacheKey, Lease>)
      requires Valid() && peek.NeedsClaim?
      modifies this`entries, this`order, table
      ensures Valid() && Advances(old(table.RowOf(k)), met)
      ensures var r := ResultOf(peek, quota, now, old(table.RowOf(k)), met, Lookup(found, k));
        if raised then decision == FailedOpen(quota, now) && entries == found && (table.RowOf(k) == met || table.RowOf(k) == r.row)
        else decision == r.decision && table.RowOf(k) == r.row && (cacheSize >= 1 ==> Cached(k) == r.lease)
      ensures cacheSize == 0 ==> k !in found && k !in entries
      ensures sections == 0 ==> found == old(entries) && (!raised ==> order == Recent(Bump(old(order), k), cacheSize))
      ensures OthersKept(found, entries, k)
      ensures OthersAdvance(old(table.rows), table.rows, k)
    {
      var after;
      after, met, raised := table.Claim(k, peek.lease, FloorTo(now, MINUTE), peek.sameMinute);
      sections := OtherThreads();
      found := entries;
      if after.None? {
        return FailedOpen(quota, now), met, raised, sections, found;
      }
      if cacheSize >= 1 { RecentHolds(order, k, cacheSize); }
      decision := FinishCheck(k, quota, now, peek.lease, after.value);
      OnlyKeeps(found, order, k, WriteBack(quota, Lookup(found, k), now, peek.lease, after.value).0);
    }

    /**
      `check_key`, other containers writing to the table and other threads of this one taking their turns
      between its locked sections. Other keys' leases are kept or evicted by either section.
    */
    method CheckKey(table: CounterTable, k: CacheKey, quota: Quota, now: int)
      returns (decision: Decision, ghost met: Row, ghost raised: bool, ghost sections: nat, ghost found: map<CacheKey, Lease>)
      requires Valid()
      modifies this, table
      ensures Valid() && Advances(old(table.RowOf(k)), met)
      ensures var peek := Peek(tiers, quota, old(Cached(k)), now);
        var r := ResultOf(peek, quota, now, old(table.RowOf(k)), met, Lookup(found, k));
        && (raised ==> peek.NeedsClaim?)
        && (peek.Decided? ==> sections == 0 && found == entries)
        && (sections == 0 ==> Lookup(found, k) == peek.state && OthersKept(old(entries), found, k))
        && if raised then decision == FailedOpen(quota, now) && entries == found && (table.RowOf(k) == met || table.RowOf(k) == r.row)
           else decision == r.decision && table.RowOf(k) == r.row && (cacheSize >= 1 ==> Cached(k) == r.lease)
      ensures Explained(quota, now, old(Cached(k)), old(table.RowOf(k)), met, raised, Lookup(found, k), decision, Cached(k), table.RowOf(k))
      ensures sections == 0 && !raised ==> order == Recent(Bump(old(order), k), cacheSize)
      ensures history == old(history) + [Check(k, quota, decision)]
      ensures OthersKept(found, entries, k)
      ensures OthersAdvance(old(table.rows), table.rows, k)
    {
      met, raised, sections := table.RowOf(k), false, 0;
      ghost var cached, row := Cached(k), table.RowOf(k);
      UsedOnce(order, k, cacheSize);
      var outcome := BeginCheck(k, quota, now);
      found := entries;
      if outcome.Decided? {
        decision := outcome.decision;
      } else {
        decision, met, raised, sections, found := ClaimLease(table, k, quota, now, outcome);
      }
      Explains(tiers, quota, now, cached, row, met, raised, Lookup(found, k), decision, Cached(k), table.RowOf(k));
      history := history + [Check(k, quota, decision)];
    }

    /** Checks one scope's key, if the plan counts it. `taken` are the checks of the scopes before. */
    method CheckScope(table: CounterTable, i: nat, plan: PlanLimits, subject: Subject, kind: RequestClass, now: int,
                      ghost earlier: seq<Check>, ghost taken: seq<Check>)
      returns (decision: Option<Decision>, ghost more: seq<Check>)
      requires Valid() && i < |SCOPES| && history == earlier + taken
      requires Followed(CountedAmong(SCOPES[..i], plan, subject, kind, now), taken)
      modifies this, table
      ensures Valid() && Extends(taken, more, decision) && history == earlier + more
      ensures Followed(CountedAmong(SCOPES[..i + 1], plan, subject, kind, now), more)
    {
      decision, more := None, taken;
      var counted := CountedFor(SCOPES[i], plan, subject, kind, now);
      CountedStep(i, plan, subject, kind, now);
      if counted.Some? {
        var (k, quota) := counted.value;
        var answer;
        ghost var met, raised, sections, found;
        answer, met, raised, sections, found := CheckKey(table, k, quota, now);
        more := taken + [Check(k, quota, answer)];
        FollowedPush(CountedAmong(SCOPES[..i], plan, subject, kind, now), taken, Check(k, quota, answer));
        decision := Some(answer);
      }
    }

    static method LeastRemaining(decisions: seq<Decision>) returns (least: Decision)
      requires decisions != []
      ensures least in decisions && forall n :: 0 <= n < |decisions| ==> least.remaining <= decisions[n].remaining
    {
      least := decisions[0];
      for j := 1 to |decisions|
        invariant least in decisions
        invariant forall n :: 0 <= n < j ==> least.remaining <= decisions[n].remaining
      {
        if decisions[j].remaining < least.remaining {
          least := decisions[j];
        }
      }
    }

    /** Checks the counted keys in scope order, up to the first refusal. */
    method CheckScopes(table: CounterTable, plan: PlanLimits, subject: Subject, kind: RequestClass, now: int)
      returns (decisions: seq<Decision>, refusal: Option<Decision>, ghost taken: seq<Check>)
      requires Valid()
      modifies this, table
      ensures Valid() && history == old(history) + taken
      ensures refusal.None? ==> Followed(CountedKeys(plan, subject, kind, now), taken) && Taken(taken, decisions)
      ensures refusal.Some? ==> RefusedAt(CountedKeys(plan, subject, kind, now), taken, refusal.value)
    {
      decisions, refusal, taken := [], None, [];
      for i := 0 to |SCOPES|
        invariant Valid() && history == old(history) + taken
        invariant Taken(taken, decisions) && Followed(CountedAmong(SCOPES[..i], plan, subject, kind, now), taken)
      {
        var decision;
        ghost var sofar := taken;
        decision, taken := CheckScope(table, i, plan, subject, kind, now, old(history), taken);
        if decision.Some? {
          if !decision.value.allowed {
            CountedGrows(i + 1, plan, subject, kind, now);
            RefusedHere(CountedKeys(plan, subject, kind, now), CountedAmong(SCOPES[..i + 1], plan, subject, kind, now),
                        sofar, decisions, taken, decision.value);
            return decisions, decision, taken;
          }
          TakenPush(sofar, decisions, taken, decision.value);
          decisions := decisions + [decision.value];
        }
      }
      assert SCOPES[..|SCOPES|] == SCOPES;
    }

    /**
      `check_subject`: every counted key in scope order until the first refusal. The answer is that
      refusal, or the enforced admission with the least remaining, or the first decision when all
      failed open, or `None` when the plan counts nothing.
    */
    method CheckSubject(table: CounterTable, plan: PlanLimits, subject: Subject, kind: RequestClass, now: int)
      returns (answer: Option<Decision>)
      requires Valid()
      modifies this, table
      ensures Valid() && old(history) <= history
      ensures Answers(CountedKeys(plan, subject, kind, now), history[|old(history)|..], answer)
    {
      ghost var taken;
      var decisions, refusal;
      decisions, refusal, taken := CheckScopes(table, plan, subject, kind, now);
      assert history[|old(history)|..] == taken;
      if refusal.Some? {
        return refusal;
      }
      if decisions == [] {
        return None;
      }
      var enforced := Enforced(decisions);
      EnforcedMembers(decisions);
      if enforced == [] {
        AllFailedOpen(CountedKeys(plan, subject, kind, now), taken, decisions);
        return Some(decisions[0]);
      }
      var least := LeastRemaining(enforced);
      LeastAnswers(CountedKeys(plan, subject, kind, now), taken, decisions, least);
      answer := Some(least);
    }
  }

  /** The decisions that did not fail open. */
  function Enforced(decisions: seq<Decision>): seq<Decision> {
    if decisions == [] then []
    else Enforced(decisions[..|decisions| - 1]) + if decisions[|decisions| - 1].failedOpen then [] else [decisions[|decisions| - 1]]
  }

  lemma {:induction false} EnforcedMembers(decisions: seq<Decision>)
    ensures forall d :: d in Enforced(decisions) <==> d in decisions && !d.failedOpen
  {
    if decisions != [] {
      EnforcedMembers(decisions[..|decisions| - 1]);
      assert decisions == decisions[..|decisions| - 1] + [decisions[|decisions| - 1]];
    }
  }

  /** The checks made are of these keys, in order. */
  predicate Followed(keys: seq<(CacheKey, Quota)>, taken: seq<Check>) {
    |taken| == |keys| && forall i :: 0 <= i < |keys| ==> (taken[i].key, taken[i].quota) == keys[i]
  }

  /** At most one check more, and this is its decision. */
  predicate Extends(taken: seq<Check>, more: seq<Check>, decision: Option<Decision>) {
    taken <= more && match decision
      case None => more == taken
      case Some(d) => |more| == |taken| + 1 && more[|taken|].decision == d
  }

  lemma TakenPush(taken: seq<Check>, decisions: seq<Decision>, more: seq<Check>, d: Decision)
    requires Taken(taken, decisions) && Extends(taken, more, Some(d)) && d.allowed
    ensures Taken(more, decisions + [d])
  {}

  lemma FollowedPush(keys: seq<(CacheKey, Quota)>, taken: seq<Check>, c: Check)
    requires Followed(keys, taken)
    ensures Followed(keys + [(c.key, c.quota)], taken + [c])
  {}

  predicate Taken(taken: seq<Check>, decisions: seq<Decision>) {
    |decisions| == |taken| && forall i :: 0 <= i < |taken| ==> taken[i].decision == decisions[i] && decisions[i].allowed
  }

  /** The checks made are of the first of these keys, and the last of them alone was refused. */
  predicate RefusedAt(keys: seq<(CacheKey, Quota)>, taken: seq<Check>, d: Decision) {
    && 0 < |taken| <= |keys| && Followed(keys[..|taken|], taken)
    && taken[|taken| - 1].decision == d && !d.allowed
    && forall i :: 0 <= i < |taken| - 1 ==> taken[i].decision.allowed
  }

  /**
    Every key was checked and admitted, and this is the enforced admission with the least remaining,
    or the first of all when none was enforced.
  */
  predicate LeastOf(keys: seq<(CacheKey, Quota)>, taken: seq<Check>, d: Decision) {
    && Followed(keys, taken) && taken != [] && d.allowed
    && (forall i :: 0 <= i < |taken| ==> taken[i].decision.allowed)
    && (exists i :: 0 <= i < |taken| && taken[i].decision == d)
    && if d.failedOpen then d == taken[0].decision && forall i :: 0 <= i < |taken| ==> taken[i].decision.failedOpen
       else forall i :: 0 <= i < |taken| && !taken[i].decision.failedOpen ==> d.remaining <= taken[i].decision.remaining
  }

  /**
    The first refusal ends the checks and is the answer. Without one the answer is the enforced
    admission with the least remaining, or nothing when no key was counted.
  */
  predicate Answers(keys: seq<(CacheKey, Quota)>, taken: seq<Check>, answer: Option<Decision>) {
    match answer
    case None => keys == [] && taken == []
    case Some(d) => if d.allowed then LeastOf(keys, taken, d) else RefusedAt(keys, taken, d)
  }

  lemma RefusedHere(keys: seq<(CacheKey, Quota)>, upTo: seq<(CacheKey, Quota)>, sofar: seq<Check>, decisions: seq<Decision>,
                    taken: seq<Check>, d: Decision)
    requires upTo <= keys && Followed(upTo, taken) && Taken(sofar, decisions) && Extends(sofar, taken, Some(d)) && !d.allowed
    ensures RefusedAt(keys, taken, d)
  {
    assert keys[..|taken|] == upTo;
    forall i | 0 <= i < |taken| - 1 ensures taken[i].decision.allowed { assert taken[i] == sofar[i]; }
  }

  lemma LeastAnswers(keys: seq<(CacheKey, Quota)>, taken: seq<Check>, decisions: seq<Decision>, least: Decision)
    requires Followed(keys, taken) && Taken(taken, decisions)
    requires var enforced := Enforced(decisions);
      least in enforced && forall n :: 0 <= n < |enforced| ==> least.remaining <= enforced[n].remaining
    ensures LeastOf(keys, taken, least)
  {
    EnforcedMembers(decisions);
    var i :| 0 <= i < |decisions| && decisions[i] == least;
    assert taken[i].decision == least;
    forall j | 0 <= j < |taken| && !taken[j].decision.failedOpen ensures least.remaining <= taken[j].decision.remaining {
      assert decisions[j] in Enforced(decisions);
    }
  }

  lemma AllFailedOpen(keys: seq<(CacheKey, Quota)>, taken: seq<Check>, decisions: seq<Decision>)
    requires Followed(keys, taken) && Taken(taken, decisions) && decisions != [] && Enforced(decisions) == []
    ensures LeastOf(keys, taken, decisions[0])
  {
    EnforcedMembers(decisions);
    assert taken[0].decision == decisions[0];
    forall i | 0 <= i < |taken| ensures taken[i].decision.failedOpen { assert decisions[i] in decisions; }
  }

  // ---------------------------------------------------------------- which keys a plan counts

  datatype RequestClass = ReadClass | WriteClass
  datatype ScopeLimits = ScopeLimits(read: Option<Quota>, write: Option<Quota>, shared: bool)
  datatype Scope = TokenScope | UserScope | TenantScope

  /** Absent scopes are never counted. */
  type PlanLimits = map<Scope, ScopeLimits>
  type Subject = map<Scope, string>

  const SCOPES: seq<Scope> := [TokenScope, UserScope, TenantScope]

  function ScopeName(s: Scope): string {
    match s
    case TokenScope => "token"
    case UserScope => "user"
    case TenantScope => "tenant"
  }

  /** The counter and quota one scope is counted against, if it is. */
  function CountedFor(s: Scope, plan: PlanLimits, subject: Subject, kind: RequestClass, now: int): Option<(CacheKey, Quota)> {
    if s !in subject || subject[s] == "" || s !in plan then None else
    var limits := plan[s];
    var quota := if kind.ReadClass? then limits.read else limits.write;
    if quota.None? then None else
    var counter := if limits.shared then "all" else if kind.ReadClass? then "read" else "write";
    Some((CacheKey(ScopeName(s), subject[s], FloorTo(now, DAY), counter), quota.value))
  }

  function CountedAmong(scopes: seq<Scope>, plan: PlanLimits, subject: Subject, kind: RequestClass, now: int): seq<(CacheKey, Quota)> {
    if scopes == [] then [] else
    var n := |scopes| - 1;
    var last := CountedFor(scopes[n], plan, subject, kind, now);
    CountedAmong(scopes[..n], plan, subject, kind, now) + if last.Some? then [last.value] else []
  }

  function CountedKeys(plan: PlanLimits, subject: Subject, kind: RequestClass, now: int): seq<(CacheKey, Quota)> {
    CountedAmong(SCOPES, plan, subject, kind, now)
  }

  lemma CountedStep(i: nat, plan: PlanLimits, subject: Subject, kind: RequestClass, now: int)
    requires i < |SCOPES|
    ensures var last := CountedFor(SCOPES[i], plan, subject, kind, now);
      CountedAmong(SCOPES[..i + 1], plan, subject, kind, now)
      == CountedAmong(SCOPES[..i], plan, subject, kind, now) + if last.Some? then [last.value] else []
  {
    assert SCOPES[..i + 1][..i] == SCOPES[..i];
  }

  /** The keys of the first scopes are the first keys. */
  lemma CountedGrows(i: nat, plan: PlanLimits, subject: Subject, kind: RequestClass, now: int)
    requires i <= |SCOPES|
    ensures CountedAmong(SCOPES[..i], plan, subject, kind, now) <= CountedKeys(plan, subject, kind, now)
    decreases |SCOPES| - i
  {
    if i == |SCOPES| {
      assert SCOPES[..i] == SCOPES;
    } else {
      CountedStep(i, plan, subject, kind, now);
      CountedGrows(i + 1, plan, subject, kind, now);
    }
  }

  /**
    What it means to count one scope: the subject names it, the plan limits it, and the quota is the
    plan's own for reads or for writes, counted in the day of `now`, together when the scope shares them.
  */
  predicate Counts(s: Scope, plan: PlanLimits, subject: Subject, kind: RequestClass, now: int, k: CacheKey, quota: Quota) {
    && s in subject && subject[s] != "" && s in plan
    && (kind.ReadClass? ==> plan[s].read == Some(quota))
    && (kind.WriteClass? ==> plan[s].write == Some(quota))
    && k.scope == ScopeName(s) && k.key == subject[s]
    && k.day % DAY == 0 && k.day <= now < k.day + DAY
    && (if plan[s].shared then k.counter == "all" else if kind == ReadClass then k.counter == "read" else k.counter == "write")
  }

  lemma DayOf(now: int, day: int)
    ensures day % DAY == 0 && day <= now < day + DAY <==> day == FloorTo(now, DAY)
  {}

  lemma CountedMeans(s: Scope, plan: PlanLimits, subject: Subject, kind: RequestClass, now: int, k: CacheKey, quota: Quota)
    ensures CountedFor(s, plan, subject, kind, now) == Some((k, quota)) <==> Counts(s, plan, subject, kind, now, k, quota)
  {
    DayOf(now, k.day);
    DayOf(now, FloorTo(now, DAY));
  }

  /** The keys checked are exactly those of the scopes that count. */
  lemma CountedExactly(plan: PlanLimits, subject: Subject, kind: RequestClass, now: int, k: CacheKey, quota: Quota)
    ensures (k, quota) in CountedKeys(plan, subject, kind, now)
      <==> exists s :: Counts(s, plan, subject, kind, now, k, quota)
  {
    forall s: Scope ensures CountedFor(s, plan, subject, kind, now) == Some((k, quota)) <==> Counts(s, plan, subject, kind, now, k, quota) {
      CountedMeans(s, plan, subject, kind, now, k, quota);
    }
    KeysAre(plan, subject, kind, now);
  }

  /** They are checked token first, then user, then tenant, each at most once. */
  lemma CountedInOrder(plan: PlanLimits, subject: Subject, kind: RequestClass, now: int, i: nat, j: nat)
    requires i < j < |CountedKeys(plan, subject, kind, now)|
    ensures var (first, second) := (CountedKeys(plan, subject, kind, now)[i].0.scope, CountedKeys(plan, subject, kind, now)[j].0.scope);
      (first == "token" && second in {"user", "tenant"}) || (first == "user" && second == "tenant")
  {
    KeysAre(plan, subject, kind, now);
  }

  function Listed(counted: Option<(CacheKey, Quota)>): seq<(CacheKey, Quota)> {
    if counted.Some? then [counted.value] else []
  }

  lemma KeysAre(plan: PlanLimits, subject: Subject, kind: RequestClass, now: int)
    ensures CountedKeys(plan, subject, kind, now)
      == Listed(CountedFor(TokenScope, plan, subject, kind, now))
         + Listed(CountedFor(UserScope, plan, subject, kind, now))
         + Listed(CountedFor(TenantScope, plan, subject, kind, now))
  {
    CountedStep(0, plan, subject, kind, now);
    CountedStep(1, plan, subject, kind, now);
    CountedStep(2, plan, subject, kind, now);
    assert SCOPES[..3] == SCOPES;
  }

  /** Reads and writes of one scope are counted apart exactly when the plan does not share them. */
  lemma ReadsApart(s: Scope, plan: PlanLimits, subject: Subject, now: int, k: CacheKey, l: CacheKey, q: Quota, r: Quota)
    requires Counts(s, plan, subject, ReadClass, now, k, q) && Counts(s, plan, subject, WriteClass, now, l, r)
    ensures k == l <==> plan[s].shared
  {
    DayOf(now, k.day);
    DayOf(now, l.day);
    assert "read"[0] != "write"[0];
  }
}
