/** Audit events, the queries over them, and how each store decides that an event is wanted. */
module AuditEvents {
  import opened Options
  import opened Lex
  import opened Ulid

  /** A target names something only when it has both a type and an id. */
  datatype Target = Target(kind: string, id: string, caption: string) {
    predicate Named() { kind != "" && id != "" }

    predicate SameAs(other: Target) { kind == other.kind && id == other.id }
  }

  datatype Event = Event(tenant: string, id: string, actor: string, action: string, target: Target, detail: nat)

  /** The id pattern ends in `$`, which also lets one trailing newline by. */
  predicate IsUlid(s: string) {
    && (|s| == LENGTH || (|s| == LENGTH + 1 && s[LENGTH] == '\n'))
    && forall i :: 0 <= i < LENGTH ==> s[i] in ALPHABET
  }

  predicate Valid(e: Event) {
    && e.tenant != "" && '#' !in e.tenant
    && e.action != "" && e.actor != ""
    && '#' !in e.target.kind
    && IsUlid(e.id)
  }

  // ---------------------------------------------------------------- the target index

  function TargetKey(tenant: string, t: Target): string {
    tenant + "#" + t.kind + "#" + t.id
  }

  /** Only an event that names a target is in the index. */
  predicate InIndex(e: Event, key: string) {
    e.target.Named() && TargetKey(e.tenant, e.target) == key
  }

  /** A string cut at its first `#`, if it has one. */
  function Cut(s: string): (string, string) {
    if s == "" then ("", "")
    else if s[0] == '#' then ("", s[1..])
    else var (a, b) := Cut(s[1..]); ([s[0]] + a, b)
  }

  lemma {:induction false} CutJoin(a: string, b: string)
    requires '#' !in a
    ensures Cut(a + "#" + b) == (a, b)
  {
    var s := a + "#" + b;
    if a == "" {
      assert s[1..] == b;
    } else {
      assert s[0] == a[0] && s[1..] == a[1..] + "#" + b;
      CutJoin(a[1..], b);
      assert a == [a[0]] + a[1..];
    }
  }

  lemma {:induction false} CutFront(s: string)
    ensures '#' !in Cut(s).0
    ensures '#' in s ==> s == Cut(s).0 + "#" + Cut(s).1
  {
    if s != "" && s[0] != '#' {
      CutFront(s[1..]);
      assert s == [s[0]] + s[1..];
    } else if s != "" {
      assert s == "#" + s[1..];
    }
  }

  /** The tenant, type and id an index key reads back as. */
  function KeyParts(key: string): (string, string, string) {
    var (tenant, rest) := Cut(key);
    var (kind, id) := Cut(rest);
    (tenant, kind, id)
  }

  lemma KeyPartsOf(tenant: string, t: Target)
    requires '#' !in tenant && '#' !in t.kind
    ensures KeyParts(TargetKey(tenant, t)) == (tenant, t.kind, t.id)
  {
    assert TargetKey(tenant, t) == tenant + "#" + (t.kind + "#" + t.id);
    CutJoin(tenant, t.kind + "#" + t.id);
    CutJoin(t.kind, t.id);
  }

  /** Tenants and types free of `#` keep their index keys apart. */
  lemma TargetKeyInjective(t1: string, a: Target, t2: string, b: Target)
    requires '#' !in t1 && '#' !in t2 && '#' !in a.kind && '#' !in b.kind
    ensures TargetKey(t1, a) == TargetKey(t2, b) <==> t1 == t2 && a.SameAs(b)
  {
    KeyPartsOf(t1, a);
    KeyPartsOf(t2, b);
  }

  /** A query whose tenant or type holds a `#` can read as some other tenant's index key. */
  predicate Collides(tenant: string, t: Target) {
    var (a, b, c) := KeyParts(TargetKey(tenant, t));
    a != "" && b != "" && c != "" && (a, b, c) != (tenant, t.kind, t.id)
  }

  lemma PlainNeverCollides(tenant: string, t: Target)
    requires '#' !in tenant && '#' !in t.kind
    ensures !Collides(tenant, t)
  {
    KeyPartsOf(tenant, t);
  }

  /** An index read is a tenant's target filter, over every table of valid events, unless it collides. */
  lemma IndexReadsTarget(tenant: string, t: Target)
    requires t.Named() && tenant != ""
    ensures (forall e: Event :: Valid(e) ==> (InIndex(e, TargetKey(tenant, t)) <==> e.tenant == tenant && e.target.SameAs(t)))
       <==> !Collides(tenant, t)
  {
    var key := TargetKey(tenant, t);
    var (a, b, c) := KeyParts(key);
    if Collides(tenant, t) {
      assert key == tenant + "#" + (t.kind + "#" + t.id);
      CutFront(key);
      var rest := Cut(key).1;
      CutFront(rest);
      assert '#' in rest by { if '#' !in rest { NoHash(rest); } }
      var e := Event(a, "00000000000000000000000000", "a", "b", Target(b, c, ""), 0);
      assert TargetKey(a, e.target) == key;
      assert Valid(e) && InIndex(e, key);
    } else {
      forall e: Event | Valid(e)
        ensures InIndex(e, key) <==> e.tenant == tenant && e.target.SameAs(t)
      {
        KeyPartsOf(e.tenant, e.target);
      }
    }
  }

  lemma {:induction false} NoHash(s: string)
    requires '#' !in s
    ensures Cut(s).1 == ""
  {
    if s != "" { NoHash(s[1..]); }
  }

  // ---------------------------------------------------------------- queries

  /** `since` and `until` in epoch milliseconds; an empty `actor` or `action` filters nothing. */
  datatype Query = Query(since: Option<int>, until: Option<int>, actor: string, action: string, target: Option<Target>)

  /** The target a listing narrows to, if the query names one. */
  function Narrowed(q: Query): Option<Target> {
    if q.target.Some? && q.target.value.Named() then q.target else None
  }

  datatype Bounds = OutOfEpoch | NoIds | Range(low: Option<string>, high: Option<string>)

  predicate InEpoch(moment: Option<int>) {
    moment.Some? ==> 0 <= moment.value < MAX_TIMESTAMP
  }

  function FloorOf(moment: Option<int>): Option<string>
    requires InEpoch(moment)
  {
    if moment.None? then None else Some(TimeFloor(moment.value))
  }

  function BoundsOf(q: Query): Bounds {
    if !InEpoch(q.since) || !InEpoch(q.until) then OutOfEpoch else
    var low, high := FloorOf(q.since), FloorOf(q.until);
    if low.Some? && high.Some? && AtMost(high.value, low.value) then NoIds else Range(low, high)
  }

  predicate Within(id: string, low: Option<string>, high: Option<string>) {
    (low.None? || AtMost(low.value, id)) && (high.None? || Less(id, high.value))
  }

  predicate Filtered(q: Query, e: Event) {
    && (q.actor == "" || e.actor == q.actor)
    && (q.action == "" || e.action == q.action)
    && (Narrowed(q).Some? ==> e.target.SameAs(Narrowed(q).value))
  }

  /** What the in-memory store answers with: this tenant's events in the range that pass the filters. */
  predicate Wanted(tenant: string, q: Query, low: Option<string>, high: Option<string>, e: Event) {
    e.tenant == tenant && Within(e.id, low, high) && Filtered(q, e)
  }

  // ---------------------------------------------------------------- table reads

  /** One table query: a key condition on the tenant or an index key, a range, and a filter. */
  datatype Read = Read(
    tenant: string,
    indexKey: Option<string>,
    low: Option<string>,
    high: Option<string>,
    target: Option<Target>,
    actor: string,
    action: string)

  /** How the table-backed store puts a query to the table. */
  function ReadFor(indexed: bool, tenant: string, q: Query, low: Option<string>, high: Option<string>): Read {
    var target := Narrowed(q);
    if target.Some? && indexed
    then Read(tenant, Some(TargetKey(tenant, target.value)), low, high, None, q.actor, q.action)
    else Read(tenant, None, low, high, target, q.actor, q.action)
  }

  /** The key condition. With both bounds it is an inclusive BETWEEN. */
  predicate KeyHit(r: Read, e: Event) {
    && (if r.indexKey.Some? then InIndex(e, r.indexKey.value) else e.tenant == r.tenant)
    && (r.low.Some? ==> AtMost(r.low.value, e.id))
    && (r.high.Some? ==> if r.low.Some? then AtMost(e.id, r.high.value) else Less(e.id, r.high.value))
  }

  predicate FilterHit(r: Read, e: Event) {
    && (r.target.Some? ==> e.target.SameAs(r.target.value))
    && (r.actor == "" || e.actor == r.actor)
    && (r.action == "" || e.action == r.action)
  }

  /** The index, when used, holds this tenant's events on this target and no others. */
  predicate Separate(indexed: bool, tenant: string, q: Query) {
    indexed && Narrowed(q).Some? ==> !Collides(tenant, Narrowed(q).value)
  }

  lemma BoundsAreShort(q: Query)
    ensures BoundsOf(q).Range? ==>
      (BoundsOf(q).low.Some? ==> |BoundsOf(q).low.value| == TIME_PREFIX) &&
      (BoundsOf(q).high.Some? ==> |BoundsOf(q).high.value| == TIME_PREFIX)
  {}

  /** The table's key condition and filter select exactly the events the in-memory store wants. */
  lemma ReadSelectsWanted(indexed: bool, tenant: string, q: Query, e: Event)
    requires tenant != "" && Valid(e) && BoundsOf(q).Range? && Separate(indexed, tenant, q)
    ensures var b := BoundsOf(q); var r := ReadFor(indexed, tenant, q, b.low, b.high);
      KeyHit(r, e) && FilterHit(r, e) <==> Wanted(tenant, q, b.low, b.high, e)
  {
    BoundsAreShort(q);
    var b := BoundsOf(q);
    assert |e.id| >= LENGTH;
    if Narrowed(q).Some? && indexed {
      IndexReadsTarget(tenant, Narrowed(q).value);
    }
  }

  /** An index read selects events of the query's own tenant. */
  lemma KeyHitTenant(indexed: bool, tenant: string, q: Query, e: Event)
    requires tenant != "" && Valid(e) && BoundsOf(q).Range? && Separate(indexed, tenant, q)
    requires KeyHit(ReadFor(indexed, tenant, q, BoundsOf(q).low, BoundsOf(q).high), e)
    ensures e.tenant == tenant && Within(e.id, BoundsOf(q).low, BoundsOf(q).high)
  {
    BoundsAreShort(q);
    assert |e.id| >= LENGTH;
    if Narrowed(q).Some? && indexed {
      IndexReadsTarget(tenant, Narrowed(q).value);
    }
  }
}
