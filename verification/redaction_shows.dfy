/**
  What a redacted payload shows: which names it holds, in what order, and what each of them holds. Said
  of the payload's own entries, at every depth, and of nothing in between.
*/
module RedactionShows {
  import opened Options
  import opened Redaction

  // ---------------------------------------------------------------- the entries that count

  /** The allowlist, if there is one, keeps this entry: its key equals one of the allowed strings. */
  predicate Keeps(allow: Option<set<string>>, e: Entry) {
    allow.Some? ==> match e.key
      case StrKey(name) => name in allow.value
      case EnumKey(name, text) => text && name in allow.value
      case OtherKey => false
  }

  predicate Names(allow: Option<set<string>>, e: Entry, x: string) {
    Keeps(allow, e) && !e.key.OtherKey? && e.key.name == x
  }

  /** The last kept entry of a name, which is the one that counts. */
  function LastNamed(allow: Option<set<string>>, entries: seq<Entry>, x: string): (e: Option<Entry>)
    ensures e.Some? ==> e.value in entries && Names(allow, e.value, x)
    ensures e.None? ==> forall f :: f in entries ==> !Names(allow, f, x)
  {
    if entries == [] then None else
    var n := |entries| - 1;
    assert entries == entries[..n] + [entries[n]];
    if Names(allow, entries[n], x) then Some(entries[n]) else LastNamed(allow, entries[..n], x)
  }

  /** Where a name is first kept. */
  function FirstNamed(allow: Option<set<string>>, entries: seq<Entry>, x: string): (i: Option<nat>)
    ensures i.Some? ==> i.value < |entries| && Names(allow, entries[i.value], x)
    ensures i.Some? ==> forall j :: 0 <= j < i.value ==> !Names(allow, entries[j], x)
    ensures i.None? ==> forall j :: 0 <= j < |entries| ==> !Names(allow, entries[j], x)
  {
    if entries == [] then None else
    var n := |entries| - 1;
    var before := FirstNamed(allow, entries[..n], x);
    if before.Some? then before else if Names(allow, entries[n], x) then Some(n) else None
  }

  function ValueAt(fields: seq<Field>, x: string): (v: Option<Json>)
    ensures v.Some? <==> Has(fields, x)
    ensures v.Some? ==> exists i :: 0 <= i < |fields| && fields[i] == Field(x, v.value)
  {
    if fields == [] then None else
    var n := |fields| - 1;
    if fields[n].name == x then Some(fields[n].value) else
      var v := ValueAt(fields[..n], x);
      assert v.Some? ==> exists i :: 0 <= i < n && fields[..n][i] == fields[i] == Field(x, v.value);
      v
  }

  // ---------------------------------------------------------------- what is shown of a value

  /** `j` is the JSON of `v` with every credential and everything under a secret name replaced. */
  ghost predicate Shows(r: Rules, v: Value, j: Json)
    decreases v, 1
  {
    match v
    case Null => j == JNull
    case Bool(b) => j == JBool(b)
    case Number(n) => j == JNumber(n)
    case Decimal(n) => j == JNumber(n)
    case Str(s) => j.JStr? && (if r.looksSecret(s) then j.s == REDACTED else j.s == s)
    case Moment(iso) => j == JStr(iso)
    case Enum(inner) => Shows(r, inner, j)
    case Mapping(entries) => j.JObject? && ShowsFields(r, None, entries, j.fields)
    case Bag(sorted) => j.JArray? && ShowsItems(r, sorted, j.items)
    case List(items) => j.JArray? && ShowsItems(r, items, j.items)
    case Opaque => false
  }

  /** Item by item, in order. */
  ghost predicate ShowsItems(r: Rules, items: seq<Value>, js: seq<Json>)
    decreases items, 0
  {
    |js| == |items| && forall i :: 0 <= i < |items| ==> Shows(r, items[i], js[i])
  }

  /**
    The names shown are those of the kept entries, in the order they first come. A secret one holds the
    replacement, and any other what its last entry holds.
  */
  ghost predicate ShowsFields(r: Rules, allow: Option<set<string>>, entries: seq<Entry>, fields: seq<Field>)
    decreases entries, 0
  {
    && (forall x: string ::
          var e := LastNamed(allow, entries, x);
          if e.None? then ValueAt(fields, x).None? else
          ValueAt(fields, x).Some? &&
          if r.SecretKey(x) then ValueAt(fields, x).value == JStr(REDACTED) else
          assert e.value.value < e.value;
          Shows(r, e.value.value, ValueAt(fields, x).value))
    && InOrder(allow, entries, fields)
  }

  /** Both names are kept, `x` first. */
  predicate Earlier(allow: Option<set<string>>, entries: seq<Entry>, x: string, y: string) {
    var i, j := FirstNamed(allow, entries, x), FirstNamed(allow, entries, y);
    i.Some? && j.Some? && i.value < j.value
  }

  ghost predicate InOrder(allow: Option<set<string>>, entries: seq<Entry>, fields: seq<Field>) {
    forall i, j :: 0 <= i < j < |fields| ==> Earlier(allow, entries, fields[i].name, fields[j].name)
  }

  // ---------------------------------------------------------------- assignment

  lemma ReplaceFront(fields: seq<Field>, k: string, v: Json)
    requires fields != []
    ensures var n := |fields| - 1; var s := Replace(fields, k, v);
      |s| == n + 1 && s[..n] == Replace(fields[..n], k, v) && s[n] == if fields[n].name == k then Field(k, v) else fields[n]
  {
    HasReplace(fields, k, v, k);
    HasReplace(fields[..|fields| - 1], k, v, k);
  }

  lemma {:induction false} ReplaceAt(fields: seq<Field>, k: string, v: Json, x: string)
    ensures ValueAt(Replace(fields, k, v), x) == if x == k && Has(fields, k) then Some(v) else ValueAt(fields, x)
  {
    if fields != [] {
      ReplaceAt(fields[..|fields| - 1], k, v, x);
      ReplaceFront(fields, k, v);
    }
  }

  lemma {:induction false} ReplaceNames(fields: seq<Field>, k: string, v: Json, i: nat)
    requires i < |fields|
    ensures |Replace(fields, k, v)| == |fields| && Replace(fields, k, v)[i].name == fields[i].name
  {
    var n := |fields| - 1;
    ReplaceFront(fields, k, v);
    if i < n {
      ReplaceNames(fields[..n], k, v, i);
      assert Replace(fields, k, v)[i] == Replace(fields, k, v)[..n][i];
    }
  }

  lemma PutAt(fields: seq<Field>, k: string, v: Json, x: string)
    ensures ValueAt(Put(fields, k, v), x) == if x == k then Some(v) else ValueAt(fields, x)
  {
    if Has(fields, k) {
      ReplaceAt(fields, k, v, x);
    } else {
      assert (fields + [Field(k, v)])[..|fields|] == fields;
    }
  }

  /** A name already there keeps its place, and a new one comes last. */
  lemma PutNames(fields: seq<Field>, k: string, v: Json)
    ensures |Put(fields, k, v)| == |fields| + if Has(fields, k) then 0 else 1
    ensures forall i :: 0 <= i < |fields| ==> Put(fields, k, v)[i].name == fields[i].name
    ensures !Has(fields, k) ==> Put(fields, k, v)[|fields|].name == k
  {
    if Has(fields, k) {
      HasReplace(fields, k, v, k);
      forall i | 0 <= i < |fields| ensures Put(fields, k, v)[i].name == fields[i].name { ReplaceNames(fields, k, v, i); }
    }
  }

  lemma {:induction false} HasAt(fields: seq<Field>, i: nat)
    requires i < |fields|
    ensures Has(fields, fields[i].name)
  {
    var n := |fields| - 1;
    if i < n { HasAt(fields[..n], i); }
  }

  // ---------------------------------------------------------------- one pass

  lemma FirstIfLast(allow: Option<set<string>>, entries: seq<Entry>, x: string)
    ensures FirstNamed(allow, entries, x).Some? <==> LastNamed(allow, entries, x).Some?
  {
    if FirstNamed(allow, entries, x).Some? {
      assert entries[FirstNamed(allow, entries, x).value] in entries;
    }
    if LastNamed(allow, entries, x).Some? {
      var j :| 0 <= j < |entries| && entries[j] == LastNamed(allow, entries, x).value;
      assert Names(allow, entries[j], x);
    }
  }

  /** One more entry leaves the first places as they are, and may be the first of its own name. */
  lemma EarlierStill(allow: Option<set<string>>, front: seq<Entry>, e: Entry, x: string, y: string)
    requires FirstNamed(allow, front, x).Some?
    ensures Earlier(allow, front, x, y) ==> Earlier(allow, front + [e], x, y)
    ensures FirstNamed(allow, front, y).None? && Names(allow, e, y) ==> Earlier(allow, front + [e], x, y)
  {
    assert (front + [e])[..|front|] == front;
  }

  lemma FieldsAreNamed(allow: Option<set<string>>, front: seq<Entry>, fields: seq<Field>, i: nat)
    requires i < |fields| && forall x :: ValueAt(fields, x).Some? <==> LastNamed(allow, front, x).Some?
    ensures FirstNamed(allow, front, fields[i].name).Some?
  {
    HasAt(fields, i);
    assert ValueAt(fields, fields[i].name).Some?;
    FirstIfLast(allow, front, fields[i].name);
  }

  /** One more kept entry, put last. */
  lemma OrderPut(allow: Option<set<string>>, front: seq<Entry>, e: Entry, fields: seq<Field>, v: Json)
    requires InOrder(allow, front, fields) && !e.key.OtherKey? && Names(allow, e, e.key.name)
    requires forall x :: ValueAt(fields, x).Some? <==> LastNamed(allow, front, x).Some?
    ensures InOrder(allow, front + [e], Put(fields, e.key.name, v))
  {
    var k, put := e.key.name, Put(fields, e.key.name, v);
    PutNames(fields, k, v);
    FirstIfLast(allow, front, k);
    assert ValueAt(fields, k).Some? <==> LastNamed(allow, front, k).Some?;
    forall i, j | 0 <= i < j < |put| ensures Earlier(allow, front + [e], put[i].name, put[j].name) {
      FieldsAreNamed(allow, front, fields, i);
      EarlierStill(allow, front, e, put[i].name, put[j].name);
    }
  }

  ghost predicate EntryShows(r: Rules, e: Entry, v: Json) {
    !e.key.OtherKey? && if r.SecretKey(e.key.name) then v == JStr(REDACTED) else Shows(r, e.value, v)
  }

  lemma NamedPut(front: seq<Entry>, e: Entry, x: string)
    requires !e.key.OtherKey?
    ensures LastNamed(None, front + [e], x) == if x == e.key.name then Some(e) else LastNamed(None, front, x)
  {
    assert (front + [e])[..|front|] == front;
  }

  lemma PutNamed(front: seq<Entry>, e: Entry, fields: seq<Field>, v: Json, x: string)
    requires !e.key.OtherKey?
    ensures ValueAt(Put(fields, e.key.name, v), x) == if x == e.key.name then Some(v) else ValueAt(fields, x)
    ensures LastNamed(None, front + [e], x) == if x == e.key.name then Some(e) else LastNamed(None, front, x)
  {
    PutAt(fields, e.key.name, v, x);
    NamedPut(front, e, x);
  }

  lemma ShowsPut(r: Rules, entries: seq<Entry>, fields: seq<Field>, v: Json)
    requires entries != [] && ShowsFields(r, None, entries[..|entries| - 1], fields)
    requires EntryShows(r, entries[|entries| - 1], v)
    ensures ShowsFields(r, None, entries, Put(fields, entries[|entries| - 1].key.name, v))
  {
    var front, e := entries[..|entries| - 1], entries[|entries| - 1];
    assert front + [e] == entries;
    OrderPut(None, front, e, fields, v);
    forall x: string
      ensures ValueAt(Put(fields, e.key.name, v), x) == if x == e.key.name then Some(v) else ValueAt(fields, x)
      ensures LastNamed(None, entries, x) == if x == e.key.name then Some(e) else LastNamed(None, front, x)
    {
      PutNamed(front, e, fields, v, x);
    }
  }

  lemma NothingShows(r: Rules, allow: Option<set<string>>)
    ensures ShowsFields(r, allow, [], [])
  {}

  /** What an entry contributes to a pass. */
  function EntryScrubbed(r: Rules, e: Entry, depth: nat): Outcome<Json> {
    if e.key.OtherKey? then Raised(TypeError)
    else if r.SecretKey(e.key.name) then Ok(JStr(REDACTED))
    else ScrubValue(r, e.value, depth + 1)
  }

  lemma ScrubSnoc(r: Rules, entries: seq<Entry>, depth: nat)
    requires entries != [] && ScrubEntries(r, entries, depth).Ok?
    ensures var n := |entries| - 1; var e := entries[n];
      var front := ScrubEntries(r, entries[..n], depth); var v := EntryScrubbed(r, e, depth);
      front.Ok? && v.Ok? && ScrubEntries(r, entries, depth).value == Put(front.value, e.key.name, v.value)
  {}

  lemma {:induction false} EntriesShow(r: Rules, entries: seq<Entry>, depth: nat)
    requires ScrubEntries(r, entries, depth).Ok?
    ensures ShowsFields(r, None, entries, ScrubEntries(r, entries, depth).value)
    decreases entries, 0, 1
  {
    if entries == [] {
      NothingShows(r, None);
    } else {
      var n := |entries| - 1;
      ScrubSnoc(r, entries, depth);
      EntriesShow(r, entries[..n], depth);
      EntryIsShown(r, entries, depth);
      ShowsPut(r, entries, ScrubEntries(r, entries[..n], depth).value, EntryScrubbed(r, entries[n], depth).value);
    }
  }

  lemma EntryIsShown(r: Rules, entries: seq<Entry>, depth: nat)
    requires entries != [] && EntryScrubbed(r, entries[|entries| - 1], depth).Ok?
    ensures EntryShows(r, entries[|entries| - 1], EntryScrubbed(r, entries[|entries| - 1], depth).value)
    decreases entries, 0, 0
  {
    var e := entries[|entries| - 1];
    assert e.value < e;
    if !r.SecretKey(e.key.name) { ValueShows(r, e.value, depth + 1); }
  }

  lemma {:induction false} ItemsShow(r: Rules, items: seq<Value>, depth: nat)
    requires ScrubItems(r, items, depth).Ok?
    ensures ShowsItems(r, items, ScrubItems(r, items, depth).value)
    decreases items, 0
  {
    if items != [] {
      var n := |items| - 1;
      ItemsShow(r, items[..n], depth);
      ValueShows(r, items[n], depth + 1);
    }
  }

  lemma {:induction false} ValueShows(r: Rules, v: Value, depth: nat)
    requires ScrubValue(r, v, depth).Ok?
    ensures Shows(r, v, ScrubValue(r, v, depth).value)
    decreases v, 1
  {
    match v
    case Enum(inner) => ValueShows(r, inner, depth);
    case Mapping(entries) => EntriesShow(r, entries, depth);
    case Bag(sorted) => ItemsShow(r, sorted, depth);
    case List(items) => ItemsShow(r, items, depth);
    case _ =>
  }

  // ---------------------------------------------------------------- the allowlist

  lemma {:induction false} AllowedNamed(allow: set<string>, entries: seq<Entry>, x: string)
    ensures LastNamed(None, Allowed(allow, entries), x) == LastNamed(Some(allow), entries, x)
  {
    if entries != [] {
      var n := |entries| - 1;
      AllowedNamed(allow, entries[..n], x);
      var a := Allowed(allow, entries[..n]);
      if Keeps(Some(allow), entries[n]) {
        assert Allowed(allow, entries) == a + [entries[n]] && (a + [entries[n]])[..|a|] == a;
      } else {
        assert Allowed(allow, entries) == a;
      }
    }
  }

  lemma AllowedSnoc(allow: set<string>, entries: seq<Entry>, x: string)
    requires entries != []
    ensures var n := |entries| - 1; var a := Allowed(allow, entries[..n]); var before := FirstNamed(None, a, x);
      FirstNamed(None, Allowed(allow, entries), x)
      == if before.Some? then before else if Names(Some(allow), entries[n], x) then Some(|a|) else None
  {
    var n := |entries| - 1;
    var a := Allowed(allow, entries[..n]);
    if Keeps(Some(allow), entries[n]) {
      assert (a + [entries[n]])[..|a|] == a;
    } else {
      assert Allowed(allow, entries) == a;
    }
  }

  /** Where a name first comes among the kept entries: behind the kept ones in front of its first place. */
  lemma {:induction false} AllowedFirst(allow: set<string>, entries: seq<Entry>, x: string)
    ensures var i := FirstNamed(Some(allow), entries, x);
      FirstNamed(None, Allowed(allow, entries), x) == if i.None? then None else Some(|Allowed(allow, entries[..i.value])|)
  {
    if entries != [] {
      var n := |entries| - 1;
      AllowedFirst(allow, entries[..n], x);
      AllowedSnoc(allow, entries, x);
      var i := FirstNamed(Some(allow), entries[..n], x);
      if i.Some? { assert entries[..n][..i.value] == entries[..i.value]; }
    }
  }

  lemma {:induction false} AllowedGrows(allow: set<string>, entries: seq<Entry>, i: nat, j: nat)
    requires i < j <= |entries| && IsText(entries[i].key) && entries[i].key.name in allow
    ensures |Allowed(allow, entries[..i])| < |Allowed(allow, entries[..j])|
  {
    assert entries[..j][..j - 1] == entries[..j - 1];
    if i < j - 1 { AllowedGrows(allow, entries, i, j - 1); }
  }

  lemma PlaceOrder(allow: set<string>, entries: seq<Entry>, i: nat, j: nat)
    requires i < |entries| && j < |entries| && IsText(entries[j].key) && entries[j].key.name in allow
    requires |Allowed(allow, entries[..i])| < |Allowed(allow, entries[..j])|
    ensures i < j
  {
    if j < i { AllowedGrows(allow, entries, j, i); }
  }

  lemma PairOrder(allow: set<string>, entries: seq<Entry>, x: string, y: string)
    requires Earlier(None, Allowed(allow, entries), x, y)
    ensures Earlier(Some(allow), entries, x, y)
  {
    AllowedFirst(allow, entries, x);
    AllowedFirst(allow, entries, y);
    PlaceOrder(allow, entries, FirstNamed(Some(allow), entries, x).value, FirstNamed(Some(allow), entries, y).value);
  }

  /** Names keep their order among the kept entries. */
  lemma AllowedOrder(allow: set<string>, entries: seq<Entry>, fields: seq<Field>)
    requires InOrder(None, Allowed(allow, entries), fields)
    ensures InOrder(Some(allow), entries, fields)
  {
    forall i, j | 0 <= i < j < |fields| ensures Earlier(Some(allow), entries, fields[i].name, fields[j].name) {
      PairOrder(allow, entries, fields[i].name, fields[j].name);
    }
  }

  /**
    What a payload that passes shows, at every depth: of its kept entries' names each once, in order, the
    replacement under the secret ones, and under any other what the last of its entries shows.
  */
  lemma ApplyShows(r: Rules, payload: seq<Entry>)
    requires Apply(r, Some(payload)).Ok?
    ensures ShowsFields(r, r.allow, payload, Apply(r, Some(payload)).value)
  {
    if r.allow.None? {
      EntriesShow(r, payload, 0);
    } else {
      var kept := Allowed(r.allow.value, payload);
      var fields := Apply(r, Some(payload)).value;
      EntriesShow(r, kept, 0);
      forall x: string ensures LastNamed(None, kept, x) == LastNamed(r.allow, payload, x) { AllowedNamed(r.allow.value, payload, x); }
      AllowedOrder(r.allow.value, payload, fields);
    }
  }

  lemma FieldsHave(r: Rules, allow: Option<set<string>>, entries: seq<Entry>, fields: seq<Field>, x: string)
    requires ShowsFields(r, allow, entries, fields)
    ensures Has(fields, x) <==> exists e :: e in entries && Names(allow, e, x)
  {
    var e, v := LastNamed(allow, entries, x), ValueAt(fields, x);
    assert v.Some? <==> e.Some?;
    if e.Some? {
      assert e.value in entries && Names(allow, e.value, x);
    } else if f :| f in entries && Names(allow, f, x) {
      assert false;
    }
  }

  /** A name is in the result exactly when some entry has it, and is allowed when there is an allowlist. */
  lemma ApplyHas(r: Rules, payload: seq<Entry>, x: string)
    requires Apply(r, Some(payload)).Ok?
    ensures Has(Apply(r, Some(payload)).value, x) <==> exists e :: e in payload && Names(r.allow, e, x)
  {
    ApplyShows(r, payload);
    FieldsHave(r, r.allow, payload, Apply(r, Some(payload)).value, x);
  }

  // ---------------------------------------------------------------- which payloads pass

  /** Nothing looked at is without a JSON form or nested past the 32nd level. */
  ghost predicate Presentable(r: Rules, v: Value, depth: nat)
    decreases v, 1
  {
    depth <= 32 &&
    match v
    case Enum(inner) => Presentable(r, inner, depth)
    case Mapping(entries) => PresentableFields(r, None, entries, depth)
    case Bag(sorted) => PresentableItems(r, sorted, depth)
    case List(items) => PresentableItems(r, items, depth)
    case Opaque => false
    case _ => true
  }

  ghost predicate PresentableItems(r: Rules, items: seq<Value>, depth: nat)
    decreases items, 0
  {
    forall i :: 0 <= i < |items| ==> Presentable(r, items[i], depth + 1)
  }

  /** Of the entries kept: every key is a string, and every value under a name that is no secret is presentable. */
  ghost predicate PresentableFields(r: Rules, allow: Option<set<string>>, entries: seq<Entry>, depth: nat)
    decreases entries, 0
  {
    forall i :: 0 <= i < |entries| && Keeps(allow, entries[i]) ==>
      && !entries[i].key.OtherKey?
      && (r.SecretKey(entries[i].key.name) || (assert entries[i].value < entries[i]; Presentable(r, entries[i].value, depth + 1)))
  }

  lemma {:induction false} EntriesPass(r: Rules, entries: seq<Entry>, depth: nat)
    ensures ScrubEntries(r, entries, depth).Ok? <==> PresentableFields(r, None, entries, depth)
    decreases entries, 0
  {
    if entries != [] {
      var n := |entries| - 1;
      var e := entries[n];
      assert e.value < e;
      EntriesPass(r, entries[..n], depth);
      if !e.key.OtherKey? && !r.SecretKey(e.key.name) { ValuePasses(r, e.value, depth + 1); }
      PresentableSnoc(r, None, entries, depth);
    }
  }

  lemma PresentableSnoc(r: Rules, allow: Option<set<string>>, entries: seq<Entry>, depth: nat)
    requires entries != []
    ensures var n := |entries| - 1; var e := entries[n];
      PresentableFields(r, allow, entries, depth) <==>
        PresentableFields(r, allow, entries[..n], depth) &&
        (Keeps(allow, e) ==> !e.key.OtherKey? && (r.SecretKey(e.key.name) || Presentable(r, e.value, depth + 1)))
  {
    var front := entries[..|entries| - 1];
    assert forall i :: 0 <= i < |front| ==> front[i] == entries[i];
  }

  lemma {:induction false} ItemsPass(r: Rules, items: seq<Value>, depth: nat)
    ensures ScrubItems(r, items, depth).Ok? <==> PresentableItems(r, items, depth)
    decreases items, 0
  {
    if items != [] {
      var n := |items| - 1;
      ItemsPass(r, items[..n], depth);
      ValuePasses(r, items[n], depth + 1);
      assert forall i :: 0 <= i < n ==> items[..n][i] == items[i];
    }
  }

  lemma {:induction false} ValuePasses(r: Rules, v: Value, depth: nat)
    ensures ScrubValue(r, v, depth).Ok? <==> Presentable(r, v, depth)
    decreases v, 1
  {
    match v
    case Enum(inner) => ValuePasses(r, inner, depth);
    case Mapping(entries) => EntriesPass(r, entries, depth);
    case Bag(sorted) => ItemsPass(r, sorted, depth);
    case List(items) => ItemsPass(r, items, depth);
    case _ =>
  }

  lemma {:induction false} AllowedPass(r: Rules, allow: set<string>, entries: seq<Entry>, depth: nat)
    ensures PresentableFields(r, None, Allowed(allow, entries), depth) <==> PresentableFields(r, Some(allow), entries, depth)
  {
    if entries != [] {
      var n := |entries| - 1;
      AllowedPass(r, allow, entries[..n], depth);
      PresentableSnoc(r, Some(allow), entries, depth);
      var a := Allowed(allow, entries[..n]);
      if Keeps(Some(allow), entries[n]) {
        assert (a + [entries[n]])[..|a|] == a;
        PresentableSnoc(r, None, a + [entries[n]], depth);
      } else {
        assert Allowed(allow, entries) == a;
      }
    }
  }

  /** A payload passes exactly when all that is kept and looked at is JSON within the depth limit. */
  lemma PassesExactly(r: Rules, payload: seq<Entry>)
    ensures Apply(r, Some(payload)).Ok? <==> PresentableFields(r, r.allow, payload, 0)
  {
    if r.allow.None? {
      EntriesPass(r, payload, 0);
    } else {
      AllowedPass(r, r.allow.value, payload, 0);
      EntriesPass(r, Allowed(r.allow.value, payload), 0);
    }
  }

  // ---------------------------------------------------------------- secret names

  /** A name cut at every underscore. */
  function Parts(s: string): (p: seq<string>)
    ensures |p| >= 1
  {
    if s == "" then [""]
    else if s[0] == '_' then [""] + Parts(s[1..])
    else [[s[0]] + Parts(s[1..])[0]] + Parts(s[1..])[1..]
  }

  function Joined(parts: seq<string>): string
    requires |parts| >= 1
  {
    if |parts| == 1 then parts[0] else parts[0] + ['_'] + Joined(parts[1..])
  }

  lemma Glue(first: char, middle: string, last: string)
    ensures [first] + middle + ['_'] + last == [first] + (middle + ['_'] + last)
  {}

  lemma JoinedMore(first: char, rest: seq<string>)
    requires |rest| >= 1
    ensures Joined([[first] + rest[0]] + rest[1..]) == [first] + Joined(rest)
  {
    var more := [[first] + rest[0]] + rest[1..];
    assert more[1..] == rest[1..] && more[0] == [first] + rest[0];
    if |rest| > 1 { Glue(first, rest[0], Joined(rest[1..])); }
  }

  lemma {:induction false} JoinedParts(s: string)
    ensures Joined(Parts(s)) == s
  {
    if s != "" {
      JoinedParts(s[1..]);
      JoinedMore(s[0], Parts(s[1..]));
      assert s == [s[0]] + s[1..];
      if s[0] == '_' { assert Parts(s)[1..] == Parts(s[1..]); }
    }
  }

  /** What stands behind some underscore. */
  predicate Behind(s: string, t: string) {
    exists i :: 0 <= i < |s| && s[i] == '_' && s[i + 1..] == t
  }

  /** Some of the last parts, but not all of them, joined again. */
  predicate LastParts(parts: seq<string>, t: string) {
    exists k :: 1 <= k < |parts| && Joined(parts[k..]) == t
  }

  lemma BehindStep(s: string, t: string)
    requires s != ""
    ensures Behind(s, t) <==> (s[0] == '_' && s[1..] == t) || Behind(s[1..], t)
  {
    var rest := s[1..];
    if Behind(s, t) {
      var i :| 0 <= i < |s| && s[i] == '_' && s[i + 1..] == t;
      if i > 0 { assert rest[i - 1] == '_' && rest[i..] == t; }
    }
    if Behind(rest, t) {
      var i :| 0 <= i < |rest| && rest[i] == '_' && rest[i + 1..] == t;
      assert s[i + 1] == '_' && s[i + 2..] == t;
    }
  }

  lemma LastStep(first: string, rest: seq<string>, t: string)
    requires |rest| >= 1
    ensures LastParts([first] + rest, t) <==> Joined(rest) == t || LastParts(rest, t)
  {
    var parts := [first] + rest;
    assert parts[1..] == rest && rest[0..] == rest;
    if LastParts(parts, t) {
      var k :| 1 <= k < |parts| && Joined(parts[k..]) == t;
      if k > 1 { assert parts[k..] == rest[k - 1..]; }
    }
    if LastParts(rest, t) {
      var k :| 1 <= k < |rest| && Joined(rest[k..]) == t;
      assert parts[k + 1..] == rest[k..];
    }
    if Joined(rest) == t { assert Joined(parts[1..]) == t; }
  }

  lemma LastSame(first: string, rest: seq<string>, t: string)
    requires |rest| >= 1
    ensures LastParts([first] + rest[1..], t) <==> LastParts(rest, t)
  {
    var parts := [first] + rest[1..];
    if LastParts(parts, t) {
      var k :| 1 <= k < |parts| && Joined(parts[k..]) == t;
      assert parts[k..] == rest[k..];
    }
    if LastParts(rest, t) {
      var k :| 1 <= k < |rest| && Joined(rest[k..]) == t;
      assert parts[k..] == rest[k..];
    }
  }

  lemma {:induction false} BehindIsLast(s: string, t: string)
    ensures Behind(s, t) <==> LastParts(Parts(s), t)
  {
    if s != "" {
      BehindIsLast(s[1..], t);
      BehindStep(s, t);
      JoinedParts(s[1..]);
      if s[0] == '_' { LastStep("", Parts(s[1..]), t); } else { LastSame([s[0]] + Parts(s[1..])[0], Parts(s[1..]), t); }
    }
  }

  /** A name is secret exactly when some of its last underscore-separated parts, or all of them, are a secret name. */
  lemma SecretKeyMeans(r: Rules, key: string)
    ensures r.SecretKey(key) <==> exists k :: 0 <= k < |Parts(r.snake(key))| && Joined(Parts(r.snake(key))[k..]) in r.secretKeys
  {
    var name := r.snake(key);
    var parts := Parts(name);
    JoinedParts(name);
    assert parts[0..] == parts;
    if r.SecretKey(key) && name !in r.secretKeys {
      var i :| 0 <= i < |name| && name[i] == '_' && name[i + 1..] in r.secretKeys;
      assert Behind(name, name[i + 1..]);
      BehindIsLast(name, name[i + 1..]);
    }
    if k :| 0 <= k < |parts| && Joined(parts[k..]) in r.secretKeys {
      if k > 0 {
        assert LastParts(parts, Joined(parts[k..]));
        BehindIsLast(name, Joined(parts[k..]));
      }
    }
  }
}
