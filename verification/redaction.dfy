/**
  Audit payload redaction. A payload is scrubbed key by key to JSON: a value under a secret name
  is replaced unseen, and so is every string that looks like a credential. Regular expressions
  are parameters; all that is asked of them is that the replacement is no credential.
*/
module Redaction {
  import opened Options

  const REDACTED: string := "[redacted]"
  const MAX_DEPTH: nat := 32

  // ---------------------------------------------------------------- payloads and results

  /** A key: a string, an enum holding a string, which may be a string itself, or something that is neither. */
  datatype Key = StrKey(name: string) | EnumKey(name: string, text: bool) | OtherKey

  /** The key equals a string, and so can be in an allowlist. */
  predicate IsText(k: Key) {
    k.StrKey? || (k.EnumKey? && k.text)
  }

  datatype Entry = Entry(key: Key, value: Value)

  /** What a payload may hold. `Opaque` stands for any type with no JSON form. */
  datatype Value =
    | Null
    | Bool(b: bool)
    | Number(n: int)
    | Str(s: string)
    | Enum(value: Value)
    | Decimal(n: int)
    | Moment(iso: string)
    | Mapping(entries: seq<Entry>)
    | Bag(sorted: seq<Value>)
    | List(items: seq<Value>)
    | Opaque

  datatype Field = Field(name: string, value: Json)

  datatype Json = JNull | JBool(b: bool) | JNumber(n: int) | JStr(s: string) | JObject(fields: seq<Field>) | JArray(items: seq<Json>)

  datatype Error = TypeError | TooDeep

  datatype Outcome<T> = Ok(value: T) | Raised(error: Error)

  /** `looksSecret` is the credential patterns and `snake` the key's snake-cased form. */
  datatype Rules = Rules(
    allow: Option<set<string>>,
    secretKeys: set<string>,
    snake: string -> string,
    looksSecret: string -> bool)
  {
    /** Secret whole, or from some underscore on. */
    predicate SecretKey(key: string) {
      var name := snake(key);
      name in secretKeys || exists i :: 0 <= i < |name| && name[i] == '_' && name[i + 1..] in secretKeys
    }

    ghost predicate Sane() { !looksSecret(REDACTED) }
  }

  // ---------------------------------------------------------------- scrubbing

  function Has(fields: seq<Field>, k: string): bool {
    fields != [] && (fields[|fields| - 1].name == k || Has(fields[..|fields| - 1], k))
  }

  function Replace(fields: seq<Field>, k: string, v: Json): seq<Field> {
    if fields == [] then [] else
    var n := |fields| - 1;
    Replace(fields[..n], k, v) + [if fields[n].name == k then Field(k, v) else fields[n]]
  }

  /** Assignment into an ordered dictionary. */
  function Put(fields: seq<Field>, k: string, v: Json): seq<Field> {
    if Has(fields, k) then Replace(fields, k, v) else fields + [Field(k, v)]
  }

  function ScrubEntries(r: Rules, entries: seq<Entry>, depth: nat): Outcome<seq<Field>>
    decreases entries, 0
  {
    if entries == [] then Ok([]) else
    var n := |entries| - 1;
    var front := ScrubEntries(r, entries[..n], depth);
    if front.Raised? then front else
    var key := entries[n].key;
    if key.OtherKey? then Raised(TypeError)
    else if r.SecretKey(key.name) then Ok(Put(front.value, key.name, JStr(REDACTED)))
    else
      var e := entries[n];
      assert e.value < e;
      var v := ScrubValue(r, e.value, depth + 1);
      if v.Raised? then Raised(v.error) else Ok(Put(front.value, key.name, v.value))
  }

  function ScrubItems(r: Rules, items: seq<Value>, depth: nat): Outcome<seq<Json>>
    decreases items, 0
  {
    if items == [] then Ok([]) else
    var n := |items| - 1;
    var front := ScrubItems(r, items[..n], depth);
    if front.Raised? then front else
    var v := ScrubValue(r, items[n], depth + 1);
    if v.Raised? then Raised(v.error) else Ok(front.value + [v.value])
  }

  function ScrubValue(r: Rules, v: Value, depth: nat): Outcome<Json>
    decreases v, 1
  {
    if depth > MAX_DEPTH then Raised(TooDeep) else
    match v
    case Null => Ok(JNull)
    case Bool(b) => Ok(JBool(b))
    case Number(n) => Ok(JNumber(n))
    case Str(s) => Ok(JStr(if r.looksSecret(s) then REDACTED else s))
    case Enum(inner) => ScrubValue(r, inner, depth)
    case Decimal(n) => Ok(JNumber(n))
    case Moment(iso) => Ok(JStr(iso))
    case Mapping(entries) =>
      var f := ScrubEntries(r, entries, depth);
      if f.Raised? then Raised(f.error) else Ok(JObject(f.value))
    case Bag(sorted) =>
      var i := ScrubItems(r, sorted, depth);
      if i.Raised? then Raised(i.error) else Ok(JArray(i.value))
    case List(items) =>
      var i := ScrubItems(r, items, depth);
      if i.Raised? then Raised(i.error) else Ok(JArray(i.value))
    case Opaque => Raised(TypeError)
  }

  function Allowed(allow: set<string>, entries: seq<Entry>): seq<Entry> {
    if entries == [] then [] else
    var n := |entries| - 1;
    Allowed(allow, entries[..n]) +
      if IsText(entries[n].key) && entries[n].key.name in allow then [entries[n]] else []
  }

  /** The scrubbed copy of a payload, empty when there is none. */
  function Apply(r: Rules, payload: Option<seq<Entry>>): Outcome<seq<Field>> {
    if payload.None? then Ok([]) else
    ScrubEntries(r, if r.allow.None? then payload.value else Allowed(r.allow.value, payload.value), 0)
  }

  // ---------------------------------------------------------------- a scrubbed payload as a payload

  function Lift(j: Json): Value
    decreases j, 1
  {
    match j
    case JNull => Null
    case JBool(b) => Bool(b)
    case JNumber(n) => Number(n)
    case JStr(s) => Str(s)
    case JObject(fields) => Mapping(LiftFields(fields))
    case JArray(items) => List(LiftItems(items))
  }

  function LiftFields(fields: seq<Field>): (e: seq<Entry>)
    ensures |e| == |fields|
    decreases fields, 0
  {
    if fields == [] then [] else
    var n := |fields| - 1;
    LiftFields(fields[..n]) + [Entry(StrKey(fields[n].name), Lift(fields[n].value))]
  }

  function LiftItems(items: seq<Json>): (v: seq<Value>)
    ensures |v| == |items|
    decreases items, 0
  {
    if items == [] then [] else
    LiftItems(items[..|items| - 1]) + [Lift(items[|items| - 1])]
  }

  // ---------------------------------------------------------------- what is asked of a result

  /** At every depth: secret names hold the replacement, and no string looks like a credential. */
  predicate Clean(r: Rules, j: Json)
    decreases j, 1
  {
    match j
    case JStr(s) => !r.looksSecret(s)
    case JObject(fields) => CleanFields(r, fields)
    case JArray(items) => CleanItems(r, items)
    case _ => true
  }

  predicate CleanFields(r: Rules, fields: seq<Field>)
    decreases fields, 0
  {
    fields == [] ||
    var n := |fields| - 1;
    CleanFields(r, fields[..n]) &&
    if r.SecretKey(fields[n].name) then fields[n].value == JStr(REDACTED) else Clean(r, fields[n].value)
  }

  predicate CleanItems(r: Rules, items: seq<Json>)
    decreases items, 0
  {
    items == [] || (CleanItems(r, items[..|items| - 1]) && Clean(r, items[|items| - 1]))
  }

  /** What these rules look at is within the depth limit. */
  predicate Fits(r: Rules, j: Json, depth: nat)
    decreases j, 1
  {
    depth <= MAX_DEPTH &&
    match j
    case JObject(fields) => FitsFields(r, fields, depth)
    case JArray(items) => FitsItems(r, items, depth)
    case _ => true
  }

  predicate FitsFields(r: Rules, fields: seq<Field>, depth: nat)
    decreases fields, 0
  {
    fields == [] ||
    var n := |fields| - 1;
    && FitsFields(r, fields[..n], depth)
    && (r.SecretKey(fields[n].name) || Fits(r, fields[n].value, depth + 1))
  }

  predicate FitsItems(r: Rules, items: seq<Json>, depth: nat)
    decreases items, 0
  {
    items == [] || (FitsItems(r, items[..|items| - 1], depth) && Fits(r, items[|items| - 1], depth + 1))
  }

  /** Keys are distinct at every depth. */
  predicate Keyed(j: Json)
    decreases j, 1
  {
    match j
    case JObject(fields) => KeyedFields(fields)
    case JArray(items) => KeyedItems(items)
    case _ => true
  }

  predicate KeyedFields(fields: seq<Field>)
    decreases fields, 0
  {
    fields == [] ||
    var n := |fields| - 1;
    KeyedFields(fields[..n]) && !Has(fields[..n], fields[n].name) && Keyed(fields[n].value)
  }

  predicate KeyedItems(items: seq<Json>)
    decreases items, 0
  {
    items == [] || (KeyedItems(items[..|items| - 1]) && Keyed(items[|items| - 1]))
  }

  /** Timestamps are rendered unseen, so they must not look like credentials themselves. */
  predicate MomentsPlain(r: Rules, v: Value)
    decreases v, 1
  {
    match v
    case Enum(inner) => MomentsPlain(r, inner)
    case Moment(iso) => !r.looksSecret(iso)
    case Mapping(entries) => MomentsPlainEntries(r, entries)
    case Bag(sorted) => MomentsPlainItems(r, sorted)
    case List(items) => MomentsPlainItems(r, items)
    case _ => true
  }

  predicate MomentsPlainEntries(r: Rules, entries: seq<Entry>)
    decreases entries, 0
  {
    entries == [] ||
    var e := entries[|entries| - 1];
    assert e.value < e;
    MomentsPlainEntries(r, entries[..|entries| - 1]) && MomentsPlain(r, e.value)
  }

  predicate MomentsPlainItems(r: Rules, items: seq<Value>)
    decreases items, 0
  {
    items == [] || (MomentsPlainItems(r, items[..|items| - 1]) && MomentsPlain(r, items[|items| - 1]))
  }

  // ---------------------------------------------------------------- the first pass

  lemma {:induction false} HasReplace(fields: seq<Field>, k: string, v: Json, x: string)
    ensures Has(Replace(fields, k, v), x) == Has(fields, x)
    ensures |Replace(fields, k, v)| == |fields|
  {
    if fields != [] {
      var n := |fields| - 1;
      HasReplace(fields[..n], k, v, x);
      var s := Replace(fields, k, v);
      assert s[..|s| - 1] == Replace(fields[..n], k, v);
    }
  }

  /** A scrubbed object: clean, within the limit, and without repeated keys. */
  ghost predicate Scrubbed(r: Rules, fields: seq<Field>, depth: nat) {
    CleanFields(r, fields) && FitsFields(r, fields, depth) && KeyedFields(fields)
  }

  ghost predicate FieldOk(r: Rules, k: string, v: Json, depth: nat) {
    Keyed(v) && if r.SecretKey(k) then v == JStr(REDACTED) else Clean(r, v) && Fits(r, v, depth + 1)
  }

  lemma {:induction false} ReplaceKeeps(r: Rules, fields: seq<Field>, k: string, v: Json, depth: nat)
    requires Scrubbed(r, fields, depth) && FieldOk(r, k, v, depth)
    ensures Scrubbed(r, Replace(fields, k, v), depth)
  {
    if fields != [] {
      var n := |fields| - 1;
      ReplaceKeeps(r, fields[..n], k, v, depth);
      HasReplace(fields[..n], k, v, fields[n].name);
      var s := Replace(fields, k, v);
      assert s[..|s| - 1] == Replace(fields[..n], k, v);
    }
  }

  lemma PutKeeps(r: Rules, fields: seq<Field>, k: string, v: Json, depth: nat)
    requires Scrubbed(r, fields, depth) && FieldOk(r, k, v, depth)
    ensures Scrubbed(r, Put(fields, k, v), depth)
  {
    if Has(fields, k) {
      ReplaceKeeps(r, fields, k, v, depth);
    } else {
      assert (fields + [Field(k, v)])[..|fields|] == fields;
    }
  }

  lemma {:induction false} EntriesScrubbed(r: Rules, entries: seq<Entry>, depth: nat)
    requires r.Sane() && MomentsPlainEntries(r, entries) && ScrubEntries(r, entries, depth).Ok?
    ensures Scrubbed(r, ScrubEntries(r, entries, depth).value, depth)
    decreases entries, 0
  {
    if entries != [] {
      var n := |entries| - 1;
      EntriesScrubbed(r, entries[..n], depth);
      var front := ScrubEntries(r, entries[..n], depth).value;
      var e := entries[n];
      if r.SecretKey(e.key.name) {
        PutKeeps(r, front, e.key.name, JStr(REDACTED), depth);
      } else {
        assert e.value < e;
        ValueScrubbed(r, e.value, depth + 1);
        PutKeeps(r, front, e.key.name, ScrubValue(r, e.value, depth + 1).value, depth);
      }
    }
  }

  lemma {:induction false} ItemsScrubbed(r: Rules, items: seq<Value>, depth: nat)
    requires r.Sane() && MomentsPlainItems(r, items) && ScrubItems(r, items, depth).Ok?
    ensures var js := ScrubItems(r, items, depth).value; CleanItems(r, js) && FitsItems(r, js, depth) && KeyedItems(js)
    decreases items, 0
  {
    if items != [] {
      var n := |items| - 1;
      ItemsScrubbed(r, items[..n], depth);
      ValueScrubbed(r, items[n], depth + 1);
      var js := ScrubItems(r, items, depth).value;
      assert js[..|js| - 1] == ScrubItems(r, items[..n], depth).value;
    }
  }

  lemma {:induction false} ValueScrubbed(r: Rules, v: Value, depth: nat)
    requires r.Sane() && MomentsPlain(r, v) && ScrubValue(r, v, depth).Ok?
    ensures var j := ScrubValue(r, v, depth).value; Clean(r, j) && Fits(r, j, depth) && Keyed(j)
    decreases v, 1
  {
    match v
    case Enum(inner) => ValueScrubbed(r, inner, depth);
    case Mapping(entries) => EntriesScrubbed(r, entries, depth);
    case Bag(sorted) => ItemsScrubbed(r, sorted, depth);
    case List(items) => ItemsScrubbed(r, items, depth);
    case _ =>
  }

  lemma {:induction false} AllowedKeeps(r: Rules, allow: set<string>, entries: seq<Entry>)
    requires MomentsPlainEntries(r, entries)
    ensures MomentsPlainEntries(r, Allowed(allow, entries))
    ensures forall e :: e in Allowed(allow, entries) ==> IsText(e.key) && e.key.name in allow
  {
    if entries != [] {
      var n := |entries| - 1;
      AllowedKeeps(r, allow, entries[..n]);
      var a := Allowed(allow, entries);
      if IsText(entries[n].key) && entries[n].key.name in allow {
        assert a[..|a| - 1] == Allowed(allow, entries[..n]);
      } else {
        assert a == Allowed(allow, entries[..n]);
      }
    }
  }

  lemma {:induction false} NamesWithin(r: Rules, entries: seq<Entry>, depth: nat, allow: set<string>, x: string)
    requires ScrubEntries(r, entries, depth).Ok?
    requires forall e :: e in entries ==> IsText(e.key) && e.key.name in allow
    ensures Has(ScrubEntries(r, entries, depth).value, x) ==> x in allow
    decreases |entries|
  {
    if entries != [] {
      var n := |entries| - 1;
      assert entries[n] in entries;
      NamesWithin(r, entries[..n], depth, allow, x);
      HasPut(ScrubEntries(r, entries[..n], depth).value, entries[n].key.name, ScrubEntries(r, entries, depth).value, x);
    }
  }

  lemma HasPut(fields: seq<Field>, k: string, after: seq<Field>, x: string)
    requires exists v :: after == Put(fields, k, v)
    ensures Has(after, x) ==> Has(fields, x) || x == k
  {
    var v :| after == Put(fields, k, v);
    if Has(fields, k) {
      HasReplace(fields, k, v, x);
    } else {
      assert after[..|after| - 1] == fields;
    }
  }

  /**
    A payload that passes is clean at every depth, within the limit, without repeated keys, and
    holds only allowed keys at the top.
  */
  lemma ApplyIsClean(r: Rules, payload: seq<Entry>)
    requires r.Sane() && MomentsPlainEntries(r, payload) && Apply(r, Some(payload)).Ok?
    ensures Scrubbed(r, Apply(r, Some(payload)).value, 0)
    ensures r.allow.Some? ==> forall x :: Has(Apply(r, Some(payload)).value, x) ==> x in r.allow.value
  {
    if r.allow.None? {
      EntriesScrubbed(r, payload, 0);
    } else {
      var kept := Allowed(r.allow.value, payload);
      AllowedKeeps(r, r.allow.value, payload);
      EntriesScrubbed(r, kept, 0);
      forall x | Has(ScrubEntries(r, kept, 0).value, x) ensures x in r.allow.value {
        NamesWithin(r, kept, 0, r.allow.value, x);
      }
    }
  }

  // ---------------------------------------------------------------- any later pass

  predicate SameNames(a: seq<Field>, b: seq<Field>) {
    |a| == |b| && forall i :: 0 <= i < |a| ==> a[i].name == b[i].name
  }

  lemma {:induction false} SameNamesHas(a: seq<Field>, b: seq<Field>, k: string)
    requires SameNames(a, b)
    ensures Has(a, k) == Has(b, k)
  {
    if a != [] { SameNamesHas(a[..|a| - 1], b[..|b| - 1], k); }
  }

  /**
    A second pass, under these rules or others, succeeds exactly when what it looks at is within the
    depth limit. It leaves what is already clean as it is, and keeps what an earlier pass cleaned.
  */
  lemma {:induction false} FieldsAgain(r: Rules, first: Rules, fields: seq<Field>, depth: nat)
    requires KeyedFields(fields) && first.Sane()
    ensures ScrubEntries(r, LiftFields(fields), depth).Ok? <==> FitsFields(r, fields, depth)
    ensures var o := ScrubEntries(r, LiftFields(fields), depth); o.Ok? ==>
      && SameNames(o.value, fields)
      && (CleanFields(r, fields) ==> o.value == fields)
      && (CleanFields(first, fields) ==> CleanFields(first, o.value))
    decreases fields, 0
  {
    if fields != [] {
      var n := |fields| - 1;
      var f := fields[n];
      FieldsAgain(r, first, fields[..n], depth);
      var front := ScrubEntries(r, LiftFields(fields[..n]), depth);
      var v := if r.SecretKey(f.name) then Ok(JStr(REDACTED)) else ScrubValue(r, Lift(f.value), depth + 1);
      if !r.SecretKey(f.name) { ValueAgain(r, first, f.value, depth + 1); }
      if front.Ok? { SameNamesHas(front.value, fields[..n], f.name); }
      EntriesSnoc(r, fields, depth, front, v);
      if front.Ok? && v.Ok? { FieldsJoin(r, first, fields, front.value, v.value); }
    }
  }

  lemma FieldsJoin(r: Rules, first: Rules, fields: seq<Field>, front: seq<Field>, v: Json)
    requires fields != [] && SameNames(front, fields[..|fields| - 1])
    requires var (f, rest) := (fields[|fields| - 1], fields[..|fields| - 1]);
      && (CleanFields(r, rest) ==> front == rest)
      && (CleanFields(first, rest) ==> CleanFields(first, front))
      && (if r.SecretKey(f.name) then v == JStr(REDACTED) else
          (Clean(r, f.value) ==> v == f.value) && (Clean(first, f.value) ==> Clean(first, v)) && (f.value == JStr(REDACTED) ==> v == f.value))
    requires Clean(first, JStr(REDACTED))
    ensures var o := front + [Field(fields[|fields| - 1].name, v)];
      && SameNames(o, fields)
      && (CleanFields(r, fields) ==> o == fields)
      && (CleanFields(first, fields) ==> CleanFields(first, o))
  {
    var n := |fields| - 1;
    assert fields == fields[..n] + [fields[n]];
    CleanSnoc(first, front, Field(fields[n].name, v));
  }

  lemma EntriesSnoc(r: Rules, fields: seq<Field>, depth: nat, front: Outcome<seq<Field>>, v: Outcome<Json>)
    requires fields != []
    requires front == ScrubEntries(r, LiftFields(fields[..|fields| - 1]), depth)
    requires var f := fields[|fields| - 1];
      v == if r.SecretKey(f.name) then Ok(JStr(REDACTED)) else ScrubValue(r, Lift(f.value), depth + 1)
    requires front.Ok? ==> !Has(front.value, fields[|fields| - 1].name)
    ensures var o := ScrubEntries(r, LiftFields(fields), depth);
      if front.Ok? && v.Ok? then o == Ok(front.value + [Field(fields[|fields| - 1].name, v.value)]) else o.Raised?
  {
    var e := LiftFields(fields);
    assert e[..|fields| - 1] == LiftFields(fields[..|fields| - 1]);
  }

  lemma CleanSnoc(r: Rules, fields: seq<Field>, f: Field)
    ensures CleanFields(r, fields + [f]) <==>
      CleanFields(r, fields) && if r.SecretKey(f.name) then f.value == JStr(REDACTED) else Clean(r, f.value)
  {
    assert (fields + [f])[..|fields|] == fields;
  }

  lemma ItemsSnoc(r: Rules, items: seq<Json>, depth: nat, front: Outcome<seq<Json>>, v: Outcome<Json>)
    requires items != []
    requires front == ScrubItems(r, LiftItems(items[..|items| - 1]), depth)
    requires v == ScrubValue(r, Lift(items[|items| - 1]), depth + 1)
    ensures var o := ScrubItems(r, LiftItems(items), depth);
      if front.Ok? && v.Ok? then o == Ok(front.value + [v.value]) else o.Raised?
  {
    var e := LiftItems(items);
    assert e[..|items| - 1] == LiftItems(items[..|items| - 1]);
  }

  lemma CleanItemsSnoc(r: Rules, items: seq<Json>, j: Json)
    ensures CleanItems(r, items + [j]) <==> CleanItems(r, items) && Clean(r, j)
  {
    assert (items + [j])[..|items|] == items;
  }

  lemma {:induction false} ItemsAgain(r: Rules, first: Rules, items: seq<Json>, depth: nat)
    requires KeyedItems(items) && first.Sane()
    ensures ScrubItems(r, LiftItems(items), depth).Ok? <==> FitsItems(r, items, depth)
    ensures var o := ScrubItems(r, LiftItems(items), depth); o.Ok? ==>
      && (CleanItems(r, items) ==> o.value == items)
      && (CleanItems(first, items) ==> CleanItems(first, o.value))
    decreases items, 0
  {
    if items != [] {
      var n := |items| - 1;
      assert items == items[..n] + [items[n]];
      ItemsAgain(r, first, items[..n], depth);
      ValueAgain(r, first, items[n], depth + 1);
      var front, v := ScrubItems(r, LiftItems(items[..n]), depth), ScrubValue(r, Lift(items[n]), depth + 1);
      ItemsSnoc(r, items, depth, front, v);
      if front.Ok? && v.Ok? {
        CleanItemsSnoc(first, front.value, v.value);
      }
    }
  }

  lemma {:induction false} ValueAgain(r: Rules, first: Rules, j: Json, depth: nat)
    requires Keyed(j) && first.Sane()
    ensures ScrubValue(r, Lift(j), depth).Ok? <==> Fits(r, j, depth)
    ensures var o := ScrubValue(r, Lift(j), depth); o.Ok? ==>
      && (Clean(r, j) ==> o.value == j)
      && (Clean(first, j) ==> Clean(first, o.value))
      && (j == JStr(REDACTED) ==> o.value == j)
    decreases j, 1
  {
    match j
    case JObject(fields) => FieldsAgain(r, first, fields, depth);
    case JArray(items) => ItemsAgain(r, first, items, depth);
    case _ =>
  }

  /** Redaction is idempotent: a payload that passed once passes again unchanged. */
  lemma ApplyTwice(r: Rules, payload: seq<Entry>)
    requires r.Sane() && MomentsPlainEntries(r, payload) && Apply(r, Some(payload)).Ok?
    ensures Apply(r, Some(LiftFields(Apply(r, Some(payload)).value))) == Apply(r, Some(payload))
  {
    ApplyIsClean(r, payload);
    var fields := Apply(r, Some(payload)).value;
    FieldsAgain(r, r, fields, 0);
    if r.allow.Some? { AllowedAll(r.allow.value, fields); }
  }

  lemma {:induction false} AllowedAll(allow: set<string>, fields: seq<Field>)
    requires forall x :: Has(fields, x) ==> x in allow
    ensures Allowed(allow, LiftFields(fields)) == LiftFields(fields)
    decreases |fields|
  {
    if fields != [] {
      var n := |fields| - 1;
      var e := LiftFields(fields);
      assert e[..n] == LiftFields(fields[..n]);
      assert Has(fields, fields[n].name);
      forall x | Has(fields[..n], x) ensures x in allow { assert Has(fields, x); }
      AllowedAll(allow, fields[..n]);
    }
  }

  /**
    An event's payload passes the action's rules and then the default ones. The second pass
    succeeds exactly when what it looks at is within the limit, and then the payload keeps both
    guarantees and the action's allowlist.
  */
  lemma BuildKeepsBoth(action: Rules, default: Rules, payload: seq<Entry>)
    requires action.Sane() && default.Sane() && default.allow.None?
    requires MomentsPlainEntries(action, payload) && Apply(action, Some(payload)).Ok?
    ensures var first := Apply(action, Some(payload)).value; var second := Apply(default, Some(LiftFields(first)));
      && (second.Ok? <==> FitsFields(default, first, 0))
      && (second.Ok? ==> CleanFields(action, second.value) && CleanFields(default, second.value) && SameNames(second.value, first))
  {
    ApplyIsClean(action, payload);
    var first := Apply(action, Some(payload)).value;
    FieldsAgain(default, action, first, 0);
    FieldsPlain(default, first);
    if FitsFields(default, first, 0) { EntriesScrubbed(default, LiftFields(first), 0); }
  }

  lemma {:induction false} FieldsPlain(r: Rules, fields: seq<Field>)
    ensures MomentsPlainEntries(r, LiftFields(fields))
    decreases fields, 0
  {
    if fields != [] {
      var n := |fields| - 1;
      FieldsPlain(r, fields[..n]);
      ValuePlain(r, fields[n].value);
      var e := LiftFields(fields);
      assert e[..n] == LiftFields(fields[..n]);
    }
  }

  lemma {:induction false} ItemsPlain(r: Rules, items: seq<Json>)
    ensures MomentsPlainItems(r, LiftItems(items))
    decreases items, 0
  {
    if items != [] {
      var n := |items| - 1;
      ItemsPlain(r, items[..n]);
      ValuePlain(r, items[n]);
      var v := LiftItems(items);
      assert v[..n] == LiftItems(items[..n]);
    }
  }

  lemma {:induction false} ValuePlain(r: Rules, j: Json)
    ensures MomentsPlain(r, Lift(j))
    decreases j, 1
  {
    match j
    case JObject(fields) => FieldsPlain(r, fields);
    case JArray(items) => ItemsPlain(r, items);
    case _ =>
  }

  /** When the default hides every name the action hides, the second pass never fails. */
  lemma {:induction false} FitsUnderMore(a: Rules, b: Rules, fields: seq<Field>, depth: nat)
    requires FitsFields(a, fields, depth) && forall k :: a.SecretKey(k) ==> b.SecretKey(k)
    ensures FitsFields(b, fields, depth)
    decreases fields, 0
  {
    if fields != [] {
      var n := |fields| - 1;
      FitsUnderMore(a, b, fields[..n], depth);
      if !b.SecretKey(fields[n].name) { FitsUnderMoreValue(a, b, fields[n].value, depth + 1); }
    }
  }

  lemma {:induction false} FitsUnderMoreItems(a: Rules, b: Rules, items: seq<Json>, depth: nat)
    requires FitsItems(a, items, depth) && forall k :: a.SecretKey(k) ==> b.SecretKey(k)
    ensures FitsItems(b, items, depth)
    decreases items, 0
  {
    if items != [] {
      var n := |items| - 1;
      FitsUnderMoreItems(a, b, items[..n], depth);
      FitsUnderMoreValue(a, b, items[n], depth + 1);
    }
  }

  lemma {:induction false} FitsUnderMoreValue(a: Rules, b: Rules, j: Json, depth: nat)
    requires Fits(a, j, depth) && forall k :: a.SecretKey(k) ==> b.SecretKey(k)
    ensures Fits(b, j, depth)
    decreases j, 1
  {
    match j
    case JObject(fields) => FitsUnderMore(a, b, fields, depth);
    case JArray(items) => FitsUnderMoreItems(a, b, items, depth);
    case _ =>
  }

  // ---------------------------------------------------------------- a payload that passes once

  /** Mappings in mappings under `plain`, `n` deep, with `hidden` in the innermost. */
  function Nest(plain: string, hidden: string, n: nat): seq<Entry> {
    [if n == 0 then Entry(StrKey(hidden), Null) else Entry(StrKey(plain), Mapping(Nest(plain, hidden, n - 1)))]
  }

  /** What a pass that hides `hidden` makes of it. */
  function NestHidden(plain: string, hidden: string, n: nat): seq<Field> {
    [if n == 0 then Field(hidden, JStr(REDACTED)) else Field(plain, JObject(NestHidden(plain, hidden, n - 1)))]
  }

  lemma ScrubOne(r: Rules, e: Entry, depth: nat)
    requires e.key.StrKey?
    ensures ScrubEntries(r, [e], depth)
         == if r.SecretKey(e.key.name) then Ok([Field(e.key.name, JStr(REDACTED))])
            else var v := ScrubValue(r, e.value, depth + 1);
              if v.Raised? then Raised(v.error) else Ok([Field(e.key.name, v.value)])
  {
    assert [e][..0] == [] && ScrubEntries(r, [], depth) == Ok([]);
    forall v: Json ensures Put([], e.key.name, v) == [Field(e.key.name, v)] {}
  }

  lemma {:induction false} NestPasses(action: Rules, plain: string, hidden: string, n: nat, depth: nat)
    requires action.SecretKey(hidden) && !action.SecretKey(plain) && depth + n <= MAX_DEPTH
    ensures ScrubEntries(action, Nest(plain, hidden, n), depth) == Ok(NestHidden(plain, hidden, n))
    ensures MomentsPlainEntries(action, Nest(plain, hidden, n))
  {
    var nest := Nest(plain, hidden, n);
    assert nest[..0] == [];
    ScrubOne(action, nest[0], depth);
    if n > 0 { NestPasses(action, plain, hidden, n - 1, depth + 1); }
  }

  lemma FitsOne(r: Rules, f: Field, depth: nat)
    ensures FitsFields(r, [f], depth) <==> r.SecretKey(f.name) || Fits(r, f.value, depth + 1)
  {
    assert [f][..0] == [];
  }

  lemma {:induction false} NestTooDeep(default: Rules, plain: string, hidden: string, n: nat, depth: nat)
    requires !default.SecretKey(hidden) && !default.SecretKey(plain) && depth + n == MAX_DEPTH
    ensures !FitsFields(default, NestHidden(plain, hidden, n), depth)
  {
    FitsOne(default, NestHidden(plain, hidden, n)[0], depth);
    if n > 0 { NestTooDeep(default, plain, hidden, n - 1, depth + 1); }
  }

  lemma AllowsOne(allow: set<string>, e: Entry)
    requires IsText(e.key) && e.key.name in allow
    ensures Allowed(allow, [e]) == [e]
  {
    assert [e][..0] == [];
  }

  lemma NestApplies(action: Rules, plain: string, hidden: string, n: nat)
    requires action.SecretKey(hidden) && !action.SecretKey(plain) && 1 <= n <= MAX_DEPTH
    requires action.allow.Some? ==> plain in action.allow.value
    ensures Apply(action, Some(Nest(plain, hidden, n))) == Ok(NestHidden(plain, hidden, n))
    ensures MomentsPlainEntries(action, Nest(plain, hidden, n))
  {
    if action.allow.Some? { AllowsOne(action.allow.value, Nest(plain, hidden, n)[0]); }
    NestPasses(action, plain, hidden, n, 0);
  }

  /**
    Whenever the action hides a name the default does not, some payload within the limit passes the
    action's rules and is refused by the default ones: that name, nested to the limit under one neither hides.
  */
  lemma HiddenTooDeep(action: Rules, default: Rules, plain: string, hidden: string) returns (payload: seq<Entry>)
    requires action.Sane() && default.Sane() && default.allow.None?
    requires action.SecretKey(hidden) && !default.SecretKey(hidden)
    requires !action.SecretKey(plain) && !default.SecretKey(plain) && (action.allow.Some? ==> plain in action.allow.value)
    ensures Apply(action, Some(payload)).Ok?
    ensures Apply(default, Some(LiftFields(Apply(action, Some(payload)).value))).Raised?
  {
    payload := Nest(plain, hidden, MAX_DEPTH);
    NestApplies(action, plain, hidden, MAX_DEPTH);
    NestTooDeep(default, plain, hidden, MAX_DEPTH, 0);
    BuildKeepsBoth(action, default, payload);
  }
}
