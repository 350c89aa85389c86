/** The page cursors of the table reads: a start key as typed JSON, stamped with the read it came from. */
module StartKeys {
  import opened Options
  import opened Base64

  const VERSION: int := 1
  const MAX_ATTRIBUTES: nat := 4
  const MAX_LENGTH: nat := 4096

  datatype Json = Null | Flag(on: bool) | Num(n: int) | Str(s: string) | List(items: seq<Json>) | Obj(fields: map<string, Json>)

  /** A decimal number of the library, which may also be an infinity or not a number. */
  datatype Decimal = Finite(coefficient: int, exponent: int) | NotFinite

  datatype Value = Text(text: string) | Number(number: Decimal) | Binary(bytes: Bytes) | Unkeyable

  type Key = map<string, Value>

  /** The text forms left to the library: JSON, decimals, and base64 outside its alphabet. */
  datatype Codec = Codec(
    dumps: Json -> Bytes, loads: Bytes -> Option<Json>,
    show: Decimal -> string, parse: string -> Option<Decimal>,
    lenient: string -> Option<Bytes>)

  ghost predicate Faithful(c: Codec) {
    && (forall j :: c.loads(c.dumps(j)) == Some(j))
    && (forall d :: c.parse(c.show(d)) == Some(d))
    && c.loads([]) == None
  }

  // ---------------------------------------------------------------- one value

  function Tagged(tag: string, raw: string): Json {
    Obj(map[tag := Str(raw)])
  }

  function EncodeValue(c: Codec, v: Value): Option<Json> {
    match v
    case Text(s) => Some(Tagged("S", s))
    case Number(d) => Some(Tagged("N", c.show(d)))
    case Binary(b) => Some(Tagged("B", EncodePadded(Standard, b)))
    case Unkeyable => None
  }

  /** The one tag and raw text of a typed value. */
  function Typed(j: Json): Option<(string, string)> {
    if j.Obj? && |j.fields| == 1 then
      OneTag(j.fields);
      var tag :| tag in j.fields;
      if j.fields[tag].Str? then Some((tag, j.fields[tag].s)) else None
    else None
  }

  lemma TwoTags(m: map<string, Json>, a: string, b: string)
    requires a in m && b in m && a != b
    ensures |m| >= 2
  {
    var rest := m.Keys - {a};
    assert b in rest;
    assert |m.Keys| == |rest| + 1;
  }

  lemma OneTag(m: map<string, Json>)
    requires |m| == 1
    ensures exists tag :: tag in m
    ensures forall a, b :: a in m && b in m ==> a == b
  {
    var tag :| tag in m.Keys;
    forall a, b | a in m && b in m ensures a == b {
      if a != b { TwoTags(m, a, b); }
    }
  }

  function DecodeValue(c: Codec, j: Json): Option<Value> {
    match Typed(j)
    case None => None
    case Some((tag, raw)) =>
      if tag == "S" then Some(Text(raw))
      else if tag == "N" then
        match c.parse(raw)
        case None => None
        case Some(d) => if d.Finite? then Some(Number(d)) else None
      else if tag == "B" then
        match DecodePadded(Standard, raw)
        case None => None
        case Some(b) => Some(Binary(b))
      else None
  }

  predicate Refused(v: Value) {
    v.Number? && v.number.NotFinite?
  }

  lemma TypedTagged(tag: string, raw: string)
    ensures Typed(Tagged(tag, raw)) == Some((tag, raw))
  {
    var m: map<string, Json> := map[tag := Str(raw)];
    assert m.Keys == {tag};
    assert |m| == 1;
  }

  /** A value a key can hold keeps its type and its content, and a number that is not finite is refused. */
  lemma ValueRoundTrip(c: Codec, v: Value)
    requires Faithful(c) && !v.Unkeyable?
    ensures EncodeValue(c, v).Some?
    ensures DecodeValue(c, EncodeValue(c, v).value) == if Refused(v) then None else Some(v)
  {
    match v
    case Text(s) => TypedTagged("S", s);
    case Number(d) => TypedTagged("N", c.show(d));
    case Binary(b) =>
      TypedTagged("B", EncodePadded(Standard, b));
      DecodePaddedEncode(Standard, b);
  }

  // ---------------------------------------------------------------- the token

  datatype Encoded = FirstPage | Token(token: string) | WrongType

  predicate Keyable(key: Key) {
    forall name :: name in key ==> !key[name].Unkeyable?
  }

  function EncodedFields(c: Codec, key: Key): map<string, Json>
    requires Keyable(key)
  {
    map name | name in key :: EncodeValue(c, key[name]).value
  }

  function Payload(k: Json, scope: Option<string>): Json {
    var base := map["v" := Num(VERSION), "k" := k];
    Obj(if scope.Some? then base["s" := Str(scope.value)] else base)
  }

  function KeyPayload(c: Codec, key: Key, scope: Option<string>): Json
    requires Keyable(key)
  {
    Payload(Obj(EncodedFields(c, key)), scope)
  }

  function EncodeStartKey(c: Codec, key: Option<Key>, scope: Option<string>): Encoded {
    if key.None? || key.value == map[] then FirstPage
    else if !Keyable(key.value) then WrongType
    else Token(Encode(UrlSafe, c.dumps(KeyPayload(c, key.value, scope))))
  }

  datatype Decoded = NoKey | StartKey(key: Key) | Invalid

  function Unwrap(c: Codec, token: string): Option<Bytes> {
    match Read(UrlSafe, token)
    case Some(ds) => Unpack(ds)
    case None => c.lenient(token)
  }

  /** In the language's own comparison `true` equals one, so it passes for the version. */
  predicate IsVersion(j: Json) {
    j == Num(VERSION) || j == Flag(true)
  }

  /** A missing scope and a null one are alike. */
  predicate ScopeIs(payload: map<string, Json>, scope: Option<string>) {
    if "s" in payload && payload["s"] != Null then scope.Some? && payload["s"] == Str(scope.value) else scope.None?
  }

  predicate AllDecode(c: Codec, fields: map<string, Json>) {
    forall name :: name in fields ==> DecodeValue(c, fields[name]).Some?
  }

  function DecodeAttributes(c: Codec, fields: map<string, Json>): Decoded {
    if !(0 < |fields| <= MAX_ATTRIBUTES) || "" in fields || !AllDecode(c, fields) then Invalid
    else StartKey(map name | name in fields :: DecodeValue(c, fields[name]).value)
  }

  function DecodePayload(c: Codec, j: Json, scope: Option<string>): Decoded {
    if !j.Obj? || "v" !in j.fields || !IsVersion(j.fields["v"]) then Invalid
    else if j.fields.Keys - {"v", "k", "s"} != {} || !ScopeIs(j.fields, scope) then Invalid
    else if "k" !in j.fields || !j.fields["k"].Obj? then Invalid
    else DecodeAttributes(c, j.fields["k"].fields)
  }

  function DecodeStartKey(c: Codec, token: Option<string>, scope: Option<string>): Decoded {
    if token.None? || token.value == "" then NoKey
    else if |token.value| > MAX_LENGTH then Invalid
    else match Unwrap(c, token.value)
      case None => Invalid
      case Some(raw) =>
        match c.loads(raw)
        case None => Invalid
        case Some(j) => DecodePayload(c, j, scope)
  }

  // ---------------------------------------------------------------- the round trip

  /** What a table's key is: one to four named attributes, every number finite. */
  predicate TableKey(key: Key) {
    0 < |key| <= MAX_ATTRIBUTES && "" !in key && AllFinite(key)
  }

  predicate AllFinite(key: Key) {
    forall name :: name in key ==> !Refused(key[name])
  }

  /** Each field decodes as `key` has it, unless it is refused. */
  ghost predicate Mirrors(c: Codec, fields: map<string, Json>, key: Key) {
    fields.Keys == key.Keys
    && forall name :: name in key ==> DecodeValue(c, fields[name]) == if Refused(key[name]) then None else Some(key[name])
  }

  lemma FieldsMirror(c: Codec, key: Key)
    requires Faithful(c) && Keyable(key)
    ensures Mirrors(c, EncodedFields(c, key), key)
  {
    forall name | name in key
      ensures DecodeValue(c, EncodedFields(c, key)[name]) == if Refused(key[name]) then None else Some(key[name])
    {
      ValueRoundTrip(c, key[name]);
    }
  }

  lemma AttributesRoundTrip(c: Codec, fields: map<string, Json>, key: Key)
    requires Mirrors(c, fields, key)
    ensures DecodeAttributes(c, fields) == if TableKey(key) then StartKey(key) else Invalid
  {
    assert |fields| == |fields.Keys| == |key.Keys| == |key|;
    assert AllDecode(c, fields) <==> AllFinite(key);
    if TableKey(key) {
      assert (map name | name in fields :: DecodeValue(c, fields[name]).value) == key;
    }
  }

  /** The envelope passes exactly under the scope it was stamped with. */
  lemma EnvelopeHolds(c: Codec, k: map<string, Json>, minted: Option<string>, scope: Option<string>)
    ensures DecodePayload(c, Payload(Obj(k), minted), scope) == if scope == minted then DecodeAttributes(c, k) else Invalid
  {
    var fields := Payload(Obj(k), minted).fields;
    assert fields["v"] == Num(VERSION) && fields["k"] == Obj(k);
    assert fields.Keys - {"v", "k", "s"} == {};
    assert ("s" in fields) == minted.Some?;
    assert minted.Some? ==> fields["s"] == Str(minted.value);
    assert ScopeIs(fields, scope) <==> scope == minted;
  }

  lemma UnwrapToken(c: Codec, raw: Bytes)
    requires raw != []
    ensures Encode(UrlSafe, raw) != "" && Unwrap(c, Encode(UrlSafe, raw)) == Some(raw)
  {
    DecodeEncode(UrlSafe, raw);
    ReadWrite(UrlSafe, Sextets(raw));
  }

  lemma MintedDecodes(c: Codec, payload: Json, scope: Option<string>)
    requires Faithful(c)
    ensures var token := Encode(UrlSafe, c.dumps(payload));
      DecodeStartKey(c, Some(token), scope) == if |token| <= MAX_LENGTH then DecodePayload(c, payload, scope) else Invalid
  {
    UnwrapToken(c, c.dumps(payload));
  }

  /**
    The whole token: the key comes back exactly when it is a table's key, under its own scope, and
    its token is within the bound. Under any other scope the token is refused.
  */
  lemma RoundTripExactly(c: Codec, key: Key, minted: Option<string>, scope: Option<string>)
    requires Faithful(c) && Keyable(key) && key != map[]
    ensures EncodeStartKey(c, Some(key), minted).Token?
    ensures var token := EncodeStartKey(c, Some(key), minted).token;
      DecodeStartKey(c, Some(token), scope)
      == if |token| <= MAX_LENGTH && scope == minted && TableKey(key) then StartKey(key) else Invalid
  {
    MintedDecodes(c, KeyPayload(c, key, minted), scope);
    EnvelopeHolds(c, EncodedFields(c, key), minted, scope);
    FieldsMirror(c, key);
    AttributesRoundTrip(c, EncodedFields(c, key), key);
  }

  /** The end of a listing and its start are one: no key encodes as no token, and no token as no key. */
  lemma NothingRoundTrips(c: Codec, scope: Option<string>)
    ensures EncodeStartKey(c, None, scope) == EncodeStartKey(c, Some(map[]), scope) == FirstPage
    ensures DecodeStartKey(c, None, scope) == DecodeStartKey(c, Some(""), scope) == NoKey
  {}

  lemma DecodedAttributes(c: Codec, fields: map<string, Json>)
    requires DecodeAttributes(c, fields).StartKey?
    ensures TableKey(DecodeAttributes(c, fields).key) && Keyable(DecodeAttributes(c, fields).key)
  {
    var key := DecodeAttributes(c, fields).key;
    assert key.Keys == fields.Keys;
    assert |key| == |key.Keys| == |fields|;
  }

  /** Whatever is presented, what is accepted can be a table's key. */
  lemma AcceptsOnlyKeys(c: Codec, token: Option<string>, scope: Option<string>)
    requires DecodeStartKey(c, token, scope).StartKey?
    ensures TableKey(DecodeStartKey(c, token, scope).key) && Keyable(DecodeStartKey(c, token, scope).key)
  {
    var j := c.loads(Unwrap(c, token.value).value).value;
    DecodedAttributes(c, j.fields["k"].fields);
  }

  // ---------------------------------------------------------------- what is accepted

  /** One typed value: text, a finite number or base64, under its own tag and no other. */
  ghost predicate Carries(c: Codec, j: Json, v: Value) {
    match v
    case Text(s) => j == Obj(map["S" := Str(s)])
    case Number(d) => exists raw :: j == Obj(map["N" := Str(raw)]) && c.parse(raw) == Some(d) && d != NotFinite
    case Binary(b) => exists raw :: j == Obj(map["B" := Str(raw)]) && DecodePadded(Standard, raw) == Some(b)
    case Unkeyable => false
  }

  /** A payload of the version, this scope and one to four named attributes that carry this key, and of nothing else. */
  ghost predicate Holds(c: Codec, j: Json, scope: Option<string>, key: Key) {
    && j.Obj?
    && (forall name :: name in j.fields ==> name == "v" || name == "k" || name == "s")
    && "v" in j.fields && (j.fields["v"] == Num(1) || j.fields["v"] == Flag(true))
    && (scope.Some? ==> "s" in j.fields && j.fields["s"] == Str(scope.value))
    && (scope.None? && "s" in j.fields ==> j.fields["s"] == Null)
    && "k" in j.fields && j.fields["k"].Obj?
    && var attributes := j.fields["k"].fields;
       && 1 <= |attributes| <= 4 && "" !in attributes && attributes.Keys == key.Keys
       && forall name :: name in key ==> Carries(c, attributes[name], key[name])
  }

  lemma TypedIs(j: Json, tag: string, raw: string)
    ensures Typed(j) == Some((tag, raw)) <==> j == Obj(map[tag := Str(raw)])
  {
    TypedTagged(tag, raw);
    if Typed(j) == Some((tag, raw)) {
      OneTag(j.fields);
      assert j.fields == map[tag := Str(raw)];
    }
  }

  lemma ValueCarries(c: Codec, j: Json, v: Value)
    ensures DecodeValue(c, j) == Some(v) <==> Carries(c, j, v)
  {
    var t := Typed(j);
    if t.Some? { TypedIs(j, t.value.0, t.value.1); }
    match v
    case Text(s) => TypedIs(j, "S", s);
    case Number(d) =>
      if raw :| j == Obj(map["N" := Str(raw)]) { TypedIs(j, "N", raw); }
    case Binary(b) =>
      if raw :| j == Obj(map["B" := Str(raw)]) { TypedIs(j, "B", raw); }
    case Unkeyable =>
  }

  lemma AttributesCarry(c: Codec, fields: map<string, Json>, key: Key)
    ensures DecodeAttributes(c, fields) == StartKey(key) <==>
      && 1 <= |fields| <= 4 && "" !in fields && fields.Keys == key.Keys
      && forall name :: name in key ==> Carries(c, fields[name], key[name])
  {
    forall name | name in fields && name in key ensures DecodeValue(c, fields[name]) == Some(key[name]) <==> Carries(c, fields[name], key[name]) {
      ValueCarries(c, fields[name], key[name]);
    }
    if fields.Keys == key.Keys && forall name :: name in key ==> Carries(c, fields[name], key[name]) {
      forall name | name in fields ensures DecodeValue(c, fields[name]) == Some(key[name]) { assert name in key; }
      assert AllDecode(c, fields);
      assert (map name | name in fields :: DecodeValue(c, fields[name]).value) == key;
    }
  }

  lemma NoOthers(fields: map<string, Json>)
    ensures fields.Keys - {"v", "k", "s"} == {} <==> forall name :: name in fields ==> name == "v" || name == "k" || name == "s"
  {
    var others := fields.Keys - {"v", "k", "s"};
    if others == {} {
      forall name | name in fields ensures name == "v" || name == "k" || name == "s" { assert name !in others; }
    } else {
      var name :| name in others;
      assert name in fields;
    }
  }

  lemma PayloadHolds(c: Codec, j: Json, scope: Option<string>, key: Key)
    ensures DecodePayload(c, j, scope) == StartKey(key) <==> Holds(c, j, scope, key)
  {
    if j.Obj? {
      NoOthers(j.fields);
      if "k" in j.fields && j.fields["k"].Obj? { AttributesCarry(c, j.fields["k"].fields, key); }
    }
  }

  /** A token is taken for a key exactly when it is short enough and reads as a payload that holds that key, stamped with this scope. */
  lemma AcceptsExactly(c: Codec, token: string, scope: Option<string>, key: Key)
    requires token != ""
    ensures DecodeStartKey(c, Some(token), scope) == StartKey(key) <==>
      && |token| <= 4096
      && Unwrap(c, token).Some? && c.loads(Unwrap(c, token).value).Some?
      && Holds(c, c.loads(Unwrap(c, token).value).value, scope, key)
    ensures DecodeStartKey(c, Some(token), scope) != NoKey
  {
    if Unwrap(c, token).Some? && c.loads(Unwrap(c, token).value).Some? {
      PayloadHolds(c, c.loads(Unwrap(c, token).value).value, scope, key);
    }
  }
}
