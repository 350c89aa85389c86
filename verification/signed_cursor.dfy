/** The signed cursors of list responses: a payload, a dot and sixteen bytes of its keyed hash. */
module SignedCursors {
  import opened Options
  import opened Base64
  import opened Split

  const DOT: Byte := 0x2E
  const TAG: nat := 16

  /** The keyed hash, cut to sixteen bytes. */
  type Signer = h: (Bytes, Bytes) -> Bytes | (forall k, m :: |h(k, m)| == TAG)
    witness (k: Bytes, m: Bytes) => seq(TAG, i => 0)

  /** The JSON codec: what it writes for a state it reads back. A payload that is not an object reads as none. */
  datatype Json<!S> = Json(dumps: S -> Bytes, loads: Bytes -> Option<S>)

  ghost predicate Faithful<S(!new)>(json: Json<S>) {
    forall state: S :: json.loads(json.dumps(state)) == Some(state)
  }

  datatype Result<T> = Ok(value: T) | Invalid | NoKey

  /** `lenient` is what the library makes of text outside the alphabet. */
  function Unwrap(lenient: string -> Option<Bytes>, cursor: string): Option<Bytes> {
    match Read(UrlSafe, cursor)
    case Some(ds) => Unpack(ds)
    case None => lenient(cursor)
  }

  function EncodeCursor<S>(json: Json<S>, sign: Signer, state: S, key: Bytes): Result<string> {
    if key == [] then NoKey
    else var payload := json.dumps(state); Ok(Encode(UrlSafe, payload + [DOT] + sign(key, payload)))
  }

  function DecodeCursor<S>(json: Json<S>, sign: Signer, lenient: string -> Option<Bytes>, cursor: string, key: Bytes): Result<S> {
    match Unwrap(lenient, cursor)
    case None => Invalid
    case Some(raw) =>
      match RPartition(raw, DOT)
      case None => Invalid
      case Some((payload, signature)) =>
        if key == [] then NoKey
        else if signature != sign(key, payload) then Invalid
        else match json.loads(payload)
          case None => Invalid
          case Some(state) => Ok(state)
  }

  /** A cursor comes back as the state it was made from exactly when its signature holds no dot; otherwise it is refused. */
  lemma RoundTripExactly<S(!new)>(json: Json<S>, sign: Signer, lenient: string -> Option<Bytes>, state: S, key: Bytes)
    requires Faithful(json) && key != []
    ensures EncodeCursor(json, sign, state, key).Ok?
    ensures DecodeCursor(json, sign, lenient, EncodeCursor(json, sign, state, key).value, key)
         == if DOT in sign(key, json.dumps(state)) then Invalid else Ok(state)
  {
    var payload := json.dumps(state);
    var signature := sign(key, payload);
    var raw := payload + [DOT] + signature;
    DecodeEncode(UrlSafe, raw);
    if DOT !in signature {
      RPartitionJoin(payload, DOT, signature);
    } else {
      RPartitionParts(raw, DOT);
      LateSplit(payload, signature);
    }
  }

  /** With a dot in the signature the last split leaves too short a signature to be one. */
  lemma LateSplit(payload: Bytes, signature: Bytes)
    requires DOT in signature
    ensures var r := RPartition(payload + [DOT] + signature, DOT); r.Some? && |r.value.1| < |signature|
  {
    var raw := payload + [DOT] + signature;
    RPartitionParts(raw, DOT);
    var (front, back) := RPartition(raw, DOT).value;
    if |back| >= |signature| {
      var i :| 0 <= i < |signature| && signature[i] == DOT;
      Tails(raw, front + [DOT], back, payload + [DOT], signature, i);
    }
  }

  lemma Tails(raw: Bytes, a: Bytes, x: Bytes, b: Bytes, y: Bytes, i: nat)
    requires raw == a + x == b + y && |x| >= |y| && i < |y|
    ensures y[i] in x
  {
    var j := |x| - |y| + i;
    assert x[j] == raw[|a| + j] == raw[|b| + i] == y[i];
  }

  /** Whatever is presented, a state is read exactly when it stands before a dot and its own signature under a key, which holds no dot. */
  lemma ReadsOnlySigned<S(!new)>(json: Json<S>, sign: Signer, lenient: string -> Option<Bytes>, cursor: string, key: Bytes, state: S)
    ensures DecodeCursor(json, sign, lenient, cursor, key) == Ok(state) <==>
      key != [] && exists payload ::
        && Unwrap(lenient, cursor) == Some(payload + [DOT] + sign(key, payload)) && DOT !in sign(key, payload)
        && json.loads(payload) == Some(state)
  {
    if DecodeCursor(json, sign, lenient, cursor, key) == Ok(state) {
      var raw := Unwrap(lenient, cursor).value;
      RPartitionParts(raw, DOT);
      var payload := RPartition(raw, DOT).value.0;
      assert raw == payload + [DOT] + sign(key, payload);
    }
    if payload :| Unwrap(lenient, cursor) == Some(payload + [DOT] + sign(key, payload)) && DOT !in sign(key, payload)
                  && json.loads(payload) == Some(state)
    {
      RPartitionJoin(payload, DOT, sign(key, payload));
    }
  }

  /** Without a key nothing is signed and nothing is read. */
  lemma NeedsKey<S(!new)>(json: Json<S>, sign: Signer, lenient: string -> Option<Bytes>, state: S, cursor: string)
    ensures EncodeCursor(json, sign, state, []) == NoKey
    ensures !DecodeCursor(json, sign, lenient, cursor, []).Ok?
    ensures DecodeCursor(json, sign, lenient, cursor, []) == Invalid
      <==> Unwrap(lenient, cursor).None? || DOT !in Unwrap(lenient, cursor).value
  {
    if Unwrap(lenient, cursor).Some? { RPartitionParts(Unwrap(lenient, cursor).value, DOT); }
  }
}
