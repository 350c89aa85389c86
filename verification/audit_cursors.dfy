/**
  The cursor of an audit listing: a start key's token. Either store mints one for the last row of a
  page without a look at its length, and takes one up only within the decoder's bound.
*/
module AuditCursors {
  import opened Options
  import opened Base64
  import opened AuditEvents
  import opened Ulid
  import K = StartKeys

  // ---------------------------------------------------------------- minting and reading

  /** The last row of a page, as a table read names it: an index read names its own key too. */
  datatype PageKey = PageKey(tenant: string, eventId: string, targetKey: Option<string>)

  function KeyOf(k: PageKey): K.Key {
    var base := map["tenant_id" := K.Text(k.tenant), "event_id" := K.Text(k.eventId)];
    if k.targetKey.Some? then base["target_key" := K.Text(k.targetKey.value)] else base
  }

  function CursorScope(tenant: string, q: Query): string {
    var t := Narrowed(q);
    if t.Some? then "audit:" + tenant + ":target:" + t.value.kind + "#" + t.value.id else "audit:" + tenant
  }

  function Mint(c: K.Codec, k: PageKey, scope: string): string {
    match K.EncodeStartKey(c, Some(KeyOf(k)), Some(scope))
    case Token(token) => token
    case _ => ""
  }

  /** What a listing reads of a decoded key; an attribute that is absent or no text reads as `None`. */
  datatype Position = Position(tenant: Option<string>, eventId: Option<string>)

  /** Where a listing starts: at the top, below a position its cursor's key names, or nowhere, the cursor being no good. */
  datatype Start = Top | Below(at: Position, key: K.Key) | Unreadable

  function TextAt(key: K.Key, name: string): Option<string> {
    if name in key && key[name].Text? then Some(key[name].text) else None
  }

  /** No cursor and the empty one are the top of the listing. */
  function ReadCursor(c: K.Codec, cursor: Option<string>, scope: string): Start {
    match K.DecodeStartKey(c, cursor, Some(scope))
    case NoKey => Top
    case StartKey(key) => Below(Position(TextAt(key, "tenant_id"), TextAt(key, "event_id")), key)
    case Invalid => Unreadable
  }

  function At(k: PageKey): Start {
    Below(Position(Some(k.tenant), Some(k.eventId)), KeyOf(k))
  }

  lemma KeyShape(k: PageKey)
    ensures var key := KeyOf(k);
      && key != map[] && K.Keyable(key) && K.TableKey(key)
      && TextAt(key, "tenant_id") == Some(k.tenant) && TextAt(key, "event_id") == Some(k.eventId)
  {
    var key := KeyOf(k);
    assert key["tenant_id"] == K.Text(k.tenant) && key["event_id"] == K.Text(k.eventId);
    var names := {"tenant_id", "event_id"};
    assert key.Keys == if k.targetKey.Some? then names + {"target_key"} else names;
    assert |key| == |key.Keys| <= 3;
  }

  lemma MintIsToken(c: K.Codec, k: PageKey, scope: string)
    ensures K.EncodeStartKey(c, Some(KeyOf(k)), Some(scope)) == K.Token(Mint(c, k, scope))
  {
    KeyShape(k);
  }

  /** A minted cursor names its row again exactly when it is within the decoder's bound, and is refused otherwise. */
  lemma MintReads(c: K.Codec, k: PageKey, scope: string)
    requires K.Faithful(c)
    ensures ReadCursor(c, Some(Mint(c, k, scope)), scope)
         == if |Mint(c, k, scope)| <= K.MAX_LENGTH then At(k) else Unreadable
  {
    var token := Mint(c, k, scope);
    assert K.DecodeStartKey(c, Some(token), Some(scope)) == if |token| <= K.MAX_LENGTH then K.StartKey(KeyOf(k)) else K.Invalid by {
      KeyShape(k);
      MintIsToken(c, k, scope);
      K.RoundTripExactly(c, KeyOf(k), Some(scope), Some(scope));
    }
    KeyShape(k);
  }

  // ---------------------------------------------------------------- how long a cursor is

  /** A character as JSON writes it in ASCII: plain, after a backslash, or as one or two `\u` escapes. */
  function Written(ch: char): nat {
    if ch == '"' || ch == '\\' || ch == '\n' || ch == '\r' || ch == '\t' || ch == 8 as char || ch == 12 as char then 2
    else if ' ' <= ch <= '~' then 1
    else if ch < 0x1_0000 as char then 6 else 12
  }

  function Escaped(s: string): nat {
    if s == "" then 0 else Escaped(s[..|s| - 1]) + Written(s[|s| - 1])
  }

  /** `"name":{"S":"text"}` */
  function Attribute(name: string, text: nat): nat {
    |name| + 11 + text
  }

  /** `{"k":{...},"s":"...","v":1}`, given what each text takes. */
  function Compact(eventId: nat, tenant: nat, targetKey: Option<nat>, scope: nat): nat {
    var target := if targetKey.Some? then 1 + Attribute("target_key", targetKey.value) else 0;
    6 + Attribute("event_id", eventId) + target + 1 + Attribute("tenant_id", tenant) + 8 + scope + 7
  }

  function Bytes(k: PageKey, scope: string): nat {
    Compact(Escaped(k.eventId), Escaped(k.tenant),
            if k.targetKey.Some? then Some(Escaped(k.targetKey.value)) else None, Escaped(scope))
  }

  /** The codec writes compact ASCII JSON, byte for byte as long as the format makes it. */
  ghost predicate Measured(c: K.Codec) {
    forall k: PageKey, scope: string :: |c.dumps(K.KeyPayload(c, KeyOf(k), Some(scope)))| == Bytes(k, scope)
  }

  /** Four characters carry three bytes, so the bound of 4096 characters is one of 3072 bytes. */
  const MAX_BYTES: nat := 3072

  lemma WithinBound(c: K.Codec, k: PageKey, scope: string)
    requires Measured(c)
    ensures |Mint(c, k, scope)| <= K.MAX_LENGTH <==> Bytes(k, scope) <= MAX_BYTES
  {
    assert KeyOf(k) != map[] by { assert "tenant_id" in KeyOf(k); }
    EncodeLength(UrlSafe, c.dumps(K.KeyPayload(c, KeyOf(k), Some(scope))));
  }

  lemma {:induction false} EscapedConcat(a: string, b: string)
    ensures Escaped(a + b) == Escaped(a) + Escaped(b)
  {
    if b == "" {
      assert a + b == a;
    } else {
      assert (a + b)[..|a + b| - 1] == a + b[..|b| - 1];
      EscapedConcat(a, b[..|b| - 1]);
    }
  }

  lemma {:induction false} EscapedBounds(s: string)
    ensures |s| <= Escaped(s) <= 12 * |s|
  {
    if s != "" { EscapedBounds(s[..|s| - 1]); }
  }

  predicate Plain(s: string) {
    forall i :: 0 <= i < |s| ==> Written(s[i]) == 1
  }

  lemma {:induction false} EscapedPlain(s: string)
    requires Plain(s)
    ensures Escaped(s) == |s|
  {
    if s != "" { EscapedPlain(s[..|s| - 1]); }
  }

  lemma AlphabetPlain(ch: char)
    requires ch in ALPHABET
    ensures Written(ch) == 1
  {
    var j :| 0 <= j < |ALPHABET| && ALPHABET[j] == ch;
    if j > 0 { Climb(0, j); }
    if j < 31 { Climb(j, 31); }
    assert '0' <= ch <= 'Z';
    NoQuote(j);
  }

  lemma NoQuote(j: nat)
    requires j < 32
    ensures ALPHABET[j] != '\\'
  {}

  /** An id takes its 26 characters, and a trailing newline two more. */
  lemma EscapedId(id: string)
    requires IsUlid(id)
    ensures Escaped(id) == LENGTH + if |id| == LENGTH then 0 else 2
  {
    var front := id[..LENGTH];
    forall i | 0 <= i < |front| ensures Written(front[i]) == 1 { AlphabetPlain(front[i]); }
    EscapedPlain(front);
    if |id| == LENGTH {
      assert front == id;
    } else {
      assert id[..|id| - 1] == front;
    }
  }

  // ---------------------------------------------------------------- the cursors of one listing

  /** The key a listing's page ends at. */
  function PageEnd(indexed: bool, q: Query, e: Event): PageKey {
    PageKey(e.tenant, e.id, if indexed && Narrowed(q).Some? then Some(TargetKey(e.tenant, e.target)) else None)
  }

  /** The key is one this read could have ended at: its own attributes and no others, of its own partition. */
  predicate OwnKey(indexed: bool, tenant: string, q: Query, start: Start) {
    start.Below? && start.at.eventId.Some? &&
    var t := Narrowed(q);
    start.key == KeyOf(PageKey(tenant, start.at.eventId.value, if indexed && t.Some? then Some(TargetKey(tenant, t.value)) else None))
  }

  function NextCursor(c: K.Codec, indexed: bool, tenant: string, q: Query, last: Option<Event>): Option<string> {
    if last.None? then None else Some(Mint(c, PageEnd(indexed, q, last.value), CursorScope(tenant, q)))
  }

  /** The listing would refuse the cursor it hands out at this row. */
  predicate TooLong(c: K.Codec, indexed: bool, tenant: string, q: Query, e: Event) {
    |Mint(c, PageEnd(indexed, q, e), CursorScope(tenant, q))| > K.MAX_LENGTH
  }

  /** What the scope takes, and what the target key takes when the index is read. */
  function ScopeSize(tenant: nat, kind: nat, id: nat, narrowed: bool): nat {
    6 + tenant + if narrowed then 9 + kind + id else 0
  }

  /**
    What any cursor of this listing takes at most, or exactly for ids of 26 characters: it depends
    on the tenant and on the target alone.
  */
  function CursorBytes(indexed: bool, tenant: string, q: Query, id: nat): nat {
    var t := Narrowed(q);
    var (kind, name) := if t.Some? then (Escaped(t.value.kind), Escaped(t.value.id)) else (0, 0);
    Compact(id, Escaped(tenant), if indexed && t.Some? then Some(Escaped(tenant) + 2 + kind + name) else None,
            ScopeSize(Escaped(tenant), kind, name, t.Some?))
  }

  /** Checked before the call: no cursor of this listing can pass the bound. */
  predicate CursorsFit(indexed: bool, tenant: string, q: Query) {
    CursorBytes(indexed, tenant, q, LENGTH + 2) <= MAX_BYTES
  }

  /** The row is one this listing may end a page at. */
  predicate MayEnd(indexed: bool, tenant: string, q: Query, e: Event) {
    && e.tenant == tenant && IsUlid(e.id)
    && (indexed && Narrowed(q).Some? ==> TargetKey(e.tenant, e.target) == TargetKey(tenant, Narrowed(q).value))
  }

  lemma EndIsOwn(indexed: bool, tenant: string, q: Query, e: Event)
    requires MayEnd(indexed, tenant, q, e)
    ensures OwnKey(indexed, tenant, q, At(PageEnd(indexed, q, e)))
  {}

  lemma ScopeTakes(tenant: string, q: Query)
    ensures var t := Narrowed(q);
      Escaped(CursorScope(tenant, q))
      == ScopeSize(Escaped(tenant), if t.Some? then Escaped(t.value.kind) else 0, if t.Some? then Escaped(t.value.id) else 0, t.Some?)
  {
    var t := Narrowed(q);
    EscapedPlain("audit:");
    EscapedConcat("audit:", tenant);
    if t.Some? {
      EscapedPlain(":target:");
      EscapedPlain("#");
      EscapedConcat("audit:" + tenant, ":target:");
      EscapedConcat("audit:" + tenant + ":target:", t.value.kind);
      EscapedConcat("audit:" + tenant + ":target:" + t.value.kind, "#");
      EscapedConcat("audit:" + tenant + ":target:" + t.value.kind + "#", t.value.id);
    }
  }

  lemma TargetKeyTakes(tenant: string, t: Target)
    ensures Escaped(TargetKey(tenant, t)) == Escaped(tenant) + 2 + Escaped(t.kind) + Escaped(t.id)
  {
    EscapedPlain("#");
    EscapedConcat(tenant, "#");
    EscapedConcat(tenant + "#", t.kind);
    EscapedConcat(tenant + "#" + t.kind, "#");
    EscapedConcat(tenant + "#" + t.kind + "#", t.id);
  }

  /** A page's cursor is too long exactly when the tenant, the target and its id's newline make it so. */
  lemma TooLongExactly(c: K.Codec, indexed: bool, tenant: string, q: Query, e: Event)
    requires Measured(c) && MayEnd(indexed, tenant, q, e)
    ensures TooLong(c, indexed, tenant, q, e)
       <==> CursorBytes(indexed, tenant, q, LENGTH + if |e.id| == LENGTH then 0 else 2) > MAX_BYTES
  {
    WithinBound(c, PageEnd(indexed, q, e), CursorScope(tenant, q));
    EscapedId(e.id);
    ScopeTakes(tenant, q);
    if Narrowed(q).Some? { TargetKeyTakes(tenant, Narrowed(q).value); }
  }

  lemma FittingNeverTooLong(c: K.Codec, indexed: bool, tenant: string, q: Query, e: Event)
    requires Measured(c) && MayEnd(indexed, tenant, q, e) && CursorsFit(indexed, tenant, q)
    ensures !TooLong(c, indexed, tenant, q, e)
  {
    TooLongExactly(c, indexed, tenant, q, e);
  }

  /** A condition on lengths alone, whatever the characters. */
  lemma ShortNamesFit(indexed: bool, tenant: string, q: Query)
    requires var t := Narrowed(q);
      36 * |tenant| + (if t.Some? then 24 * (|t.value.kind| + |t.value.id|) else 0) <= 2900
    ensures CursorsFit(indexed, tenant, q)
  {
    EscapedBounds(tenant);
    var t := Narrowed(q);
    if t.Some? {
      EscapedBounds(t.value.kind);
      EscapedBounds(t.value.id);
    }
  }

  /** Without a target the threshold is the tenant's own: 1489 bytes of it still fit, and 1490 no longer do. */
  lemma PlainThreshold(c: K.Codec, indexed: bool, tenant: string, q: Query, e: Event)
    requires Measured(c) && MayEnd(indexed, tenant, q, e) && Narrowed(q).None? && |e.id| == LENGTH
    ensures TooLong(c, indexed, tenant, q, e) <==> Escaped(tenant) >= 1490
  {
    TooLongExactly(c, indexed, tenant, q, e);
  }
}
