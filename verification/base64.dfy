/** Base64 as section 4 (padded) and section 5 (URL alphabet, padding stripped) of RFC 4648 write it. */
module Base64 {
  import opened Options

  type Byte = b: int | 0 <= b < 256
  type Bytes = seq<Byte>
  type Sextet = d: int | 0 <= d < 64

  datatype Alphabet = Standard | UrlSafe

  function Symbol(a: Alphabet, d: Sextet): char {
    if d < 26 then 'A' + d as char
    else if d < 52 then 'a' + (d - 26) as char
    else if d < 62 then '0' + (d - 52) as char
    else if d == 62 then (if a.UrlSafe? then '-' else '+')
    else if a.UrlSafe? then '_' else '/'
  }

  function Value(a: Alphabet, c: char): Option<Sextet> {
    if 'A' <= c <= 'Z' then Some((c - 'A') as int)
    else if 'a' <= c <= 'z' then Some((c - 'a') as int + 26)
    else if '0' <= c <= '9' then Some((c - '0') as int + 52)
    else if c == (if a.UrlSafe? then '-' else '+') then Some(62)
    else if c == (if a.UrlSafe? then '_' else '/') then Some(63)
    else None
  }

  lemma ValueOfSymbol(a: Alphabet, d: Sextet)
    ensures Value(a, Symbol(a, d)) == Some(d) && Symbol(a, d) != '='
  {}

  /** Three bytes as four sextets, and one or two left over as two or three. */
  function Sextets(bytes: Bytes): seq<Sextet> {
    if bytes == [] then []
    else if |bytes| == 1 then [bytes[0] / 4, bytes[0] % 4 * 16]
    else if |bytes| == 2 then [bytes[0] / 4, bytes[0] % 4 * 16 + bytes[1] / 16, bytes[1] % 16 * 4]
    else [bytes[0] / 4, bytes[0] % 4 * 16 + bytes[1] / 16, bytes[1] % 16 * 4 + bytes[2] / 64, bytes[2] % 64] + Sextets(bytes[3..])
  }

  function First(d: Sextet, e: Sextet): Byte { d * 4 + e / 16 }

  function Second(d: Sextet, e: Sextet): Byte { d % 16 * 16 + e / 4 }

  function Third(d: Sextet, e: Sextet): Byte { d % 4 * 64 + e }

  /** `None` for the one count of sextets no bytes have. */
  function Unpack(ds: seq<Sextet>): Option<Bytes> {
    if ds == [] then Some([])
    else if |ds| == 1 then None
    else if |ds| == 2 then Some([First(ds[0], ds[1])])
    else if |ds| == 3 then Some([First(ds[0], ds[1]), Second(ds[1], ds[2])])
    else match Unpack(ds[4..])
      case None => None
      case Some(rest) => Some([First(ds[0], ds[1]), Second(ds[1], ds[2]), Third(ds[2], ds[3])] + rest)
  }

  lemma {:induction false} UnpackSextets(bytes: Bytes)
    ensures Unpack(Sextets(bytes)) == Some(bytes)
  {
    if |bytes| == 1 {
      assert bytes == [bytes[0]];
    } else if |bytes| == 2 {
      assert bytes == [bytes[0], bytes[1]];
    } else if |bytes| >= 3 {
      UnpackSextets(bytes[3..]);
      var ds := Sextets(bytes);
      assert ds[4..] == Sextets(bytes[3..]);
      assert First(ds[0], ds[1]) == bytes[0];
      assert Second(ds[1], ds[2]) == bytes[1];
      assert Third(ds[2], ds[3]) == bytes[2];
      assert bytes == [bytes[0], bytes[1], bytes[2]] + bytes[3..];
    }
  }

  function Write(a: Alphabet, ds: seq<Sextet>): string {
    if ds == [] then "" else [Symbol(a, ds[0])] + Write(a, ds[1..])
  }

  function Read(a: Alphabet, s: string): Option<seq<Sextet>> {
    if s == "" then Some([])
    else match Value(a, s[0])
      case None => None
      case Some(d) => match Read(a, s[1..])
        case None => None
        case Some(rest) => Some([d] + rest)
  }

  lemma {:induction false} ReadsBack(a: Alphabet, ds: seq<Sextet>)
    ensures Read(a, Write(a, ds)) == Some(ds)
  {
    if ds != [] {
      var text, rest := Write(a, ds), Write(a, ds[1..]);
      assert text == [Symbol(a, ds[0])] + rest;
      assert text[0] == Symbol(a, ds[0]) && text[1..] == rest;
      ReadsBack(a, ds[1..]);
      ValueOfSymbol(a, ds[0]);
      assert ds == [ds[0]] + ds[1..];
    }
  }

  lemma {:induction false} WriteUnpadded(a: Alphabet, ds: seq<Sextet>)
    ensures '=' !in Write(a, ds) && |Write(a, ds)| == |ds|
  {
    if ds != [] {
      WriteUnpadded(a, ds[1..]);
      ValueOfSymbol(a, ds[0]);
    }
  }

  lemma ReadWrite(a: Alphabet, ds: seq<Sextet>)
    ensures Read(a, Write(a, ds)) == Some(ds) && '=' !in Write(a, ds) && |Write(a, ds)| == |ds|
  {
    ReadsBack(a, ds);
    WriteUnpadded(a, ds);
  }

  /** Without padding. */
  function Encode(a: Alphabet, bytes: Bytes): string {
    Write(a, Sextets(bytes))
  }

  /** The bytes of an unpadded text that keeps to the alphabet. */
  function Decode(a: Alphabet, s: string): Option<Bytes> {
    match Read(a, s)
    case None => None
    case Some(ds) => Unpack(ds)
  }

  lemma DecodeEncode(a: Alphabet, bytes: Bytes)
    ensures Decode(a, Encode(a, bytes)) == Some(bytes)
  {
    ReadWrite(a, Sextets(bytes));
    UnpackSextets(bytes);
  }

  lemma EncodeLength(a: Alphabet, bytes: Bytes)
    ensures |Encode(a, bytes)| == (4 * |bytes| + 2) / 3
  {
    ReadWrite(a, Sextets(bytes));
    SextetCount(bytes);
  }

  function Padding(n: nat): string {
    if n % 4 == 2 then "==" else if n % 4 == 3 then "=" else ""
  }

  function EncodePadded(a: Alphabet, bytes: Bytes): string {
    Encode(a, bytes) + Padding(|Encode(a, bytes)|)
  }

  function StripPadding(s: string): string {
    if |s| >= 2 && s[|s| - 2..] == "==" then s[..|s| - 2]
    else if |s| >= 1 && s[|s| - 1] == '=' then s[..|s| - 1]
    else s
  }

  /** A padded text whose length is a whole number of quartets. */
  function DecodePadded(a: Alphabet, s: string): Option<Bytes> {
    if |s| % 4 != 0 || s != StripPadding(s) + Padding(|StripPadding(s)|) then None else Decode(a, StripPadding(s))
  }

  lemma {:induction false} SextetCount(bytes: Bytes)
    ensures |Sextets(bytes)| % 4 != 1 && |Sextets(bytes)| == (4 * |bytes| + 2) / 3
  {
    if |bytes| >= 3 { SextetCount(bytes[3..]); }
  }

  lemma NothingToStrip(plain: string)
    requires '=' !in plain
    ensures StripPadding(plain) == plain
  {
    if |plain| >= 1 { assert plain[|plain| - 1] in plain; }
    if |plain| >= 2 { assert plain[|plain| - 2..][1] == plain[|plain| - 1]; }
  }

  lemma StripOne(plain: string)
    requires '=' !in plain && plain != ""
    ensures StripPadding(plain + "=") == plain
  {
    var s := plain + "=";
    assert s[..|s| - 1] == plain;
    assert s[|s| - 2..][0] == plain[|plain| - 1];
    assert plain[|plain| - 1] in plain;
  }

  lemma StripTwo(plain: string)
    ensures StripPadding(plain + "==") == plain
  {
    var s := plain + "==";
    assert s[|s| - 2..] == "==" && s[..|s| - 2] == plain;
  }

  lemma StripPad(plain: string)
    requires '=' !in plain && |plain| % 4 != 1
    ensures StripPadding(plain + Padding(|plain|)) == plain && |plain + Padding(|plain|)| % 4 == 0
  {
    if |plain| % 4 == 0 {
      assert plain + "" == plain;
      NothingToStrip(plain);
    } else if |plain| % 4 == 3 {
      StripOne(plain);
    } else {
      StripTwo(plain);
    }
  }

  lemma DecodePaddedEncode(a: Alphabet, bytes: Bytes)
    ensures DecodePadded(a, EncodePadded(a, bytes)) == Some(bytes)
  {
    var plain := Encode(a, bytes);
    var s := EncodePadded(a, bytes);
    ReadWrite(a, Sextets(bytes));
    SextetCount(bytes);
    StripPad(plain);
    DecodeEncode(a, bytes);
  }
}
