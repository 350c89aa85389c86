/** ULIDs: a 48-bit millisecond timestamp and 80 random bits as 26 Crockford base-32 characters. */
module Ulid {
  import opened Lex

  const ALPHABET: string := "0123456789ABCDEFGHJKMNPQRSTVWXYZ"
  const LENGTH: nat := 26
  const TIME_PREFIX: nat := 10
  const RANDOM_SPAN: nat := 0x1_0000_0000_0000_0000_0000
  const MAX_TIMESTAMP: nat := 0x1_0000_0000_0000

  /** `value >> 5n`. */
  function Shr(value: nat, n: nat): nat {
    if n == 0 then value else Shr(value / 32, n - 1)
  }

  function Symbol(d: nat): char
    requires d < 32
  {
    ALPHABET[d]
  }

  /** The rendering: character i is the i-th five-bit group from the top. */
  function Render(value: nat, n: nat): (s: string)
    ensures |s| == n
  {
    seq(n, i requires 0 <= i < n => Symbol(Shr(value, n - 1 - i) % 32))
  }

  function Mint(milliseconds: nat, random: nat): string {
    Render(milliseconds * RANDOM_SPAN + random, LENGTH)
  }

  predicate Mintable(milliseconds: nat, random: nat) {
    milliseconds < MAX_TIMESTAMP && random < RANDOM_SPAN
  }

  /** The time prefix of an id minted at this millisecond. */
  function TimeFloor(milliseconds: nat): string {
    Mint(milliseconds, 0)[..TIME_PREFIX]
  }

  // ---------------------------------------------------------------- digits

  lemma {:induction false} ShrSum(value: nat, a: nat, b: nat)
    ensures Shr(value, a + b) == Shr(Shr(value, a), b)
  {
    if a > 0 { ShrSum(value / 32, a - 1, b); }
  }

  lemma ShrFour(value: nat)
    ensures Shr(value, 4) == value / 0x10_0000
  {
    var a := value / 32;
    var b := a / 32;
    var c := b / 32;
    assert Shr(value, 4) == Shr(a, 3) && Shr(a, 3) == Shr(b, 2) && Shr(b, 2) == Shr(c, 1) && Shr(c, 1) == c / 32;
  }

  /** Sixteen characters carry exactly the 80 random bits. */
  lemma ShrRandom(milliseconds: nat, random: nat)
    requires random < RANDOM_SPAN
    ensures Shr(milliseconds * RANDOM_SPAN + random, 16) == milliseconds
  {
    var v := milliseconds * RANDOM_SPAN + random;
    ShrSum(v, 4, 12);
    ShrFour(v);
    var v1 := v / 0x10_0000;
    ShrSum(v1, 4, 8);
    ShrFour(v1);
    var v2 := v1 / 0x10_0000;
    ShrSum(v2, 4, 4);
    ShrFour(v2);
    ShrFour(v2 / 0x10_0000);
  }

  lemma ShrTime(milliseconds: nat)
    requires milliseconds < MAX_TIMESTAMP
    ensures Shr(milliseconds, 9) <= 7 && Shr(milliseconds, 10) == 0
  {
    ShrSum(milliseconds, 4, 5);
    ShrFour(milliseconds);
    var v := milliseconds / 0x10_0000;
    ShrSum(v, 4, 1);
    ShrFour(v);
    ShrSum(milliseconds, 9, 1);
  }

  /** The last character is the lowest five bits and the rest render the bits above them. */
  lemma RenderStep(value: nat, n: nat)
    requires n >= 1
    ensures Render(value, n) == Render(value / 32, n - 1) + [Symbol(value % 32)]
  {
    var a, b := Render(value, n), Render(value / 32, n - 1) + [Symbol(value % 32)];
    forall i | 0 <= i < n ensures a[i] == b[i] {
      if i < n - 1 { assert Shr(value, n - 1 - i) == Shr(value / 32, n - 2 - i); }
    }
  }

  lemma SymbolsAscend(a: nat, b: nat)
    requires a < 32 && b < 32
    ensures a < b <==> Symbol(a) < Symbol(b)
  {
    if a < b { Climb(a, b); }
    if b < a { Climb(b, a); }
  }

  lemma {:induction false} Climb(i: nat, j: nat)
    requires i < j < 32
    ensures ALPHABET[i] < ALPHABET[j]
  {
    if i + 1 < j { Climb(i, j - 1); }
    Neighbours(j - 1);
  }

  lemma Neighbours(k: nat)
    requires k < 31
    ensures ALPHABET[k] < ALPHABET[k + 1]
  {}

  /** String order is numeric order, and renderings are distinct. */
  lemma {:induction false} RenderOrder(v: nat, w: nat, n: nat)
    requires Shr(v, n) == 0 && Shr(w, n) == 0
    ensures Less(Render(v, n), Render(w, n)) <==> v < w
    ensures Render(v, n) == Render(w, n) <==> v == w
  {
    if n > 0 {
      RenderStep(v, n);
      RenderStep(w, n);
      RenderOrder(v / 32, w / 32, n - 1);
      LessConcat(Render(v / 32, n - 1), [Symbol(v % 32)], Render(w / 32, n - 1), [Symbol(w % 32)]);
      SymbolsAscend(v % 32, w % 32);
      SymbolsAscend(w % 32, v % 32);
      var a, b := Render(v, n), Render(w, n);
      if a == b {
        assert a[..n - 1] == Render(v / 32, n - 1) && b[..n - 1] == Render(w / 32, n - 1);
        assert a[n - 1] == b[n - 1];
      }
    }
  }

  /** Dropping the lowest `k` characters drops the lowest `5k` bits. */
  lemma {:induction false} RenderPrefix(value: nat, n: nat, k: nat)
    requires k <= n
    ensures Render(value, n)[..n - k] == Render(Shr(value, k), n - k)
  {
    if k == 0 {
      assert Render(value, n)[..n] == Render(value, n);
    } else {
      RenderStep(value, n);
      RenderPrefix(value / 32, n - 1, k - 1);
      assert Render(value, n)[..n - k] == Render(value / 32, n - 1)[..n - k];
    }
  }

  lemma PrefixRenders(milliseconds: nat, random: nat)
    requires Mintable(milliseconds, random)
    ensures Mint(milliseconds, random)[..TIME_PREFIX] == Render(milliseconds, TIME_PREFIX)
  {
    RenderPrefix(milliseconds * RANDOM_SPAN + random, LENGTH, 16);
    ShrRandom(milliseconds, random);
  }

  /** The first character is the bits above all the others. */
  lemma RenderLead(value: nat, n: nat)
    requires n >= 1
    ensures Render(value, n)[0] == Symbol(Shr(value, n - 1) % 32)
  {}

  lemma LeadSmall(milliseconds: nat)
    requires milliseconds < MAX_TIMESTAMP
    ensures Render(milliseconds, TIME_PREFIX)[0] <= '7'
  {
    ShrTime(milliseconds);
    RenderLead(milliseconds, TIME_PREFIX);
    LeadAtMostSeven(Shr(milliseconds, 9));
  }

  /** The first ten characters are the timestamp alone, and the first of them is at most 7. */
  lemma TimePrefix(milliseconds: nat, random: nat)
    requires Mintable(milliseconds, random)
    ensures Mint(milliseconds, random)[..TIME_PREFIX] == Render(milliseconds, TIME_PREFIX)
    ensures TimeFloor(milliseconds) == Render(milliseconds, TIME_PREFIX)
    ensures Mint(milliseconds, random)[0] <= '7'
  {
    var id := Mint(milliseconds, random);
    assert id[0] == id[..TIME_PREFIX][0];
    PrefixRenders(milliseconds, random);
    PrefixRenders(milliseconds, 0);
    LeadSmall(milliseconds);
  }

  lemma LeadAtMostSeven(d: nat)
    requires d <= 7
    ensures Symbol(d) <= '7'
  {}

  lemma NumberOrder(m1: nat, r1: nat, m2: nat, r2: nat)
    requires Mintable(m1, r1) && Mintable(m2, r2)
    ensures Less(Mint(m1, r1), Mint(m2, r2)) <==> m1 * RANDOM_SPAN + r1 < m2 * RANDOM_SPAN + r2
    ensures Mint(m1, r1) == Mint(m2, r2) <==> m1 * RANDOM_SPAN + r1 == m2 * RANDOM_SPAN + r2
  {
    MintFits(m1, r1);
    MintFits(m2, r2);
    RenderOrder(m1 * RANDOM_SPAN + r1, m2 * RANDOM_SPAN + r2, LENGTH);
  }

  /** Two minted ids compare as their milliseconds do, and by their random bits within one. */
  lemma MintOrder(m1: nat, r1: nat, m2: nat, r2: nat)
    requires Mintable(m1, r1) && Mintable(m2, r2)
    ensures Less(Mint(m1, r1), Mint(m2, r2)) <==> m1 < m2 || (m1 == m2 && r1 < r2)
    ensures Mint(m1, r1) == Mint(m2, r2) <==> m1 == m2 && r1 == r2
  {
    NumberOrder(m1, r1, m2, r2);
    PairOrder(m1, r1, m2, r2);
  }

  lemma PairOrder(m1: nat, r1: nat, m2: nat, r2: nat)
    requires r1 < RANDOM_SPAN && r2 < RANDOM_SPAN
    ensures m1 * RANDOM_SPAN + r1 < m2 * RANDOM_SPAN + r2 <==> m1 < m2 || (m1 == m2 && r1 < r2)
    ensures m1 * RANDOM_SPAN + r1 == m2 * RANDOM_SPAN + r2 <==> m1 == m2 && r1 == r2
  {}

  lemma MintFits(milliseconds: nat, random: nat)
    requires Mintable(milliseconds, random)
    ensures Shr(milliseconds * RANDOM_SPAN + random, LENGTH) == 0
  {
    ShrRandom(milliseconds, random);
    ShrTime(milliseconds);
    ShrSum(milliseconds * RANDOM_SPAN + random, 16, 10);
  }

  /** A time range of ids is a range of strings: the floor of a moment splits the ids at it. */
  lemma FloorSplits(moment: nat, milliseconds: nat, random: nat)
    requires moment < MAX_TIMESTAMP && Mintable(milliseconds, random)
    ensures AtMost(TimeFloor(moment), Mint(milliseconds, random)) <==> moment <= milliseconds
    ensures Less(Mint(milliseconds, random), TimeFloor(moment)) <==> milliseconds < moment
  {
    TimePrefix(milliseconds, random);
    TimePrefix(moment, 0);
    ShrTime(moment);
    ShrTime(milliseconds);
    var id := Mint(milliseconds, random);
    var low := TimeFloor(moment);
    var head, tail := id[..TIME_PREFIX], id[TIME_PREFIX..];
    assert id == head + tail && low == low + [] && head + [] == head;
    RenderOrder(moment, milliseconds, TIME_PREFIX);
    RenderOrder(milliseconds, moment, TIME_PREFIX);
    LessConcat(low, [], head, tail);
    LessConcat(head, tail, low, []);
  }

  /**
    Half-open range membership as the listing bounds it, and the inclusive range the table offers
    in its place, which agrees because a ten-character bound is never an id.
  */
  lemma RangeSelects(since: nat, until: nat, milliseconds: nat, random: nat)
    requires since < MAX_TIMESTAMP && until < MAX_TIMESTAMP && Mintable(milliseconds, random)
    ensures var id := Mint(milliseconds, random);
      && (AtMost(TimeFloor(since), id) && Less(id, TimeFloor(until)) <==> since <= milliseconds < until)
      && (AtMost(TimeFloor(since), id) && AtMost(id, TimeFloor(until)) <==> since <= milliseconds < until)
  {
    FloorSplits(since, milliseconds, random);
    FloorSplits(until, milliseconds, random);
    assert |Mint(milliseconds, random)| == 26 && |TimeFloor(until)| == 10;
  }
}
