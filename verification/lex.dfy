/** The code-point order of strings, which is both Python's and DynamoDB's order on ASCII keys. */
module Lex {

  predicate Less(a: string, b: string) {
    b != [] && (a == [] || a[0] < b[0] || (a[0] == b[0] && Less(a[1..], b[1..])))
  }

  predicate AtMost(a: string, b: string) {
    a == b || Less(a, b)
  }

  lemma {:induction false} Irreflexive(a: string)
    ensures !Less(a, a)
  {
    if a != [] { Irreflexive(a[1..]); }
  }

  lemma {:induction false} Transitive(a: string, b: string, c: string)
    requires Less(a, b) && Less(b, c)
    ensures Less(a, c)
  {
    if a != [] && a[0] == b[0] == c[0] { Transitive(a[1..], b[1..], c[1..]); }
  }

  lemma {:induction false} Total(a: string, b: string)
    ensures Less(a, b) || a == b || Less(b, a)
  {
    if a != [] && b != [] && a[0] == b[0] {
      Total(a[1..], b[1..]);
      if a[1..] == b[1..] { assert a == [a[0]] + a[1..] && b == [b[0]] + b[1..]; }
    }
  }

  lemma Asymmetric(a: string, b: string)
    requires Less(a, b)
    ensures !Less(b, a) && a != b
  {
    if Less(b, a) { Transitive(a, b, a); }
    Irreflexive(a);
  }

  /** Strings of one length compare by their common front first, then by what follows it. */
  lemma {:induction false} LessConcat(a: string, x: string, b: string, y: string)
    requires |a| == |b|
    ensures Less(a + x, b + y) <==> Less(a, b) || (a == b && Less(x, y))
  {
    if a == [] {
      assert a + x == x && b + y == y;
    } else {
      assert (a + x)[1..] == a[1..] + x && (b + y)[1..] == b[1..] + y;
      LessConcat(a[1..], x, b[1..], y);
      if a[0] == b[0] && a[1..] == b[1..] { assert a == [a[0]] + a[1..] && b == [b[0]] + b[1..]; }
    }
  }

  // ---------------------------------------------------------------- a finite rank

  predicate Ascii(s: string) {
    forall i :: 0 <= i < |s| ==> s[i] < 128 as char
  }

  /** `k` in the n-th base-129 place. */
  function Place(k: nat, n: nat): nat {
    if n == 0 then k else 129 * Place(k, n - 1)
  }

  lemma {:induction false} PlaceSum(a: nat, b: nat, n: nat)
    ensures Place(a + b, n) == Place(a, n) + Place(b, n)
    ensures Place(1, n) >= 1
  {
    if n > 0 { PlaceSum(a, b, n - 1); }
  }

  /** A number that grows with an ASCII string of at most `n` characters, so walks down end. */
  function Rank(s: string, n: nat): nat {
    if n == 0 || s == [] then 0 else Place(s[0] as nat + 1, n - 1) + Rank(s[1..], n - 1)
  }

  lemma {:induction false} RankBound(s: string, n: nat)
    requires Ascii(s)
    ensures Rank(s, n) < Place(1, n)
  {
    PlaceSum(0, 1, n);
    if n > 0 && s != [] {
      RankBound(s[1..], n - 1);
      PlaceSum(s[0] as nat + 1, 128 - (s[0] as nat + 1), n - 1);
      PlaceTimes(128, n - 1);
    }
  }

  lemma {:induction false} PlaceTimes(k: nat, n: nat)
    ensures Place(k, n) == k * Place(1, n)
  {
    if n > 0 { PlaceTimes(k, n - 1); }
  }

  lemma {:induction false} RankGrows(a: string, b: string, n: nat)
    requires Ascii(a) && Ascii(b) && |a| <= n && |b| <= n && Less(a, b)
    ensures Rank(a, n) < Rank(b, n)
  {
    if a == [] {
      PlaceSum(b[0] as nat, 1, n - 1);
    } else if a[0] == b[0] {
      RankGrows(a[1..], b[1..], n - 1);
    } else {
      RankBound(a[1..], n - 1);
      var x, y := a[0] as nat, b[0] as nat;
      PlaceSum(x + 1, 1, n - 1);
      PlaceSum(x + 2, y - x - 1, n - 1);
    }
  }
}
