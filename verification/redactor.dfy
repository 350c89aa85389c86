/** Masking registered secrets in text, longest first. */
module Redactors {
  import opened Options

  const MIN_LENGTH: nat := 4
  const WORD: string := "redacted"
  const MASK: string := "[" + WORD + "]"

  // ---------------------------------------------------------------- replacing

  predicate Contains(text: string, s: string) {
    s <= text || (text != "" && Contains(text[1..], s))
  }

  /** Every occurrence masked, leftmost first, never two that overlap. */
  function Replace(text: string, secret: string): string {
    if |secret| == 0 || |text| < |secret| then text
    else if secret <= text then MASK + Replace(text[|secret|..], secret)
    else [text[0]] + Replace(text[1..], secret)
  }

  function Scrubbed(secrets: seq<string>, text: string): string {
    if secrets == [] then text else Replace(Scrubbed(secrets[..|secrets| - 1], text), secrets[|secrets| - 1])
  }

  /** A secret the mask cannot itself bring back: no square bracket, and not inside the word "redacted". */
  predicate Maskable(s: string) {
    s != "" && '[' !in s && ']' !in s && !Contains(WORD, s)
  }

  lemma Reaches(a: string, c: char, rest: string, s: string)
    requires s <= a + [c] + rest && |s| > |a|
    ensures c in s
  {
    assert s[|a|] == (a + [c] + rest)[|a|] == c;
  }

  /** A prefix that holds no `c` stops before the first one. */
  lemma PrefixStops(a: string, c: char, rest: string, s: string)
    requires c !in s
    ensures s <= a + [c] + rest <==> s <= a
  {
    var t := a + [c] + rest;
    if s <= t && |s| > |a| {
      Reaches(a, c, rest, s);
    }
    if |s| <= |a| { assert t[..|s|] == a[..|s|]; }
  }

  /** A character the secret does not hold parts the text in two. */
  lemma {:induction false} Barrier(a: string, c: char, b: string, s: string)
    requires s != "" && c !in s
    ensures Contains(a + [c] + b, s) <==> Contains(a, s) || Contains(b, s)
  {
    var t := a + [c] + b;
    if a == "" {
      assert t[0] == c && t[1..] == b;
    } else {
      assert t[1..] == a[1..] + [c] + b;
      Barrier(a[1..], c, b, s);
      PrefixStops(a, c, b, s);
    }
  }

  lemma MaskHides(rest: string, s: string)
    requires Maskable(s)
    ensures Contains(MASK + rest, s) <==> Contains(rest, s)
  {
    assert MASK + rest == "" + ['['] + (WORD + [']'] + rest);
    Barrier("", '[', WORD + [']'] + rest, s);
    Barrier(WORD, ']', rest, s);
  }

  lemma StartsMask(rest: string, s: string)
    requires s != "" && s <= MASK + rest
    ensures '[' in s
  {
    assert s[0] == (MASK + rest)[0] == '[';
  }

  /** Before its first mask the output is the text. */
  lemma {:induction false} PrefixCopy(text: string, secret: string, s: string)
    requires '[' !in s && s <= Replace(text, secret)
    ensures s <= text
  {
    if |secret| == 0 || |text| < |secret| || s == "" {
    } else if secret <= text {
      StartsMask(Replace(text[|secret|..], secret), s);
    } else {
      var out := Replace(text, secret);
      assert s[0] == out[0] == text[0] && out[1..] == Replace(text[1..], secret);
      assert s[1..] <= out[1..] by { assert s == out[..|s|]; assert s[1..] == out[1..][..|s| - 1]; }
      PrefixCopy(text[1..], secret, s[1..]);
      assert s == [s[0]] + s[1..] && text == [text[0]] + text[1..];
    }
  }

  lemma {:induction false} SuffixContains(text: string, k: nat, s: string)
    requires k <= |text| && Contains(text[k..], s)
    ensures Contains(text, s)
  {
    if k > 0 {
      assert text[k..] == text[1..][k - 1..];
      SuffixContains(text[1..], k - 1, s);
    }
  }

  /** Masking one secret leaves it nowhere, and brings no other into being. */
  lemma {:induction false} ReplaceHides(text: string, secret: string, s: string)
    requires Maskable(s)
    requires s == secret || !Contains(text, s)
    ensures !Contains(Replace(text, secret), s)
  {
    if |secret| == 0 || |text| < |secret| {
      if s == secret { TooShort(text, s); }
    } else if secret <= text {
      if s != secret && Contains(text[|secret|..], s) { SuffixContains(text, |secret|, s); }
      ReplaceHides(text[|secret|..], secret, s);
      MaskHides(Replace(text[|secret|..], secret), s);
    } else {
      ReplaceHides(text[1..], secret, s);
      var out := Replace(text, secret);
      assert out[1..] == Replace(text[1..], secret);
      if s <= out { PrefixCopy(text, secret, s); }
    }
  }

  lemma {:induction false} TooShort(text: string, s: string)
    requires |text| < |s|
    ensures !Contains(text, s)
  {
    if text != "" { TooShort(text[1..], s); }
  }

  /** A masked text holds no registered secret. */
  lemma {:induction false} ScrubHides(secrets: seq<string>, text: string, s: string)
    requires s in secrets && Maskable(s)
    ensures !Contains(Scrubbed(secrets, text), s)
  {
    var before, last := secrets[..|secrets| - 1], secrets[|secrets| - 1];
    if s != last { ScrubHides(before, text, s); }
    ReplaceHides(Scrubbed(before, text), last, s);
  }

  lemma {:induction false} ReplaceLeavesMask(text: string, secret: string)
    requires secret != "" && Contains(text, secret)
    ensures Contains(Replace(text, secret), MASK)
  {
    if |text| < |secret| {
      TooShort(text, secret);
      assert false;
    } else if secret <= text {
      assert MASK <= Replace(text, secret);
    } else {
      ReplaceLeavesMask(text[1..], secret);
      assert Replace(text, secret)[1..] == Replace(text[1..], secret);
    }
  }

  lemma {:induction false} ReplaceNothing(text: string, secret: string)
    requires !Contains(text, secret)
    ensures Replace(text, secret) == text
  {
    if |secret| != 0 && |text| >= |secret| {
      ReplaceNothing(text[1..], secret);
      assert text == [text[0]] + text[1..];
    }
  }

  /** A text that holds no registered secret comes out as it is. */
  lemma {:induction false} ScrubKeeps(secrets: seq<string>, text: string)
    requires forall s :: s in secrets ==> !Contains(text, s)
    ensures Scrubbed(secrets, text) == text
  {
    if secrets != [] {
      FrontIn(secrets);
      ScrubKeeps(secrets[..|secrets| - 1], text);
      ReplaceNothing(text, secrets[|secrets| - 1]);
    }
  }

  /** The parts with a word between each two. */
  function Joined(parts: seq<string>, word: string): string
    requires parts != []
  {
    if |parts| == 1 then parts[0] else parts[0] + word + Joined(parts[1..], word)
  }

  /** Parts between the occurrences of a secret taken leftmost first: none starts within a part. */
  predicate Leftmost(parts: seq<string>, secret: string)
    requires parts != [] && secret != ""
  {
    if |parts| == 1 then !Contains(parts[0], secret)
    else !Contains(parts[0] + secret[..|secret| - 1], secret) && Leftmost(parts[1..], secret)
  }

  lemma JoinedFront(rest: seq<string>, word: string)
    requires rest != []
    ensures Joined([""] + rest, word) == word + Joined(rest, word)
  {
    assert ([""] + rest)[1..] == rest;
  }

  function Lengthened(c: char, rest: seq<string>): seq<string>
    requires rest != []
  {
    [[c] + rest[0]] + rest[1..]
  }

  lemma JoinedLonger(c: char, rest: seq<string>, word: string)
    requires rest != []
    ensures Joined(Lengthened(c, rest), word) == [c] + Joined(rest, word)
  {
    assert Lengthened(c, rest)[1..] == rest[1..];
  }

  lemma LeftmostFront(rest: seq<string>, secret: string)
    requires secret != "" && rest != [] && Leftmost(rest, secret)
    ensures Leftmost([""] + rest, secret)
  {
    TooShort("" + secret[..|secret| - 1], secret);
    assert ([""] + rest)[1..] == rest;
  }

  lemma LeftmostLonger(text: string, rest: seq<string>, secret: string)
    requires text != "" && rest != [] && secret != "" && !(secret <= text) && text[1..] == Joined(rest, secret)
    requires Leftmost(rest, secret)
    ensures Leftmost(Lengthened(text[0], rest), secret)
  {
    Longer(text, rest, secret);
    assert Lengthened(text[0], rest)[1..] == rest[1..];
  }

  /** Masking puts the mask for every occurrence of the secret, taken from the left, and changes nothing else. */
  lemma {:induction false} ReplaceJoins(text: string, secret: string) returns (parts: seq<string>)
    requires secret != ""
    ensures parts != [] && Leftmost(parts, secret)
    ensures text == Joined(parts, secret) && Replace(text, secret) == Joined(parts, MASK)
  {
    if |text| < |secret| {
      TooShort(text, secret);
      parts := [text];
    } else if secret <= text {
      var rest := ReplaceJoins(text[|secret|..], secret);
      parts := [""] + rest;
      LeftmostFront(rest, secret);
      JoinedFront(rest, secret);
      JoinedFront(rest, MASK);
    } else {
      var rest := ReplaceJoins(text[1..], secret);
      parts := Lengthened(text[0], rest);
      LeftmostLonger(text, rest, secret);
      JoinedLonger(text[0], rest, secret);
      JoinedLonger(text[0], rest, MASK);
      ReplaceStep(text, secret);
    }
  }

  lemma JoinedStarts(parts: seq<string>, word: string)
    requires parts != [] && word != ""
    ensures (if |parts| == 1 then parts[0] else parts[0] + word[..|word| - 1]) <= Joined(parts, word)
  {}

  lemma Longer(text: string, rest: seq<string>, secret: string)
    requires text != "" && rest != [] && secret != "" && !(secret <= text) && text[1..] == Joined(rest, secret)
    requires Leftmost(rest, secret)
    ensures var first := [text[0]] + rest[0];
      !Contains(if |rest| == 1 then first else first + secret[..|secret| - 1], secret)
  {
    var tail := if |rest| == 1 then rest[0] else rest[0] + secret[..|secret| - 1];
    var all := [text[0]] + tail;
    JoinedStarts(rest, secret);
    assert all[1..] == tail && all <= text;
    assert !(secret <= all);
    assert |rest| > 1 ==> all == [text[0]] + rest[0] + secret[..|secret| - 1];
  }

  lemma {:induction false} ContainsInside(text: string, inner: string, s: string)
    requires Contains(text, inner) && Contains(inner, s)
    ensures Contains(text, s)
  {
    if inner <= text {
      assert text[..|inner|] == inner;
      ContainsPrefix(text, |inner|, s);
      assert text[..|inner|] == inner;
    } else {
      ContainsInside(text[1..], inner, s);
    }
  }

  lemma {:induction false} ContainsPrefix(text: string, k: nat, s: string)
    requires k <= |text| && Contains(text[..k], s)
    ensures Contains(text, s)
  {
    if s <= text[..k] {
      assert s == text[..k][..|s|] == text[..|s|];
    } else {
      assert text[..k][1..] == text[1..][..k - 1];
      ContainsPrefix(text[1..], k - 1, s);
    }
  }

  lemma FrontIn(secrets: seq<string>)
    requires secrets != []
    ensures secrets[|secrets| - 1] in secrets
    ensures forall x :: x in secrets[..|secrets| - 1] ==> x in secrets
  {
    var before := secrets[..|secrets| - 1];
    forall x | x in before ensures x in secrets {
      var i :| 0 <= i < |before| && before[i] == x;
      assert secrets[i] == x;
    }
  }

  lemma MaskHoldsWord()
    ensures Contains(MASK, WORD)
  {
    assert MASK[1..] == WORD + "]";
    assert WORD <= MASK[1..];
  }

  lemma {:induction false} WordStays(secrets: seq<string>, text: string, s: string)
    requires forall x :: x in secrets ==> x != ""
    requires Contains(text, s) && Contains(WORD, s)
    ensures Contains(Scrubbed(secrets, text), s)
  {
    if secrets != [] {
      var before, last := secrets[..|secrets| - 1], secrets[|secrets| - 1];
      FrontIn(secrets);
      forall x | x in before ensures x != "" { assert x in secrets; }
      WordStays(before, text, s);
      var x := Scrubbed(before, text);
      if Contains(x, last) {
        ReplaceLeavesMask(x, last);
        MaskHoldsWord();
        ContainsInside(MASK, WORD, s);
        ContainsInside(Replace(x, last), MASK, s);
      } else {
        ReplaceNothing(x, last);
      }
    }
  }

  predicate NoneLeft(secrets: seq<string>, text: string) {
    forall s :: s in secrets ==> !Contains(Scrubbed(secrets, text), s)
  }

  lemma ContainsItself(s: string)
    ensures Contains(s, s)
  {}

  /**
    For secrets free of square brackets, every text comes out clean exactly when no secret lies
    inside the word the mask is made of.
  */
  lemma ScrubCleansExactly(secrets: seq<string>)
    requires forall s :: s in secrets ==> s != "" && '[' !in s && ']' !in s
    ensures (forall text :: NoneLeft(secrets, text)) <==> (forall s :: s in secrets ==> !Contains(WORD, s))
  {
    if s :| s in secrets && Contains(WORD, s) {
      ContainsItself(s);
      WordStays(secrets, s, s);
      assert !NoneLeft(secrets, s);
    } else {
      forall text, s | s in secrets ensures !Contains(Scrubbed(secrets, text), s) {
        ScrubHides(secrets, text, s);
      }
    }
  }

  // ---------------------------------------------------------------- longest first

  predicate Registered(secrets: seq<string>) {
    && (forall i, j :: 0 <= i < j < |secrets| ==> |secrets[i]| >= |secrets[j]| && secrets[i] != secrets[j])
    && (forall i :: 0 <= i < |secrets| ==> |secrets[i]| >= MIN_LENGTH)
  }

  /** Behind every secret at least as long: where a stable sort puts the last of a sorted list. */
  function Place(secrets: seq<string>, s: string): seq<string> {
    if secrets == [] || |secrets[|secrets| - 1]| >= |s| then secrets + [s]
    else Place(secrets[..|secrets| - 1], s) + [secrets[|secrets| - 1]]
  }

  /** The stable sort by length, longest first. */
  function SortByLength(secrets: seq<string>): seq<string> {
    if secrets == [] then [] else Place(SortByLength(secrets[..|secrets| - 1]), secrets[|secrets| - 1])
  }

  function Added(secrets: seq<string>, s: string): seq<string> {
    if |s| < MIN_LENGTH || s in secrets then secrets else SortByLength(secrets + [s])
  }

  function Extended(secrets: seq<string>, more: seq<string>): seq<string> {
    if more == [] then secrets else Added(Extended(secrets, more[..|more| - 1]), more[|more| - 1])
  }

  lemma FrontRegistered(secrets: seq<string>)
    requires Registered(secrets) && secrets != []
    ensures var before, last := secrets[..|secrets| - 1], secrets[|secrets| - 1];
      && Registered(before) && last !in before
      && (before == [] || |before[|before| - 1]| >= |last|)
  {}

  lemma {:induction false} SortedStays(secrets: seq<string>)
    requires Registered(secrets)
    ensures SortByLength(secrets) == secrets
  {
    if secrets != [] {
      var before, last := secrets[..|secrets| - 1], secrets[|secrets| - 1];
      FrontRegistered(secrets);
      SortedStays(before);
      assert before + [last] == secrets;
    }
  }

  /** A shorter secret, and a new one, can come last. */
  lemma PushRegistered(secrets: seq<string>, last: string)
    requires Registered(secrets) && |last| >= MIN_LENGTH && last !in secrets
    requires forall x :: x in secrets ==> |x| >= |last|
    ensures Registered(secrets + [last])
  {
    forall i | 0 <= i < |secrets| ensures |secrets[i]| >= |last| && secrets[i] != last {
      assert secrets[i] in secrets;
    }
  }

  lemma LastShortest(secrets: seq<string>)
    requires Registered(secrets) && secrets != []
    ensures forall x :: x in secrets ==> |x| >= |secrets[|secrets| - 1]| >= MIN_LENGTH
  {}

  lemma {:induction false} PlaceKeeps(secrets: seq<string>, s: string)
    requires Registered(secrets) && s !in secrets && |s| >= MIN_LENGTH
    ensures Registered(Place(secrets, s))
    ensures forall x :: x in Place(secrets, s) <==> x in secrets || x == s
  {
    if secrets == [] || |secrets[|secrets| - 1]| >= |s| {
      if secrets != [] { LastShortest(secrets); }
      PushRegistered(secrets, s);
    } else {
      var before, last := secrets[..|secrets| - 1], secrets[|secrets| - 1];
      FrontRegistered(secrets);
      LastShortest(secrets);
      assert secrets == before + [last];
      PlaceKeeps(before, s);
      PushRegistered(Place(before, s), last);
    }
  }

  /** Registering keeps the list free of duplicates and longest first, and holds exactly what was worth masking. */
  lemma AddKeeps(secrets: seq<string>, s: string)
    requires Registered(secrets)
    ensures Registered(Added(secrets, s))
    ensures forall x :: x in Added(secrets, s) <==> x in secrets || (x == s && |s| >= MIN_LENGTH)
  {
    if |s| >= MIN_LENGTH && s !in secrets {
      assert (secrets + [s])[..|secrets|] == secrets;
      SortedStays(secrets);
      PlaceKeeps(secrets, s);
    }
  }

  lemma {:induction false} ExtendKeeps(secrets: seq<string>, more: seq<string>)
    requires Registered(secrets)
    ensures Registered(Extended(secrets, more))
    ensures forall x :: x in Extended(secrets, more) <==> x in secrets || (x in more && |x| >= MIN_LENGTH)
  {
    if more != [] {
      ExtendKeeps(secrets, more[..|more| - 1]);
      AddKeeps(Extended(secrets, more[..|more| - 1]), more[|more| - 1]);
      assert more == more[..|more| - 1] + [more[|more| - 1]];
    }
  }

  lemma ReplaceTake(text: string, secret: string)
    requires secret != "" && secret <= text
    ensures Replace(text, secret) == MASK + Replace(text[|secret|..], secret)
  {}

  lemma ReplaceStep(text: string, secret: string)
    requires secret != "" && text != "" && !(secret <= text)
    ensures Replace(text, secret) == [text[0]] + Replace(text[1..], secret)
  {
    if |text| < |secret| { assert text == [text[0]] + text[1..]; }
  }

  lemma PartsTake(a: string, c: char, b: string, secret: string)
    requires secret != "" && secret <= a
    ensures Replace(a, secret) == MASK + Replace(a[|secret|..], secret)
    ensures Replace(a + [c] + b, secret) == MASK + Replace(a[|secret|..] + [c] + b, secret)
  {
    var t := a + [c] + b;
    assert t[|secret|..] == a[|secret|..] + [c] + b;
    assert t[..|secret|] == a[..|secret|] == secret;
    ReplaceTake(t, secret);
    ReplaceTake(a, secret);
  }

  lemma PartsStep(a: string, c: char, b: string, secret: string)
    requires secret != "" && a != "" && !(secret <= a) && !(secret <= a + [c] + b)
    ensures Replace(a, secret) == [a[0]] + Replace(a[1..], secret)
    ensures Replace(a + [c] + b, secret) == [a[0]] + Replace(a[1..] + [c] + b, secret)
  {
    var t := a + [c] + b;
    assert t[0] == a[0] && t[1..] == a[1..] + [c] + b;
    ReplaceStep(t, secret);
    ReplaceStep(a, secret);
  }

  lemma {:induction false} ReplaceParts(a: string, c: char, b: string, secret: string)
    requires secret != "" && c !in secret
    ensures Replace(a + [c] + b, secret) == Replace(a, secret) + [c] + Replace(b, secret)
  {
    var t := a + [c] + b;
    PrefixStops(a, c, b, secret);
    if a == "" {
      assert t[0] == c && t[1..] == b;
      ReplaceStep(t, secret);
    } else if secret <= a {
      ReplaceParts(a[|secret|..], c, b, secret);
      PartsTake(a, c, b, secret);
    } else {
      ReplaceParts(a[1..], c, b, secret);
      PartsStep(a, c, b, secret);
    }
  }

  /** A character no secret holds parts the masked text where it parts the text. */
  lemma {:induction false} ScrubParts(secrets: seq<string>, a: string, c: char, b: string)
    requires forall s :: s in secrets ==> s != "" && c !in s
    ensures Scrubbed(secrets, a + [c] + b) == Scrubbed(secrets, a) + [c] + Scrubbed(secrets, b)
  {
    if secrets != [] {
      var before, last := secrets[..|secrets| - 1], secrets[|secrets| - 1];
      FrontIn(secrets);
      forall x | x in before ensures x != "" && c !in x { assert x in secrets; }
      ScrubParts(before, a, c, b);
      ReplaceParts(Scrubbed(before, a), c, Scrubbed(before, b), last);
    }
  }

  lemma WholePrefix(s: string, t: string)
    requires s <= t && |s| == |t|
    ensures s == t
  {}

  lemma NotWithin(s: string, t: string)
    requires |s| == |t| && s != t && s != ""
    ensures !Contains(t, s)
  {
    TooShort(t[1..], s);
    if s <= t { WholePrefix(s, t); }
  }

  lemma MaskStays(s: string)
    requires Maskable(s)
    ensures Replace(MASK, s) == MASK
  {
    assert MASK + "" == MASK;
    MaskHides("", s);
    TooShort("", s);
    ReplaceNothing(MASK, s);
  }

  /** Because longer secrets go first, a secret that contains others is masked whole. */
  lemma {:induction false} MaskedWhole(secrets: seq<string>, k: nat, n: nat)
    requires Registered(secrets) && k < |secrets| && n <= |secrets|
    requires forall s :: s in secrets ==> Maskable(s)
    ensures Scrubbed(secrets[..n], secrets[k]) == if k < n then MASK else secrets[k]
  {
    if n > 0 {
      var whole, last := secrets[k], secrets[n - 1];
      assert secrets[..n][..n - 1] == secrets[..n - 1];
      MaskedWhole(secrets, k, n - 1);
      if k < n - 1 {
        MaskStays(last);
      } else if k == n - 1 {
        assert whole[|whole|..] == "" && Replace("", whole) == "";
        assert Replace(whole, whole) == MASK + "" == MASK;
        assert Scrubbed(secrets[..n], whole) == Replace(Scrubbed(secrets[..n - 1], whole), last);
      } else {
        if |last| == |whole| { NotWithin(last, whole); } else { TooShort(whole, last); }
        ReplaceNothing(whole, last);
      }
    }
  }

  /** Between any two characters no secret holds, a whole secret becomes the whole mask. */
  lemma SecretBecomesMask(secrets: seq<string>, a: string, c: char, s: string, d: char, b: string)
    requires Registered(secrets) && s in secrets
    requires forall x :: x in secrets ==> Maskable(x) && c !in x && d !in x
    ensures Scrubbed(secrets, a + [c] + (s + [d] + b))
         == Scrubbed(secrets, a) + [c] + (MASK + [d] + Scrubbed(secrets, b))
  {
    var k :| 0 <= k < |secrets| && secrets[k] == s;
    ScrubParts(secrets, a, c, s + [d] + b);
    ScrubParts(secrets, s, d, b);
    MaskedWhole(secrets, k, |secrets|);
    assert secrets[..|secrets|] == secrets;
  }

  // ---------------------------------------------------------------- the object

  class Redactor {
    var secrets: seq<string>

    constructor (given: seq<string>)
      ensures secrets == Extended([], given) && Registered(secrets)
    {
      secrets := [];
      new;
      Extend(given);
    }

    /** Ignores `None`, the empty string and anything too short. */
    method Add(secret: Option<string>)
      requires Registered(secrets)
      modifies this
      ensures Registered(secrets)
      ensures secrets == if secret.None? then old(secrets) else Added(old(secrets), secret.value)
    {
      if secret.None? || |secret.value| < MIN_LENGTH {
        return;
      }
      AddKeeps(secrets, secret.value);
      if secret.value !in secrets {
        secrets := SortByLength(secrets + [secret.value]);
      }
    }

    method Extend(more: seq<string>)
      requires Registered(secrets)
      modifies this
      ensures Registered(secrets) && secrets == Extended(old(secrets), more)
    {
      for i := 0 to |more|
        invariant Registered(secrets) && secrets == Extended(old(secrets), more[..i])
      {
        assert more[..i + 1][..i] == more[..i];
        Add(Some(more[i]));
      }
      assert more[..|more|] == more;
    }

    method Scrub(text: string) returns (r: string)
      requires Registered(secrets)
      ensures r == Scrubbed(secrets, text)
      ensures forall s :: s in secrets && Maskable(s) ==> !Contains(r, s)
      ensures (forall s :: s in secrets ==> !Contains(text, s)) ==> r == text
    {
      r := text;
      for i := 0 to |secrets|
        invariant r == Scrubbed(secrets[..i], text)
      {
        assert secrets[..i + 1][..i] == secrets[..i];
        if Contains(r, secrets[i]) {
          r := Replace(r, secrets[i]);
        } else {
          ReplaceNothing(r, secrets[i]);
        }
      }
      assert secrets[..|secrets|] == secrets;
      if forall s :: s in secrets ==> !Contains(text, s) { ScrubKeeps(secrets, text); }
      forall s | s in secrets && Maskable(s) ensures !Contains(r, s) {
        ScrubHides(secrets, text, s);
      }
    }
  }
}
