/** Which of two route keys a request prefers, told segment by segment in the text of the keys. */
module GatewayPrecedence {
  import opened Options
  import opened Gateway

  // ---------------------------------------------------------------- the text of a key

  /** Splitting leaves no separator in any part, and joins back: there is only one such way to split. */
  lemma {:induction false} SplitPlain(s: string, sep: char)
    ensures forall part :: part in SplitAt(s, sep) ==> sep !in part
    ensures JoinAt(SplitAt(s, sep), sep) == s
  {
    JoinSplit(s, sep);
    if s != "" { SplitPlain(s[1..], sep); }
  }

  /** A key is its method, the first space and its path; without a space it is all method. */
  lemma {:induction false} PartsExactly(key: string)
    ensures var (verb, path) := Parts(key);
      ' ' !in verb && if ' ' in key then key == verb + " " + path else verb == key && path == ""
  {
    if key != "" && key[0] != ' ' {
      PartsExactly(key[1..]);
      assert key == [key[0]] + key[1..];
    } else if key != "" {
      assert key == " " + key[1..];
    }
  }

  predicate IsGreedy(segment: string) {
    segment == "{proxy+}"
  }

  /** In braces, and not the greedy one. */
  predicate IsVariable(segment: string) {
    segment != "" && segment[0] == '{' && segment[|segment| - 1] == '}' && !IsGreedy(segment)
  }

  predicate IsLiteral(segment: string) {
    !IsVariable(segment) && !IsGreedy(segment)
  }

  /** A literal is better than a variable, and that better than the greedy segment. */
  predicate Better(a: string, b: string) {
    (IsLiteral(a) && !IsLiteral(b)) || (IsVariable(a) && IsGreedy(b))
  }

  predicate SameKind(a: string, b: string) {
    (IsLiteral(a) <==> IsLiteral(b)) && (IsGreedy(a) <==> IsGreedy(b))
  }

  lemma ScoreTells(a: string, b: string)
    ensures SegmentScore(a) > SegmentScore(b) <==> Better(a, b)
    ensures SegmentScore(a) == SegmentScore(b) <==> SameKind(a, b)
    ensures SegmentScore(a) == LITERAL <==> IsLiteral(a)
  {}

  // ---------------------------------------------------------------- matching

  /** Up to the first greedy segment, which takes at least one, each literal is the path's own; without one they are as many. */
  ghost predicate Fits(ks: seq<string>, ps: seq<string>) {
    if "{proxy+}" in ks then
      exists g :: 0 <= g < |ks| && g < |ps| && IsGreedy(ks[g]) && AgreeTo(ks, ps, g)
    else
      |ks| == |ps| && AgreeTo(ks, ps, |ks|)
  }

  predicate AgreeTo(ks: seq<string>, ps: seq<string>, n: nat)
    requires n <= |ks| && n <= |ps|
  {
    forall i :: 0 <= i < n ==> !IsGreedy(ks[i]) && (IsLiteral(ks[i]) ==> ks[i] == ps[i])
  }

  lemma NotBefore(ks: seq<string>, ps: seq<string>, h: nat, g: nat)
    requires h <= |ks| && h <= |ps| && g < |ks| && AgreeTo(ks, ps, h) && IsGreedy(ks[g])
    ensures h <= g
  {}

  lemma FitsIsMatch(ks: seq<string>, ps: seq<string>)
    ensures Fits(ks, ps) <==> Matches(ks, ps)
  {
    GreedyAt(ks);
    var g := FirstGreedy(ks);
    if g < |ks| {
      assert "{proxy+}" in ks by { assert ks[g] == "{proxy+}"; }
      if Matches(ks, ps) {
        forall i | 0 <= i < g ensures !IsGreedy(ks[i]) && (IsLiteral(ks[i]) ==> ks[i] == ps[i]) { assert Agrees(ks[i], ps[i]); }
        assert IsGreedy(ks[g]) && AgreeTo(ks, ps, g);
      }
      if Fits(ks, ps) {
        var h :| 0 <= h < |ks| && h < |ps| && IsGreedy(ks[h]) && AgreeTo(ks, ps, h);
        NotBefore(ks, ps, h, g);
        assert h == g;
        forall i | 0 <= i < g && i < |ps| ensures Agrees(ks[i], ps[i]) { ScoreTells(ks[i], ps[i]); }
      }
    } else {
      assert "{proxy+}" !in ks;
      if Matches(ks, ps) {
        forall i | 0 <= i < |ks| ensures !IsGreedy(ks[i]) && (IsLiteral(ks[i]) ==> ks[i] == ps[i]) { assert Agrees(ks[i], ps[i]); }
      }
    }
  }

  /** The key names the request's method, or any, and its path fits. */
  ghost predicate Serves(key: string, verb: string, path: string) {
    var (keyVerb, keyPath) := Parts(key);
    (keyVerb == "ANY" || keyVerb == verb) && Fits(Segments(keyPath), Segments(path))
  }

  lemma ServesIsRanked(key: string, verb: string, path: string)
    ensures Serves(key, verb, path) <==> RankOf(key, verb, path).Some?
  {
    var ks, ps := Segments(Parts(key).1), Segments(path);
    FitsIsMatch(ks, ps);
    ScoreExactly(ks, ps);
  }

  // ---------------------------------------------------------------- precedence

  /** A key's segments through its first greedy one. */
  function Used(key: string): seq<string> {
    var ks := Segments(Parts(key).1);
    if FirstGreedy(ks) < |ks| then ks[..FirstGreedy(ks) + 1] else ks
  }

  /** The first segments that differ in kind are these, and the first key's is the better. */
  predicate BetterAt(a: seq<string>, b: seq<string>, i: nat) {
    i < |a| && i < |b| && Better(a[i], b[i]) && forall j :: 0 <= j < i ==> SameKind(a[j], b[j])
  }

  /**
    One key outranks another when more of its segments are used, or as many and its segment is the better
    where they first differ in kind, or they differ nowhere and it names its method where the other takes any.
  */
  ghost predicate Outranks(a: string, b: string) {
    var u, v := Used(a), Used(b);
    || |u| > |v|
    || (|u| == |v| && exists i: nat :: BetterAt(u, v, i))
    || (|u| == |v| && (forall i :: 0 <= i < |u| ==> SameKind(u[i], v[i])) && Parts(a).0 != "ANY" && Parts(b).0 == "ANY")
  }

  predicate Scores(u: seq<string>, score: seq<nat>) {
    |score| == |u| && forall i :: 0 <= i < |u| ==> score[i] == SegmentScore(u[i])
  }

  lemma ScoresUsed(key: string, verb: string, path: string)
    requires RankOf(key, verb, path).Some?
    ensures Scores(Used(key), RankOf(key, verb, path).value.score)
    ensures RankOf(key, verb, path).value.named <==> Parts(key).0 != "ANY"
  {
    ScoreExactly(Segments(Parts(key).1), Segments(path));
  }

  lemma BetterStep(u: seq<string>, v: seq<string>)
    requires |u| == |v| && u != [] && SameKind(u[0], v[0])
    ensures (exists i: nat :: BetterAt(u, v, i)) <==> exists i: nat :: BetterAt(u[1..], v[1..], i)
  {
    if i: nat :| BetterAt(u, v, i) {
      assert i > 0;
      assert BetterAt(u[1..], v[1..], i - 1) by {
        forall j | 0 <= j < i - 1 ensures SameKind(u[1..][j], v[1..][j]) { assert SameKind(u[j + 1], v[j + 1]); }
      }
    }
    if i: nat :| BetterAt(u[1..], v[1..], i) {
      assert BetterAt(u, v, i + 1) by {
        forall j | 0 <= j < i + 1 ensures SameKind(u[j], v[j]) { if j > 0 { assert SameKind(u[1..][j - 1], v[1..][j - 1]); } }
      }
    }
  }

  /** The better score is the one that is better where the segments first differ in kind. */
  lemma {:induction false} LexIsBetter(u: seq<string>, v: seq<string>, a: seq<nat>, b: seq<nat>)
    requires |u| == |v| && Scores(u, a) && Scores(v, b)
    ensures LexAbove(a, b) <==> exists i: nat :: BetterAt(u, v, i)
  {
    if u != [] {
      ScoreTells(u[0], v[0]);
      if a[0] == b[0] {
        LexIsBetter(u[1..], v[1..], a[1..], b[1..]);
        BetterStep(u, v);
      } else if a[0] > b[0] {
        assert BetterAt(u, v, 0);
      }
    }
  }

  lemma SameScores(u: seq<string>, v: seq<string>, a: seq<nat>, b: seq<nat>)
    requires |u| == |v| && Scores(u, a) && Scores(v, b)
    ensures a == b <==> forall i :: 0 <= i < |u| ==> SameKind(u[i], v[i])
  {
    forall i | 0 <= i < |u| ensures a[i] == b[i] <==> SameKind(u[i], v[i]) { ScoreTells(u[i], v[i]); }
    if a == b { forall i | 0 <= i < |u| ensures SameKind(u[i], v[i]) { assert a[i] == b[i]; } }
  }

  /** Of two keys that serve a request the one of higher rank is the one that outranks the other. */
  lemma OutranksExactly(a: string, b: string, verb: string, path: string)
    requires RankOf(a, verb, path).Some? && RankOf(b, verb, path).Some?
    ensures Above(RankOf(a, verb, path).value, RankOf(b, verb, path).value) <==> Outranks(a, b)
  {
    ScoresUsed(a, verb, path);
    ScoresUsed(b, verb, path);
    var x, y := RankOf(a, verb, path).value.score, RankOf(b, verb, path).value.score;
    if |x| == |y| {
      LexIsBetter(Used(a), Used(b), x, y);
      SameScores(Used(a), Used(b), x, y);
    }
  }

  /** The key at `i` serves the request, none that serves it outranks it, and it outranks the earlier ones. */
  ghost predicate Preferred(keys: seq<string>, verb: string, path: string, i: nat) {
    && i < |keys| && Serves(keys[i], verb, path)
    && (forall j :: 0 <= j < |keys| && Serves(keys[j], verb, path) ==> !Outranks(keys[j], keys[i]))
    && (forall j :: 0 <= j < i && Serves(keys[j], verb, path) ==> Outranks(keys[i], keys[j]))
  }

  /** A request resolves to the preferred key, and to none exactly when none serves it. */
  lemma ResolvesToPreferred(keys: seq<string>, verb: string, path: string)
    ensures match Resolved(keys, verb, path)
      case None => forall i :: 0 <= i < |keys| ==> !Serves(keys[i], verb, path)
      case Some(i) => Preferred(keys, verb, path, i)
  {
    var ranks := Ranks(keys, verb, path);
    BestIsFirst(ranks);
    forall i | 0 <= i < |keys| ensures Serves(keys[i], verb, path) <==> ranks[i].Some? { ServesIsRanked(keys[i], verb, path); }
    var best := Resolved(keys, verb, path);
    if best.Some? {
      var i := best.value;
      forall j | 0 <= j < |keys| && Serves(keys[j], verb, path)
        ensures !Outranks(keys[j], keys[i]) && (j < i ==> Outranks(keys[i], keys[j]))
      {
        OutranksExactly(keys[j], keys[i], verb, path);
        OutranksExactly(keys[i], keys[j], verb, path);
      }
    }
  }

  // ---------------------------------------------------------------- a literal over a variable

  /** Keys of one method and as many segments that first differ in a literal and a variable: the literal one is resolved to, in either order. */
  lemma LiteralOverVariable(a: string, b: string, verb: string, path: string, i: nat)
    requires Serves(a, verb, path) && Serves(b, verb, path) && |Used(a)| == |Used(b)| && i < |Used(a)|
    requires IsLiteral(Used(a)[i]) && IsVariable(Used(b)[i])
    requires forall j :: 0 <= j < i ==> SameKind(Used(a)[j], Used(b)[j])
    ensures Answer([a, b], verb, path) == Answer([b, a], verb, path) == Some(a)
  {
    assert BetterAt(Used(a), Used(b), i);
    assert Outranks(a, b);
    ResolvesToPreferred([a, b], verb, path);
    ResolvesToPreferred([b, a], verb, path);
    assert [a, b][0] == a && [a, b][1] == b && [b, a][0] == b && [b, a][1] == a;
  }
}
