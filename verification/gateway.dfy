/** Which route key the gateway resolves a request to, and when that does not depend on the keys' order. */
module Gateway {
  import opened Options

  const LITERAL: nat := 2
  const VARIABLE: nat := 1
  const GREEDY: nat := 0
  const PROXY: string := "{proxy+}"

  // ---------------------------------------------------------------- segments

  function SplitAt(s: string, sep: char): (r: seq<string>)
    ensures r != []
  {
    if s == "" then [""]
    else if s[0] == sep then [""] + SplitAt(s[1..], sep)
    else var rest := SplitAt(s[1..], sep); [[s[0]] + rest[0]] + rest[1..]
  }

  function Trim(path: string): string {
    if path != "" && path[0] == '/' then path[1..] else path
  }

  /** The root has no segments, and a trailing slash leaves a last empty one. */
  function Segments(path: string): seq<string> {
    if Trim(path) == "" then [] else SplitAt(Trim(path), '/')
  }

  function JoinAt(parts: seq<string>, sep: char): string
    requires parts != []
  {
    if |parts| == 1 then parts[0] else parts[0] + [sep] + JoinAt(parts[1..], sep)
  }

  lemma JoinGrows(parts: seq<string>, sep: char, c: char)
    requires parts != []
    ensures JoinAt([[c] + parts[0]] + parts[1..], sep) == [c] + JoinAt(parts, sep)
  {
    var grown := [[c] + parts[0]] + parts[1..];
    assert grown[1..] == parts[1..];
    if |parts| > 1 {
      assert JoinAt(grown, sep) == ([c] + parts[0]) + [sep] + JoinAt(parts[1..], sep);
      assert ([c] + parts[0]) + [sep] + JoinAt(parts[1..], sep) == [c] + (parts[0] + [sep] + JoinAt(parts[1..], sep));
    }
  }

  lemma JoinEmpty(parts: seq<string>, sep: char)
    requires parts != []
    ensures JoinAt([""] + parts, sep) == [sep] + JoinAt(parts, sep)
  {
    assert ([""] + parts)[1..] == parts;
  }

  lemma {:induction false} JoinSplit(s: string, sep: char)
    ensures JoinAt(SplitAt(s, sep), sep) == s
  {
    if s != "" {
      JoinSplit(s[1..], sep);
      if s[0] == sep { JoinEmpty(SplitAt(s[1..], sep), sep); } else { JoinGrows(SplitAt(s[1..], sep), sep, s[0]); }
      assert s == [s[0]] + s[1..];
    }
  }

  /** Paths are one to the matcher only when they differ at most in the leading slash: never in a trailing one. */
  lemma SegmentsKeepPath(p: string, q: string)
    ensures Segments(p) == Segments(q) <==> Trim(p) == Trim(q)
  {
    JoinSplit(Trim(p), '/');
    JoinSplit(Trim(q), '/');
  }

  // ---------------------------------------------------------------- one key against one path

  function SegmentScore(segment: string): nat {
    if segment == "" then LITERAL
    else if segment == PROXY then GREEDY
    else if segment[0] == '{' && segment[|segment| - 1] == '}' then VARIABLE
    else LITERAL
  }

  function Score(ks: seq<string>, ps: seq<string>): Option<seq<nat>> {
    if ks == [] then (if ps == [] then Some([]) else None)
    else if ps == [] then None
    else if ks[0] == PROXY then Some([GREEDY])
    else if SegmentScore(ks[0]) == LITERAL && ks[0] != ps[0] then None
    else match Score(ks[1..], ps[1..])
      case None => None
      case Some(rest) => Some([SegmentScore(ks[0])] + rest)
  }

  /** Where the first greedy segment stands, or the number of segments. */
  function FirstGreedy(ks: seq<string>): (g: nat)
    ensures g <= |ks|
  {
    if ks == [] || ks[0] == PROXY then 0 else 1 + FirstGreedy(ks[1..])
  }

  predicate Agrees(k: string, p: string) {
    SegmentScore(k) == LITERAL ==> k == p
  }

  /** What a match means: the segments up to the greedy one agree, and the greedy one has at least one to take. */
  predicate Matches(ks: seq<string>, ps: seq<string>) {
    var g := FirstGreedy(ks);
    && (if g < |ks| then g < |ps| else |ks| == |ps|)
    && forall i :: 0 <= i < g && i < |ps| ==> Agrees(ks[i], ps[i])
  }

  /** The score is the classes of the key's segments through its first greedy one. */
  predicate Classes(ks: seq<string>, score: seq<nat>) {
    var g := FirstGreedy(ks);
    && |score| == (if g < |ks| then g + 1 else g)
    && forall i :: 0 <= i < |score| ==> score[i] == SegmentScore(ks[i])
  }

  lemma {:induction false} ScoreExactly(ks: seq<string>, ps: seq<string>)
    ensures Score(ks, ps).Some? <==> Matches(ks, ps)
    ensures Score(ks, ps).Some? ==> Classes(ks, Score(ks, ps).value)
  {
    if ks != [] && ps != [] && ks[0] != PROXY {
      ScoreExactly(ks[1..], ps[1..]);
      assert FirstGreedy(ks) == 1 + FirstGreedy(ks[1..]);
      if Matches(ks, ps) {
        assert Agrees(ks[0], ps[0]);
        forall i | 0 <= i < FirstGreedy(ks[1..]) && i < |ps[1..]| ensures Agrees(ks[1..][i], ps[1..][i]) {
          assert Agrees(ks[i + 1], ps[i + 1]);
        }
        assert Matches(ks[1..], ps[1..]);
      }
      if Score(ks, ps).Some? {
        forall i | 0 <= i < FirstGreedy(ks) && i < |ps| ensures Agrees(ks[i], ps[i]) {
          if i > 0 { assert Agrees(ks[1..][i - 1], ps[1..][i - 1]); }
        }
      }
    }
  }

  lemma {:induction false} GreedyAt(ks: seq<string>)
    ensures FirstGreedy(ks) < |ks| ==> ks[FirstGreedy(ks)] == PROXY
    ensures forall i :: 0 <= i < FirstGreedy(ks) ==> ks[i] != PROXY
  {
    if ks != [] && ks[0] != PROXY {
      GreedyAt(ks[1..]);
      forall i | 0 <= i < FirstGreedy(ks) ensures ks[i] != PROXY {
        if i > 0 { assert ks[i] == ks[1..][i - 1]; }
      }
    }
  }

  lemma GreedyIs(ks: seq<string>, g: nat)
    requires g <= |ks| && (g < |ks| ==> ks[g] == PROXY)
    requires forall i :: 0 <= i < g ==> ks[i] != PROXY
    ensures FirstGreedy(ks) == g
  {
    GreedyAt(ks);
  }

  lemma ClassesDetermine(ks: seq<string>, a: seq<nat>, b: seq<nat>)
    requires Classes(ks, a) && Classes(ks, b)
    ensures a == b
  {}

  method MatchScore(keyPath: string, path: string) returns (r: Option<seq<nat>>)
    ensures r == Score(Segments(keyPath), Segments(path))
    ensures r.Some? <==> Matches(Segments(keyPath), Segments(path))
    ensures r.Some? ==> Classes(Segments(keyPath), r.value)
  {
    r := MatchSegments(Segments(keyPath), Segments(path));
  }

  method MatchSegments(ks: seq<string>, ps: seq<string>) returns (r: Option<seq<nat>>)
    ensures r == Score(ks, ps)
    ensures r.Some? <==> Matches(ks, ps)
    ensures r.Some? ==> Classes(ks, r.value)
  {
    ScoreExactly(ks, ps);
    GreedyAt(ks);
    var score: seq<nat> := [];
    for index := 0 to |ks|
      invariant index <= |ps|
      invariant forall i :: 0 <= i < index ==> ks[i] != PROXY && Agrees(ks[i], ps[i])
      invariant |score| == index && forall i :: 0 <= i < index ==> score[i] == SegmentScore(ks[i])
    {
      if ks[index] == PROXY {
        GreedyIs(ks, index);
        if index >= |ps| {
          return None;
        }
        score := score + [GREEDY];
        ClassesDetermine(ks, score, Score(ks, ps).value);
        return Some(score);
      }
      if index >= |ps| {
        return None;
      }
      var kind := SegmentScore(ks[index]);
      if kind == LITERAL && ks[index] != ps[index] {
        assert !Agrees(ks[index], ps[index]);
        return None;
      }
      score := score + [kind];
    }
    GreedyIs(ks, |ks|);
    if |ks| != |ps| {
      return None;
    }
    ClassesDetermine(ks, score, Score(ks, ps).value);
    r := Some(score);
  }

  // ---------------------------------------------------------------- rank

  /** More segments first, then the better class at the first difference, then a named method over `ANY`. */
  datatype Rank = Rank(score: seq<nat>, named: bool)

  predicate LexAbove(a: seq<nat>, b: seq<nat>) {
    a != [] && (b == [] || a[0] > b[0] || (a[0] == b[0] && LexAbove(a[1..], b[1..])))
  }

  predicate Above(a: Rank, b: Rank) {
    || |a.score| > |b.score|
    || (|a.score| == |b.score| && LexAbove(a.score, b.score))
    || (a.score == b.score && a.named && !b.named)
  }

  lemma {:induction false} LexTotal(a: seq<nat>, b: seq<nat>)
    ensures LexAbove(a, b) || a == b || LexAbove(b, a)
    ensures !(LexAbove(a, b) && LexAbove(b, a)) && !LexAbove(a, a)
  {
    if a != [] && b != [] {
      LexTotal(a[1..], b[1..]);
      if a[0] == b[0] && a[1..] == b[1..] { assert a == [a[0]] + a[1..] && b == [b[0]] + b[1..]; }
    }
    if a != [] { LexTotal(a[1..], a[1..]); }
  }

  lemma {:induction false} LexTransitive(a: seq<nat>, b: seq<nat>, c: seq<nat>)
    requires LexAbove(a, b) && LexAbove(b, c)
    ensures LexAbove(a, c)
  {
    if b != [] && c != [] && a[0] == b[0] == c[0] { LexTransitive(a[1..], b[1..], c[1..]); }
  }

  /** Any two ranks compare exactly one way. */
  lemma RankTotal(a: Rank, b: Rank)
    ensures Above(a, b) || a == b || Above(b, a)
    ensures !(Above(a, b) && Above(b, a)) && !Above(a, a)
  {
    LexTotal(a.score, b.score);
  }

  lemma RankTransitive(a: Rank, b: Rank, c: Rank)
    requires Above(a, b) && Above(b, c)
    ensures Above(a, c)
  {
    if |a.score| == |b.score| == |c.score| {
      if LexAbove(a.score, b.score) && LexAbove(b.score, c.score) { LexTransitive(a.score, b.score, c.score); }
    }
  }

  // ---------------------------------------------------------------- resolving

  /** A route key is a method, a space and a path. */
  function Parts(key: string): (string, string) {
    if key == "" then ("", "")
    else if key[0] == ' ' then ("", key[1..])
    else var (a, b) := Parts(key[1..]); ([key[0]] + a, b)
  }

  function RankOf(key: string, verb: string, path: string): Option<Rank> {
    var (keyVerb, keyPath) := Parts(key);
    if keyVerb != "ANY" && keyVerb != verb then None
    else match Score(Segments(keyPath), Segments(path))
      case None => None
      case Some(score) => Some(Rank(score, keyVerb != "ANY"))
  }

  function Ranks(keys: seq<string>, verb: string, path: string): (r: seq<Option<Rank>>)
    ensures |r| == |keys| && forall i :: 0 <= i < |keys| ==> r[i] == RankOf(keys[i], verb, path)
  {
    seq(|keys|, i requires 0 <= i < |keys| => RankOf(keys[i], verb, path))
  }

  /** The rank at `i` is at least as high as every other, and above every earlier one. */
  predicate First(ranks: seq<Option<Rank>>, i: nat) {
    && i < |ranks| && ranks[i].Some?
    && (forall j :: 0 <= j < |ranks| && ranks[j].Some? ==> !Above(ranks[j].value, ranks[i].value))
    && (forall j :: 0 <= j < i && ranks[j].Some? ==> Above(ranks[i].value, ranks[j].value))
  }

  predicate NoMatch(ranks: seq<Option<Rank>>) {
    forall j :: 0 <= j < |ranks| ==> ranks[j].None?
  }

  /** The first of the greatest ranks, if there is any. */
  function Best(ranks: seq<Option<Rank>>): (r: Option<nat>)
    ensures r.Some? ==> r.value < |ranks| && ranks[r.value].Some?
  {
    if ranks == [] then None
    else
      var n := |ranks| - 1;
      var best := Best(ranks[..n]);
      if ranks[n].Some? && (best.None? || Above(ranks[n].value, ranks[best.value].value)) then Some(n) else best
  }

  /** A rank above the top of a list is above all of it. */
  lemma AboveAll(ranks: seq<Option<Rank>>, i: nat, rank: Rank)
    requires First(ranks, i) && Above(rank, ranks[i].value)
    ensures forall j :: 0 <= j < |ranks| && ranks[j].Some? ==> Above(rank, ranks[j].value) && !Above(ranks[j].value, rank)
  {
    var top := ranks[i].value;
    forall j | 0 <= j < |ranks| && ranks[j].Some?
      ensures Above(rank, ranks[j].value) && !Above(ranks[j].value, rank)
    {
      var r := ranks[j].value;
      RankTotal(r, top);
      if Above(top, r) { RankTransitive(rank, top, r); }
      RankTotal(rank, r);
    }
  }

  lemma {:induction false} BestIsFirst(ranks: seq<Option<Rank>>)
    ensures match Best(ranks)
      case None => NoMatch(ranks)
      case Some(i) => First(ranks, i)
  {
    if ranks != [] {
      var n := |ranks| - 1;
      var front := ranks[..n];
      BestIsFirst(front);
      assert forall j :: 0 <= j < n ==> front[j] == ranks[j];
      if ranks[n].Some? {
        RankTotal(ranks[n].value, ranks[n].value);
        var best := Best(front);
        if best.Some? && Above(ranks[n].value, ranks[best.value].value) {
          AboveAll(front, best.value, ranks[n].value);
        }
      }
    }
  }

  lemma BestStep(ranks: seq<Option<Rank>>, i: nat)
    requires i < |ranks|
    ensures var best := Best(ranks[..i]);
      Best(ranks[..i + 1])
      == if ranks[i].Some? && (best.None? || Above(ranks[i].value, ranks[best.value].value)) then Some(i) else best
  {
    assert ranks[..i + 1][..i] == ranks[..i];
  }

  function Resolved(keys: seq<string>, verb: string, path: string): (r: Option<nat>)
    ensures r.Some? ==> r.value < |keys|
  {
    Best(Ranks(keys, verb, path))
  }

  /** The first key of greatest rank among those that match, and "" when nothing matches. */
  method Resolve(path: string, verb: string, keys: seq<string>) returns (best: string)
    ensures match Resolved(keys, verb, path)
      case None => best == "" && NoMatch(Ranks(keys, verb, path))
      case Some(i) => best == keys[i] && First(Ranks(keys, verb, path), i)
  {
    best := "";
    var bestRank: Option<Rank> := None;
    ghost var ranks, at := Ranks(keys, verb, path), None;
    assert ranks[..0] == [];
    for i := 0 to |keys|
      invariant at == Best(ranks[..i])
      invariant at.None? ==> best == "" && bestRank.None?
      invariant at.Some? ==> at.value < i && best == keys[at.value] && bestRank == ranks[at.value] && bestRank.Some?
    {
      BestStep(ranks, i);
      var (keyVerb, keyPath) := Parts(keys[i]);
      if keyVerb != "ANY" && keyVerb != verb {
        assert ranks[i] == None;
        continue;
      }
      var score := MatchScore(keyPath, path);
      if score.None? {
        assert ranks[i] == None;
        continue;
      }
      var rank := Rank(score.value, keyVerb != "ANY");
      assert ranks[i] == Some(rank);
      if bestRank.None? || Above(rank, bestRank.value) {
        bestRank := Some(rank);
        best := keys[i];
        at := Some(i);
      }
    }
    assert ranks[..|keys|] == ranks;
    BestIsFirst(ranks);
  }

  // ---------------------------------------------------------------- order

  /** A greedy segment, if there is one, ends the key. */
  predicate GreedyLast(key: string) {
    var ks := Segments(Parts(key).1);
    FirstGreedy(ks) + 1 >= |ks|
  }

  /** Equal but for the names of their variables. */
  predicate SameShape(a: string, b: string) {
    var ks, ls := Segments(Parts(a).1), Segments(Parts(b).1);
    && Parts(a).0 == Parts(b).0
    && |ks| == |ls|
    && forall i :: 0 <= i < |ks| ==> SameClass(ks[i], ls[i])
  }

  predicate SameClass(k: string, l: string) {
    SegmentScore(k) == SegmentScore(l) && (SegmentScore(k) == LITERAL ==> k == l)
  }

  lemma ProxyIsGreedy()
    ensures SegmentScore(PROXY) == GREEDY
  {}

  lemma LiteralNotProxy(k: string)
    requires SegmentScore(k) == LITERAL
    ensures k != PROXY
  {
    if k == PROXY { ProxyIsGreedy(); }
  }

  lemma BeforeGreedy(ks: seq<string>, i: nat)
    requires FirstGreedy(ks) + 1 >= |ks| && i < |ks| && ks[i] != PROXY
    ensures i < FirstGreedy(ks)
  {
    GreedyAt(ks);
  }

  lemma LiteralAt(ks: seq<string>, ps: seq<string>, i: nat)
    requires FirstGreedy(ks) + 1 >= |ks| && Matches(ks, ps) && i < |ks| && SegmentScore(ks[i]) == LITERAL
    ensures i < |ps| && ks[i] == ps[i]
  {
    LiteralNotProxy(ks[i]);
    BeforeGreedy(ks, i);
    assert Agrees(ks[i], ps[i]);
  }

  lemma TieSegments(ks: seq<string>, ls: seq<string>, ps: seq<string>, score: seq<nat>)
    requires FirstGreedy(ks) + 1 >= |ks| && FirstGreedy(ls) + 1 >= |ls|
    requires Matches(ks, ps) && Matches(ls, ps) && Classes(ks, score) && Classes(ls, score)
    ensures |ks| == |ls| && forall i :: 0 <= i < |ks| ==> SameClass(ks[i], ls[i])
  {
    GreedyAt(ks);
    GreedyAt(ls);
    forall i | 0 <= i < |ks| ensures SameClass(ks[i], ls[i]) {
      assert score[i] == SegmentScore(ks[i]) == SegmentScore(ls[i]);
      if SegmentScore(ks[i]) == LITERAL {
        LiteralAt(ks, ps, i);
        LiteralAt(ls, ps, i);
      }
    }
  }

  /** Two keys that tie on one request are the same key up to variable names. */
  lemma TieMeansSameShape(a: string, b: string, verb: string, path: string)
    requires GreedyLast(a) && GreedyLast(b)
    requires RankOf(a, verb, path).Some? && RankOf(a, verb, path) == RankOf(b, verb, path)
    ensures SameShape(a, b)
  {
    var ks, ls, ps := Segments(Parts(a).1), Segments(Parts(b).1), Segments(path);
    ScoreExactly(ks, ps);
    ScoreExactly(ls, ps);
    TieSegments(ks, ls, ps, RankOf(a, verb, path).value.score);
  }

  lemma SegmentSelfAgrees(ks: seq<string>)
    requires FirstGreedy(ks) + 1 >= |ks|
    ensures Matches(ks, ks)
  {}

  lemma {:induction false} ShapeKeepsGreedy(ks: seq<string>, ls: seq<string>)
    requires |ks| == |ls| && forall i :: 0 <= i < |ks| ==> SameClass(ks[i], ls[i])
    ensures FirstGreedy(ks) == FirstGreedy(ls)
  {
    if ks != [] {
      assert SameClass(ks[0], ls[0]);
      if ks[0] != PROXY {
        forall i | 0 <= i < |ks| - 1 ensures SameClass(ks[1..][i], ls[1..][i]) { assert SameClass(ks[i + 1], ls[i + 1]); }
        ShapeKeepsGreedy(ks[1..], ls[1..]);
      }
    }
  }

  /** And keys of one shape do tie: on the request spelt by either of them. */
  lemma SameShapeTies(a: string, b: string)
    requires GreedyLast(a) && SameShape(a, b)
    ensures var (verb, path) := Parts(a);
      RankOf(a, verb, path).Some? && RankOf(a, verb, path) == RankOf(b, verb, path)
  {
    var path := Parts(a).1;
    var ks, ls := Segments(path), Segments(Parts(b).1);
    SegmentSelfAgrees(ks);
    ShapeKeepsGreedy(ks, ls);
    forall i | 0 <= i < FirstGreedy(ls) && i < |ks| ensures Agrees(ls[i], ks[i]) {
      assert SameClass(ks[i], ls[i]);
    }
    ScoreExactly(ks, ks);
    ScoreExactly(ls, ks);
    var x, y := Score(ks, ks).value, Score(ls, ks).value;
    assert |x| == |y|;
    forall i | 0 <= i < |x| ensures x[i] == y[i] { assert SameClass(ks[i], ls[i]); }
    assert x == y;
  }

  function Answer(keys: seq<string>, verb: string, path: string): Option<string> {
    var i := Resolved(keys, verb, path);
    if i.Some? then Some(keys[i.value]) else None
  }

  predicate AllGreedyLast(keys: seq<string>) {
    forall i :: 0 <= i < |keys| ==> GreedyLast(keys[i])
  }

  predicate NoTwoAlike(keys: seq<string>) {
    forall a, b :: a in keys && b in keys && a != b ==> !SameShape(a, b)
  }

  /** With no two keys alike up to variable names, the answer depends on which keys there are, not on their order or repetition. */
  lemma OrderIndependent(keys: seq<string>, others: seq<string>, verb: string, path: string)
    requires AllGreedyLast(keys) && AllGreedyLast(others) && NoTwoAlike(keys)
    requires forall k :: k in keys <==> k in others
    ensures Answer(keys, verb, path) == Answer(others, verb, path)
  {
    var a, b := Answer(keys, verb, path), Answer(others, verb, path);
    AnswerIsTop(keys, verb, path);
    AnswerIsTop(others, verb, path);
    assert a.Some? <==> b.Some?;
    if a.Some? {
      RankTotal(RankOf(a.value, verb, path).value, RankOf(b.value, verb, path).value);
      TieMeansSameShape(a.value, b.value, verb, path);
    }
  }

  /** No key in the list that matches ranks above the answer, and there is an answer when any matches. */
  lemma AnswerIsTop(keys: seq<string>, verb: string, path: string)
    ensures var a := Answer(keys, verb, path);
      && (a.Some? ==> a.value in keys && RankOf(a.value, verb, path).Some?)
      && forall k :: k in keys && RankOf(k, verb, path).Some? ==>
           a.Some? && !Above(RankOf(k, verb, path).value, RankOf(a.value, verb, path).value)
  {
    var ranks := Ranks(keys, verb, path);
    BestIsFirst(ranks);
    forall k | k in keys && RankOf(k, verb, path).Some?
      ensures Answer(keys, verb, path).Some?
      ensures !Above(RankOf(k, verb, path).value, RankOf(Answer(keys, verb, path).value, verb, path).value)
    {
      var j :| 0 <= j < |keys| && keys[j] == k;
      assert ranks[j].Some?;
    }
  }

  /** The condition is exact: for any two keys, order is immaterial to every request only when they are not alike. */
  lemma OrderMattersExactly(a: string, b: string)
    requires GreedyLast(a) && GreedyLast(b) && a != b
    ensures (forall verb, path :: Answer([a, b], verb, path) == Answer([b, a], verb, path)) <==> !SameShape(a, b)
  {
    if SameShape(a, b) {
      var (verb, path) := Parts(a);
      SameShapeTies(a, b);
      RankTotal(RankOf(a, verb, path).value, RankOf(b, verb, path).value);
      PairAnswer(a, b, verb, path);
      PairAnswer(b, a, verb, path);
      assert Answer([a, b], verb, path) != Answer([b, a], verb, path);
    } else {
      AlikeBoth(a, b);
      forall verb, path ensures Answer([a, b], verb, path) == Answer([b, a], verb, path) {
        OrderIndependent([a, b], [b, a], verb, path);
      }
    }
  }

  lemma PairAnswer(a: string, b: string, verb: string, path: string)
    requires RankOf(a, verb, path).Some? && RankOf(a, verb, path) == RankOf(b, verb, path)
    ensures Answer([a, b], verb, path) == Some(a)
  {
    var ranks := Ranks([a, b], verb, path);
    BestIsFirst(ranks);
    RankTotal(ranks[0].value, ranks[1].value);
    assert ranks[0].Some?;
  }

  lemma AlikeBoth(a: string, b: string)
    requires a != b && !SameShape(a, b)
    ensures NoTwoAlike([a, b])
  {
    forall x, y | x in [a, b] && y in [a, b] && x != y ensures !SameShape(x, y) {
      if SameShape(b, a) { ShapeSymmetric(b, a); }
    }
  }

  lemma ShapeSymmetric(a: string, b: string)
    requires SameShape(a, b)
    ensures SameShape(b, a)
  {}

  // ---------------------------------------------------------------- trailing slashes

  /** A path with a trailing slash is only matched by a key that ends in a slash, a variable or a greedy segment. */
  lemma SlashedMatch(ks: seq<string>, ps: seq<string>)
    requires ps != [] && ps[|ps| - 1] == "" && FirstGreedy(ks) + 1 >= |ks|
    requires Score(ks, ps).Some?
    ensures ks != [] && (ks[|ks| - 1] == "" || SegmentScore(ks[|ks| - 1]) != LITERAL)
  {
    ScoreExactly(ks, ps);
    GreedyAt(ks);
    if FirstGreedy(ks) == |ks| { assert Agrees(ks[|ks| - 1], ps[|ps| - 1]); }
  }

  /** The variable is not ruled out: it takes the empty segment wherever the rest of the key matches. */
  lemma VariableTakesEmpty(ks: seq<string>, ps: seq<string>, v: string)
    requires Score(ks, ps).Some? && FirstGreedy(ks) == |ks| && SegmentScore(v) == VARIABLE
    ensures Score(ks + [v], ps + [""]) == Some(Score(ks, ps).value + [VARIABLE])
  {
    ScoreExactly(ks, ps);
    GreedyAt(ks);
    var ls, qs := ks + [v], ps + [""];
    forall i | 0 <= i < |ls| ensures ls[i] != PROXY && Agrees(ls[i], qs[i]) {
      if i < |ks| { assert Agrees(ks[i], ps[i]); }
    }
    GreedyIs(ls, |ls|);
    ScoreExactly(ls, qs);
    ClassesDetermine(ls, Score(ls, qs).value, Score(ks, ps).value + [VARIABLE]);
  }

  predicate EndsInSlash(segments: seq<string>) {
    segments != [] && segments[|segments| - 1] == ""
  }

  predicate KeyEndsInSlash(key: string) {
    EndsInSlash(Segments(Parts(key).1))
  }

  lemma {:induction false} SplitJoined(s: string, sep: char, t: string)
    ensures SplitAt(s + [sep] + t, sep) == SplitAt(s, sep) + SplitAt(t, sep)
  {
    var whole := s + [sep] + t;
    if s == "" {
      assert whole[0] == sep && whole[1..] == t;
    } else {
      assert whole[0] == s[0] && whole[1..] == s[1..] + [sep] + t;
      SplitJoined(s[1..], sep, t);
      SplitHead(s, sep, SplitAt(t, sep));
    }
  }

  /** What the first character does to a split does not reach what is appended. */
  lemma SplitHead(s: string, sep: char, more: seq<string>)
    requires s != ""
    ensures var rest := SplitAt(s[1..], sep) + more;
      SplitAt(s, sep) + more == if s[0] == sep then [""] + rest else [[s[0]] + rest[0]] + rest[1..]
  {
    var rest := SplitAt(s[1..], sep);
    assert (rest + more)[0] == rest[0] && (rest + more)[1..] == rest[1..] + more;
  }

  lemma {:induction false} SplitNone(s: string, sep: char)
    requires sep !in s
    ensures SplitAt(s, sep) == [s]
  {
    if s != "" {
      SplitNone(s[1..], sep);
      assert s == [s[0]] + s[1..];
    }
  }

  /** One more segment, the empty one when nothing follows the slash. */
  lemma SegmentsMore(path: string, last: string)
    requires Trim(path) != "" && '/' !in last
    ensures Segments(path + "/" + last) == Segments(path) + [last]
  {
    SplitJoined(Trim(path), '/', last);
    SplitNone(last, '/');
    assert Trim(path + "/" + last) == Trim(path) + "/" + last;
  }

  /** The key's last segment takes the empty one, and the segments in front agree. */
  predicate TakesSlash(ks: seq<string>, ps: seq<string>) {
    ks != [] && var n := |ks| - 1;
      && (if ks[n] == PROXY then n <= |ps| else SegmentScore(ks[n]) == VARIABLE && n == |ps|)
      && FrontAgrees(ks, ps, n)
  }

  predicate FrontAgrees(ks: seq<string>, ps: seq<string>, n: nat) {
    forall i :: 0 <= i < n && i < |ps| && i < |ks| ==> Agrees(ks[i], ps[i])
  }

  lemma FrontLonger(ks: seq<string>, ps: seq<string>, n: nat)
    requires n <= |ps|
    ensures FrontAgrees(ks, ps + [""], n) <==> FrontAgrees(ks, ps, n)
  {
    if FrontAgrees(ks, ps + [""], n) {
      forall i | 0 <= i < n && i < |ks| ensures Agrees(ks[i], ps[i]) { assert Agrees(ks[i], (ps + [""])[i]); }
    }
  }

  lemma GreedyPlace(ks: seq<string>, i: nat)
    requires i <= FirstGreedy(ks) && i < |ks|
    ensures ks[i] == PROXY <==> i == FirstGreedy(ks)
  {
    GreedyAt(ks);
  }

  lemma GreedyLastAt(ks: seq<string>)
    requires FirstGreedy(ks) + 1 >= |ks| && ks != []
    ensures ks[|ks| - 1] == PROXY <==> FirstGreedy(ks) == |ks| - 1
  {
    GreedyPlace(ks, |ks| - 1);
  }

  /**
    A key that does not end in a slash matches a path that does exactly when its last segment is a
    variable in the empty segment's place, or a greedy one there or before, and the segments in front agree.
  */
  lemma SlashedMatchExactly(ks: seq<string>, ps: seq<string>)
    requires FirstGreedy(ks) + 1 >= |ks| && !EndsInSlash(ks)
    ensures Score(ks, ps + [""]).Some? <==> TakesSlash(ks, ps)
  {
    ScoreExactly(ks, ps + [""]);
    if ks != [] {
      GreedyLastAt(ks);
      if FirstGreedy(ks) < |ks| { GreedyTakesSlash(ks, ps); } else { VariableTakesSlash(ks, ps); }
    }
  }

  lemma GreedyTakesSlash(ks: seq<string>, ps: seq<string>)
    requires ks != [] && ks[|ks| - 1] == PROXY && FirstGreedy(ks) == |ks| - 1
    ensures Matches(ks, ps + [""]) <==> TakesSlash(ks, ps)
  {
    if |ks| - 1 <= |ps| { FrontLonger(ks, ps, |ks| - 1); }
  }

  lemma VariableTakesSlash(ks: seq<string>, ps: seq<string>)
    requires ks != [] && ks[|ks| - 1] != PROXY && ks[|ks| - 1] != "" && FirstGreedy(ks) == |ks|
    ensures Matches(ks, ps + [""]) <==> TakesSlash(ks, ps)
  {
    var n := |ks| - 1;
    LastOfKey(ks[n]);
    if n == |ps| {
      FrontLonger(ks, ps, n);
      OneMoreAgrees(ks, ps + [""], n);
    }
  }

  /** All agree exactly when those in front do and the last does. */
  lemma OneMoreAgrees(ks: seq<string>, qs: seq<string>, n: nat)
    requires |ks| == |qs| == n + 1
    ensures FrontAgrees(ks, qs, n + 1) <==> FrontAgrees(ks, qs, n) && Agrees(ks[n], qs[n])
  {}

  lemma LastOfKey(k: string)
    requires k != "" && k != PROXY
    ensures Agrees(k, "") <==> SegmentScore(k) == VARIABLE
  {}

  lemma ShapeTellsSlash(a: string, b: string)
    requires SameShape(a, b)
    ensures KeyEndsInSlash(a) <==> KeyEndsInSlash(b)
  {
    var ks, ls := Segments(Parts(a).1), Segments(Parts(b).1);
    if ks != [] { assert SameClass(ks[|ks| - 1], ls[|ls| - 1]); }
  }

  /** Of two matching keys a tie cannot be between one that ends in a slash and one that does not. */
  lemma SlashTells(a: string, b: string, verb: string, path: string)
    requires GreedyLast(a) && GreedyLast(b) && KeyEndsInSlash(a) && !KeyEndsInSlash(b)
    requires RankOf(a, verb, path).Some? && RankOf(b, verb, path).Some?
    ensures RankOf(a, verb, path) != RankOf(b, verb, path)
  {
    if RankOf(a, verb, path) == RankOf(b, verb, path) {
      TieMeansSameShape(a, b, verb, path);
      ShapeTellsSlash(a, b);
    }
  }

  /** The key matches, and outranks every match that ends in a slash. */
  predicate BeatsSlashed(keys: seq<string>, verb: string, path: string, k: string) {
    && k in keys && !KeyEndsInSlash(k) && RankOf(k, verb, path).Some?
    && forall j :: j in keys && KeyEndsInSlash(j) && RankOf(j, verb, path).Some? ==>
         Above(RankOf(k, verb, path).value, RankOf(j, verb, path).value)
  }

  /** A path is resolved to a key that does not end in a slash exactly when one matches and outranks every match that does. */
  lemma ResolvesUnslashedExactly(keys: seq<string>, verb: string, path: string)
    requires AllGreedyLast(keys)
    ensures Answer(keys, verb, path).Some? && !KeyEndsInSlash(Answer(keys, verb, path).value)
       <==> exists k :: BeatsSlashed(keys, verb, path, k)
  {
    AnswerIsTop(keys, verb, path);
    var answer := Answer(keys, verb, path);
    if answer.Some? && !KeyEndsInSlash(answer.value) {
      var top := RankOf(answer.value, verb, path).value;
      forall j | j in keys && KeyEndsInSlash(j) && RankOf(j, verb, path).Some? ensures Above(top, RankOf(j, verb, path).value) {
        RankTotal(top, RankOf(j, verb, path).value);
        SlashTells(j, answer.value, verb, path);
      }
      assert BeatsSlashed(keys, verb, path, answer.value);
    }
    if k :| BeatsSlashed(keys, verb, path, k) {
      assert k in keys && answer.Some?;
      assert !Above(RankOf(k, verb, path).value, RankOf(answer.value, verb, path).value);
    }
  }

  lemma {:induction false} PartsJoin(verb: string, path: string)
    requires ' ' !in verb
    ensures Parts(verb + " " + path) == (verb, path)
  {
    var key := verb + " " + path;
    if verb == "" {
      assert key[0] == ' ' && key[1..] == path;
    } else {
      assert key[0] == verb[0] && key[1..] == verb[1..] + " " + path;
      PartsJoin(verb[1..], path);
      assert verb == [verb[0]] + verb[1..];
    }
  }

  /** Any path with a slash behind it resolves to the key that has a variable there, when that is the key there is. */
  lemma SlashedResolves(verb: string, path: string, v: string)
    requires ' ' !in verb && Trim(path) != "" && FirstGreedy(Segments(path)) == |Segments(path)|
    requires SegmentScore(v) == VARIABLE && '/' !in v
    ensures var key := verb + " " + (path + "/" + v);
      Answer([key], verb, path + "/") == Some(key) && !KeyEndsInSlash(key)
  {
    var key := verb + " " + (path + "/" + v);
    PartsJoin(verb, path + "/" + v);
    SegmentsMore(path, v);
    SegmentsMore(path, "");
    assert path + "/" + "" == path + "/";
    SegmentSelfAgrees(Segments(path));
    ScoreExactly(Segments(path), Segments(path));
    VariableTakesEmpty(Segments(path), Segments(path), v);
    assert RankOf(key, verb, path + "/").Some?;
    AnswerIsTop([key], verb, path + "/");
  }

  lemma NoGreedyIn(segment: string)
    requires segment != PROXY
    ensures FirstGreedy([segment]) == 1
  {
    assert [segment][1..] == [];
  }

  lemma PathOfOne()
    ensures Trim("/a") == "a" && Segments("/a") == ["a"] && FirstGreedy(Segments("/a")) == 1
  {
    SplitNone("a", '/');
    NoGreedyIn("a");
  }

  /** So `GET /a/` resolves to `GET /a/{id}`. */
  lemma SlashedInput()
    ensures Answer(["GET" + " " + ("/a" + "/" + "{id}")], "GET", "/a" + "/") == Some("GET" + " " + ("/a" + "/" + "{id}"))
  {
    PathOfOne();
    SlashedResolves("GET", "/a", "{id}");
  }
}
