/** What every call on the processor keeps: its buffer invariant and the whereabouts of every span. */
module TailInvariants {
  import opened OrderedDict
  import opened TailSampling

  // ---------------------------------------------------------------- the buffer invariant

  /** Start times follow the buffer's order. */
  ghost predicate Timed(keys: seq<nat>, at: map<nat, int>) {
    keys == [] ||
    var n := |keys| - 1;
    && Timed(keys[..n], at)
    && keys[n] in at
    && forall k :: k in keys[..n] && k in at ==> at[k] <= at[keys[n]]
  }

  ghost predicate KeysOk(buffers: Dict<seq<Span>>, startedAt: Dict<int>) {
    && buffers.Ok() && startedAt.Ok()
    && buffers.keys == startedAt.keys
    && Timed(startedAt.keys, startedAt.at)
  }

  /** One buffer: within its bound, never empty, and all of one trace. */
  ghost predicate BufferFilled(c: Settings, k: nat, spans: seq<Span>) {
    1 <= |spans| <= c.maxSpans && forall i :: 0 <= i < |spans| ==> spans[i].trace == k
  }

  ghost predicate Filled(c: Settings, at: map<nat, seq<Span>>) {
    forall k :: k in at ==> BufferFilled(c, k, at[k])
  }

  ghost predicate Unmarked(at: map<nat, seq<Span>>, keep: set<nat>, drop: set<nat>) {
    forall k :: k in at ==> k !in keep && k !in drop
  }

  /** Nothing sampled out was an error, or under the bound. */
  ghost predicate SampledFairly(c: Settings, b: Batch) {
    && b.spans != []
    && !Sampled(b.trace, c.bound)
    && (forall i :: 0 <= i < |b.spans| ==> b.spans[i].trace == b.trace)
    && (c.alwaysSampleErrors ==> forall i :: 0 <= i < |b.spans| ==> !b.spans[i].error)
  }

  ghost predicate AllFair(c: Settings, batches: seq<Batch>) {
    forall i :: 0 <= i < |batches| ==> SampledFairly(c, batches[i])
  }

  /** Under the export policy nothing overflows away. */
  predicate PolicyOk(c: Settings, overflowedDrop: set<nat>, overflowed: seq<Span>) {
    c.onOverflow.ExportOverflow? ==> overflowedDrop == {} && overflowed == []
  }

  /** All that holds between any two calls, and between the evictions of one. */
  ghost predicate Core(c: Settings, s: State) {
    && KeysOk(s.buffers, s.startedAt)
    && Filled(c, s.buffers.at)
    && Unmarked(s.buffers.at, s.overflowedKeep, s.overflowedDrop)
    && AllFair(c, s.log.sampledOut)
    && PolicyOk(c, s.overflowedDrop, s.log.overflowed)
  }

  ghost predicate Fits(c: Settings, s: State) {
    |s.buffers.keys| <= c.maxTraces || forall k :: k in s.buffers.keys ==> IsOpen(s.openSpans, k)
  }

  ghost predicate Inv(c: Settings, s: State) {
    Core(c, s) && Fits(c, s) && (s.down ==> s.buffers.keys == [])
  }

  /** Every start time is at most `time`. */
  ghost predicate StartedBy(at: map<nat, int>, time: int) {
    forall k :: k in at ==> at[k] <= time
  }

  // ---------------------------------------------------------------- counting spans

  lemma {:induction false} TimesConcat(x: Span, a: seq<Span>, b: seq<Span>)
    ensures Times(x, a + b) == Times(x, a) + Times(x, b)
  {
    if b == [] {
      assert a + b == a;
    } else {
      var n := |b| - 1;
      assert (a + b)[..|a + b| - 1] == a + b[..n];
      TimesConcat(x, a, b[..n]);
    }
  }

  lemma {:induction false} BufferedAgree(x: Span, keys: seq<nat>, a: map<nat, seq<Span>>, b: map<nat, seq<Span>>)
    requires forall k :: k in keys ==> Spans(a, k) == Spans(b, k)
    ensures Buffered(x, keys, a) == Buffered(x, keys, b)
  {
    if keys != [] { BufferedAgree(x, keys[..|keys| - 1], a, b); }
  }

  lemma {:induction false} BufferedRemove(x: Span, keys: seq<nat>, at: map<nat, seq<Span>>, k: nat)
    requires Distinct(keys)
    ensures Buffered(x, keys, at) == Buffered(x, Remove(keys, k), at - {k}) + (if k in keys then Times(x, Spans(at, k)) else 0)
  {
    if keys != [] {
      var n := |keys| - 1;
      var front := keys[..n];
      BufferedRemove(x, front, at, k);
      if keys[n] != k {
        assert Remove(keys, k)[..|Remove(keys, k)| - 1] == Remove(front, k);
        assert k in keys <==> k in front;
      }
    }
  }

  lemma {:induction false} BufferedGrow(x: Span, keys: seq<nat>, at: map<nat, seq<Span>>, k: nat, span: Span)
    requires Distinct(keys)
    ensures Buffered(x, keys, at[k := Spans(at, k) + [span]])
         == Buffered(x, keys, at) + (if k in keys && x == span then 1 else 0)
  {
    if keys != [] {
      var n := |keys| - 1;
      BufferedGrow(x, keys[..n], at, k, span);
      TimesConcat(x, Spans(at, k), [span]);
    }
  }

  /** Growing one trace's buffer by a span, or starting it, adds exactly that span. */
  lemma BufferedSet(x: Span, d: Dict<seq<Span>>, k: nat, span: Span)
    requires d.Ok()
    ensures var e := d.Set(k, Spans(d.at, k) + [span]);
      Buffered(x, e.keys, e.at) == Buffered(x, d.keys, d.at) + if x == span then 1 else 0
  {
    var e := d.Set(k, Spans(d.at, k) + [span]);
    BufferedGrow(x, d.keys, d.at, k, span);
    assert k in d.keys <==> k in d.at;
    if k !in d.at {
      assert e.keys[..|e.keys| - 1] == d.keys;
      assert Spans(e.at, k) == [span] && Times(x, [span]) == if x == span then 1 else 0;
    }
  }

  // ---------------------------------------------------------------- taking one trace

  lemma {:induction false} DelTimed(keys: seq<nat>, at: map<nat, int>, k: nat)
    requires Timed(keys, at)
    ensures Timed(Remove(keys, k), at - {k})
  {
    if keys != [] {
      var n := |keys| - 1;
      DelTimed(keys[..n], at, k);
      if keys[n] != k {
        assert Remove(keys, k)[..|Remove(keys, k)| - 1] == Remove(keys[..n], k);
      }
    }
  }

  lemma DelKeys(buffers: Dict<seq<Span>>, startedAt: Dict<int>, t: nat)
    requires KeysOk(buffers, startedAt)
    ensures KeysOk(buffers.Del(t), startedAt.Del(t))
  {
    DictOps(buffers, t, []);
    DictOps(startedAt, t, 0);
    DelTimed(startedAt.keys, startedAt.at, t);
  }

  /** Taking a trace out of the buffer takes out exactly its spans. */
  lemma LeavesOnce(x: Span, d: Dict<seq<Span>>, t: nat)
    requires d.Ok()
    ensures Buffered(x, d.Del(t).keys, d.Del(t).at) + Times(x, Spans(d.at, t)) == Buffered(x, d.keys, d.at)
  {
    assert t in d.keys <==> t in d.at;
    BufferedRemove(x, d.keys, d.at, t);
  }

  lemma DroppedConserves(x: Span, s: State, s': State, t: nat, spans: seq<Span>)
    requires s.buffers.Ok() && s'.buffers == s.buffers.Del(t)
    requires s'.log == s.log.(overflowed := s.log.overflowed + spans)
    ensures Everywhere(x, s') + Times(x, Spans(s.buffers.at, t)) == Everywhere(x, s) + Times(x, spans)
  {
    TimesConcat(x, s.log.overflowed, spans);
    LeavesOnce(x, s.buffers, t);
  }

  lemma StreamedConserves(x: Span, s: State, s': State, t: nat, spans: seq<Span>)
    requires s.buffers.Ok() && s'.buffers == s.buffers.Del(t)
    requires s'.log == s.log.(exported := s.log.exported + [spans])
    ensures Everywhere(x, s') + Times(x, Spans(s.buffers.at, t)) == Everywhere(x, s) + Times(x, spans)
  {
    assert s'.log.exported[..|s'.log.exported| - 1] == s.log.exported;
    LeavesOnce(x, s.buffers, t);
  }

  lemma SampledConserves(x: Span, s: State, s': State, t: nat, spans: seq<Span>)
    requires s.buffers.Ok() && s'.buffers == s.buffers.Del(t)
    requires s'.log == s.log.(sampledOut := s.log.sampledOut + [Batch(t, spans)])
    ensures Everywhere(x, s') + Times(x, Spans(s.buffers.at, t)) == Everywhere(x, s) + Times(x, spans)
  {
    assert s'.log.sampledOut[..|s'.log.sampledOut| - 1] == s.log.sampledOut;
    LeavesOnce(x, s.buffers, t);
  }

  lemma JudgeConserves(x: Span, c: Settings, s: State, t: nat)
    requires s.buffers.Ok()
    ensures Judge(c, s, t).buffers.Ok() && Everywhere(x, Judge(c, s, t)) == Everywhere(x, s)
  {
    if t in s.buffers.at {
      DictOps(s.buffers, t, []);
      if ShouldKeep(c, t, s.buffers.at[t]) {
        StreamedConserves(x, s, Judge(c, s, t), t, s.buffers.at[t]);
      } else {
        SampledConserves(x, s, Judge(c, s, t), t, s.buffers.at[t]);
      }
    }
  }

  lemma DelAbsent<V>(d: Dict<V>, t: nat)
    requires t !in d.keys && t !in d.at
    ensures d.Del(t) == d
  {}

  lemma JudgeShape(c: Settings, s: State, t: nat)
    requires t in s.buffers.at || (s.buffers.Del(t) == s.buffers && s.startedAt.Del(t) == s.startedAt)
    ensures var s' := Judge(c, s, t);
      && s'.buffers == s.buffers.Del(t) && s'.startedAt == s.startedAt.Del(t)
      && s'.openSpans == s.openSpans && s'.down == s.down && s'.log.overflowed == s.log.overflowed
      && s'.overflowedKeep == s.overflowedKeep && s'.overflowedDrop == s.overflowedDrop
  {}

  lemma JudgeFair(c: Settings, s: State, t: nat)
    requires Filled(c, s.buffers.at) && AllFair(c, s.log.sampledOut)
    ensures AllFair(c, Judge(c, s, t).log.sampledOut)
  {
    if t in s.buffers.at { assert BufferFilled(c, t, s.buffers.at[t]); }
  }

  /** One decision keeps the invariant and touches only its own trace. */
  lemma JudgeKeeps(c: Settings, s: State, t: nat)
    requires Core(c, s)
    ensures Core(c, Judge(c, s, t)) && TookOne(s, Judge(c, s, t), t)
  {
    if t !in s.buffers.at {
      assert t !in s.buffers.keys && t !in s.startedAt.keys && t !in s.startedAt.at;
      DelAbsent(s.buffers, t);
      DelAbsent(s.startedAt, t);
    }
    JudgeShape(c, s, t);
    JudgeFair(c, s, t);
    DelKeys(s.buffers, s.startedAt, t);
  }

  lemma EvictKeeps(c: Settings, s: State, t: nat)
    requires Core(c, s)
    ensures Core(c, Evict(c, s, t)) && TookOne(s, Evict(c, s, t), t)
  {
    JudgeKeeps(c, s, t);
  }

  ghost predicate TookOne(s: State, s': State, t: nat) {
    && s'.buffers == s.buffers.Del(t) && s'.startedAt == s.startedAt.Del(t)
    && s'.openSpans == s.openSpans && s'.down == s.down
  }

  /** What a series of decisions leaves alone: everything but the traces it took. */
  ghost predicate Took(s: State, s': State, ts: seq<nat>) {
    && (forall k :: k in s'.buffers.at <==> k in s.buffers.at && k !in ts)
    && (forall k :: k in s'.buffers.at ==> s'.buffers.at[k] == s.buffers.at[k])
    && (forall k :: k in s'.startedAt.at ==> k in s.startedAt.at && s'.startedAt.at[k] == s.startedAt.at[k])
    && s'.openSpans == s.openSpans && s'.down == s.down
  }

  lemma TookMore(s: State, s1: State, s': State, ts: seq<nat>, t: nat)
    requires Took(s, s1, ts) && TookOne(s1, s', t)
    ensures Took(s, s', ts + [t])
  {}

  lemma {:induction false} EvictAllKeeps(c: Settings, s: State, ts: seq<nat>)
    requires Core(c, s)
    ensures Core(c, EvictAll(c, s, ts)) && Took(s, EvictAll(c, s, ts), ts)
  {
    if ts != [] {
      var n := |ts| - 1;
      assert ts[..n] + [ts[n]] == ts;
      EvictAllKeeps(c, s, ts[..n]);
      var s1 := EvictAll(c, s, ts[..n]);
      EvictKeeps(c, s1, ts[n]);
      TookMore(s, s1, EvictAll(c, s, ts), ts[..n], ts[n]);
    }
  }

  lemma {:induction false} EvictAllConserves(x: Span, c: Settings, s: State, ts: seq<nat>)
    requires s.buffers.Ok()
    ensures EvictAll(c, s, ts).buffers.Ok() && Everywhere(x, EvictAll(c, s, ts)) == Everywhere(x, s)
  {
    if ts != [] {
      var n := |ts| - 1;
      EvictAllConserves(x, c, s, ts[..n]);
      EvictConserves(x, c, EvictAll(c, s, ts[..n]), ts[n]);
    }
  }

  lemma EvictConserves(x: Span, c: Settings, s: State, t: nat)
    requires s.buffers.Ok()
    ensures Evict(c, s, t).buffers.Ok() && Everywhere(x, Evict(c, s, t)) == Everywhere(x, s)
  {
    JudgeConserves(x, c, s, t);
  }

  lemma {:induction false} JudgeAllKeeps(c: Settings, s: State, ts: seq<nat>)
    requires Core(c, s)
    ensures Core(c, JudgeAll(c, s, ts)) && Took(s, JudgeAll(c, s, ts), ts)
  {
    if ts != [] {
      var n := |ts| - 1;
      assert ts[..n] + [ts[n]] == ts;
      JudgeAllKeeps(c, s, ts[..n]);
      var s1 := JudgeAll(c, s, ts[..n]);
      JudgeKeeps(c, s1, ts[n]);
      TookMore(s, s1, JudgeAll(c, s, ts), ts[..n], ts[n]);
    }
  }

  lemma {:induction false} JudgeAllConserves(x: Span, c: Settings, s: State, ts: seq<nat>)
    requires s.buffers.Ok()
    ensures JudgeAll(c, s, ts).buffers.Ok() && Everywhere(x, JudgeAll(c, s, ts)) == Everywhere(x, s)
    ensures JudgeAll(c, s, ts).log.exporterStops == s.log.exporterStops
  {
    if ts != [] {
      var n := |ts| - 1;
      JudgeAllConserves(x, c, s, ts[..n]);
      JudgeConserves(x, c, JudgeAll(c, s, ts[..n]), ts[n]);
    }
  }

  // ---------------------------------------------------------------- eviction

  /** The trace eviction takes next, if it takes one: the oldest completed one. */
  lemma NextToEvict(c: Settings, s: State)
    requires s.buffers.Ok()
    ensures var done := Completed(s.buffers.keys, s.openSpans);
      if done == [] then forall k :: k in s.buffers.keys ==> IsOpen(s.openSpans, k)
      else done[0] in s.buffers.at && !IsOpen(s.openSpans, done[0]) && |Evict(c, s, done[0]).buffers.keys| == |s.buffers.keys| - 1
  {
    var done := Completed(s.buffers.keys, s.openSpans);
    CompletedMembers(s.buffers.keys, s.openSpans);
    if done != [] {
      assert done[0] in done;
      RemoveDistinct(s.buffers.keys, done[0]);
    } else {
      forall k | k in s.buffers.keys ensures IsOpen(s.openSpans, k) { assert k !in done; }
    }
  }

  /** What eviction by count may change. */
  ghost predicate Shed(s: State, s': State) {
    && (forall k :: k in s'.startedAt.at ==> k in s.startedAt.at && s'.startedAt.at[k] == s.startedAt.at[k])
    && s'.openSpans == s.openSpans && s'.down == s.down
  }

  /** Eviction by count stops exactly when the buffer fits or every trace left in it is open. */
  lemma {:induction false} EvictToFitKeeps(c: Settings, s: State)
    requires Core(c, s)
    ensures Core(c, EvictToFit(c, s)) && Fits(c, EvictToFit(c, s)) && Shed(s, EvictToFit(c, s))
    decreases |s.buffers.keys|
  {
    var done := Completed(s.buffers.keys, s.openSpans);
    NextToEvict(c, s);
    if |s.buffers.keys| > c.maxTraces && done != [] {
      EvictKeeps(c, s, done[0]);
      EvictToFitKeeps(c, Evict(c, s, done[0]));
    }
  }

  lemma {:induction false} EvictToFitConserves(x: Span, c: Settings, s: State)
    requires s.buffers.Ok()
    ensures Everywhere(x, EvictToFit(c, s)) == Everywhere(x, s)
    decreases |s.buffers.keys|
  {
    var done := Completed(s.buffers.keys, s.openSpans);
    NextToEvict(c, s);
    if |s.buffers.keys| > c.maxTraces && done != [] {
      EvictConserves(x, c, s, done[0]);
      EvictToFitConserves(x, c, Evict(c, s, done[0]));
    }
  }

  /** Only completed traces leave by count, and no more of them than it takes to fit. */
  lemma {:induction false} EvictToFitSpares(c: Settings, s: State)
    requires Core(c, s)
    ensures var s' := EvictToFit(c, s);
      && (forall k :: k in s'.buffers.at ==> k in s.buffers.at && s'.buffers.at[k] == s.buffers.at[k])
      && (forall k :: k in s.buffers.at && IsOpen(s.openSpans, k) ==> k in s'.buffers.at)
      && (s' == s || |s'.buffers.keys| >= c.maxTraces)
    decreases |s.buffers.keys|
  {
    var done := Completed(s.buffers.keys, s.openSpans);
    NextToEvict(c, s);
    if |s.buffers.keys| > c.maxTraces && done != [] {
      EvictKeeps(c, s, done[0]);
      EvictToFitSpares(c, Evict(c, s, done[0]));
    }
  }

  /** The age rule: exactly the traces at or past the limit leave, whatever their state. */
  lemma AgedLeave(c: Settings, s: State, deadline: int)
    requires Core(c, s)
    ensures var s' := EvictAll(c, s, Aged(s.startedAt.keys, s.startedAt.at, deadline));
      forall k :: k in s'.buffers.at <==> k in s.startedAt.at && s.startedAt.at[k] > deadline
  {
    var aged := Aged(s.startedAt.keys, s.startedAt.at, deadline);
    AgedMembers(s.startedAt.keys, s.startedAt.at, deadline);
    SameKeys(c, s);
    TakesAged(c, s, aged, deadline);
  }

  lemma SameKeys(c: Settings, s: State)
    requires Core(c, s)
    ensures forall k :: (k in s.buffers.at <==> k in s.startedAt.at) && (k in s.startedAt.keys <==> k in s.startedAt.at)
  {
    assert forall k :: k in s.buffers.at <==> k in s.buffers.keys;
  }

  lemma TakesAged(c: Settings, s: State, aged: seq<nat>, deadline: int)
    requires Core(c, s)
    requires forall k :: k in aged <==> k in s.startedAt.at && s.startedAt.at[k] <= deadline
    requires forall k :: k in s.buffers.at <==> k in s.startedAt.at
    ensures forall k :: k in EvictAll(c, s, aged).buffers.at <==> k in s.startedAt.at && s.startedAt.at[k] > deadline
  {
    EvictAllKeeps(c, s, aged);
  }

  // ---------------------------------------------------------------- an ended span

  lemma {:induction false} TimedAgree(keys: seq<nat>, a: map<nat, int>, b: map<nat, int>)
    requires Timed(keys, a)
    requires forall k :: k in keys && k in a ==> k in b && b[k] == a[k]
    requires forall k :: k in keys && k in b ==> k in a
    ensures Timed(keys, b)
  {
    if keys != [] { TimedAgree(keys[..|keys| - 1], a, b); }
  }

  lemma SetTimed(d: Dict<int>, t: nat, started: int)
    requires d.Ok() && Timed(d.keys, d.at) && t !in d.at && StartedBy(d.at, started)
    ensures var e := d.Set(t, started); Timed(e.keys, e.at)
  {
    var e := d.Set(t, started);
    assert e.keys[..|e.keys| - 1] == d.keys;
    TimedAgree(d.keys, d.at, e.at);
  }

  lemma SetStarted(at: map<nat, int>, t: nat, started: int)
    requires StartedBy(at, started)
    ensures StartedBy(at[t := started], started)
  {}

  lemma AddedKeys(s: State, span: Span, started: int)
    requires KeysOk(s.buffers, s.startedAt) && StartedBy(s.startedAt.at, started)
    ensures var s1 := Added(s, span, started);
      KeysOk(s1.buffers, s1.startedAt) && StartedBy(s1.startedAt.at, started)
  {
    var t := span.trace;
    DictOps(s.buffers, t, Spans(s.buffers.at, t) + [span]);
    DictOps(s.startedAt, t, started);
    assert t in s.startedAt.at <==> t in s.buffers.at by { assert t in s.buffers.keys <==> t in s.startedAt.keys; }
    if t !in s.startedAt.at {
      SetTimed(s.startedAt, t, started);
      SetStarted(s.startedAt.at, t, started);
    }
  }

  lemma AddedFilled(c: Settings, s: State, span: Span, started: int)
    requires Filled(c, s.buffers.at) && |Spans(s.buffers.at, span.trace)| < c.maxSpans
    ensures Filled(c, Added(s, span, started).buffers.at)
  {
    var t := span.trace;
    var spans := Spans(s.buffers.at, t);
    if t in s.buffers.at { assert BufferFilled(c, t, s.buffers.at[t]); }
    assert BufferFilled(c, t, spans + [span]);
  }

  ghost predicate HasRoom(c: Settings, s: State, t: nat) {
    t !in s.overflowedKeep && t !in s.overflowedDrop && |Spans(s.buffers.at, t)| < c.maxSpans
  }

  lemma AddedKeeps(c: Settings, s: State, span: Span, started: int)
    requires Core(c, s) && StartedBy(s.startedAt.at, started) && HasRoom(c, s, span.trace)
    ensures var s1 := Added(s, span, started); Core(c, s1) && StartedBy(s1.startedAt.at, started)
  {
    AddedKeys(s, span, started);
    AddedFilled(c, s, span, started);
  }

  /** What bounding the buffer leaves. */
  ghost predicate Trimmed(c: Settings, s: State, s': State, now: int) {
    Core(c, s') && Fits(c, s') && StartedBy(s'.startedAt.at, now) && s'.down == s.down
  }

  lemma FitKeeps(c: Settings, s: State, s1: State, aged: seq<nat>, now: int)
    requires Core(c, s1) && Took(s, s1, aged) && StartedBy(s.startedAt.at, now)
    ensures Trimmed(c, s, EvictToFit(c, s1), now)
  {
    EvictToFitKeeps(c, s1);
  }

  lemma BoundedKeeps(c: Settings, s: State, now: int)
    requires Core(c, s) && StartedBy(s.startedAt.at, now)
    ensures Trimmed(c, s, Bounded(c, s, now), now)
  {
    EvictedFits(c, s, Aged(s.startedAt.keys, s.startedAt.at, now - c.maxAge), now);
  }

  lemma EvictedFits(c: Settings, s: State, aged: seq<nat>, now: int)
    requires Core(c, s) && StartedBy(s.startedAt.at, now)
    ensures Trimmed(c, s, EvictToFit(c, EvictAll(c, s, aged)), now)
  {
    EvictAllKeeps(c, s, aged);
    FitKeeps(c, s, EvictAll(c, s, aged), aged, now);
  }

  lemma BoundedConserves(x: Span, c: Settings, s: State, now: int)
    requires s.buffers.Ok()
    ensures Everywhere(x, Bounded(c, s, now)) == Everywhere(x, s)
  {
    var aged := Aged(s.startedAt.keys, s.startedAt.at, now - c.maxAge);
    EvictAllConserves(x, c, s, aged);
    EvictToFitConserves(x, c, EvictAll(c, s, aged));
  }

  lemma OneMore(x: Span, spans: seq<Span>, span: Span)
    ensures Times(x, spans + [span]) == Times(x, spans) + if x == span then 1 else 0
  {
    assert (spans + [span])[..|spans|] == spans;
  }

  lemma OverflowConserves(x: Span, c: Settings, s: State, span: Span)
    requires s.buffers.Ok()
    ensures Everywhere(x, Overflow(c, s, span)) == Everywhere(x, s) + if x == span then 1 else 0
  {
    var t := span.trace;
    var spans := Spans(s.buffers.at, t) + [span];
    OneMore(x, Spans(s.buffers.at, t), span);
    if c.onOverflow.DropOverflow? {
      DroppedConserves(x, s, Overflow(c, s, span), t, spans);
    } else {
      StreamedConserves(x, s, Overflow(c, s, span), t, spans);
    }
  }

  lemma OverflowKeeps(c: Settings, s: State, span: Span)
    requires Core(c, s)
    ensures var s' := Overflow(c, s, span); Core(c, s') && TookOne(s, s', span.trace)
  {
    DelKeys(s.buffers, s.startedAt, span.trace);
  }

  /** Ending a span closes at most its own trace. */
  lemma CloseKeeps(s: State, t: nat)
    ensures var s1 := Close(s, t).0;
      s1 == s.(openSpans := s1.openSpans) && (forall k :: k != t && IsOpen(s.openSpans, k) ==> IsOpen(s1.openSpans, k))
  {}

  lemma StreamKeeps(c: Settings, s: State, span: Span, started: int, now: int)
    requires Inv(c, s) && !s.down && (span.trace in s.overflowedDrop || span.trace in s.overflowedKeep)
    ensures var s' := OnEnd(c, s, span, started, now);
      Inv(c, s') && s'.startedAt == s.startedAt && s'.down == s.down
  {
    CloseKeeps(s, span.trace);
    assert span.trace !in s.buffers.at && span.trace !in s.buffers.keys;
    var s' := OnEnd(c, s, span, started, now);
    assert s'.buffers == s.buffers && s'.overflowedKeep <= s.overflowedKeep && s'.overflowedDrop <= s.overflowedDrop;
    assert s'.openSpans == Close(s, span.trace).0.openSpans;
  }

  /** A span ends into a buffer with room, which is then bounded. */
  lemma BufferKeeps(c: Settings, s: State, s1: State, span: Span, started: int, now: int)
    requires Inv(c, s) && s1 == s.(openSpans := s1.openSpans) && !s.down
    requires StartedBy(s.startedAt.at, started) && started <= now && HasRoom(c, s, span.trace)
    ensures Trimmed(c, s, Bounded(c, Added(s1, span, started), now), now)
  {
    AddedKeeps(c, s1, span, started);
    BoundedKeeps(c, Added(s1, span, started), now);
  }

  lemma FillKeeps(c: Settings, s: State, s1: State, span: Span)
    requires Inv(c, s) && s1 == s.(openSpans := s1.openSpans) && !s.down
    requires forall k :: k != span.trace && IsOpen(s.openSpans, k) ==> IsOpen(s1.openSpans, k)
    ensures var s' := Overflow(c, s1, span); Core(c, s') && Fits(c, s') && TookOne(s1, s', span.trace)
  {
    OverflowKeeps(c, s1, span);
    OverflowFits(c, s, s1, Overflow(c, s1, span), span.trace);
  }

  lemma OnEndKeeps(c: Settings, s: State, span: Span, started: int, now: int)
    requires Inv(c, s) && StartedBy(s.startedAt.at, started) && started <= now
    ensures var s' := OnEnd(c, s, span, started, now);
      Inv(c, s') && StartedBy(s'.startedAt.at, now) && s'.down == s.down
  {
    var t := span.trace;
    if s.down {
    } else if t in s.overflowedDrop || t in s.overflowedKeep {
      StreamKeeps(c, s, span, started, now);
    } else {
      CloseKeeps(s, t);
      var s1 := Close(s, t).0;
      if |Spans(s.buffers.at, t)| < c.maxSpans {
        BufferKeeps(c, s, s1, span, started, now);
      } else {
        FillKeeps(c, s, s1, span);
      }
    }
  }

  lemma OverflowFits(c: Settings, s: State, s1: State, s': State, t: nat)
    requires Fits(c, s) && s1 == s.(openSpans := s1.openSpans) && TookOne(s1, s', t)
    requires forall k :: k != t && IsOpen(s.openSpans, k) ==> IsOpen(s1.openSpans, k)
    ensures Fits(c, s')
  {}

  lemma OnEndConserves(x: Span, c: Settings, s: State, span: Span, started: int, now: int)
    requires Inv(c, s) && StartedBy(s.startedAt.at, started)
    ensures Everywhere(x, OnEnd(c, s, span, started, now))
         == Everywhere(x, s) + if !s.down && x == span then 1 else 0
  {
    if !s.down {
      var t := span.trace;
      var s1 := Close(s, t).0;
      CloseKeeps(s, t);
      if t in s.overflowedDrop {
        TimesConcat(x, s.log.overflowed, [span]);
      } else if t in s.overflowedKeep {
        assert Times(x, [span]) == if x == span then 1 else 0;
      } else if |Spans(s.buffers.at, t)| < c.maxSpans {
        AddedKeeps(c, s1, span, started);
        BufferedSet(x, s1.buffers, t, span);
        BoundedConserves(x, c, Added(s1, span, started), now);
      } else {
        OverflowConserves(x, c, s1, span);
      }
    }
  }

  // ---------------------------------------------------------------- flush and shutdown

  /** What a flush leaves: every open trace as it was, and no other. */
  ghost predicate Flushed(s: State, s': State) {
    && s'.down == s.down && s'.openSpans == s.openSpans
    && (forall k :: k in s'.buffers.at <==> k in s.buffers.at && IsOpen(s.openSpans, k))
    && (forall k :: k in s'.buffers.at ==> s'.buffers.at[k] == s.buffers.at[k])
    && (forall k :: k in s'.startedAt.at ==> k in s.startedAt.at && s'.startedAt.at[k] == s.startedAt.at[k])
  }

  lemma TakesCompleted(c: Settings, s: State, done: seq<nat>)
    requires Core(c, s) && forall k :: k in done <==> k in s.buffers.at && !IsOpen(s.openSpans, k)
    ensures Core(c, JudgeAll(c, s, done)) && Flushed(s, JudgeAll(c, s, done))
  {
    JudgeAllKeeps(c, s, done);
  }

  lemma OpenFits(c: Settings, s: State, s': State)
    requires Core(c, s') && Flushed(s, s')
    ensures Fits(c, s')
  {
    assert forall k :: k in s'.buffers.keys <==> k in s'.buffers.at;
  }

  lemma FlushKeeps(c: Settings, s: State)
    requires Core(c, s)
    ensures Core(c, Flush(c, s)) && Fits(c, Flush(c, s)) && Flushed(s, Flush(c, s))
  {
    CompletedMembers(s.buffers.keys, s.openSpans);
    assert forall k :: k in s.buffers.at <==> k in s.buffers.keys;
    TakesCompleted(c, s, Completed(s.buffers.keys, s.openSpans));
    OpenFits(c, s, Flush(c, s));
  }

  lemma SomeKey(keys: seq<nat>)
    ensures keys == [] || exists k :: k in keys
  {
    if keys != [] { assert keys[0] in keys; }
  }

  /** After a shutdown nothing is buffered, and a second one changes nothing at all. */
  lemma ShutdownEmpties(c: Settings, s: State)
    requires Inv(c, s)
    ensures var s' := Shutdown(c, s);
      && Inv(c, s') && s'.down && s'.buffers.keys == [] && s'.startedAt.at == map[]
      && Shutdown(c, s') == s'
  {
    var s' := Shutdown(c, s);
    if !s.down {
      var s1 := s.(openSpans := map[]);
      FlushKeeps(c, s1);
      assert forall k :: k in s'.buffers.keys <==> k in s'.buffers.at;
      SomeKey(s'.buffers.keys);
    }
    assert forall k :: k in s'.startedAt.keys <==> k in s'.startedAt.at;
  }

  lemma ShutdownConserves(x: Span, c: Settings, s: State)
    requires Inv(c, s)
    ensures Everywhere(x, Shutdown(c, s)) == Everywhere(x, s)
    ensures Shutdown(c, s).log.exporterStops == s.log.exporterStops + if s.down then 0 else 1
  {
    if !s.down {
      var s1 := s.(openSpans := map[]);
      JudgeAllConserves(x, c, s1, Completed(s1.buffers.keys, s1.openSpans));
    }
  }
}
