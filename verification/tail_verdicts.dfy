/**
  What becomes of each trace that leaves the buffer by a decision: by age, by count, by a flush or by
  the shutdown. Said of the trace's spans and of where they are found, and of nothing in between.
*/
module TailVerdicts {
  import opened OrderedDict
  import opened TailSampling
  import opened TailInvariants

  /** A trace is wanted for an error of its own, when errors always are, or for its id. */
  ghost predicate Wanted(c: Settings, t: nat, spans: seq<Span>) {
    (c.alwaysSampleErrors && exists span :: span in spans && span.error) || t % 0x1_0000_0000_0000_0000 < c.bound
  }

  /** A wanted trace goes to the exporter and is not sampled out; any other is sampled out and not exported. */
  ghost predicate Verdict(c: Settings, log: Log, log': Log, t: nat, spans: seq<Span>) {
    && log.exported <= log'.exported && log.sampledOut <= log'.sampledOut
    && if Wanted(c, t, spans) then
         spans in log'.exported[|log.exported|..] && Batch(t, spans) !in log'.sampledOut[|log.sampledOut|..]
       else
         spans !in log'.exported[|log.exported|..] && Batch(t, spans) in log'.sampledOut[|log.sampledOut|..]
  }

  // ---------------------------------------------------------------- decisions on a list of traces

  ghost function Kept(c: Settings, at: map<nat, seq<Span>>, ts: seq<nat>): seq<seq<Span>> {
    if ts == [] then [] else
    var n := |ts| - 1;
    Kept(c, at, ts[..n]) + if Wanted(c, ts[n], Spans(at, ts[n])) then [Spans(at, ts[n])] else []
  }

  ghost function Left(c: Settings, at: map<nat, seq<Span>>, ts: seq<nat>): seq<Batch> {
    if ts == [] then [] else
    var n := |ts| - 1;
    Left(c, at, ts[..n]) + if Wanted(c, ts[n], Spans(at, ts[n])) then [] else [Batch(ts[n], Spans(at, ts[n]))]
  }

  lemma {:induction false} KeptMembers(c: Settings, at: map<nat, seq<Span>>, ts: seq<nat>)
    ensures forall t :: t in ts && Wanted(c, t, Spans(at, t)) ==> Spans(at, t) in Kept(c, at, ts)
    ensures forall b :: b in Kept(c, at, ts) ==> exists t :: t in ts && Wanted(c, t, Spans(at, t)) && Spans(at, t) == b
  {
    if ts != [] {
      var n := |ts| - 1;
      KeptMembers(c, at, ts[..n]);
      assert ts == ts[..n] + [ts[n]];
    }
  }

  lemma {:induction false} LeftMembers(c: Settings, at: map<nat, seq<Span>>, ts: seq<nat>)
    ensures forall t :: t in ts && !Wanted(c, t, Spans(at, t)) ==> Batch(t, Spans(at, t)) in Left(c, at, ts)
    ensures forall b :: b in Left(c, at, ts) ==> b.trace in ts && !Wanted(c, b.trace, Spans(at, b.trace)) && b.spans == Spans(at, b.trace)
  {
    if ts != [] {
      var n := |ts| - 1;
      LeftMembers(c, at, ts[..n]);
      assert ts == ts[..n] + [ts[n]];
    }
  }

  /** These traces and no others left the buffer, each decided as it stood, and counted. */
  ghost predicate Gone(c: Settings, s: State, s': State, ts: seq<nat>) {
    && (forall t :: t in ts ==> t in s.buffers.at)
    && (forall t :: t in s'.buffers.at <==> t in s.buffers.at && t !in ts)
    && (forall t :: t in s'.buffers.at ==> s'.buffers.at[t] == s.buffers.at[t])
    && s'.log == s.log.(exported := s.log.exported + Kept(c, s.buffers.at, ts),
                        sampledOut := s.log.sampledOut + Left(c, s.buffers.at, ts))
    && s'.exportedTraces == s.exportedTraces + |Kept(c, s.buffers.at, ts)|
    && s'.sampledOutTraces == s.sampledOutTraces + |Left(c, s.buffers.at, ts)|
  }

  lemma NoneGone(c: Settings, s: State)
    ensures Gone(c, s, s, [])
  {
    assert s.log.exported + [] == s.log.exported && s.log.sampledOut + [] == s.log.sampledOut;
  }

  /** The decision is the one the spans and the id call for. */
  lemma DecidedByWant(c: Settings, t: nat, spans: seq<Span>)
    ensures ShouldKeep(c, t, spans) <==> Wanted(c, t, spans)
  {
    if exists span :: span in spans && span.error {
      var span :| span in spans && span.error;
      var i :| 0 <= i < |spans| && spans[i] == span;
      assert spans[i].error;
    }
  }

  lemma OneMoreGone(c: Settings, s: State, s1: State, ts: seq<nat>, t: nat)
    requires Gone(c, s, s1, ts) && t in s1.buffers.at
    ensures Gone(c, s, Judge(c, s1, t), ts + [t])
  {
    DecidedByWant(c, t, s1.buffers.at[t]);
    var at := s.buffers.at;
    assert (ts + [t])[..|ts|] == ts;
    if Wanted(c, t, at[t]) {
      assert s.log.exported + Kept(c, at, ts) + [at[t]] == s.log.exported + Kept(c, at, ts + [t]);
    } else {
      assert s.log.sampledOut + Left(c, at, ts) + [Batch(t, at[t])] == s.log.sampledOut + Left(c, at, ts + [t]);
    }
  }

  lemma {:induction false} JudgeAllGone(c: Settings, s: State, ts: seq<nat>) returns (gone: seq<nat>)
    ensures Gone(c, s, JudgeAll(c, s, ts), gone)
  {
    if ts == [] {
      NoneGone(c, s);
      gone := [];
    } else {
      var n := |ts| - 1;
      gone := JudgeAllGone(c, s, ts[..n]);
      if ts[n] in JudgeAll(c, s, ts[..n]).buffers.at {
        OneMoreGone(c, s, JudgeAll(c, s, ts[..n]), gone, ts[n]);
        gone := gone + [ts[n]];
      }
    }
  }

  lemma {:induction false} EvictAllGone(c: Settings, s: State, ts: seq<nat>) returns (gone: seq<nat>)
    ensures Gone(c, s, EvictAll(c, s, ts), gone)
    ensures EvictAll(c, s, ts).evictedTraces == s.evictedTraces + |gone|
  {
    if ts == [] {
      NoneGone(c, s);
      gone := [];
    } else {
      var n := |ts| - 1;
      gone := EvictAllGone(c, s, ts[..n]);
      if ts[n] in EvictAll(c, s, ts[..n]).buffers.at {
        OneMoreGone(c, s, EvictAll(c, s, ts[..n]), gone, ts[n]);
        gone := gone + [ts[n]];
      }
    }
  }

  lemma OneMoreEvicted(c: Settings, s: State, s1: State, ts: seq<nat>, t: nat)
    requires s1.buffers.Ok() && Gone(c, s, s1, ts) && t in s1.buffers.at
    ensures Gone(c, s, Evict(c, s1, t), ts + [t]) && Evict(c, s1, t).buffers.Ok()
    ensures Evict(c, s1, t).evictedTraces == s1.evictedTraces + 1
  {
    OneMoreGone(c, s, s1, ts, t);
    DictOps(s1.buffers, t, []);
  }

  lemma {:induction false} EvictToFitGone(c: Settings, s: State, s1: State, ts: seq<nat>) returns (gone: seq<nat>)
    requires s1.buffers.Ok() && Gone(c, s, s1, ts) && s1.evictedTraces == s.evictedTraces + |ts|
    ensures Gone(c, s, EvictToFit(c, s1), gone)
    ensures EvictToFit(c, s1).evictedTraces == s.evictedTraces + |gone|
    decreases |s1.buffers.keys|
  {
    var done := Completed(s1.buffers.keys, s1.openSpans);
    NextToEvict(c, s1);
    if |s1.buffers.keys| > c.maxTraces && done != [] {
      OneMoreEvicted(c, s, s1, ts, done[0]);
      gone := EvictToFitGone(c, s, Evict(c, s1, done[0]), ts + [done[0]]);
    } else {
      gone := ts;
    }
  }

  lemma AgedGone(c: Settings, s: State, aged: seq<nat>, s': State) returns (gone: seq<nat>)
    requires Core(c, s) && s' == EvictToFit(c, EvictAll(c, s, aged))
    ensures Gone(c, s, s', gone) && s'.evictedTraces == s.evictedTraces + |gone|
  {
    gone := EvictAllGone(c, s, aged);
    EvictAllKeeps(c, s, aged);
    gone := EvictToFitGone(c, s, EvictAll(c, s, aged), gone);
  }

  /** Bounding the buffer counts each trace it takes as evicted. */
  lemma BoundedGone(c: Settings, s: State, now: int) returns (gone: seq<nat>)
    requires Core(c, s)
    ensures Gone(c, s, Bounded(c, s, now), gone)
    ensures Bounded(c, s, now).evictedTraces == s.evictedTraces + |gone|
  {
    gone := AgedGone(c, s, Aged(s.startedAt.keys, s.startedAt.at, now - c.maxAge), Bounded(c, s, now));
  }

  // ---------------------------------------------------------------- verdicts

  /** Two traces of a buffer never hold the same spans. */
  lemma SpansTell(c: Settings, at: map<nat, seq<Span>>, t: nat, u: nat)
    requires Filled(c, at) && t in at && u in at && at[t] == at[u]
    ensures t == u
  {
    assert BufferFilled(c, t, at[t]) && BufferFilled(c, u, at[u]);
    assert at[t][0].trace == t && at[u][0].trace == u;
  }

  lemma GoneVerdict(c: Settings, s: State, s': State, ts: seq<nat>, t: nat)
    requires Filled(c, s.buffers.at) && Gone(c, s, s', ts) && t in s.buffers.at && t !in s'.buffers.at
    ensures Verdict(c, s.log, s'.log, t, s.buffers.at[t])
  {
    var at := s.buffers.at;
    KeptMembers(c, at, ts);
    LeftMembers(c, at, ts);
    assert s'.log.exported[|s.log.exported|..] == Kept(c, at, ts);
    assert s'.log.sampledOut[|s.log.sampledOut|..] == Left(c, at, ts);
    if !Wanted(c, t, at[t]) && at[t] in Kept(c, at, ts) {
      var u :| u in ts && Wanted(c, u, Spans(at, u)) && Spans(at, u) == at[t];
      SpansTell(c, at, t, u);
    }
  }

  /** A flush leaves the open traces buffered and gives every other trace its verdict. */
  lemma FlushVerdict(c: Settings, s: State, t: nat)
    requires Core(c, s) && t in s.buffers.at
    ensures var s' := Flush(c, s);
      if IsOpen(s.openSpans, t) then t in s'.buffers.at && s'.buffers.at[t] == s.buffers.at[t]
      else t !in s'.buffers.at && Verdict(c, s.log, s'.log, t, s.buffers.at[t])
  {
    var done := Completed(s.buffers.keys, s.openSpans);
    CompletedMembers(s.buffers.keys, s.openSpans);
    JudgeAllKeeps(c, s, done);
    assert t in s.buffers.keys;
    var gone := JudgeAllGone(c, s, done);
    if t in done { GoneVerdict(c, s, Flush(c, s), gone, t); }
  }

  /** The shutdown gives every buffered trace its verdict, open or not. */
  lemma ShutdownVerdict(c: Settings, s: State, t: nat)
    requires Core(c, s) && !s.down && t in s.buffers.at
    ensures t !in Shutdown(c, s).buffers.at && Verdict(c, s.log, Shutdown(c, s).log, t, s.buffers.at[t])
  {
    FlushVerdict(c, s.(openSpans := map[]), t);
  }

  /** Bounding the buffer gives every trace it takes its verdict, and leaves any other as it was. */
  lemma BoundedVerdict(c: Settings, s: State, now: int, t: nat)
    requires Core(c, s) && t in s.buffers.at
    ensures var s' := Bounded(c, s, now);
      if t in s'.buffers.at then s'.buffers.at[t] == s.buffers.at[t] else Verdict(c, s.log, s'.log, t, s.buffers.at[t])
  {
    var gone := BoundedGone(c, s, now);
    if t !in Bounded(c, s, now).buffers.at { GoneVerdict(c, s, Bounded(c, s, now), gone, t); }
  }

  /** The buffer of a trace once a span of its own has joined it. */
  function Joined(s: State, span: Span, t: nat): seq<Span> {
    Spans(s.buffers.at, t) + if span.trace == t then [span] else []
  }

  lemma RoomMeansBuffered(c: Settings, s: State, span: Span, started: int, now: int)
    requires !s.down && HasRoom(c, s, span.trace)
    ensures OnEnd(c, s, span, started, now) == Bounded(c, Added(Close(s, span.trace).0, span, started), now)
  {}

  lemma AddedJoins(s: State, span: Span, started: int, t: nat)
    requires t in s.buffers.at || t == span.trace
    ensures var s1 := Added(s, span, started);
      t in s1.buffers.at && s1.buffers.at[t] == Joined(s, span, t) && s1.log == s.log
  {}

  /**
    An ended span of a trace with room joins it. Whatever trace leaves the buffer then, of this id or
    another, gets its verdict on all its spans, and whatever stays holds all of them.
  */
  lemma OnEndVerdict(c: Settings, s: State, span: Span, started: int, now: int, t: nat)
    requires Core(c, s) && !s.down && StartedBy(s.startedAt.at, started) && HasRoom(c, s, span.trace)
    requires t in s.buffers.at || t == span.trace
    ensures var s' := OnEnd(c, s, span, started, now);
      if t in s'.buffers.at then s'.buffers.at[t] == Joined(s, span, t) else Verdict(c, s.log, s'.log, t, Joined(s, span, t))
  {
    var s1 := Close(s, span.trace).0;
    CloseKeeps(s, span.trace);
    RoomMeansBuffered(c, s, span, started, now);
    AddedKeeps(c, s1, span, started);
    AddedJoins(s1, span, started, t);
    BoundedVerdict(c, Added(s1, span, started), now, t);
  }

  // ---------------------------------------------------------------- the order of eviction

  /** How many traces have to go for the buffer to fit, as far as there are completed ones. */
  function Excess(c: Settings, keys: seq<nat>, done: seq<nat>): (m: nat)
    ensures m <= |done|
  {
    if |keys| <= c.maxTraces then 0
    else if |keys| - c.maxTraces < |done| then |keys| - c.maxTraces else |done|
  }

  /** The completed traces that have to go, oldest first. */
  function Oldest(c: Settings, keys: seq<nat>, open: map<nat, nat>): seq<nat> {
    Completed(keys, open)[..Excess(c, keys, Completed(keys, open))]
  }

  /** With an open key behind, nothing more is completed; with a completed one, it comes last. */
  lemma CompletedLast(keys: seq<nat>, last: nat, open: map<nat, nat>)
    ensures Completed(keys + [last], open) == Completed(keys, open) + if IsOpen(open, last) then [] else [last]
  {
    assert (keys + [last])[..|keys|] == keys;
  }

  lemma RemoveLast(keys: seq<nat>, last: nat, k: nat)
    requires last != k
    ensures Remove(keys + [last], k) == Remove(keys, k) + [last]
  {
    assert (keys + [last])[..|keys|] == keys;
  }

  /** One more key behind changes nothing about what goes without the first. */
  lemma WithoutMore(front: seq<nat>, last: nat, open: map<nat, nat>, first: nat)
    requires last != first && Completed(front, open) != []
    requires Completed(Remove(front, first), open) == Completed(front, open)[1..]
    ensures Completed(Remove(front + [last], first), open) == Completed(front + [last], open)[1..]
  {
    RemoveLast(front, last, first);
    CompletedLast(Remove(front, first), last, open);
    CompletedLast(front, last, open);
  }

  lemma WithoutOnly(front: seq<nat>, last: nat, open: map<nat, nat>)
    requires last !in front && Completed(front, open) == [] && !IsOpen(open, last)
    ensures Remove(front + [last], last) == front && Completed(front + [last], open) == [last]
  {
    assert (front + [last])[..|front|] == front;
  }

  lemma {:induction false} CompletedWithout(keys: seq<nat>, open: map<nat, nat>, first: nat)
    requires Distinct(keys) && Completed(keys, open) != [] && first == Completed(keys, open)[0]
    ensures first in keys && Completed(Remove(keys, first), open) == Completed(keys, open)[1..]
  {
    var front, last := keys[..|keys| - 1], keys[|keys| - 1];
    assert front + [last] == keys;
    CompletedLast(front, last, open);
    if Completed(front, open) != [] {
      CompletedWithout(front, open, first);
      WithoutMore(front, last, open, first);
    } else {
      WithoutOnly(front, last, open);
    }
  }

  lemma TakeRest(done: seq<nat>, m: nat)
    requires 1 <= m <= |done|
    ensures done[..m] == [done[0]] + done[1..][..m - 1]
  {}

  lemma OldestRest(c: Settings, keys: seq<nat>, open: map<nat, nat>, first: nat)
    requires Distinct(keys) && |keys| > c.maxTraces && Completed(keys, open) != [] && first == Completed(keys, open)[0]
    ensures first in keys && Oldest(c, keys, open) == [first] + Oldest(c, Remove(keys, first), open)
  {
    CompletedWithout(keys, open, first);
    RemoveDistinct(keys, first);
    TakeRest(Completed(keys, open), Excess(c, keys, Completed(keys, open)));
  }

  /** By count exactly the oldest completed traces go, no more of them than it takes. */
  lemma {:induction false} OldestGo(c: Settings, s: State, t: nat)
    requires Core(c, s)
    ensures t in EvictToFit(c, s).buffers.at <==> t in s.buffers.at && t !in Oldest(c, s.buffers.keys, s.openSpans)
    decreases |s.buffers.keys|
  {
    var done := Completed(s.buffers.keys, s.openSpans);
    NextToEvict(c, s);
    if |s.buffers.keys| > c.maxTraces && done != [] {
      OldestRest(c, s.buffers.keys, s.openSpans, done[0]);
      EvictKeeps(c, s, done[0]);
      OldestGo(c, Evict(c, s, done[0]), t);
    }
  }

  // ---------------------------------------------------------------- who stays

  lemma EvictedByAge(c: Settings, s: State, deadline: int, aged: seq<nat>, s1: State, t: nat)
    requires Core(c, s) && t in s.buffers.at
    requires aged == Aged(s.startedAt.keys, s.startedAt.at, deadline) && s1 == EvictAll(c, s, aged)
    ensures Core(c, s1) && s1.openSpans == s.openSpans && t in s.startedAt.at
    ensures t in s1.buffers.at <==> s.startedAt.at[t] > deadline
  {
    SameKeys(c, s);
    AgedLeave(c, s, deadline);
    EvictAllKeeps(c, s, aged);
  }

  lemma EvictedByCount(c: Settings, s1: State, s': State, t: nat)
    requires Core(c, s1) && s' == EvictToFit(c, s1)
    ensures t !in s1.buffers.at ==> t !in s'.buffers.at
    ensures t in s1.buffers.at && t !in s'.buffers.at ==> !IsOpen(s1.openSpans, t) && |s'.buffers.keys| >= c.maxTraces
  {
    EvictToFitSpares(c, s1);
  }

  lemma AgedStays(c: Settings, s: State, now: int, s1: State, s': State, t: nat)
    requires Core(c, s1) && s1.openSpans == s.openSpans && t in s.startedAt.at && s' == EvictToFit(c, s1)
    requires t in s1.buffers.at <==> s.startedAt.at[t] > now - c.maxAge
    ensures s.startedAt.at[t] + c.maxAge <= now ==> t !in s'.buffers.at
    ensures s.startedAt.at[t] + c.maxAge > now && t !in s'.buffers.at ==>
      !IsOpen(s.openSpans, t) && |s'.buffers.keys| >= c.maxTraces
  {
    EvictedByCount(c, s1, s', t);
  }

  /** A trace `maxAge` old or older leaves. A younger one leaves only completed, and while the buffer is full without it. */
  lemma BoundedStays(c: Settings, s: State, now: int, t: nat, s': State)
    requires Core(c, s) && t in s.buffers.at && s' == Bounded(c, s, now)
    ensures t in s.startedAt.at
    ensures s.startedAt.at[t] + c.maxAge <= now ==> t !in s'.buffers.at
    ensures s.startedAt.at[t] + c.maxAge > now && t !in s'.buffers.at ==>
      !IsOpen(s.openSpans, t) && |s'.buffers.keys| >= c.maxTraces
  {
    var aged := Aged(s.startedAt.keys, s.startedAt.at, now - c.maxAge);
    var s1 := EvictAll(c, s, aged);
    EvictedByAge(c, s, now - c.maxAge, aged, s1, t);
    AgedStays(c, s, now, s1, s', t);
  }

  /** When the trace's first span reached the buffer. */
  function Since(s: State, t: nat, started: int): int {
    if t in s.startedAt.at then s.startedAt.at[t] else started
  }

  lemma AddedSince(s: State, span: Span, started: int, t: nat)
    requires t in s.startedAt.at || t == span.trace
    ensures var s1 := Added(s, span, started); t in s1.startedAt.at && s1.startedAt.at[t] == Since(s, t, started)
  {}

  lemma JoinedStays(c: Settings, s: State, span: Span, started: int, now: int, t: nat, s': State)
    requires Core(c, s) && StartedBy(s.startedAt.at, started) && HasRoom(c, s, span.trace)
    requires (t in s.buffers.at && t in s.startedAt.at) || t == span.trace
    requires s' == Bounded(c, Added(s, span, started), now)
    ensures Since(s, t, started) + c.maxAge <= now ==> t !in s'.buffers.at
    ensures Since(s, t, started) + c.maxAge > now && t !in s'.buffers.at ==>
      !IsOpen(s.openSpans, t) && |s'.buffers.keys| >= c.maxTraces
  {
    AddedKeeps(c, s, span, started);
    AddedJoins(s, span, started, t);
    AddedSince(s, span, started, t);
    BoundedStays(c, Added(s, span, started), now, t, s');
  }

  /**
    After a span that joined its buffer at `started`, no trace is left that is `maxAge` old by `now`, and a
    younger one is gone only if none of its spans is open and the buffer is full without it.
  */
  lemma OnEndStays(c: Settings, s: State, span: Span, started: int, now: int, t: nat)
    requires Core(c, s) && !s.down && StartedBy(s.startedAt.at, started) && HasRoom(c, s, span.trace)
    requires t in s.buffers.at || t == span.trace
    ensures var s' := OnEnd(c, s, span, started, now);
      && (Since(s, t, started) + c.maxAge <= now ==> t !in s'.buffers.at)
      && (Since(s, t, started) + c.maxAge > now && t !in s'.buffers.at ==>
            !IsOpen(Close(s, span.trace).0.openSpans, t) && |s'.buffers.keys| >= c.maxTraces)
  {
    CloseKeeps(s, span.trace);
    RoomMeansBuffered(c, s, span, started, now);
    SameKeys(c, s);
    JoinedStays(c, Close(s, span.trace).0, span, started, now, t, OnEnd(c, s, span, started, now));
  }
}
