/** What a whole run of calls on the span processor guarantees. */
module TailRuns {
  import opened OrderedDict
  import opened TailSampling
  import opened TailInvariants

  /** Every clock reading of a run is at most `time`. */
  ghost predicate EndedBy(events: seq<Event>, time: int) {
    forall i :: 0 <= i < |events| && events[i].End? ==> events[i].now <= time
  }

  lemma StepKeeps(c: Settings, s: State, e: Event)
    requires Inv(c, s)
    requires e.End? ==> StartedBy(s.startedAt.at, e.started) && e.started <= e.now
    ensures Inv(c, Step(c, s, e))
    ensures Step(c, s, e).down <==> s.down || e.Stop?
  {
    match e
    case Start(t) => assert forall k :: IsOpen(s.openSpans, k) ==> IsOpen(OnStart(s, t).openSpans, k);
    case End(span, started, now) => OnEndKeeps(c, s, span, started, now);
    case ForceFlush => FlushInv(c, s);
    case Stop => ShutdownEmpties(c, s);
  }

  lemma FlushInv(c: Settings, s: State)
    requires Inv(c, s)
    ensures Inv(c, Flush(c, s)) && Flush(c, s).down == s.down
  {
    FlushKeeps(c, s);
    if s.down { assert Completed(s.buffers.keys, s.openSpans) == []; }
  }

  lemma StepStarted(c: Settings, s: State, e: Event, time: int)
    requires Inv(c, s) && StartedBy(s.startedAt.at, time)
    requires e.End? ==> StartedBy(s.startedAt.at, e.started) && e.started <= e.now <= time
    ensures StartedBy(Step(c, s, e).startedAt.at, time)
  {
    match e
    case Start(t) =>
    case End(span, started, now) => OnEndKeeps(c, s, span, started, now);
    case ForceFlush => FlushKeeps(c, s);
    case Stop => ShutdownEmpties(c, s);
  }

  lemma StepConserves(x: Span, c: Settings, s: State, e: Event)
    requires Inv(c, s)
    requires e.End? ==> StartedBy(s.startedAt.at, e.started) && e.started <= e.now
    ensures Everywhere(x, Step(c, s, e)) == Everywhere(x, s) + if e.End? && !s.down && e.span == x then 1 else 0
  {
    match e
    case Start(t) =>
    case End(span, started, now) => OnEndConserves(x, c, s, span, started, now);
    case ForceFlush => JudgeAllConserves(x, c, s, Completed(s.buffers.keys, s.openSpans));
    case Stop => ShutdownConserves(x, c, s);
  }

  /** The invariant after every run, and the processor down exactly when it was shut down. */
  lemma {:induction false} RunKeeps(c: Settings, events: seq<Event>)
    requires c.Valid() && ClockOk(events)
    ensures Inv(c, Run(c, events))
    ensures Run(c, events).down <==> Stop in events
    decreases |events|, 1
  {
    if events != [] {
      var before, e := LastReady(c, events);
      StepKeeps(c, Run(c, before), e);
      assert events == before + [e];
    }
  }

  /** No trace is recorded as started after the clock's latest reading. */
  lemma {:induction false} RunStarted(c: Settings, events: seq<Event>, time: int)
    requires c.Valid() && ClockOk(events) && EndedBy(events, time)
    ensures StartedBy(Run(c, events).startedAt.at, time)
    decreases |events|, 1
  {
    if events != [] {
      var before, e := LastReady(c, events);
      RunStarted(c, before, time);
      StepStarted(c, Run(c, before), e, time);
    }
  }

  /** A run up to its last event leaves a state that event may meet. */
  lemma {:induction false} LastReady(c: Settings, events: seq<Event>) returns (before: seq<Event>, e: Event)
    requires c.Valid() && ClockOk(events) && events != []
    ensures before == events[..|events| - 1] && e == events[|events| - 1] && ClockOk(before)
    ensures Inv(c, Run(c, before)) && (Run(c, before).down <==> Stop in before)
    ensures e.End? ==> StartedBy(Run(c, before).startedAt.at, e.started) && e.started <= e.now
    ensures forall time :: EndedBy(events, time) ==> EndedBy(before, time)
    ensures forall time :: EndedBy(events, time) && e.End? ==> e.now <= time
    decreases |events|, 0
  {
    before, e := events[..|events| - 1], events[|events| - 1];
    RunKeeps(c, before);
    if e.End? {
      assert EndedBy(before, e.started);
      RunStarted(c, before, e.started);
    }
  }

  /**
    Conservation: over every run, each span that ended before shutdown is still buffered, was
    handed to the exporter, sampled out, or dropped on overflow, exactly as often as it ended.
  */
  lemma {:induction false} SpansConserved(x: Span, c: Settings, events: seq<Event>)
    requires c.Valid() && ClockOk(events)
    ensures var s := Run(c, events);
      Times(x, Accepted(events)) ==
        Buffered(x, s.buffers.keys, s.buffers.at) + Exported(x, s.log.exported)
        + SampledOut(x, s.log.sampledOut) + Times(x, s.log.overflowed)
    ensures Stop in events ==> Run(c, events).buffers.keys == []
  {
    if events != [] {
      var before, e := LastReady(c, events);
      SpansConserved(x, c, before);
      RunKeeps(c, events);
      if e.End? { TimesConcat(x, Accepted(before), [e.span]); }
      StepConserves(x, c, Run(c, before), e);
      if e.End? && Stop !in before {
        assert Times(x, [e.span]) == if x == e.span then 1 else 0;
      } else {
        assert Accepted(events) == Accepted(before);
      }
    }
  }

  lemma {:induction false} TimesIn(x: Span, spans: seq<Span>) returns (i: nat)
    requires Times(x, spans) > 0
    ensures i < |spans| && spans[i] == x
  {
    var n := |spans| - 1;
    if spans[n] == x { i := n; } else { i := TimesIn(x, spans[..n]); }
  }

  /** Whatever was sampled out was no error, with a trace id at or above the bound. */
  lemma {:induction false} SampledOutFairly(x: Span, c: Settings, batches: seq<Batch>)
    requires AllFair(c, batches) && SampledOut(x, batches) > 0
    ensures !Sampled(x.trace, c.bound) && (c.alwaysSampleErrors ==> !x.error)
  {
    var n := |batches| - 1;
    assert SampledFairly(c, batches[n]);
    if Times(x, batches[n].spans) > 0 {
      var i := TimesIn(x, batches[n].spans);
    } else {
      SampledOutFairly(x, c, batches[..n]);
    }
  }

  /** Nothing is discarded by the sampler in any run unless it is fair game. */
  lemma SampledOutIsFair(x: Span, c: Settings, events: seq<Event>)
    requires c.Valid() && ClockOk(events)
    requires SampledOut(x, Run(c, events).log.sampledOut) > 0
    ensures !Sampled(x.trace, c.bound) && (c.alwaysSampleErrors ==> !x.error)
  {
    RunKeeps(c, events);
    SampledOutFairly(x, c, Run(c, events).log.sampledOut);
  }

  /** With errors always kept and overflow exported, no error span of any run is ever discarded. */
  lemma ErrorsRetained(x: Span, c: Settings, events: seq<Event>)
    requires c.Valid() && ClockOk(events)
    requires c.alwaysSampleErrors && c.onOverflow.ExportOverflow? && x.error
    ensures var s := Run(c, events);
      Times(x, Accepted(events)) == Buffered(x, s.buffers.keys, s.buffers.at) + Exported(x, s.log.exported)
  {
    SpansConserved(x, c, events);
    RunKeeps(c, events);
    if SampledOut(x, Run(c, events).log.sampledOut) > 0 { SampledOutIsFair(x, c, events); }
  }

  /** The buffer invariant at every point of every run, position by position. */
  lemma BufferInvariant(c: Settings, events: seq<Event>, i: nat, j: nat)
    requires c.Valid() && ClockOk(events)
    requires i < j < |Run(c, events).buffers.keys|
    ensures var s := Run(c, events); var (a, b) := (s.buffers.keys[i], s.buffers.keys[j]);
      && s.buffers.keys == s.startedAt.keys && a != b
      && a in s.startedAt.at && b in s.startedAt.at && s.startedAt.at[a] <= s.startedAt.at[b]
  {
    RunKeeps(c, events);
    var s := Run(c, events);
    DistinctAt(s.buffers.keys, i, j);
    TimedAt(s.startedAt.keys, s.startedAt.at, i, j);
  }

  lemma {:induction false} TimedAt(keys: seq<nat>, at: map<nat, int>, i: nat, j: nat)
    requires Timed(keys, at) && i < j < |keys|
    ensures keys[i] in at && keys[j] in at && at[keys[i]] <= at[keys[j]]
  {
    var n := |keys| - 1;
    if j < n {
      TimedAt(keys[..n], at, i, j);
    } else {
      TimedIn(keys[..n], at, i);
      assert keys[..n][i] in keys[..n];
    }
  }

  lemma {:induction false} TimedIn(keys: seq<nat>, at: map<nat, int>, i: nat)
    requires Timed(keys, at) && i < |keys|
    ensures keys[i] in at
  {
    if i < |keys| - 1 { TimedIn(keys[..|keys| - 1], at, i); }
  }

  /** Every buffered trace is unmarked and within its bound, and the buffer fits or is all open. */
  lemma BufferBounds(c: Settings, events: seq<Event>)
    requires c.Valid() && ClockOk(events)
    ensures var s := Run(c, events);
      && (forall k :: k in s.buffers.at ==>
            1 <= |s.buffers.at[k]| <= c.maxSpans && k !in s.overflowedKeep && k !in s.overflowedDrop)
      && (|s.buffers.keys| <= c.maxTraces || forall k :: k in s.buffers.keys ==> IsOpen(s.openSpans, k))
  {
    RunKeeps(c, events);
    var s := Run(c, events);
    forall k | k in s.buffers.at ensures 1 <= |s.buffers.at[k]| <= c.maxSpans {
      assert BufferFilled(c, k, s.buffers.at[k]);
    }
  }
}
