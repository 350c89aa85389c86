/** Why a batch reached the exporter, over every run of the processor. */
module TailReasons {
  import opened OrderedDict
  import opened TailSampling
  import opened TailInvariants
  import opened TailRuns
  import opened TailMarkers
  import opened TailVerdicts

  /** Some earlier span of this trace met a full buffer, and full buffers are exported. */
  ghost predicate OverflowedIn(c: Settings, events: seq<Event>, t: nat) {
    c.onOverflow.ExportOverflow? &&
    exists n :: 0 <= n < |events| && events[n].End? && events[n].span.trace == t && Overflows(c, Run(c, events[..n]), t)
  }

  /** Spans of one trace, wanted for an error or for the id, or of a trace that overflowed. */
  ghost predicate Reason(c: Settings, events: seq<Event>, batch: seq<Span>) {
    && batch != [] && (forall span :: span in batch ==> span.trace == batch[0].trace)
    && (Wanted(c, batch[0].trace, batch) || OverflowedIn(c, events, batch[0].trace))
  }

  ghost predicate Reasons(c: Settings, events: seq<Event>, batches: seq<seq<Span>>) {
    forall batch :: batch in batches ==> Reason(c, events, batch)
  }

  ghost predicate MarksMean(c: Settings, events: seq<Event>, marked: set<nat>) {
    forall t :: t in marked ==> OverflowedIn(c, events, t)
  }

  /** What overflowed before still has. */
  lemma OverflowedBefore(c: Settings, before: seq<Event>, e: Event, t: nat)
    requires OverflowedIn(c, before, t)
    ensures OverflowedIn(c, before + [e], t)
  {
    var n :| 0 <= n < |before| && before[n].End? && before[n].span.trace == t && Overflows(c, Run(c, before[..n]), t);
    assert (before + [e])[..n] == before[..n] && (before + [e])[n] == before[n];
  }

  lemma ReasonsBefore(c: Settings, before: seq<Event>, e: Event, batches: seq<seq<Span>>, marked: set<nat>)
    requires Reasons(c, before, batches) && MarksMean(c, before, marked)
    ensures Reasons(c, before + [e], batches) && MarksMean(c, before + [e], marked)
  {
    forall batch: seq<Span> | batch in batches ensures Reason(c, before + [e], batch) {
      assert Reason(c, before, batch);
      if OverflowedIn(c, before, batch[0].trace) { OverflowedBefore(c, before, e, batch[0].trace); }
    }
    forall t | t in marked ensures OverflowedIn(c, before + [e], t) { OverflowedBefore(c, before, e, t); }
  }

  /** The decided traces of a buffer that were kept have their reason. */
  lemma KeptReasons(c: Settings, events: seq<Event>, s: State, s': State, gone: seq<nat>)
    requires Filled(c, s.buffers.at) && Gone(c, s, s', gone) && Reasons(c, events, s.log.exported)
    ensures Reasons(c, events, s'.log.exported)
  {
    KeptMembers(c, s.buffers.at, gone);
    forall batch: seq<Span> | batch in s'.log.exported ensures Reason(c, events, batch) {
      if batch in Kept(c, s.buffers.at, gone) {
        var t :| t in gone && Wanted(c, t, Spans(s.buffers.at, t)) && Spans(s.buffers.at, t) == batch;
        assert BufferFilled(c, t, s.buffers.at[t]);
        assert batch[0].trace == t;
      } else {
        assert batch in s.log.exported;
      }
    }
  }

  lemma FlushReasons(c: Settings, events: seq<Event>, s: State)
    requires Core(c, s) && Reasons(c, events, s.log.exported)
    ensures Reasons(c, events, Flush(c, s).log.exported) && Flush(c, s).overflowedKeep == s.overflowedKeep
  {
    var gone := JudgeAllGone(c, s, Completed(s.buffers.keys, s.openSpans));
    KeptReasons(c, events, s, Flush(c, s), gone);
    FlushMarks(c, s);
  }

  /** One more batch with a reason. */
  lemma OneMoreReason(c: Settings, events: seq<Event>, batches: seq<seq<Span>>, batch: seq<Span>)
    requires Reasons(c, events, batches) && Reason(c, events, batch)
    ensures Reasons(c, events, batches + [batch])
  {}

  lemma BufferReasons(c: Settings, events: seq<Event>, s: State, span: Span, started: int, now: int)
    requires Core(c, s) && StartedBy(s.startedAt.at, started) && !s.down && HasRoom(c, s, span.trace)
    requires Reasons(c, events, s.log.exported)
    ensures var s' := OnEnd(c, s, span, started, now);
      Reasons(c, events, s'.log.exported) && s'.overflowedKeep == s.overflowedKeep
  {
    var s1 := Close(s, span.trace).0;
    CloseKeeps(s, span.trace);
    RoomMeansBuffered(c, s, span, started, now);
    AddedKeeps(c, s1, span, started);
    var s2 := Added(s1, span, started);
    var gone := BoundedGone(c, s2, now);
    KeptReasons(c, events, s2, Bounded(c, s2, now), gone);
    BoundedMarks(c, s2, now);
  }

  lemma StreamReasons(c: Settings, events: seq<Event>, s: State, span: Span, started: int, now: int)
    requires !s.down && (span.trace in s.overflowedKeep || span.trace in s.overflowedDrop)
    requires Reasons(c, events, s.log.exported) && MarksMean(c, events, s.overflowedKeep)
    ensures var s' := OnEnd(c, s, span, started, now);
      Reasons(c, events, s'.log.exported) && s'.overflowedKeep <= s.overflowedKeep
  {
    if span.trace !in s.overflowedDrop { OneMoreReason(c, events, s.log.exported, [span]); }
  }

  lemma OverflowReasons(c: Settings, before: seq<Event>, s: State, e: Event)
    requires s == Run(c, before) && e.End? && Core(c, s) && Overflows(c, s, e.span.trace)
    requires Reasons(c, before + [e], s.log.exported) && MarksMean(c, before + [e], s.overflowedKeep)
    ensures var s' := OnEnd(c, s, e.span, e.started, e.now);
      Reasons(c, before + [e], s'.log.exported) && MarksMean(c, before + [e], s'.overflowedKeep)
  {
    var events, t := before + [e], e.span.trace;
    if c.onOverflow.ExportOverflow? {
      assert events[..|before|] == before && events[|before|] == e;
      assert OverflowedIn(c, events, t);
      if t in s.buffers.at { assert BufferFilled(c, t, s.buffers.at[t]); }
      OneMoreReason(c, events, s.log.exported, Spans(s.buffers.at, t) + [e.span]);
    }
  }

  lemma EndReasons(c: Settings, before: seq<Event>, e: Event)
    requires e.End? && Inv(c, Run(c, before)) && StartedBy(Run(c, before).startedAt.at, e.started)
    requires Reasons(c, before + [e], Run(c, before).log.exported) && MarksMean(c, before + [e], Run(c, before).overflowedKeep)
    ensures var s' := OnEnd(c, Run(c, before), e.span, e.started, e.now);
      Reasons(c, before + [e], s'.log.exported) && MarksMean(c, before + [e], s'.overflowedKeep)
  {
    var s, t := Run(c, before), e.span.trace;
    if s.down {
    } else if Marked(s, t) {
      StreamReasons(c, before + [e], s, e.span, e.started, e.now);
    } else if Overflows(c, s, t) {
      OverflowReasons(c, before, s, e);
    } else {
      BufferReasons(c, before + [e], s, e.span, e.started, e.now);
    }
  }

  /**
    Over every run, each batch at the exporter is of one trace, and holds an error while errors are always
    sampled, or has an id below the bound, or is of a trace that overflowed while overflow is exported.
  */
  lemma {:induction false} ExportedForAReason(c: Settings, events: seq<Event>)
    requires c.Valid() && ClockOk(events)
    ensures Reasons(c, events, Run(c, events).log.exported)
    ensures MarksMean(c, events, Run(c, events).overflowedKeep)
  {
    if events != [] {
      var before, e := LastReady(c, events);
      assert events == before + [e];
      ExportedForAReason(c, before);
      var s := Run(c, before);
      ReasonsBefore(c, before, e, s.log.exported, s.overflowedKeep);
      match e
      case Start(_) =>
      case End(_, _, _) => EndReasons(c, before, e);
      case ForceFlush => FlushReasons(c, events, s);
      case Stop => if !s.down { FlushReasons(c, events, s.(openSpans := map[])); }
    }
  }

  // ---------------------------------------------------------------- counters

  /** How many spans of a run went by the buffer: they met a full one, or a trace whose buffer had been. */
  ghost function Streamed(c: Settings, events: seq<Event>): nat {
    if events == [] then 0 else
    var n := |events| - 1;
    var s := Run(c, events[..n]);
    Streamed(c, events[..n])
    + if events[n].End? && !s.down && (Marked(s, events[n].span.trace) || Overflows(c, s, events[n].span.trace)) then 1 else 0
  }

  /** How many traces of a run met a full buffer. */
  ghost function Overflown(c: Settings, events: seq<Event>): nat {
    if events == [] then 0 else
    var n := |events| - 1;
    Overflown(c, events[..n]) + if events[n].End? && Overflows(c, Run(c, events[..n]), events[n].span.trace) then 1 else 0
  }

  /** The counters against the whereabouts: `streamed` batches came by no decision, `overflown` traces were given up. */
  predicate Tells(c: Settings, s: State, streamed: nat, overflown: nat) {
    && s.sampledOutTraces == |s.log.sampledOut|
    && |s.log.exported| == s.exportedTraces + (if c.onOverflow.ExportOverflow? then streamed else 0)
    && s.droppedTraces == if c.onOverflow.DropOverflow? then overflown else 0
  }

  lemma GoneTells(c: Settings, s: State, s': State, gone: seq<nat>, streamed: nat, overflown: nat)
    requires Tells(c, s, streamed, overflown) && Gone(c, s, s', gone) && s'.droppedTraces == s.droppedTraces
    ensures Tells(c, s', streamed, overflown)
  {}

  lemma {:induction false} JudgeAllDrops(c: Settings, s: State, ts: seq<nat>)
    ensures JudgeAll(c, s, ts).droppedTraces == s.droppedTraces
  {
    if ts != [] { JudgeAllDrops(c, s, ts[..|ts| - 1]); }
  }

  lemma {:induction false} EvictAllDrops(c: Settings, s: State, ts: seq<nat>)
    ensures EvictAll(c, s, ts).droppedTraces == s.droppedTraces
  {
    if ts != [] { EvictAllDrops(c, s, ts[..|ts| - 1]); }
  }

  lemma {:induction false} EvictToFitDrops(c: Settings, s: State)
    ensures EvictToFit(c, s).droppedTraces == s.droppedTraces
    decreases |s.buffers.keys|
  {
    CompletedMembers(s.buffers.keys, s.openSpans);
    var done := Completed(s.buffers.keys, s.openSpans);
    if !(|s.buffers.keys| <= c.maxTraces || done == [] || done[0] !in s.buffers.at) {
      EvictToFitDrops(c, Evict(c, s, done[0]));
    }
  }

  lemma AgedDrops(c: Settings, s: State, aged: seq<nat>, s': State)
    requires s' == EvictToFit(c, EvictAll(c, s, aged))
    ensures s'.droppedTraces == s.droppedTraces
  {
    EvictAllDrops(c, s, aged);
    EvictToFitDrops(c, EvictAll(c, s, aged));
  }

  lemma BoundedDrops(c: Settings, s: State, now: int, s': State)
    requires s' == Bounded(c, s, now)
    ensures s'.droppedTraces == s.droppedTraces
  {
    AgedDrops(c, s, Aged(s.startedAt.keys, s.startedAt.at, now - c.maxAge), s');
  }

  lemma BoundedTells(c: Settings, s: State, now: int, s': State, streamed: nat, overflown: nat)
    requires Core(c, s) && Tells(c, s, streamed, overflown) && s' == Bounded(c, s, now)
    ensures Tells(c, s', streamed, overflown)
  {
    var gone := BoundedGone(c, s, now);
    BoundedDrops(c, s, now, s');
    GoneTells(c, s, s', gone, streamed, overflown);
  }

  lemma FlushTells(c: Settings, s: State, streamed: nat, overflown: nat)
    requires Tells(c, s, streamed, overflown)
    ensures Tells(c, Flush(c, s), streamed, overflown)
  {
    var done := Completed(s.buffers.keys, s.openSpans);
    var gone := JudgeAllGone(c, s, done);
    JudgeAllDrops(c, s, done);
    GoneTells(c, s, Flush(c, s), gone, streamed, overflown);
  }

  lemma JoinTells(c: Settings, s: State, span: Span, started: int, now: int, s': State, streamed: nat, overflown: nat)
    requires !s.down && Core(c, s) && StartedBy(s.startedAt.at, started) && HasRoom(c, s, span.trace)
    requires s' == OnEnd(c, s, span, started, now) && Tells(c, s, streamed, overflown)
    ensures Tells(c, s', streamed, overflown)
  {
    var s1 := Close(s, span.trace).0;
    CloseKeeps(s, span.trace);
    RoomMeansBuffered(c, s, span, started, now);
    AddedKeeps(c, s1, span, started);
    BoundedTells(c, Added(s1, span, started), now, s', streamed, overflown);
  }

  lemma EndTells(c: Settings, s: State, e: Event, streamed: nat, overflown: nat)
    requires e.End? && !s.down && Inv(c, s) && StartedBy(s.startedAt.at, e.started) && OneKind(c, s)
    requires Tells(c, s, streamed, overflown)
    ensures var t := e.span.trace; var over := Overflows(c, s, t);
      Tells(c, OnEnd(c, s, e.span, e.started, e.now), streamed + (if over || Marked(s, t) then 1 else 0), overflown + if over then 1 else 0)
  {
    var t := e.span.trace;
    if !Marked(s, t) && !Overflows(c, s, t) {
      JoinTells(c, s, e.span, e.started, e.now, OnEnd(c, s, e.span, e.started, e.now), streamed, overflown);
    }
  }

  /** Over every run the counters say how many traces were sampled out, exported by decision, and dropped. */
  lemma {:induction false} CountersTell(c: Settings, events: seq<Event>)
    requires c.Valid() && ClockOk(events)
    ensures Tells(c, Run(c, events), Streamed(c, events), Overflown(c, events))
  {
    if events != [] {
      var before, e := LastReady(c, events);
      CountersTell(c, before);
      RunKind(c, before);
      var s := Run(c, before);
      match e
      case Start(_) =>
      case End(_, _, _) => if !s.down { EndTells(c, s, e, Streamed(c, before), Overflown(c, before)); }
      case ForceFlush => FlushTells(c, s, Streamed(c, before), Overflown(c, before));
      case Stop => if !s.down { FlushTells(c, s.(openSpans := map[]), Streamed(c, before), Overflown(c, before)); }
    }
  }

  // ---------------------------------------------------------------- open spans

  /** How many spans of a trace have started and not ended, since the shutdown if there was one. */
  function StillOpen(events: seq<Event>, t: nat): nat {
    if events == [] then 0 else
    var n := |events| - 1;
    var before := StillOpen(events[..n], t);
    match events[n]
    case Start(u) => if u == t then before + 1 else before
    case End(span, _, _) => if span.trace == t && before > 0 && Stop !in events[..n] then before - 1 else before
    case ForceFlush => before
    case Stop => if Stop in events[..n] then before else 0
  }

  lemma EndOpens(c: Settings, s: State, span: Span, started: int, now: int)
    ensures OnEnd(c, s, span, started, now).openSpans == if s.down then s.openSpans else Close(s, span.trace).0.openSpans
  {
    if !s.down { EndMarks(c, s, span, started, now); }
  }

  /** Over every run a trace is open exactly while more of its spans have started than ended. */
  lemma {:induction false} OpenExactly(c: Settings, events: seq<Event>, t: nat)
    requires c.Valid() && ClockOk(events)
    ensures var open := Run(c, events).openSpans;
      && StillOpen(events, t) == (if t in open then open[t] else 0) && (t in open ==> open[t] > 0)
      && (IsOpen(open, t) <==> StillOpen(events, t) > 0)
  {
    if events != [] {
      var before, e := LastReady(c, events);
      OpenExactly(c, before, t);
      var s := Run(c, before);
      match e
      case Start(_) =>
      case End(span, started, now) => EndOpens(c, s, span, started, now);
      case ForceFlush => FlushMarks(c, s);
      case Stop => StopMarks(c, s);
    }
  }
}
