/**
  The markers of overflowed traces. A marker is discarded when the trace's last open span ends, so
  one with no open span left is only discarded if the trace goes on: exactly when that happens, over every run.
*/
module TailMarkers {
  import opened OrderedDict
  import opened TailSampling
  import opened TailInvariants
  import opened TailRuns

  predicate Marked(s: State, t: nat) {
    t in s.overflowedKeep || t in s.overflowedDrop
  }

  // ---------------------------------------------------------------- what leaves the markers alone

  predicate SameMarks(s: State, s': State) {
    s'.openSpans == s.openSpans && s'.overflowedKeep == s.overflowedKeep && s'.overflowedDrop == s.overflowedDrop
  }

  lemma {:induction false} EvictAllMarks(c: Settings, s: State, ts: seq<nat>)
    ensures SameMarks(s, EvictAll(c, s, ts)) && EvictAll(c, s, ts).down == s.down
  {
    if ts != [] { EvictAllMarks(c, s, ts[..|ts| - 1]); }
  }

  lemma {:induction false} JudgeAllMarks(c: Settings, s: State, ts: seq<nat>)
    ensures SameMarks(s, JudgeAll(c, s, ts)) && JudgeAll(c, s, ts).down == s.down
  {
    if ts != [] { JudgeAllMarks(c, s, ts[..|ts| - 1]); }
  }

  lemma {:induction false} EvictToFitMarks(c: Settings, s: State)
    ensures SameMarks(s, EvictToFit(c, s)) && EvictToFit(c, s).down == s.down
    decreases |s.buffers.keys|
  {
    CompletedMembers(s.buffers.keys, s.openSpans);
    var done := Completed(s.buffers.keys, s.openSpans);
    if !(|s.buffers.keys| <= c.maxTraces || done == [] || done[0] !in s.buffers.at) {
      EvictToFitMarks(c, Evict(c, s, done[0]));
    }
  }

  lemma BoundedMarks(c: Settings, s: State, now: int)
    ensures SameMarks(s, Bounded(c, s, now)) && Bounded(c, s, now).down == s.down
  {
    var aged := Aged(s.startedAt.keys, s.startedAt.at, now - c.maxAge);
    EvictAllMarks(c, s, aged);
    EvictToFitMarks(c, EvictAll(c, s, aged));
  }

  lemma FlushMarks(c: Settings, s: State)
    ensures SameMarks(s, Flush(c, s))
  {
    JudgeAllMarks(c, s, Completed(s.buffers.keys, s.openSpans));
  }

  lemma StopMarks(c: Settings, s: State)
    ensures var s' := Shutdown(c, s);
      && s'.overflowedKeep == s.overflowedKeep && s'.overflowedDrop == s.overflowedDrop
      && s'.openSpans == if s.down then s.openSpans else map[]
  {
    if !s.down { FlushMarks(c, s.(openSpans := map[])); }
  }

  /** The span meets a full buffer of an unmarked trace. */
  predicate Overflows(c: Settings, s: State, t: nat) {
    !s.down && !Marked(s, t) && |Spans(s.buffers.at, t)| >= c.maxSpans
  }

  /** What an ended span does to its trace's marker, and that it does nothing to another's. */
  lemma EndMarks(c: Settings, s: State, span: Span, started: int, now: int)
    requires !s.down
    ensures var s' := OnEnd(c, s, span, started, now); var t := span.trace; var (s1, complete) := Close(s, t);
      && s'.openSpans == s1.openSpans
      && (forall u :: u != t ==> (Marked(s', u) <==> Marked(s, u)))
      && (!Marked(s, t) ==> (Marked(s', t) <==> Overflows(c, s, t)))
      && (Marked(s, t) && OneKind(c, s) ==> (Marked(s', t) <==> !complete))
      && (OneKind(c, s) ==> OneKind(c, s'))
  {
    var t := span.trace;
    if !Marked(s, t) && |Spans(s.buffers.at, t)| < c.maxSpans {
      BoundedMarks(c, Added(Close(s, t).0, span, started), now);
    }
  }

  /** Each policy leaves its own kind of marker. */
  predicate OneKind(c: Settings, s: State) {
    if c.onOverflow.DropOverflow? then s.overflowedKeep == {} else s.overflowedDrop == {}
  }

  lemma {:induction false} RunKind(c: Settings, events: seq<Event>)
    ensures OneKind(c, Run(c, events))
  {
    if events != [] {
      var before, e := events[..|events| - 1], events[|events| - 1];
      RunKind(c, before);
      match e
      case Start(_) =>
      case End(span, started, now) => if !Run(c, before).down { EndMarks(c, Run(c, before), span, started, now); }
      case ForceFlush => FlushMarks(c, Run(c, before));
      case Stop => StopMarks(c, Run(c, before));
    }
  }

  // ---------------------------------------------------------------- when a marker is left behind

  /** The span that overflows its trace is the last one open. */
  predicate OverflowsAlone(c: Settings, s: State, e: Event, t: nat) {
    e.End? && e.span.trace == t && Overflows(c, s, t) && (t !in s.openSpans || s.openSpans[t] <= 1)
  }

  /** The event that parts a trace from its open spans: an overflow by the last of them, or the shutdown. */
  predicate Parts(c: Settings, events: seq<Event>, i: nat, t: nat) {
    i < |events| &&
    (OverflowsAlone(c, Run(c, events[..i]), events[i], t) || (events[i].Stop? && Stop !in events[..i]))
  }

  predicate NoStartSince(events: seq<Event>, i: nat, t: nat) {
    forall j :: i < j < |events| ==> events[j] != Start(t)
  }

  lemma PartsFront(c: Settings, events: seq<Event>, i: nat, t: nat)
    requires events != [] && i < |events| - 1
    ensures Parts(c, events, i, t) <==> Parts(c, events[..|events| - 1], i, t)
  {
    assert events[..|events| - 1][..i] == events[..i];
  }

  lemma PartedNow(c: Settings, events: seq<Event>, t: nat)
    requires c.Valid() && ClockOk(events) && events != [] && Parts(c, events, |events| - 1, t)
    ensures t !in Run(c, events).openSpans
  {
    var before, e := LastReady(c, events);
    var s := Run(c, before);
    if e.Stop? { StopMarks(c, s); } else { EndMarks(c, s, e.span, e.started, e.now); }
  }

  /** A trace with no open span gets one only by a start. */
  lemma StaysParted(c: Settings, s: State, e: Event, t: nat)
    requires t !in s.openSpans && e != Start(t)
    ensures t !in Step(c, s, e).openSpans
  {
    match e
    case Start(_) =>
    case End(span, started, now) => if !s.down { EndMarks(c, s, span, started, now); }
    case ForceFlush => FlushMarks(c, s);
    case Stop => StopMarks(c, s);
  }

  lemma {:induction false} PartedSince(c: Settings, events: seq<Event>, i: nat, t: nat)
    requires c.Valid() && ClockOk(events) && Parts(c, events, i, t) && NoStartSince(events, i, t)
    ensures t !in Run(c, events).openSpans
  {
    if i == |events| - 1 {
      PartedNow(c, events, t);
    } else {
      var before, e := LastReady(c, events);
      PartsFront(c, events, i, t);
      assert NoStartSince(before, i, t) by { forall j | i < j < |before| ensures before[j] != Start(t) { assert before[j] == events[j]; } }
      PartedSince(c, before, i, t);
      StaysParted(c, Run(c, before), e, t);
    }
  }

  /** A step that leaves a marked trace without open spans parts it, unless it was so before. */
  lemma PartingStep(c: Settings, s: State, e: Event, t: nat)
    requires OneKind(c, s) && Marked(Step(c, s, e), t) && t !in Step(c, s, e).openSpans
    ensures e != Start(t)
    ensures (Marked(s, t) && t !in s.openSpans) || OverflowsAlone(c, s, e, t) || (e.Stop? && !s.down)
  {
    match e
    case Start(_) =>
    case End(span, started, now) => if !s.down { EndMarks(c, s, span, started, now); }
    case ForceFlush => FlushMarks(c, s);
    case Stop => StopMarks(c, s);
  }

  lemma NoStartStill(events: seq<Event>, i: nat, t: nat)
    requires events != [] && NoStartSince(events[..|events| - 1], i, t) && events[|events| - 1] != Start(t)
    ensures NoStartSince(events, i, t)
  {
    var before := events[..|events| - 1];
    forall j | i < j < |events| ensures events[j] != Start(t) { if j < |before| { assert events[j] == before[j]; } }
  }

  lemma {:induction false} PartedSometime(c: Settings, events: seq<Event>, t: nat) returns (i: nat)
    requires c.Valid() && ClockOk(events) && Marked(Run(c, events), t) && t !in Run(c, events).openSpans
    ensures Parts(c, events, i, t) && NoStartSince(events, i, t)
  {
    var before, e := LastReady(c, events);
    var s := Run(c, before);
    RunKind(c, before);
    PartingStep(c, s, e, t);
    if OverflowsAlone(c, s, e, t) || (e.Stop? && !s.down) {
      i := |before|;
    } else {
      i := PartedSometime(c, before, t);
      PartsFront(c, events, i, t);
      NoStartStill(events, i, t);
    }
  }

  /**
    Over every run, a marked trace has no open span exactly when, with no start of the trace since, the
    span that overflowed it was the last one open, or the processor was shut down.
  */
  lemma MarkerWithoutSpansExactly(c: Settings, events: seq<Event>, t: nat)
    requires c.Valid() && ClockOk(events) && Marked(Run(c, events), t)
    ensures t !in Run(c, events).openSpans <==> exists i: nat :: Parts(c, events, i, t) && NoStartSince(events, i, t)
  {
    if i: nat :| Parts(c, events, i, t) && NoStartSince(events, i, t) { PartedSince(c, events, i, t); }
    if t !in Run(c, events).openSpans { var i := PartedSometime(c, events, t); }
  }

  /** Such a marker is not there for ever: unless the processor is down, one more span of the trace discards it. */
  lemma NextSpanDiscards(c: Settings, events: seq<Event>, span: Span, started: int, now: int)
    requires Marked(Run(c, events), span.trace) && span.trace !in Run(c, events).openSpans && !Run(c, events).down
    ensures !Marked(Run(c, events + [Start(span.trace)] + [End(span, started, now)]), span.trace)
  {
    RunKind(c, events);
    RunMore(c, events, Start(span.trace));
    RunMore(c, events + [Start(span.trace)], End(span, started, now));
    EndMarks(c, OnStart(Run(c, events), span.trace), span, started, now);
  }

  lemma RunMore(c: Settings, events: seq<Event>, e: Event)
    ensures Run(c, events + [e]) == Step(c, Run(c, events), e)
  {
    assert (events + [e])[..|events|] == events;
  }

  /** After the shutdown no marker is ever discarded. */
  lemma {:induction false} DownKeepsMarker(c: Settings, events: seq<Event>, more: seq<Event>, t: nat)
    requires Run(c, events).down && Marked(Run(c, events), t)
    ensures Run(c, events + more).down && Marked(Run(c, events + more), t)
  {
    if more == [] {
      assert events + more == events;
    } else {
      var n := |more| - 1;
      assert events + more == (events + more[..n]) + [more[n]];
      DownKeepsMarker(c, events, more[..n], t);
      RunMore(c, events + more[..n], more[n]);
      if more[n].ForceFlush? { JudgeAllMarks(c, Run(c, events + more[..n]), Completed(Run(c, events + more[..n]).buffers.keys, Run(c, events + more[..n]).openSpans)); }
    }
  }

  // ---------------------------------------------------------------- both ways there

  /** `k` spans of the trace are buffered and `extra` more are open. */
  predicate Filling(c: Settings, s: State, t: nat, k: nat, extra: nat) {
    && !s.down && s.overflowedKeep == {} && s.overflowedDrop == {}
    && s.buffers.keys == (if k == 0 then [] else [t]) && s.startedAt.keys == s.buffers.keys
    && s.buffers.at.Keys == s.startedAt.at.Keys == (if k == 0 then {} else {t})
    && |Spans(s.buffers.at, t)| == k
    && (k > 0 ==> s.startedAt.at[t] == 0)
    && s.openSpans == if extra == 0 then map[] else map[t := extra]
  }

  function SpanOf(t: nat): Span { Span(0, t, false) }

  lemma FillStarts(c: Settings, s: State, t: nat, k: nat, extra: nat)
    requires Filling(c, s, t, k, extra)
    ensures Filling(c, OnStart(s, t), t, k, extra + 1)
  {}

  lemma OneYoungTrace(c: Settings, s: State, t: nat)
    requires c.Valid() && s.buffers.keys == s.startedAt.keys == [t] && t in s.startedAt.at && s.startedAt.at[t] == 0
    ensures Bounded(c, s, 0) == s
  {
    assert [t][..0] == [];
    assert Aged([t], s.startedAt.at, 0 - c.maxAge) == [];
  }

  lemma FillEnds(c: Settings, s: State, t: nat, k: nat, extra: nat)
    requires c.Valid() && k < c.maxSpans && Filling(c, s, t, k, extra + 1)
    ensures Filling(c, OnEnd(c, s, SpanOf(t), 0, 0), t, k + 1, extra)
  {
    var s1 := Close(s, t).0;
    var s2 := Added(s1, SpanOf(t), 0);
    assert s1.openSpans == if extra == 0 then map[] else map[t := extra];
    assert s2.buffers.keys == s2.startedAt.keys == [t];
    OneYoungTrace(c, s2, t);
  }

  lemma {:induction false} StartMany(c: Settings, t: nat, n: nat) returns (events: seq<Event>)
    ensures |events| == n && forall i :: 0 <= i < n ==> events[i] == Start(t)
    ensures Filling(c, Run(c, events), t, 0, n)
  {
    events := [];
    if n > 0 {
      events := StartMany(c, t, n - 1);
      FillStarts(c, Run(c, events), t, 0, n - 1);
      RunMore(c, events, Start(t));
      events := events + [Start(t)];
    }
  }

  predicate Timeless(events: seq<Event>, t: nat) {
    forall i :: 0 <= i < |events| ==> events[i] == Start(t) || events[i] == End(SpanOf(t), 0, 0)
  }

  /** As many spans as fit end one by one, with `extra` left open. */
  lemma {:induction false} FillMany(c: Settings, t: nat, k: nat, extra: nat) returns (events: seq<Event>)
    requires c.Valid() && k <= c.maxSpans
    ensures Timeless(events, t) && Filling(c, Run(c, events), t, k, extra)
  {
    if k == 0 {
      events := StartMany(c, t, extra);
    } else {
      events := FillMany(c, t, k - 1, extra + 1);
      FillEnds(c, Run(c, events), t, k - 1, extra);
      RunMore(c, events, End(SpanOf(t), 0, 0));
      events := events + [End(SpanOf(t), 0, 0)];
    }
  }

  lemma FullOverflows(c: Settings, s: State, t: nat, extra: nat)
    requires c.Valid() && Filling(c, s, t, c.maxSpans, extra + 1)
    ensures var s' := OnEnd(c, s, SpanOf(t), 0, 0);
      Marked(s', t) && !s'.down && s'.openSpans == if extra == 0 then map[] else map[t := extra]
  {
    EndMarks(c, s, SpanOf(t), 0, 0);
  }

  lemma TimelessRuns(events: seq<Event>, t: nat)
    requires Timeless(events, t)
    ensures ClockOk(events) && Stop !in events
  {}

  /** Under any settings some run overflows a trace and leaves it marked with just so many spans open. */
  lemma OverflowRun(c: Settings, t: nat, extra: nat) returns (events: seq<Event>)
    requires c.Valid()
    ensures ClockOk(events) && Stop !in events && !Run(c, events).down
    ensures Marked(Run(c, events), t) && Run(c, events).openSpans == if extra == 0 then map[] else map[t := extra]
  {
    var fill := FillMany(c, t, c.maxSpans, extra + 1);
    events := fill + [End(SpanOf(t), 0, 0)];
    assert Timeless(events, t);
    TimelessRuns(events, t);
    FullOverflows(c, Run(c, fill), t, extra);
    RunMore(c, fill, End(SpanOf(t), 0, 0));
  }

  /** The overflow's own way: the trace's last open span overflows it. */
  lemma MarkerOutlivesTrace(c: Settings, t: nat) returns (events: seq<Event>)
    requires c.Valid()
    ensures ClockOk(events) && Marked(Run(c, events), t) && t !in Run(c, events).openSpans && !Run(c, events).down
  {
    events := OverflowRun(c, t, 0);
  }

  /** The shutdown's way: the trace still had a span open, and the shutdown forgets that but not the marker. */
  lemma ShutdownLeavesMarker(c: Settings, t: nat) returns (events: seq<Event>)
    requires c.Valid()
    ensures ClockOk(events) && Marked(Run(c, events), t) && t in Run(c, events).openSpans
    ensures Marked(Run(c, events + [Stop]), t) && t !in Run(c, events + [Stop]).openSpans
  {
    events := OverflowRun(c, t, 1);
    RunMore(c, events, Stop);
    StopMarks(c, Run(c, events));
  }
}
