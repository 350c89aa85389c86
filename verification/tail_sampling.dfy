/**
  The tail-sampling span processor as values: what it buffers, what it counts, and where every
  span went. One state follows each call; calls are serialised by the processor's lock.
*/
module TailSampling {
  import opened OrderedDict

  datatype Span = Span(id: nat, trace: nat, error: bool)

  datatype Policy = ExportOverflow | DropOverflow

  datatype Settings = Settings(
    bound: nat,
    alwaysSampleErrors: bool,
    maxSpans: nat,
    onOverflow: Policy,
    maxTraces: nat,
    maxAge: int)
  {
    predicate Valid() { maxSpans >= 1 && maxTraces >= 1 && maxAge > 0 }
  }

  // ---------------------------------------------------------------- the sampling decision

  const TRACE_ID_SPAN: nat := 0x1_0000_0000_0000_0000

  /** Python's `round`: to the nearest integer, ties to the even one. */
  function Round(x: real): int {
    var f := x.Floor;
    var rest := x - f as real;
    if rest < 0.5 then f
    else if rest > 0.5 then f + 1
    else if f % 2 == 0 then f else f + 1
  }

  function RatioBound(ratio: real): (b: nat)
    requires 0.0 <= ratio <= 1.0
  {
    assert ratio * TRACE_ID_SPAN as real >= 0.0;
    Round(ratio * TRACE_ID_SPAN as real)
  }

  predicate Sampled(trace: nat, bound: nat) {
    trace % TRACE_ID_SPAN < bound
  }

  predicate ShouldKeep(c: Settings, trace: nat, spans: seq<Span>) {
    (c.alwaysSampleErrors && exists i :: 0 <= i < |spans| && spans[i].error) || Sampled(trace, c.bound)
  }

  /** The bound is the nearest integer to that share of the ids, and the even one of two as near. */
  lemma BoundIsNearest(ratio: real)
    requires 0.0 <= ratio <= 1.0
    ensures var share, b := ratio * 18446744073709551616.0, RatioBound(ratio);
      && b as real - 0.5 <= share <= b as real + 0.5
      && (share == b as real - 0.5 || share == b as real + 0.5 ==> b % 2 == 0)
  {
    assert ratio * TRACE_ID_SPAN as real == ratio * 18446744073709551616.0;
    NearestIs(ratio * TRACE_ID_SPAN as real);
  }

  lemma NearestIs(x: real)
    ensures var b := Round(x);
      && b as real - 0.5 <= x <= b as real + 0.5
      && (x == b as real - 0.5 || x == b as real + 0.5 ==> b % 2 == 0)
  {}

  lemma RoundMonotone(x: real, y: real)
    requires x <= y
    ensures Round(x) <= Round(y)
  {
    if x.Floor == y.Floor {
    } else {
      assert x.Floor + 1 <= y.Floor;
    }
  }

  lemma Scaled(low: real, high: real, n: real)
    requires low <= high && n >= 0.0
    ensures low * n <= high * n
  {
    assert (high - low) * n >= 0.0;
  }

  lemma BoundGrows(low: real, high: real)
    requires 0.0 <= low <= high <= 1.0
    ensures RatioBound(low) <= RatioBound(high)
  {
    var n := TRACE_ID_SPAN as real;
    Scaled(low, high, n);
    RoundMonotone(low * n, high * n);
  }

  lemma BoundEnds()
    ensures RatioBound(0.0) == 0 && RatioBound(1.0) == TRACE_ID_SPAN
  {
    var n := TRACE_ID_SPAN as real;
    assert 1.0 * n == n && 0.0 * n == 0.0;
  }

  /** A larger ratio keeps every trace a smaller one keeps; 1 keeps all and 0 keeps none. */
  lemma KeepSetsNested(low: real, high: real, trace: nat)
    requires 0.0 <= low <= high <= 1.0
    ensures Sampled(trace, RatioBound(low)) ==> Sampled(trace, RatioBound(high))
    ensures Sampled(trace, RatioBound(1.0)) && !Sampled(trace, RatioBound(0.0))
  {
    BoundGrows(low, high);
    BoundEnds();
  }

  // ---------------------------------------------------------------- state

  datatype Batch = Batch(trace: nat, spans: seq<Span>)

  /** Where spans that left the buffer went: the exporter, the sampler's floor, or the overflow's. */
  datatype Log = Log(exported: seq<seq<Span>>, sampledOut: seq<Batch>, overflowed: seq<Span>, exporterStops: nat)

  datatype State = State(
    buffers: Dict<seq<Span>>,
    openSpans: map<nat, nat>,
    startedAt: Dict<int>,
    overflowedKeep: set<nat>,
    overflowedDrop: set<nat>,
    down: bool,
    droppedTraces: nat,
    sampledOutTraces: nat,
    exportedTraces: nat,
    evictedTraces: nat,
    log: Log)

  const EMPTY: State := State(
    Dict([], map[]), map[], Dict([], map[]), {}, {}, false, 0, 0, 0, 0, Log([], [], [], 0))

  predicate IsOpen(open: map<nat, nat>, t: nat) {
    t in open && open[t] > 0
  }

  // ---------------------------------------------------------------- operations

  function Spans(at: map<nat, seq<Span>>, k: nat): seq<Span> {
    if k in at then at[k] else []
  }

  function OnStart(s: State, t: nat): State {
    s.(openSpans := s.openSpans[t := (if t in s.openSpans then s.openSpans[t] else 0) + 1])
  }

  /** The open-span count after one of `t`'s spans ended, and whether it just reached zero. */
  function Close(s: State, t: nat): (State, bool) {
    if t !in s.openSpans then (s, false)
    else if s.openSpans[t] <= 1 then (s.(openSpans := s.openSpans - {t}), true)
    else (s.(openSpans := s.openSpans[t := s.openSpans[t] - 1]), false)
  }

  /** Takes one trace out of the buffer and decides it. */
  function Judge(c: Settings, s: State, t: nat): State {
    if t !in s.buffers.at then s else
    var spans := s.buffers.at[t];
    var s1 := s.(buffers := s.buffers.Del(t), startedAt := s.startedAt.Del(t));
    if ShouldKeep(c, t, spans) then
      s1.(exportedTraces := s.exportedTraces + 1,
          log := s.log.(exported := s.log.exported + [spans]))
    else
      s1.(sampledOutTraces := s.sampledOutTraces + 1,
          log := s.log.(sampledOut := s.log.sampledOut + [Batch(t, spans)]))
  }

  function Evict(c: Settings, s: State, t: nat): State {
    if t !in s.buffers.at then s else
    Judge(c, s, t).(evictedTraces := s.evictedTraces + 1)
  }

  function EvictAll(c: Settings, s: State, ts: seq<nat>): State {
    if ts == [] then s else Evict(c, EvictAll(c, s, ts[..|ts| - 1]), ts[|ts| - 1])
  }

  function JudgeAll(c: Settings, s: State, ts: seq<nat>): State {
    if ts == [] then s else Judge(c, JudgeAll(c, s, ts[..|ts| - 1]), ts[|ts| - 1])
  }

  /** The traces at or past the age limit, in buffer order. */
  function Aged(keys: seq<nat>, at: map<nat, int>, deadline: int): seq<nat> {
    if keys == [] then [] else
    var n := |keys| - 1;
    Aged(keys[..n], at, deadline) + if keys[n] in at && at[keys[n]] <= deadline then [keys[n]] else []
  }

  function Completed(keys: seq<nat>, open: map<nat, nat>): seq<nat> {
    if keys == [] then [] else
    var n := |keys| - 1;
    Completed(keys[..n], open) + if IsOpen(open, keys[n]) then [] else [keys[n]]
  }

  lemma {:induction false} AgedMembers(keys: seq<nat>, at: map<nat, int>, deadline: int)
    ensures forall t :: t in Aged(keys, at, deadline) <==> t in keys && t in at && at[t] <= deadline
  {
    if keys != [] { AgedMembers(keys[..|keys| - 1], at, deadline); }
  }

  lemma {:induction false} CompletedMembers(keys: seq<nat>, open: map<nat, nat>)
    ensures forall t :: t in Completed(keys, open) <==> t in keys && !IsOpen(open, t)
  {
    if keys != [] { CompletedMembers(keys[..|keys| - 1], open); }
  }

  /** Evicts the oldest completed traces until the buffer fits or only open ones are left. */
  function EvictToFit(c: Settings, s: State): State
    decreases |s.buffers.keys|
  {
    var done := Completed(s.buffers.keys, s.openSpans);
    CompletedMembers(s.buffers.keys, s.openSpans);
    if |s.buffers.keys| <= c.maxTraces || done == [] || done[0] !in s.buffers.at then s
    else EvictToFit(c, Evict(c, s, done[0]))
  }

  /** The buffer with one more ended span, before any eviction. */
  function Added(s: State, span: Span, started: int): State {
    var t := span.trace;
    s.(buffers := s.buffers.Set(t, Spans(s.buffers.at, t) + [span]),
       startedAt := if t in s.startedAt.at then s.startedAt else s.startedAt.Set(t, started))
  }

  /** The buffer bounded in age, then in count. */
  function Bounded(c: Settings, s: State, now: int): State {
    EvictToFit(c, EvictAll(c, s, Aged(s.startedAt.keys, s.startedAt.at, now - c.maxAge)))
  }

  /** Resolves a trace whose buffer is full when one more of its spans ends. */
  function Overflow(c: Settings, s: State, span: Span): State {
    var t := span.trace;
    var spans := Spans(s.buffers.at, t) + [span];
    var s1 := s.(buffers := s.buffers.Del(t), startedAt := s.startedAt.Del(t));
    if c.onOverflow.DropOverflow? then
      s1.(overflowedDrop := s.overflowedDrop + {t}, droppedTraces := s.droppedTraces + 1,
          log := s.log.(overflowed := s.log.overflowed + spans))
    else
      s1.(overflowedKeep := s.overflowedKeep + {t},
          log := s.log.(exported := s.log.exported + [spans]))
  }

  /** `started` and `now` are the two clock readings the call takes. */
  function OnEnd(c: Settings, s: State, span: Span, started: int, now: int): State {
    if s.down then s else
    var t := span.trace;
    var (s1, complete) := Close(s, t);
    if t in s.overflowedDrop then
      s1.(overflowedDrop := if complete then s.overflowedDrop - {t} else s.overflowedDrop,
          log := s.log.(overflowed := s.log.overflowed + [span]))
    else if t in s.overflowedKeep then
      s1.(overflowedKeep := if complete then s.overflowedKeep - {t} else s.overflowedKeep,
          log := s.log.(exported := s.log.exported + [[span]]))
    else if |Spans(s.buffers.at, t)| < c.maxSpans then
      Bounded(c, Added(s1, span, started), now)
    else
      Overflow(c, s1, span)
  }

  function Flush(c: Settings, s: State): State {
    JudgeAll(c, s, Completed(s.buffers.keys, s.openSpans))
  }

  function Shutdown(c: Settings, s: State): State {
    if s.down then s else
    var s1 := Flush(c, s.(openSpans := map[]));
    s1.(down := true, log := s1.log.(exporterStops := s1.log.exporterStops + 1))
  }

  // ---------------------------------------------------------------- runs

  datatype Event = Start(trace: nat) | End(span: Span, started: int, now: int) | ForceFlush | Stop

  function Step(c: Settings, s: State, e: Event): State {
    match e
    case Start(t) => OnStart(s, t)
    case End(span, started, now) => OnEnd(c, s, span, started, now)
    case ForceFlush => Flush(c, s)
    case Stop => Shutdown(c, s)
  }

  function Run(c: Settings, events: seq<Event>): State {
    if events == [] then EMPTY else Step(c, Run(c, events[..|events| - 1]), events[|events| - 1])
  }

  /** The monotonic clock: each call reads it twice, and readings never go back. */
  ghost predicate ClockOk(events: seq<Event>) {
    && (forall i :: 0 <= i < |events| && events[i].End? ==> events[i].started <= events[i].now)
    && (forall i, j :: 0 <= i < j < |events| && events[i].End? && events[j].End? ==> events[i].now <= events[j].started)
  }

  // ---------------------------------------------------------------- where every span is

  /** How often a span occurs. */
  function Times(x: Span, spans: seq<Span>): nat {
    if spans == [] then 0 else Times(x, spans[..|spans| - 1]) + if spans[|spans| - 1] == x then 1 else 0
  }

  /** Every span that ended before the processor was shut down, in order. */
  function Accepted(events: seq<Event>): seq<Span> {
    if events == [] then [] else
    var n := |events| - 1;
    Accepted(events[..n]) + if events[n].End? && Stop !in events[..n] then [events[n].span] else []
  }

  function Buffered(x: Span, keys: seq<nat>, at: map<nat, seq<Span>>): nat {
    if keys == [] then 0 else
    Buffered(x, keys[..|keys| - 1], at) + Times(x, Spans(at, keys[|keys| - 1]))
  }

  function Exported(x: Span, batches: seq<seq<Span>>): nat {
    if batches == [] then 0 else
    Exported(x, batches[..|batches| - 1]) + Times(x, batches[|batches| - 1])
  }

  function SampledOut(x: Span, batches: seq<Batch>): nat {
    if batches == [] then 0 else
    SampledOut(x, batches[..|batches| - 1]) + Times(x, batches[|batches| - 1].spans)
  }

  /** How often a span occurs over every place a span can be. */
  function Everywhere(x: Span, s: State): nat {
    Buffered(x, s.buffers.keys, s.buffers.at) + Exported(x, s.log.exported)
    + SampledOut(x, s.log.sampledOut) + Times(x, s.log.overflowed)
  }
}
