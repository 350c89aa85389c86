/**
  The processor object, updating its buffers in place. Each method is proved to leave the state
  the value model gives; the loops over the age queue, the oldest completed trace and the
  completed traces are the ones that need an argument.
*/
module TailProcessor {
  import opened Options
  import opened OrderedDict
  import opened TailSampling
  import opened TailInvariants
  import opened TailVerdicts

  lemma YoungAtEnd(keys: seq<nat>, at: map<nat, int>, deadline: int, n: nat)
    requires Timed(keys, at) && n < |keys| && keys[n] in at && at[keys[n]] > deadline
    ensures var k := keys[|keys| - 1]; k in at && at[k] > deadline
  {
    if n < |keys| - 1 { assert keys[n] in keys[..|keys| - 1]; }
  }

  /** The first `n` traces are past the deadline. */
  predicate OldTo(keys: seq<nat>, at: map<nat, int>, deadline: int, n: nat)
    requires n <= |keys|
  {
    n == 0 || (OldTo(keys, at, deadline, n - 1) && keys[n - 1] in at && at[keys[n - 1]] <= deadline)
  }

  lemma {:induction false} OldFront(keys: seq<nat>, at: map<nat, int>, deadline: int, n: nat, m: nat)
    requires n <= m <= |keys| && OldTo(keys, at, deadline, n)
    ensures OldTo(keys[..m], at, deadline, n)
  {
    if n > 0 { OldFront(keys, at, deadline, n - 1, m); }
  }

  lemma {:induction false} AllAged(keys: seq<nat>, at: map<nat, int>, deadline: int)
    requires OldTo(keys, at, deadline, |keys|)
    ensures Aged(keys, at, deadline) == keys
  {
    if keys != [] {
      var last := |keys| - 1;
      assert keys == keys[..last] + [keys[last]];
      OldFront(keys, at, deadline, last, last);
      AllAged(keys[..last], at, deadline);
    }
  }

  lemma YoungDropped(keys: seq<nat>, at: map<nat, int>, deadline: int)
    requires keys != [] && keys[|keys| - 1] in at && at[keys[|keys| - 1]] > deadline
    ensures Aged(keys, at, deadline) == Aged(keys[..|keys| - 1], at, deadline)
  {}

  /** The age queue up to its first young trace is exactly the aged traces. */
  lemma {:induction false} AgedPrefix(keys: seq<nat>, at: map<nat, int>, deadline: int, n: nat)
    requires Timed(keys, at) && n <= |keys| && OldTo(keys, at, deadline, n)
    requires n < |keys| ==> keys[n] in at && at[keys[n]] > deadline
    ensures Aged(keys, at, deadline) == keys[..n]
  {
    if n == |keys| {
      AllAged(keys, at, deadline);
      assert keys[..n] == keys;
    } else {
      var front := keys[..|keys| - 1];
      assert front[..n] == keys[..n];
      OldFront(keys, at, deadline, n, |front|);
      YoungAtEnd(keys, at, deadline, n);
      YoungDropped(keys, at, deadline);
      AgedPrefix(front, at, deadline, n);
    }
  }

  lemma {:induction false} CompletedStart(keys: seq<nat>, n: nat, open: map<nat, nat>)
    requires n < |keys| && !IsOpen(open, keys[n]) && Completed(keys[..n], open) == []
    ensures Completed(keys, open) != [] && Completed(keys, open)[0] == keys[n]
  {
    var last := |keys| - 1;
    var tail := if IsOpen(open, keys[last]) then [] else [keys[last]];
    assert Completed(keys, open) == Completed(keys[..last], open) + tail;
    if n < last {
      assert keys[..last][..n] == keys[..n];
      CompletedStart(keys[..last], n, open);
    }
  }

  /** The state once these batches reach the exporter too. */
  function Handed(s: State, batches: seq<seq<Span>>): State {
    s.(log := s.log.(exported := s.log.exported + batches))
  }

  /** The state once a trace, out of both dictionaries, is counted as evicted and judged. */
  function Accounted(c: Settings, s: State, t: nat, spans: seq<Span>): State {
    if ShouldKeep(c, t, spans) then
      s.(evictedTraces := s.evictedTraces + 1, exportedTraces := s.exportedTraces + 1,
         log := s.log.(exported := s.log.exported + [spans]))
    else
      s.(evictedTraces := s.evictedTraces + 1, sampledOutTraces := s.sampledOutTraces + 1,
         log := s.log.(sampledOut := s.log.sampledOut + [Batch(t, spans)]))
  }

  lemma EvictIsPop(c: Settings, s: State, t: nat)
    requires t in s.buffers.at
    ensures Evict(c, s, t)
         == Accounted(c, s.(buffers := s.buffers.Del(t), startedAt := s.startedAt.Del(t)), t, s.buffers.at[t])
  {}

  class TailSamplingSpanProcessor {
    const settings: Settings
    var buffers: Dict<seq<Span>>
    var openSpans: map<nat, nat>
    var startedAt: Dict<int>
    var overflowedKeep: set<nat>
    var overflowedDrop: set<nat>
    var down: bool
    var droppedTraces: nat
    var sampledOutTraces: nat
    var exportedTraces: nat
    var evictedTraces: nat
    ghost var log: Log

    ghost function View(): State
      reads this
    {
      State(buffers, openSpans, startedAt, overflowedKeep, overflowedDrop, down,
            droppedTraces, sampledOutTraces, exportedTraces, evictedTraces, log)
    }

    ghost predicate Valid()
      reads this
    {
      settings.Valid() && Inv(settings, View())
    }

    constructor (settings: Settings)
      requires settings.Valid()
      ensures this.settings == settings && Valid() && View() == EMPTY
    {
      this.settings := settings;
      buffers := Dict([], map[]);
      openSpans := map[];
      startedAt := Dict([], map[]);
      overflowedKeep, overflowedDrop := {}, {};
      down := false;
      droppedTraces, sampledOutTraces, exportedTraces, evictedTraces := 0, 0, 0, 0;
      log := Log([], [], [], 0);
    }

    /** Hands a batch to the exporter, which only ever appends. */
    method Export(spans: seq<Span>)
      modifies this`log
      ensures log == old(log).(exported := old(log).exported + [spans])
    {
      log := log.(exported := log.exported + [spans]);
    }

    method SpanStarted(t: nat)
      modifies this
      ensures View() == OnStart(old(View()), t)
    {
      openSpans := openSpans[t := (if t in openSpans then openSpans[t] else 0) + 1];
    }

    method CloseSpanLocked(t: nat) returns (complete: bool)
      modifies this
      ensures (View(), complete) == Close(old(View()), t)
    {
      if t !in openSpans {
        return false;
      }
      var remaining := openSpans[t];
      if remaining <= 1 {
        openSpans := openSpans - {t};
        return true;
      }
      openSpans := openSpans[t := remaining - 1];
      complete := false;
    }

    predicate Open(t: nat)
      reads this`openSpans
    {
      t in openSpans && openSpans[t] > 0
    }

    method JudgeLocked(t: nat, spans: seq<Span>) returns (keep: bool)
      ensures keep == ShouldKeep(settings, t, spans)
    {
      if settings.alwaysSampleErrors {
        var i := 0;
        while i < |spans|
          invariant 0 <= i <= |spans|
          invariant forall j :: 0 <= j < i ==> !spans[j].error
        {
          if spans[i].error {
            return true;
          }
          i := i + 1;
        }
      }
      keep := Sampled(t, settings.bound);
    }

    /** The two dictionaries hold the same traces, so a trace the buffer lacks has no start time. */
    method EvictOneLocked(t: nat)
      requires t in buffers.at || (buffers.Del(t) == buffers && startedAt.Del(t) == startedAt)
      modifies this
      ensures View() == Evict(settings, old(View()), t)
      ensures t in old(buffers.at) ==> Verdict(settings, old(log), log, t, old(buffers.at)[t])
    {
      var present := t in buffers.at;
      var spans := Spans(buffers.at, t);
      buffers := buffers.Del(t);
      startedAt := startedAt.Del(t);
      if !present {
        return;
      }
      EvictIsPop(settings, old(View()), t);
      AccountFor(t, spans);
    }

    /** An evicted trace is kept and exported, or sampled out. */
    method AccountFor(t: nat, spans: seq<Span>)
      modifies this`evictedTraces, this`exportedTraces, this`sampledOutTraces, this`log
      ensures View() == Accounted(settings, old(View()), t, spans)
      ensures Verdict(settings, old(log), log, t, spans)
    {
      DecidedByWant(settings, t, spans);
      var keep := JudgeLocked(t, spans);
      evictedTraces := evictedTraces + 1;
      if keep {
        exportedTraces := exportedTraces + 1;
        Export(spans);
      } else {
        sampledOutTraces := sampledOutTraces + 1;
        log := log.(sampledOut := log.sampledOut + [Batch(t, spans)]);
      }
    }

    /** Walks the age queue in order and stops at the first trace young enough to stay. */
    method EvictAgedLocked(deadline: int)
      requires Core(settings, View())
      modifies this
      ensures View() == EvictAll(settings, old(View()), Aged(old(startedAt).keys, old(startedAt).at, deadline))
    {
      var items := startedAt;
      ghost var before := View();
      AllTimed(items);
      var i := 0;
      while i < |items.keys|
        invariant 0 <= i <= |items.keys|
        invariant View() == EvictAll(settings, before, items.keys[..i])
        invariant OldTo(items.keys, items.at, deadline, i)
      {
        if items.at[items.keys[i]] > deadline {
          break;
        }
        EvictNext(settings, before, items.keys, i, View());
        EvictOneLocked(items.keys[i]);
        i := i + 1;
      }
      AgedPrefix(items.keys, items.at, deadline, i);
    }

    method FirstCompleted() returns (t: Option<nat>)
      ensures t == if Completed(buffers.keys, openSpans) == [] then None else Some(Completed(buffers.keys, openSpans)[0])
    {
      var i := 0;
      while i < |buffers.keys|
        invariant 0 <= i <= |buffers.keys|
        invariant Completed(buffers.keys[..i], openSpans) == []
      {
        if !Open(buffers.keys[i]) {
          CompletedStart(buffers.keys, i, openSpans);
          return Some(buffers.keys[i]);
        }
        i := i + 1;
        assert buffers.keys[..i][..i - 1] == buffers.keys[..i - 1];
      }
      assert buffers.keys[..i] == buffers.keys;
      t := None;
    }

    /** Evicts the oldest completed trace while the buffer is over its count. */
    method EvictToFitLocked()
      requires Core(settings, View())
      modifies this
      ensures View() == EvictToFit(settings, old(View()))
    {
      ghost var before := View();
      while |buffers.keys| > settings.maxTraces
        invariant Core(settings, View())
        invariant EvictToFit(settings, View()) == EvictToFit(settings, before)
        decreases |buffers.keys|
      {
        var evictable := FirstCompleted();
        if evictable.None? {
          return;
        }
        FitsAfterOne(settings, View(), evictable.value);
        EvictOneLocked(evictable.value);
      }
    }

    method EvictLocked(now: int)
      requires Core(settings, View())
      modifies this
      ensures View() == Bounded(settings, old(View()), now)
    {
      ghost var before := View();
      EvictAgedLocked(now - settings.maxAge);
      EvictedCore(settings, before, Aged(before.startedAt.keys, before.startedAt.at, now - settings.maxAge), View());
      EvictToFitLocked();
    }

    method ResolveOverflowLocked(span: Span) returns (stream: seq<Span>)
      requires span.trace in buffers.at
      modifies this
      ensures var s' := Overflow(settings, old(View()), span);
        if stream == [] then settings.onOverflow.DropOverflow? && View() == s'
        else
          && settings.onOverflow.ExportOverflow?
          && View() == s'.(log := old(log))
          && s'.log == old(log).(exported := old(log).exported + [stream])
    {
      var t := span.trace;
      var buffer := buffers.at[t];
      buffers := buffers.Del(t);
      startedAt := startedAt.Del(t);
      if settings.onOverflow == DropOverflow {
        overflowedDrop := overflowedDrop + {t};
        droppedTraces := droppedTraces + 1;
        log := log.(overflowed := log.overflowed + (buffer + [span]));
        return [];
      }
      overflowedKeep := overflowedKeep + {t};
      stream := buffer + [span];
    }

    /** Appends a span to a buffer with room for it, and bounds the buffer. */
    method BufferLocked(span: Span, started: int, now: int)
      requires Core(settings, View()) && HasRoom(settings, View(), span.trace) && StartedBy(startedAt.at, started)
      modifies this
      ensures View() == Bounded(settings, Added(old(View()), span, started), now)
    {
      var t := span.trace;
      ghost var before := View();
      if t !in buffers.at {
        buffers := buffers.Set(t, []);
      }
      if t !in startedAt.at {
        startedAt := startedAt.Set(t, started);
      }
      AddedInSteps(before, span, started);
      buffers := buffers.Set(t, buffers.at[t] + [span]);
      assert View() == Added(before, span, started);
      AddedKeeps(settings, before, span, started);
      EvictLocked(now);
    }

    /** `on_end`: `started` and `now` are its two readings of the monotonic clock. */
    method SpanEnded(span: Span, started: int, now: int)
      requires Valid() && StartedBy(startedAt.at, started) && started <= now
      modifies this
      ensures Valid() && StartedBy(startedAt.at, now)
      ensures View() == OnEnd(settings, old(View()), span, started, now)
    {
      OnEndKeeps(settings, View(), span, started, now);
      if down {
        return;
      }
      var t := span.trace;
      ghost var before := View();
      var complete := CloseSpanLocked(t);
      CloseKeeps(before, t);
      if t in overflowedDrop {
        if complete {
          overflowedDrop := overflowedDrop - {t};
        }
        log := log.(overflowed := log.overflowed + [span]);
      } else if t in overflowedKeep {
        if complete {
          overflowedKeep := overflowedKeep - {t};
        }
        Export([span]);
      } else if t !in buffers.at || |buffers.at[t]| < settings.maxSpans {
        BufferLocked(span, started, now);
      } else {
        var stream := ResolveOverflowLocked(span);
        if stream != [] {
          Export(stream);
        }
      }
    }

    /** `force_flush`: takes every completed trace under the lock, then exports the kept ones. */
    method ForceFlush()
      requires Valid()
      modifies this
      ensures Valid()
      ensures View() == Flush(settings, old(View()))
      ensures forall t :: t in old(buffers.at) ==>
        if IsOpen(openSpans, t) then t in buffers.at && buffers.at[t] == old(buffers.at)[t]
        else t !in buffers.at && Verdict(settings, old(log), log, t, old(buffers.at)[t])
    {
      FlushLocked();
      FlushKeeps(settings, old(View()));
      ghost var before := old(View());
      assert openSpans == before.openSpans;
      forall t | t in before.buffers.at
        ensures if IsOpen(openSpans, t) then t in buffers.at && buffers.at[t] == before.buffers.at[t]
          else t !in buffers.at && Verdict(settings, before.log, log, t, before.buffers.at[t])
      {
        FlushVerdict(settings, before, t);
      }
    }

    method CompletedTraces() returns (complete: seq<nat>)
      ensures complete == Completed(buffers.keys, openSpans)
    {
      complete := [];
      var i := 0;
      while i < |buffers.keys|
        invariant 0 <= i <= |buffers.keys|
        invariant complete == Completed(buffers.keys[..i], openSpans)
      {
        if !Open(buffers.keys[i]) {
          complete := complete + [buffers.keys[i]];
        }
        i := i + 1;
        assert buffers.keys[..i][..i - 1] == buffers.keys[..i - 1];
      }
      assert buffers.keys[..i] == buffers.keys;
    }

    /** Takes every listed trace out of the buffer and answers the batches to export. */
    method JudgeListed(complete: seq<nat>) returns (toExport: seq<seq<Span>>)
      modifies this
      ensures Handed(View(), toExport) == JudgeAll(settings, old(View()), complete)
      ensures log.exported == old(log).exported
    {
      toExport := [];
      var i := 0;
      assert complete[..0] == [];
      while i < |complete|
        invariant 0 <= i <= |complete|
        invariant log.exported == old(log).exported
        invariant Handed(View(), toExport) == JudgeAll(settings, old(View()), complete[..i])
      {
        JudgeAllNext(settings, old(View()), complete, i);
        var batch := JudgeOneLocked(complete[i], toExport);
        toExport := toExport + batch;
        i := i + 1;
      }
      assert complete[..i] == complete;
    }

    /**
      Decides one trace, answering its spans when they are to be exported, after those `earlier`. A
      buffered trace carries no overflow marker, so there is none to discard here.
    */
    method JudgeOneLocked(t: nat, ghost earlier: seq<seq<Span>>) returns (batch: seq<seq<Span>>)
      modifies this
      ensures log.exported == old(log).exported
      ensures Handed(View(), earlier + batch) == Judge(settings, Handed(old(View()), earlier), t)
    {
      batch := [];
      assert earlier + [] == earlier;
      if t in buffers.at {
        var spans := buffers.at[t];
        buffers := buffers.Del(t);
        startedAt := startedAt.Del(t);
        var keep := JudgeLocked(t, spans);
        if keep {
          exportedTraces := exportedTraces + 1;
          batch := [spans];
          assert log.exported + (earlier + [spans]) == log.exported + earlier + [spans];
        } else {
          sampledOutTraces := sampledOutTraces + 1;
          log := log.(sampledOut := log.sampledOut + [Batch(t, spans)]);
        }
      }
    }

    method ExportAll(batches: seq<seq<Span>>)
      modifies this`log
      ensures log == old(log).(exported := old(log).exported + batches)
    {
      var j := 0;
      while j < |batches|
        invariant 0 <= j <= |batches|
        invariant log == old(log).(exported := old(log).exported + batches[..j])
      {
        Export(batches[j]);
        j := j + 1;
        assert batches[..j] == batches[..j - 1] + [batches[j - 1]];
      }
      assert batches[..j] == batches;
    }

    method FlushLocked()
      requires Core(settings, View())
      modifies this
      ensures View() == Flush(settings, old(View()))
    {
      var complete := CompletedTraces();
      var toExport := JudgeListed(complete);
      ExportAll(toExport);
    }

    /** `shutdown`: resolves everything still buffered, open or not, then stops the exporter once. */
    method ShutDown()
      requires Valid()
      modifies this
      ensures Valid() && down && buffers.keys == []
      ensures View() == Shutdown(settings, old(View()))
      ensures !old(down) ==> forall t :: t in old(buffers.at) ==> Verdict(settings, old(log), log, t, old(buffers.at)[t])
    {
      ShutdownEmpties(settings, View());
      Judgements(settings, View());
      if down {
        return;
      }
      openSpans := map[];
      FlushLocked();
      down := true;
      log := log.(exporterStops := log.exporterStops + 1);
    }
  }

  /** The shutdown's verdicts on all traces at once. */
  lemma Judgements(c: Settings, s: State)
    requires Core(c, s)
    ensures !s.down ==> forall t :: t in s.buffers.at ==> Verdict(c, s.log, Shutdown(c, s).log, t, s.buffers.at[t])
  {
    if !s.down {
      forall t | t in s.buffers.at ensures Verdict(c, s.log, Shutdown(c, s).log, t, s.buffers.at[t]) {
        ShutdownVerdict(c, s, t);
      }
    }
  }

  /** A trace the buffer lacks is also missing from the start times. */
  lemma ForgetAbsent(buffers: Dict<seq<Span>>, startedAt: Dict<int>, t: nat)
    requires KeysOk(buffers, startedAt)
    ensures t !in buffers.at ==> buffers.Del(t) == buffers && startedAt.Del(t) == startedAt
  {
    if t !in buffers.at {
      assert t !in buffers.keys && t !in startedAt.keys && t !in startedAt.at;
      DelAbsent(buffers, t);
      DelAbsent(startedAt, t);
    }
  }

  /** Starting an empty buffer first and then growing it is growing it at once. */
  lemma AddedInSteps(s: State, span: Span, started: int)
    ensures var t := span.trace; var b := if t in s.buffers.at then s.buffers else s.buffers.Set(t, []);
      b.Set(t, b.at[t] + [span]) == Added(s, span, started).buffers
  {}

  lemma AllTimed(d: Dict<int>)
    requires d.Ok()
    ensures forall j :: 0 <= j < |d.keys| ==> d.keys[j] in d.at
  {
    forall j | 0 <= j < |d.keys| ensures d.keys[j] in d.at {
      assert d.keys[j] in d.keys;
    }
  }

  lemma EvictNext(c: Settings, s: State, ts: seq<nat>, i: nat, s1: State)
    requires Core(c, s) && i < |ts| && s1 == EvictAll(c, s, ts[..i])
    ensures ts[i] in s1.buffers.at || (s1.buffers.Del(ts[i]) == s1.buffers && s1.startedAt.Del(ts[i]) == s1.startedAt)
    ensures EvictAll(c, s, ts[..i + 1]) == Evict(c, s1, ts[i])
  {
    EvictAllKeeps(c, s, ts[..i]);
    ForgetAbsent(s1.buffers, s1.startedAt, ts[i]);
    assert ts[..i + 1][..i] == ts[..i];
  }

  lemma JudgeAllNext(c: Settings, s: State, ts: seq<nat>, i: nat)
    requires i < |ts|
    ensures JudgeAll(c, s, ts[..i + 1]) == Judge(c, JudgeAll(c, s, ts[..i]), ts[i])
  {
    assert ts[..i + 1][..i] == ts[..i];
  }

  lemma EvictedCore(c: Settings, s: State, ts: seq<nat>, s1: State)
    requires Core(c, s) && s1 == EvictAll(c, s, ts)
    ensures Core(c, s1)
  {
    EvictAllKeeps(c, s, ts);
  }

  /** Evicting the oldest completed trace is one step of evicting to fit. */
  lemma FitsAfterOne(c: Settings, s: State, t: nat)
    requires Core(c, s) && |s.buffers.keys| > c.maxTraces
    requires Completed(s.buffers.keys, s.openSpans) != [] && Completed(s.buffers.keys, s.openSpans)[0] == t
    ensures t in s.buffers.at && Core(c, Evict(c, s, t))
    ensures EvictToFit(c, s) == EvictToFit(c, Evict(c, s, t))
    ensures |Evict(c, s, t).buffers.keys| < |s.buffers.keys|
  {
    NextToEvict(c, s);
    EvictKeeps(c, s, t);
  }
}
