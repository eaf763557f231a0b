/**
 * Streaming coherence over time windows: records are buffered while they
 * fall in the current window; the first record outside it closes the
 * window, rebuilds the engine from the buffered records, emits that
 * window's signal and moves the window forward by one step.
 */
module Streaming {
  import opened Floats
  import opened Framework
  import opened Estimate
  import opened Graph
  import opened Signals
  import opened Engine

  /** The window a first record at `ts` opens: [ts, ts + size) with sequence number 0 */
  function OpeningWindow(ts: int, size: int): (w: TemporalWindow)
    ensures w.windowId == 0 && w.start == ts && w.end - w.start == size
    ensures w.Contains(ts) <==> size > 0
  {
    TemporalWindow(ts, ts + size, 0)
  }

  /** The window that follows `w`: its start moved by `step`, the same size, the next number */
  function NextWindow(w: TemporalWindow, step: int, size: int): (n: TemporalWindow)
    ensures n.windowId == w.windowId + 1
    ensures n.start - w.start == step && n.end - n.start == size
  {
    TemporalWindow(w.start + step, w.start + step + size, w.windowId + 1)
  }

  /** The start of the k-th window: the origin moved on by k steps, one step at a time */
  function KthStart(origin: int, step: int, k: nat): int
  {
    if k == 0 then origin else KthStart(origin, step, k - 1) + step
  }

  /** The k-th window starts k whole steps after the origin. */
  lemma {:induction false} KthStartClosedForm(origin: int, step: int, k: nat)
    ensures KthStart(origin, step, k) == origin + k * step
  {
    if k > 0 {
      KthStartClosedForm(origin, step, k - 1);
      assert k * step == (k - 1) * step + step;
    }
  }

  /** The k-th window of a stream whose first record arrived at `origin` */
  function KthWindow(origin: int, step: int, size: int, k: nat): TemporalWindow
  {
    var start := KthStart(origin, step, k);
    TemporalWindow(start, start + size, k)
  }

  /** The window current after `process` has initialised it if needed */
  function ActiveWindow(current: Option<TemporalWindow>, ts: int, size: int): TemporalWindow
  {
    if current.None? then OpeningWindow(ts, size) else current.value
  }

  /** Rolling over the k-th window gives the (k+1)-th: windows only ever advance by whole steps. */
  lemma NextKthWindow(origin: int, step: int, size: int, k: nat)
    ensures NextWindow(KthWindow(origin, step, size, k), step, size) == KthWindow(origin, step, size, k + 1)
  {
  }

  /** The opening window is window number 0 of a stream that starts at the record's timestamp. */
  lemma OpeningIsFirst(ts: int, step: int, size: int)
    ensures OpeningWindow(ts, size) == KthWindow(ts, step, size, 0)
  {
  }

  /**
   * With the step equal to the size, consecutive windows tile the time
   * line: each one ends where the next one starts. A smaller step makes
   * them overlap, a larger one leaves gaps.
   */
  lemma WindowsTile(origin: int, step: int, size: int, k: nat)
    ensures KthWindow(origin, step, size, k).end == KthWindow(origin, step, size, k + 1).start
      <==> step == size
  {
  }

  /** A record stamped before its window's start is not in it, so it closes the window. */
  lemma EarlyRecordRollsOver(w: TemporalWindow, ts: int)
    requires ts < w.start
    ensures !w.Contains(ts)
  {
  }

  class StreamingCoherence {
    const engine: CoherenceEngine
    const windowSize: int
    const windowStep: int
    var currentWindow: Option<TemporalWindow>
    var windowRecords: seq<DataRecord>
    /** The timestamp of the record that opened the first window */
    ghost var origin: int

    ghost predicate Valid()
      reads this, engine
    {
      && engine.Valid()
      && windowSize == engine.config.windowSizeSecs
      && windowStep == engine.config.windowStepSecs
      && (currentWindow.None? ==> windowRecords == [])
      && (currentWindow.Some? ==>
            currentWindow.value == KthWindow(origin, windowStep, windowSize, currentWindow.value.windowId))
    }

    /**
     * The engine holds exactly the graph built from `records` and a history
     * of the one signal `s`, whose window is stamped with the two clock
     * readings `clockStart` and `clockEnd`.
     */
    ghost predicate RebuiltFrom(records: seq<DataRecord>, clockStart: int, clockEnd: int, s: CoherenceSignal)
      reads engine
    {
      && engine.GraphValid()
      && engine.nodes.Keys == Mentioned(records, engine.config.minEdgeWeight)
      && engine.Links() == RecordLinks(records, engine.config.minEdgeWeight)
      && engine.signals == [s]
      && engine.SignalFor(s, [], clockStart, clockEnd)
    }

    constructor (config: CoherenceConfig)
      ensures Valid() && fresh(engine)
      ensures engine.config == config
      ensures windowSize == config.windowSizeSecs && windowStep == config.windowStepSecs
      ensures currentWindow == None && windowRecords == []
      ensures engine.nodes == map[] && engine.edges == [] && engine.signals == [] && engine.boundaries == []
    {
      engine := new CoherenceEngine(config);
      windowSize := config.windowSizeSecs;
      windowStep := config.windowStepSecs;
      currentWindow := None;
      windowRecords := [];
    }

    /**
     * Close the current window: with an empty buffer nothing happens;
     * otherwise the engine is cleared (history included), rebuilt from the
     * buffered records, the buffer is emptied and the window's single
     * signal, which has no delta, is returned.
     */
    method FinalizeWindow(clockStart: int, clockEnd: int) returns (signal: Option<CoherenceSignal>)
      requires Valid()
      modifies this`windowRecords, engine
      ensures Valid()
      ensures windowRecords == []
      ensures engine.boundaries == old(engine.boundaries)
      ensures old(windowRecords) == [] ==> signal == None && unchanged(engine)
      ensures old(windowRecords) != [] ==>
        && signal.Some?
        && signal.value.delta == None
        && signal.value.id == SignalId(0)
        && RebuiltFrom(old(windowRecords), clockStart, clockEnd, signal.value)
    {
      if windowRecords == [] {
        return None;
      }
      engine.Clear();
      var signals := engine.ComputeFromRecords(windowRecords, clockStart, clockEnd);
      assert windowRecords[0].id in engine.nodes;
      windowRecords := [];
      signal := Some(signals[|signals| - 1]);
    }

    /**
     * Feed one record. The window is opened at the record's timestamp if
     * none is open. A record the window contains is buffered and nothing is
     * emitted. Any other record, earlier or later, closes the window (see
     * FinalizeWindow), opens the next one, one step further on, and is
     * buffered there whether or not that window contains it.
     */
    method Process(record: DataRecord, clockStart: int, clockEnd: int) returns (signal: Option<CoherenceSignal>)
      requires Valid()
      modifies this`currentWindow, this`windowRecords, this`origin, engine
      ensures Valid()
      ensures engine.boundaries == old(engine.boundaries)
      ensures old(currentWindow).None? ==> origin == record.timestamp
      ensures old(currentWindow).Some? ==> origin == old(origin)
      ensures var w := ActiveWindow(old(currentWindow), record.timestamp, windowSize);
        w.Contains(record.timestamp) ==>
          && signal == None
          && currentWindow == Some(w)
          && windowRecords == old(windowRecords) + [record]
          && unchanged(engine)
      ensures var w := ActiveWindow(old(currentWindow), record.timestamp, windowSize);
        !w.Contains(record.timestamp) ==>
          && currentWindow == Some(NextWindow(w, windowStep, windowSize))
          && windowRecords == [record]
          && (old(windowRecords) == [] ==> signal == None && unchanged(engine))
          && (old(windowRecords) != [] ==>
                signal.Some? && signal.value.delta == None && RebuiltFrom(old(windowRecords), clockStart, clockEnd, signal.value))
    {
      var ts := record.timestamp;
      if currentWindow.None? {
        currentWindow := Some(OpeningWindow(ts, windowSize));
        origin := ts;
        OpeningIsFirst(ts, windowStep, windowSize);
      }
      var window := currentWindow.value;
      if window.Contains(ts) {
        windowRecords := windowRecords + [record];
        return None;
      }
      signal := FinalizeWindow(clockStart, clockEnd);
      NextKthWindow(origin, windowStep, windowSize, window.windowId);
      currentWindow := Some(NextWindow(window, windowStep, windowSize));
      windowRecords := windowRecords + [record];
    }
  }
}
