/**
 * The records the coherence engine produces, the delta between consecutive
 * signals, and the invariant that the engine's signal history keeps.
 */
module Signals {
  import opened Floats
  import opened Framework
  import opened Text
  import opened Estimate

  /** Engine configuration; epsilon, parallel and trackBoundaries are carried but never read */
  datatype CoherenceConfig = CoherenceConfig(
    minEdgeWeight: real,
    windowSizeSecs: int,
    windowStepSecs: int,
    approximate: bool,
    epsilon: real,
    parallel: bool,
    trackBoundaries: bool)

  /** The default configuration: one-week windows sliding by one day */
  function DefaultConfig(): CoherenceConfig
  {
    CoherenceConfig(0.01, 86400 * 7, 86400, true, 0.1, true, true)
  }

  /** One coherence measurement of the graph */
  datatype CoherenceSignal = CoherenceSignal(
    id: string,
    window: TemporalWindow,
    minCutValue: Float,
    nodeCount: nat,
    edgeCount: nat,
    partitionSizes: Option<(nat, nat)>,
    isExact: bool,
    cutNodes: seq<string>,
    delta: Option<Float>)

  datatype CoherenceEventType = Strengthened | Weakened | Split | Merged | ThresholdCrossed | Anomaly

  /** A detected change between consecutive signals (its free-form context map is not modelled) */
  datatype CoherenceEvent = CoherenceEvent(
    eventType: CoherenceEventType,
    timestamp: int,
    nodes: seq<string>,
    magnitude: Float)

  /** A tracked boundary; the engine declares a list of them but never adds one */
  datatype CoherenceBoundary = CoherenceBoundary(
    id: string,
    sideA: seq<string>,
    sideB: seq<string>,
    cutValue: Float,
    history: seq<(int, Float)>,
    firstSeen: int,
    lastUpdated: int,
    stable: bool)

  /** The id of the k-th signal of a history: "signal_" followed by k in decimal */
  function SignalId(k: nat): string
  {
    "signal_" + DecimalString(k)
  }

  lemma SignalIdInjective(i: nat, j: nat)
    requires SignalId(i) == SignalId(j)
    ensures i == j
  {
    assert DecimalString(i) == SignalId(i)[7..] == SignalId(j)[7..] == DecimalString(j);
    DecimalStringInjective(i, j);
  }

  /**
   * The delta of a new signal: none for the first signal of a history,
   * otherwise the new cut value minus the cut value of the last stored signal.
   */
  function Delta(history: seq<CoherenceSignal>, current: Float): (r: Option<Float>)
    ensures r.None? <==> history == []
    ensures r.Some? ==>
      (r.value.Finite? <==> current.Finite? && history[|history| - 1].minCutValue.Finite?)
    ensures r.Some? && r.value.Finite? ==>
      r.value.value + history[|history| - 1].minCutValue.value == current.value
  {
    if history == [] then None else Some(Sub(current, history[|history| - 1].minCutValue))
  }

  /**
   * Recomputing on an unchanged graph gives delta 0 when the cut is finite,
   * but NaN when it is infinite (a single-node graph): infinity minus infinity.
   */
  lemma DeltaOfUnchangedCut(history: seq<CoherenceSignal>, current: Float)
    requires history != [] && history[|history| - 1].minCutValue == current
    requires current.Finite? || current.PosInf?
    ensures current.Finite? ==> Delta(history, current) == Some(Finite(0.0))
    ensures current.PosInf? ==> Delta(history, current) == Some(NaN)
  {
  }

  /** What the engine guarantees of the signal stored at position i of its history */
  predicate SignalAt(s: CoherenceSignal, i: nat, approximate: bool)
  {
    && s.id == SignalId(i)
    && s.window.windowId == i
    && s.nodeCount >= 1
    && (s.minCutValue.PosInf? <==> s.nodeCount < 2)
    && (s.minCutValue.Finite? || s.minCutValue.PosInf?)
    && s.partitionSizes == PartitionSizes(s.nodeCount)
    && s.isExact == !approximate
    && |s.cutNodes| <= MaxCutNodes
  }

  /**
   * The history invariant: every signal is well formed for its position,
   * the first has no delta, and every later one carries the difference of
   * its cut value and its predecessor's.
   */
  predicate IsHistory(history: seq<CoherenceSignal>, approximate: bool)
  {
    && (forall i :: 0 <= i < |history| ==> SignalAt(history[i], i, approximate))
    && (history != [] ==> history[0].delta == None)
    && (forall i :: 0 < i < |history| ==>
          history[i].delta == Some(Sub(history[i].minCutValue, history[i - 1].minCutValue)))
  }

  /**
   * Appending a signal that is well formed for the next position and whose
   * delta is taken against the last cut value keeps the history invariant.
   */
  lemma HistoryAppend(history: seq<CoherenceSignal>, s: CoherenceSignal, approximate: bool)
    requires IsHistory(history, approximate)
    requires SignalAt(s, |history|, approximate)
    requires s.delta == Delta(history, s.minCutValue)
    ensures IsHistory(history + [s], approximate)
  {
    var h := history + [s];
    forall i | 0 <= i < |h|
      ensures SignalAt(h[i], i, approximate)
    {
      if i < |history| {
        assert h[i] == history[i];
      } else {
        assert h[i] == s;
      }
    }
    forall i | 0 < i < |h|
      ensures h[i].delta == Some(Sub(h[i].minCutValue, h[i - 1].minCutValue))
    {
      assert h[i - 1] == history[i - 1];
      if i < |history| {
        assert h[i] == history[i];
      } else {
        assert h[i] == s;
      }
    }
    if history != [] {
      assert h[0] == history[0];
    }
  }

  /** Signal ids in a history are pairwise distinct. */
  lemma HistoryIdsDistinct(history: seq<CoherenceSignal>, approximate: bool, i: nat, j: nat)
    requires IsHistory(history, approximate)
    requires i < |history| && j < |history| && i != j
    ensures history[i].id != history[j].id
  {
    if history[i].id == history[j].id {
      assert SignalAt(history[i], i, approximate) && SignalAt(history[j], j, approximate);
      SignalIdInjective(i, j);
    }
  }
}
