/**
 * Usage scenarios under the default configuration, as verified clients:
 * the order in which ids are interned, two nodes and one edge, the graph
 * and signal built from three sample records, event detection on an
 * empty history, a repeated measurement of an unchanged graph, events
 * from a sequence of deltas, and a stream rolling over its first window.
 */
module Scenarios {
  import opened Floats
  import opened Framework
  import opened Graph
  import opened Signals
  import opened Events
  import opened Engine
  import opened Streaming

  /** Two nodes joined by one edge of weight 1.0 */
  method BasicGraph() returns (nodeCount: nat, edgeCount: nat)
    ensures nodeCount == 2 && edgeCount == 1
  {
    var engine := new CoherenceEngine(DefaultConfig());
    var _ := engine.AddNode("A");
    var _ := engine.AddNode("B");
    engine.AddEdge("A", "B", 1.0);
    assert engine.nodes.Keys == {"A", "B"};
    InternedSize(engine.nodes, engine.nodeIds, engine.nextId);
    nodeCount := engine.NodeCount();
    edgeCount := engine.EdgeCount();
  }

  /**
   * Ids are handed out in order of first sight, the source of an edge
   * before its target: after adding X -> Y to a fresh engine, interning
   * X again returns 0 and Y returns 1.
   */
  method InterningOrder() returns (x: nat, y: nat)
    ensures x == 0 && y == 1
  {
    var engine := new CoherenceEngine(DefaultConfig());
    engine.AddEdge("X", "Y", 1.0);
    assert "X" != "Y";
    assert engine.nodes.Keys == {"X", "Y"};
    InternedSize(engine.nodes, engine.nodeIds, engine.nextId);
    assert engine.nextId == 2 by {
      assert |engine.nodes.Keys| == 2;
    }
    x := engine.AddNode("X");
    y := engine.AddNode("Y");
  }

  function SampleRecords(ts: int): seq<DataRecord>
  {
    [ DataRecord("A", ts, [Relationship("B", 1.0), Relationship("C", 0.5)]),
      DataRecord("B", ts, [Relationship("C", 1.0)]),
      DataRecord("C", ts, []) ]
  }

  /** Under the default weight filter the sample records name three nodes and give three links. */
  lemma SampleGraph(ts: int)
    ensures Mentioned(SampleRecords(ts), 0.01) == {"A", "B", "C"}
    ensures RecordLinks(SampleRecords(ts), 0.01)
      == [Link("A", "B", 1.0), Link("A", "C", 0.5), Link("B", "C", 1.0)]
  {
    var records := SampleRecords(ts);
    var relsA, relsB := records[0].relationships, records[1].relationships;
    assert relsA[..1][..0] == [] && relsA[..1] == [Relationship("B", 1.0)] && relsB[..0] == [];
    assert Targets(relsA, 0.01) == {"B", "C"} && Targets(relsB, 0.01) == {"C"};
    assert RelLinks("A", relsA, 0.01) == [Link("A", "B", 1.0), Link("A", "C", 0.5)];
    assert RelLinks("B", relsB, 0.01) == [Link("B", "C", 1.0)];
    var one, two := records[..1], records[..2];
    assert one[..0] == [] && two[..1] == one && records[..2] == two;
    assert Mentioned(one, 0.01) == {"A", "B", "C"};
    assert RecordLinks(one, 0.01) == [Link("A", "B", 1.0), Link("A", "C", 0.5)];
    assert Mentioned(two, 0.01) == {"A", "B", "C"};
    assert RecordLinks(two, 0.01) == RecordLinks(one, 0.01) + [Link("B", "C", 1.0)];
  }

  /**
   * Records A -> {B: 1.0, C: 0.5}, B -> {C: 1.0} and C with no
   * relationships give a graph of three nodes and three edges, and one
   * signal with no delta.
   */
  method GraphFromRecords(clockStart: int, clockEnd: int) returns (signals: seq<CoherenceSignal>, nodeCount: nat, edgeCount: nat)
    ensures |signals| == 1 && signals[0].delta == None
    ensures nodeCount == 3 && edgeCount == 3
  {
    var engine := new CoherenceEngine(DefaultConfig());
    SampleGraph(clockStart);
    signals := engine.ComputeFromRecords(SampleRecords(clockStart), clockStart, clockEnd);
    assert "A" in engine.nodes;
    InternedSize(engine.nodes, engine.nodeIds, engine.nextId);
    nodeCount := engine.NodeCount();
    edgeCount := engine.EdgeCount();
  }

  /** A fresh engine has no history, so no events at any threshold */
  method NoEventsWithoutHistory(threshold: real) returns (count: nat)
    ensures count == 0
  {
    var engine := new CoherenceEngine(DefaultConfig());
    var events := engine.DetectEvents(threshold);
    count := |events|;
  }

  /**
   * Computing signals twice on an unchanged two-node graph appends two
   * signals with the same cut value, the second with a zero delta.
   */
  method RepeatedSignals(clockStart: int, clockEnd: int) returns (first: CoherenceSignal, second: CoherenceSignal)
    ensures first.minCutValue == second.minCutValue
    ensures first.delta == None && second.delta == Some(Finite(0.0))
    ensures second.id == "signal_1"
  {
    var engine := new CoherenceEngine(DefaultConfig());
    engine.AddEdge("A", "B", 1.0);
    assert "A" in engine.nodes;
    var history := engine.ComputeSignals(clockStart, clockEnd);
    first := history[0];
    history := engine.ComputeSignals(clockStart, clockEnd);
    second := history[1];
    assert |engine.nodes| >= 2 by {
      assert {"A", "B"} <= engine.nodes.Keys;
    }
    DeltaOfUnchangedCut([first], first.minCutValue);
    assert second.id == SignalId(1);
  }

  /** A signal with the given delta; the other fields do not affect event detection */
  function WithDelta(delta: Option<Float>): CoherenceSignal
  {
    CoherenceSignal("s", TemporalWindow(0, 0, 0), Finite(0.0), 1, 0, None, false, [], delta)
  }

  /**
   * Deltas none, +0.05, +0.2 and -0.3 at threshold 0.1 give exactly two
   * events: Strengthened with magnitude 0.2, then Weakened with magnitude 0.3.
   */
  lemma SampleEvents()
    ensures DetectedEvents(
      [WithDelta(None), WithDelta(Some(Finite(0.05))), WithDelta(Some(Finite(0.2))), WithDelta(Some(Finite(-0.3)))],
      0.1)
      == [CoherenceEvent(Strengthened, 0, [], Finite(0.2)), CoherenceEvent(Weakened, 0, [], Finite(0.3))]
  {
    var h := [WithDelta(None), WithDelta(Some(Finite(0.05))), WithDelta(Some(Finite(0.2))), WithDelta(Some(Finite(-0.3)))];
    assert h[..3][..2] == h[..2] && h[..2][..1] == h[..1];
    assert DetectedEvents(h[..2], 0.1) == [];
    assert DetectedEvents(h[..3], 0.1) == [CoherenceEvent(Strengthened, 0, [], Finite(0.2))];
  }

  /**
   * A stream under the default configuration: a record at time 0 opens
   * the week-long window [0, 604800) and is buffered; a record at 604800
   * falls outside it, so the first window's single-node signal is emitted
   * and the next window starts one day later.
   */
  method StreamRollover(clockStart: int, clockEnd: int) returns (first: Option<CoherenceSignal>, second: Option<CoherenceSignal>,
                                           window: Option<TemporalWindow>)
    ensures first == None
    ensures second.Some? && second.value.nodeCount == 1 && second.value.minCutValue == PosInf
    ensures second.value.delta == None
    ensures window == Some(TemporalWindow(86400, 86400 + 604800, 1))
  {
    var stream := new StreamingCoherence(DefaultConfig());
    first := stream.Process(DataRecord("A", 0, []), clockStart, clockEnd);
    second := stream.Process(DataRecord("B", 604800, []), clockStart, clockEnd);
    window := stream.currentWindow;
    assert Mentioned([DataRecord("A", 0, [])], stream.engine.config.minEdgeWeight) == {"A"} by {
      assert [DataRecord("A", 0, [])][..0] == [];
    }
    assert stream.engine.nodes.Keys == {"A"};
    assert |stream.engine.nodes| == 1 by {
      assert |stream.engine.nodes.Keys| == 1;
    }
  }
}
