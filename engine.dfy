/**
 * The coherence engine: an in-memory weighted multigraph over interned
 * string ids, and the append-only history of signals computed from it.
 */
module Engine {
  import opened Floats
  import opened Framework
  import opened Estimate
  import opened Graph
  import opened Signals
  import opened Events

  class CoherenceEngine {
    const config: CoherenceConfig

    // the graph: id interner, edge list, next free index
    var nodes: map<string, nat>
    var nodeIds: map<nat, string>
    var edges: seq<Edge>
    var nextId: nat

    // computed signals, oldest first
    var signals: seq<CoherenceSignal>

    // tracked boundaries (declared by the engine, never populated)
    var boundaries: seq<CoherenceBoundary>

    /**
     * The object invariant: the graph is well formed and the signal history
     * is well formed.
     */
    ghost predicate Valid()
      reads this
    {
      GraphValid() && HistoryValid()
    }

    /**
     * The interner is a bijection onto 0 .. nextId-1, and every edge joins
     * registered nodes and passed the weight filter.
     */
    ghost predicate GraphValid()
      reads this`nodes, this`nodeIds, this`edges, this`nextId
    {
      && Interned(nodes, nodeIds, nextId)
      && Named(edges, nodeIds)
      && (forall i :: 0 <= i < |edges| ==> edges[i].weight >= config.minEdgeWeight)
    }

    ghost predicate HistoryValid()
      reads this`signals
    {
      IsHistory(signals, config.approximate)
    }

    /** The edges with their endpoints given by name */
    ghost function Links(): seq<Link>
      reads this`nodes, this`nodeIds, this`edges, this`nextId
      requires GraphValid()
    {
      NamedEdges(edges, nodeIds)
    }

    /** A signal computed for the current graph, after the given history, between the two clock readings */
    ghost predicate SignalFor(s: CoherenceSignal, prior: seq<CoherenceSignal>, clockStart: int, clockEnd: int)
      reads this
    {
      && s.id == SignalId(|prior|)
      && s.window == TemporalWindow(clockStart, clockEnd, |prior|)
      && s.minCutValue == MinCut(|nodes|, edges)
      && s.nodeCount == |nodes|
      && s.edgeCount == |edges|
      && s.partitionSizes == PartitionSizes(|nodes|)
      && s.isExact == !config.approximate
      && CutNodeChoice(s.cutNodes, nodes, nodeIds, edges)
      && s.delta == Delta(prior, s.minCutValue)
    }

    constructor (config: CoherenceConfig)
      ensures Valid() && this.config == config
      ensures nodes == map[] && nodeIds == map[] && edges == [] && nextId == 0
      ensures signals == [] && boundaries == []
    {
      this.config := config;
      nodes := map[];
      nodeIds := map[];
      edges := [];
      nextId := 0;
      signals := [];
      boundaries := [];
    }

    /**
     * Interns an id: a known id keeps its index and nothing changes; a new
     * id gets the next free index.
     */
    method AddNode(id: string) returns (index: nat)
      requires GraphValid()
      modifies this`nodes, this`nodeIds, this`nextId
      ensures GraphValid()
      ensures id in nodes && nodes[id] == index && nodeIds[index] == id
      ensures nodes.Keys == old(nodes).Keys + {id}
      ensures Extends(old(nodes), nodes) && Extends(old(nodeIds), nodeIds)
      ensures Links() == old(Links())
      ensures id in old(nodes) ==>
        index == old(nodes)[id] && nodes == old(nodes) && nodeIds == old(nodeIds) && nextId == old(nextId)
      ensures id !in old(nodes) ==>
        && index == old(nextId) && nextId == old(nextId) + 1
        && nodes == old(nodes)[id := index] && nodeIds == old(nodeIds)[index := id]
    {
      if id in nodes {
        return nodes[id];
      }
      index := nextId;
      assert index !in nodeIds;
      nextId := nextId + 1;
      nodes := nodes[id := index];
      nodeIds := nodeIds[index := id];
      NamedEdgesExtend(edges, old(nodeIds), nodeIds);
    }

    /** Number of registered nodes, which is the next free index */
    function NodeCount(): (r: nat)
      reads this`nodes, this`nodeIds, this`edges, this`nextId
      requires GraphValid()
      ensures r == nextId
    {
      InternedSize(nodes, nodeIds, nextId);
      |nodes|
    }

    /** Number of stored edges, each a (source, target, weight) link */
    function EdgeCount(): (r: nat)
      reads this`nodes, this`nodeIds, this`edges, this`nextId
      requires GraphValid()
      ensures r == |Links()|
    {
      |edges|
    }

    /**
     * Adds an edge unless its weight is below the configured minimum, in
     * which case nothing changes; otherwise both endpoints are interned and
     * exactly one edge with that weight is appended.
     */
    method AddEdge(source: string, target: string, weight: real)
      requires GraphValid()
      modifies this`nodes, this`nodeIds, this`nextId, this`edges
      ensures GraphValid()
      ensures Extends(old(nodes), nodes)
      ensures weight < config.minEdgeWeight ==>
        nodes == old(nodes) && nodeIds == old(nodeIds) && edges == old(edges) && nextId == old(nextId)
      ensures weight >= config.minEdgeWeight ==>
        && nodes.Keys == old(nodes).Keys + {source, target}
        && edges == old(edges) + [Edge(nodes[source], nodes[target], weight)]
        && Links() == old(Links()) + [Link(source, target, weight)]
      ensures weight >= config.minEdgeWeight ==>
        (nodes, nextId) == InternAll(old(nodes), old(nextId), [source, target])
      ensures weight >= config.minEdgeWeight && source !in old(nodes) ==> nodes[source] == old(nextId)
      ensures weight >= config.minEdgeWeight && target !in old(nodes) && target != source ==>
        nodes[target] == nextId - 1
    {
      if weight < config.minEdgeWeight {
        return;
      }
      ghost var keys := nodes.Keys;
      var sourceId := AddNode(source);
      ghost var keys', nodes1, next1 := nodes.Keys, nodes, nextId;
      var targetId := AddNode(target);
      InternPair(old(nodes), old(nextId), nodes1, next1, nodes, nextId, source, target);
      assert nodes.Keys == keys' + {target} && keys' == keys + {source};
      assert nodes.Keys == keys + {source, target};
      ghost var links := Links();
      assert links == old(Links()) by {
        NamedEdgesExtend(edges, old(nodeIds), nodeIds);
      }
      PushEdge(Edge(sourceId, targetId, weight));
    }

    /** Appends an edge between registered nodes that passes the weight filter. */
    method PushEdge(e: Edge)
      requires GraphValid()
      requires e.source in nodeIds && e.target in nodeIds && e.weight >= config.minEdgeWeight
      modifies this`edges
      ensures GraphValid()
      ensures edges == old(edges) + [e]
      ensures Links() == old(Links()) + [Link(nodeIds[e.source], nodeIds[e.target], e.weight)]
    {
      NamedEdgesAppend(edges, e, nodeIds, nodeIds);
      edges := edges + [e];
    }

    /**
     * Ingests records in order: each record's id becomes a node, and each
     * relationship an edge from it (subject to the weight filter).
     */
    method BuildFromRecords(records: seq<DataRecord>)
      requires GraphValid()
      modifies this`nodes, this`nodeIds, this`nextId, this`edges
      ensures GraphValid()
      ensures Extends(old(nodes), nodes)
      ensures nodes.Keys == old(nodes).Keys + Mentioned(records, config.minEdgeWeight)
      ensures Links() == old(Links()) + RecordLinks(records, config.minEdgeWeight)
      ensures (nodes, nextId) == InternAll(old(nodes), old(nextId), RecordNames(records, config.minEdgeWeight))
      ensures var added := NewNames(old(nodes).Keys, RecordNames(records, config.minEdgeWeight));
        && nextId == old(nextId) + |added|
        && forall k :: 0 <= k < |added| ==> added[k] in nodes && nodes[added[k]] == old(nextId) + k
    {
      ghost var nodesBefore, keysBefore, linksBefore, nextBefore := nodes, nodes.Keys, Links(), nextId;
      var i := 0;
      while i < |records|
        invariant 0 <= i <= |records|
        invariant GraphValid()
        invariant Extends(nodesBefore, nodes)
        invariant nodes.Keys == keysBefore + Mentioned(records[..i], config.minEdgeWeight)
        invariant Links() == linksBefore + RecordLinks(records[..i], config.minEdgeWeight)
        invariant (nodes, nextId) == InternAll(nodesBefore, nextBefore, RecordNames(records[..i], config.minEdgeWeight))
      {
        ghost var nodes0, keys0, links0, next0 := nodes, nodes.Keys, Links(), nextId;
        IngestRecord(records[i]);
        ExtendsTransitive(nodesBefore, nodes0, nodes);
        IngestAccumulates(records, i, config.minEdgeWeight, keysBefore, keys0, nodes.Keys, linksBefore, links0, Links());
        InternRecordStep(records, i, config.minEdgeWeight, (nodesBefore, nextBefore), (nodes0, next0), (nodes, nextId));
        i := i + 1;
      }
      assert records[..i] == records;
      InternAllFirstSight(nodesBefore, nextBefore, RecordNames(records, config.minEdgeWeight));
    }

    /** One iteration of BuildFromRecords: intern the record's id, then add its relationships */
    method IngestRecord(record: DataRecord)
      requires GraphValid()
      modifies this`nodes, this`nodeIds, this`nextId, this`edges
      ensures GraphValid()
      ensures Extends(old(nodes), nodes)
      ensures nodes.Keys == old(nodes).Keys + {record.id} + Targets(record.relationships, config.minEdgeWeight)
      ensures Links() == old(Links()) + RelLinks(record.id, record.relationships, config.minEdgeWeight)
      ensures (nodes, nextId)
        == InternAll(old(nodes), old(nextId), [record.id] + RelNames(record.id, record.relationships, config.minEdgeWeight))
    {
      var _ := AddNode(record.id);
      ghost var nodes1, next1 := nodes, nextId;
      AddRelationships(record.id, record.relationships);
      ExtendsTransitive(old(nodes), nodes1, nodes);
      assert [record.id][..0] == [];
      assert InternAll(old(nodes), old(nextId), [record.id]) == (nodes1, next1);
      InternAllAppend(old(nodes), old(nextId), [record.id], RelNames(record.id, record.relationships, config.minEdgeWeight));
    }

    /** The inner loop of BuildFromRecords: an edge from `source` for each relationship, in order */
    method AddRelationships(source: string, rels: seq<Relationship>)
      requires GraphValid() && source in nodes
      modifies this`nodes, this`nodeIds, this`nextId, this`edges
      ensures GraphValid()
      ensures Extends(old(nodes), nodes)
      ensures nodes.Keys == old(nodes).Keys + Targets(rels, config.minEdgeWeight)
      ensures Links() == old(Links()) + RelLinks(source, rels, config.minEdgeWeight)
      ensures (nodes, nextId) == InternAll(old(nodes), old(nextId), RelNames(source, rels, config.minEdgeWeight))
    {
      ghost var nodesBefore, keysBefore, linksBefore, nextBefore := nodes, nodes.Keys, Links(), nextId;
      var j := 0;
      while j < |rels|
        invariant 0 <= j <= |rels|
        invariant GraphValid() && source in nodes
        invariant Extends(nodesBefore, nodes)
        invariant nodes.Keys == keysBefore + Targets(rels[..j], config.minEdgeWeight)
        invariant Links() == linksBefore + RelLinks(source, rels[..j], config.minEdgeWeight)
        invariant (nodes, nextId) == InternAll(nodesBefore, nextBefore, RelNames(source, rels[..j], config.minEdgeWeight))
      {
        ghost var nodes0, keys0, links0, next0 := nodes, nodes.Keys, Links(), nextId;
        AddEdge(source, rels[j].targetId, rels[j].weight);
        ExtendsTransitive(nodesBefore, nodes0, nodes);
        RelationshipAccumulates(source, rels, j, config.minEdgeWeight,
          keysBefore, keys0, nodes.Keys, linksBefore, links0, Links());
        InternRelStep(source, rels, j, config.minEdgeWeight, (nodesBefore, nextBefore), (nodes0, next0), (nodes, nextId));
        j := j + 1;
      }
      assert rels[..j] == rels;
    }

    /**
     * Computes a signal for the current graph. An empty graph yields an
     * empty list and changes nothing; otherwise exactly one signal is
     * appended and the whole history is returned. The new signal's window
     * runs from the first clock reading `clockStart` to the second,
     * `clockEnd`; the two are taken separately and need not be equal.
     */
    method ComputeSignals(clockStart: int, clockEnd: int) returns (result: seq<CoherenceSignal>)
      requires Valid()
      modifies this
      ensures Valid()
      ensures nodes == old(nodes) && nodeIds == old(nodeIds) && edges == old(edges) && nextId == old(nextId)
      ensures boundaries == old(boundaries)
      ensures old(nodes) == map[] ==> result == [] && signals == old(signals)
      ensures old(nodes) != map[] ==>
        && result == signals
        && |signals| == |old(signals)| + 1
        && signals[..|old(signals)|] == old(signals)
        && SignalFor(signals[|old(signals)|], old(signals), clockStart, clockEnd)
    {
      if nodes == map[] {
        return [];
      }
      var k := |signals|;
      var n := NodeCount();
      InternedSize(nodes, nodeIds, nextId);
      var minCutValue := MinCut(n, edges);
      var cutNodes := FindCutNodes();
      // compute_delta recomputes the cut, which always succeeds, so it is the same value
      var delta := Delta(signals, minCutValue);
      var signal := CoherenceSignal(
        SignalId(k), TemporalWindow(clockStart, clockEnd, k), minCutValue, n, |edges|,
        PartitionSizes(n), !config.approximate, cutNodes, delta);
      assert |nodes| >= 1 by {
        var s :| s in nodes;
      }
      assert SignalAt(signal, k, config.approximate);
      HistoryAppend(signals, signal, config.approximate);
      signals := signals + [signal];
      assert signals[k] == signal;
      result := signals;
    }

    /** Ingests the records, then computes signals over the resulting graph. */
    method ComputeFromRecords(records: seq<DataRecord>, clockStart: int, clockEnd: int) returns (result: seq<CoherenceSignal>)
      requires Valid()
      modifies this
      ensures Valid()
      ensures boundaries == old(boundaries)
      ensures Extends(old(nodes), nodes)
      ensures nodes.Keys == old(nodes).Keys + Mentioned(records, config.minEdgeWeight)
      ensures Links() == old(Links()) + RecordLinks(records, config.minEdgeWeight)
      ensures (nodes, nextId) == InternAll(old(nodes), old(nextId), RecordNames(records, config.minEdgeWeight))
      ensures var added := NewNames(old(nodes).Keys, RecordNames(records, config.minEdgeWeight));
        && nextId == old(nextId) + |added|
        && forall k :: 0 <= k < |added| ==> added[k] in nodes && nodes[added[k]] == old(nextId) + k
      ensures nodes == map[] ==> result == [] && signals == old(signals)
      ensures nodes != map[] ==>
        && result == signals
        && |signals| == |old(signals)| + 1
        && signals[..|old(signals)|] == old(signals)
        && SignalFor(signals[|old(signals)|], old(signals), clockStart, clockEnd)
    {
      BuildFromRecords(records);
      result := ComputeSignals(clockStart, clockEnd);
    }

    /**
     * The names of the nodes whose degree exceeds twice the average degree
     * of the nodes that have edges, at most MaxCutNodes of them. The degree
     * table is a map as in coherence.rs, and it is scanned in an unspecified
     * order.
     */
    method FindCutNodes() returns (cut: seq<string>)
      requires GraphValid()
      ensures CutNodeChoice(cut, nodes, nodeIds, edges)
    {
      NamedEdgesWithin(edges, nodes, nodeIds, nextId);
      var degrees := CountDegrees(edges);
      var avgDegree := AverageDegree(edges, nextId, degrees);
      cut := SelectCutNodes(edges, nodes, nodeIds, nextId, degrees, avgDegree);
    }

    /**
     * The events of the history: one for each signal after the first whose
     * delta exceeds the threshold in magnitude, in history order.
     */
    method DetectEvents(threshold: real) returns (events: seq<CoherenceEvent>)
      ensures events == DetectedEvents(signals, threshold)
    {
      events := [];
      var i := 1;
      while i < |signals|
        invariant 1 <= i
        invariant events == DetectedEvents(signals[..if i < |signals| then i else |signals|], threshold)
      {
        var curr := signals[i];
        if curr.delta.Some? {
          var delta := curr.delta.value;
          if Greater(Abs(delta), threshold) {
            var eventType := if Greater(delta, 0.0) then Strengthened else Weakened;
            events := events + [CoherenceEvent(eventType, curr.window.start, curr.cutNodes, Abs(delta))];
          }
        }
        assert signals[..i + 1][..i] == signals[..i];
        i := i + 1;
      }
      assert signals[..|signals|] == signals;
    }

    /** Empties the graph and the signal history; the boundary list is kept. */
    method Clear()
      modifies this
      ensures Valid()
      ensures nodes == map[] && nodeIds == map[] && edges == [] && nextId == 0 && signals == []
      ensures boundaries == old(boundaries)
    {
      nodes := map[];
      nodeIds := map[];
      edges := [];
      nextId := 0;
      signals := [];
    }
  }

  /**
   * The last stage of find_cut_nodes: scan the degree table in an unspecified
   * order, keep the indices whose degree exceeds twice the average, name them
   * and stop after MaxCutNodes names.
   */
  method SelectCutNodes(edges: seq<Edge>, nodes: map<string, nat>, nodeIds: map<nat, string>, next: nat,
                        degrees: map<nat, nat>, avgDegree: nat) returns (cut: seq<string>)
    requires Interned(nodes, nodeIds, next) && EdgesWithin(edges, next)
    requires degrees.Keys == Touched(edges)
    requires forall id :: id in degrees ==> degrees[id] == Degree(edges, id)
    requires avgDegree == AvgDegree(edges)
    ensures CutNodeChoice(cut, nodes, nodeIds, edges)
  {
    cut := [];
    var pending := degrees.Keys;
    while pending != {} && |cut| < MaxCutNodes
      invariant pending <= degrees.Keys
      invariant |cut| <= MaxCutNodes
      invariant forall j :: 0 <= j < |cut| ==>
        cut[j] in nodes && nodes[cut[j]] in degrees && nodes[cut[j]] !in pending && IsHighDegree(edges, nodes[cut[j]])
      invariant forall j, l :: 0 <= j < l < |cut| ==> cut[j] != cut[l]
      invariant |cut| < MaxCutNodes ==>
        forall k :: k in degrees && k !in pending && IsHighDegree(edges, k) ==> k in nodeIds && nodeIds[k] in cut
      decreases pending
    {
      var k :| k in pending;
      if degrees[k] > avgDegree * 2 {
        TouchedWithin(edges, next, k);
        cut := cut + [nodeIds[k]];
      }
      pending := pending - {k};
    }
    forall k | k in nodeIds && IsHighDegree(edges, k)
      ensures k in degrees
    {
      TouchedIffDegree(edges, k);
    }
  }
}
