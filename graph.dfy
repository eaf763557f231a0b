/**
 * The engine's in-memory graph seen as values: the id interner's invariant
 * (string ids and dense indices in bijection), edges read back as named
 * links, and what a batch of records contributes to the graph.
 */
module Graph {
  import opened Framework
  import opened Estimate

  /**
   * The interner invariant: `nodes` and `nodeIds` are mutual inverses and
   * the indices in use are exactly 0 .. next-1.
   */
  ghost predicate Interned(nodes: map<string, nat>, nodeIds: map<nat, string>, next: nat)
  {
    && (forall s :: s in nodes ==> nodes[s] in nodeIds && nodeIds[nodes[s]] == s)
    && (forall i :: i in nodeIds ==> nodeIds[i] in nodes && nodes[nodeIds[i]] == i)
    && (forall i: nat :: i in nodeIds <==> i < next)
  }

  /** Under the interner invariant there are exactly `next` names and `next` indices. */
  lemma {:induction false} InternedSize(nodes: map<string, nat>, nodeIds: map<nat, string>, next: nat)
    requires Interned(nodes, nodeIds, next)
    ensures |nodes| == next && |nodeIds| == next
    decreases next
  {
    if next == 0 {
      InternedEmpty(nodes, nodeIds);
    } else {
      var name := nodeIds[next - 1];
      InternedDropLast(nodes, nodeIds, next);
      InternedSize(nodes - {name}, nodeIds - {next - 1}, next - 1);
      assert nodes.Keys == (nodes - {name}).Keys + {name};
      assert nodeIds.Keys == (nodeIds - {next - 1}).Keys + {next - 1};
    }
  }

  lemma InternedEmpty(nodes: map<string, nat>, nodeIds: map<nat, string>)
    requires Interned(nodes, nodeIds, 0)
    ensures nodes == map[] && nodeIds == map[]
  {
    assert nodeIds.Keys == {};
    assert nodes.Keys == {} by {
      assert forall s :: s in nodes ==> nodes[s] in nodeIds.Keys;
    }
  }

  /** Removing the entry with the highest index keeps the interner invariant. */
  lemma InternedDropLast(nodes: map<string, nat>, nodeIds: map<nat, string>, next: nat)
    requires Interned(nodes, nodeIds, next) && next > 0
    ensures next - 1 in nodeIds
    ensures Interned(nodes - {nodeIds[next - 1]}, nodeIds - {next - 1}, next - 1)
  {
    var name := nodeIds[next - 1];
    var nodes' := nodes - {name};
    var nodeIds' := nodeIds - {next - 1};
    forall s | s in nodes'
      ensures nodes'[s] in nodeIds' && nodeIds'[nodes'[s]] == s
    {
      assert nodes[s] != next - 1;
    }
  }

  /** m' keeps every entry of m */
  ghost predicate Extends<K, V>(m: map<K, V>, m': map<K, V>)
  {
    forall k :: k in m ==> k in m' && m'[k] == m[k]
  }

  lemma ExtendsTransitive<K, V>(m0: map<K, V>, m1: map<K, V>, m2: map<K, V>)
    requires Extends(m0, m1) && Extends(m1, m2)
    ensures Extends(m0, m2)
  {
  }

  /**
   * Interning `names` one after another, as add_node does: a name already
   * known keeps its index, a new one gets the next free index, which then
   * moves on by one. The result is the new name table and next free index.
   */
  function InternAll(nodes: map<string, nat>, next: nat, names: seq<string>): (map<string, nat>, nat)
  {
    if names == [] then (nodes, next)
    else
      var r := InternAll(nodes, next, names[..|names| - 1]);
      var name := names[|names| - 1];
      if name in r.0 then r else (r.0[name := r.1], r.1 + 1)
  }

  /** The names in `names` that are not `known`, each once, in order of first sight */
  function NewNames(known: set<string>, names: seq<string>): seq<string>
  {
    if names == [] then []
    else
      var prev := NewNames(known, names[..|names| - 1]);
      var name := names[|names| - 1];
      if name in known || name in prev then prev else prev + [name]
  }

  /**
   * Interning a sequence of names keeps every known name's index and
   * registers exactly the names of the sequence; the new names, taken in
   * order of first sight, get the consecutive indices next, next + 1, ...
   */
  lemma {:induction false} InternAllFirstSight(nodes: map<string, nat>, next: nat, names: seq<string>)
    ensures var r := InternAll(nodes, next, names); var added := NewNames(nodes.Keys, names);
      && Extends(nodes, r.0)
      && (forall s :: s in r.0 <==> s in nodes || s in names)
      && (forall s :: s in added <==> s in names && s !in nodes)
      && (forall k, l :: 0 <= k < l < |added| ==> added[k] != added[l])
      && r.1 == next + |added|
      && (forall k :: 0 <= k < |added| ==> added[k] in r.0 && r.0[added[k]] == next + k)
    decreases |names|
  {
    if names != [] {
      var prefix, name := names[..|names| - 1], names[|names| - 1];
      InternAllFirstSight(nodes, next, prefix);
      assert names == prefix + [name];
    }
  }

  /** Interning `a` and then `b` is interning `a + b`. */
  lemma {:induction false} InternAllAppend(nodes: map<string, nat>, next: nat, a: seq<string>, b: seq<string>)
    ensures var r := InternAll(nodes, next, a);
      InternAll(nodes, next, a + b) == InternAll(r.0, r.1, b)
    decreases |b|
  {
    if b == [] {
      assert a + b == a;
    } else {
      assert (a + b)[..|a + b| - 1] == a + b[..|b| - 1];
      InternAllAppend(nodes, next, a, b[..|b| - 1]);
    }
  }

  /** An edge with its endpoints given by name */
  datatype Link = Link(source: string, target: string, weight: real)

  predicate Named(edges: seq<Edge>, nodeIds: map<nat, string>)
  {
    forall i :: 0 <= i < |edges| ==> edges[i].source in nodeIds && edges[i].target in nodeIds
  }

  /** Edges between registered nodes only use indices below the next free one. */
  lemma NamedEdgesWithin(edges: seq<Edge>, nodes: map<string, nat>, nodeIds: map<nat, string>, next: nat)
    requires Interned(nodes, nodeIds, next) && Named(edges, nodeIds)
    ensures EdgesWithin(edges, next)
  {
  }

  /** The edge list with indices replaced by the names they stand for */
  function NamedEdges(edges: seq<Edge>, nodeIds: map<nat, string>): (links: seq<Link>)
    requires Named(edges, nodeIds)
    ensures |links| == |edges|
  {
    if edges == [] then []
    else
      var e := edges[|edges| - 1];
      NamedEdges(edges[..|edges| - 1], nodeIds) + [Link(nodeIds[e.source], nodeIds[e.target], e.weight)]
  }

  /** The `i`-th link names the endpoints of the `i`-th edge. */
  lemma {:induction false} NamedEdgesAt(edges: seq<Edge>, nodeIds: map<nat, string>, i: nat)
    requires Named(edges, nodeIds) && i < |edges|
    ensures NamedEdges(edges, nodeIds)[i]
      == Link(nodeIds[edges[i].source], nodeIds[edges[i].target], edges[i].weight)
    decreases |edges|
  {
    if i < |edges| - 1 {
      var prefix := edges[..|edges| - 1];
      assert prefix[i] == edges[i];
      NamedEdgesAt(prefix, nodeIds, i);
    }
  }

  /** Growing the interner does not rename the edges already stored. */
  lemma NamedEdgesExtend(edges: seq<Edge>, nodeIds: map<nat, string>, nodeIds': map<nat, string>)
    requires Named(edges, nodeIds) && Extends(nodeIds, nodeIds')
    ensures Named(edges, nodeIds')
    ensures NamedEdges(edges, nodeIds') == NamedEdges(edges, nodeIds)
  {
    var lhs := NamedEdges(edges, nodeIds');
    var rhs := NamedEdges(edges, nodeIds);
    assert |lhs| == |rhs|;
    forall i | 0 <= i < |lhs|
      ensures lhs[i] == rhs[i]
    {
      NamedEdgesAt(edges, nodeIds', i);
      NamedEdgesAt(edges, nodeIds, i);
    }
  }

  /**
   * Appending an edge appends its named link; growing the interner does
   * not rename the edges already stored.
   */
  lemma NamedEdgesAppend(edges: seq<Edge>, e: Edge, nodeIds: map<nat, string>, nodeIds': map<nat, string>)
    requires Named(edges, nodeIds) && Extends(nodeIds, nodeIds')
    requires e.source in nodeIds' && e.target in nodeIds'
    ensures Named(edges + [e], nodeIds')
    ensures NamedEdges(edges + [e], nodeIds')
      == NamedEdges(edges, nodeIds) + [Link(nodeIds'[e.source], nodeIds'[e.target], e.weight)]
  {
    var edges' := edges + [e];
    assert Named(edges', nodeIds') by {
      forall i | 0 <= i < |edges'|
        ensures edges'[i].source in nodeIds' && edges'[i].target in nodeIds'
      {
        if i < |edges| {
          assert edges'[i] == edges[i];
        }
      }
    }
    assert edges'[..|edges'| - 1] == edges;
    NamedEdgesExtend(edges, nodeIds, nodeIds');
  }

  /** Targets of the relationships that pass the weight filter */
  function Targets(rels: seq<Relationship>, minWeight: real): set<string>
  {
    if rels == [] then {}
    else
      var rel := rels[|rels| - 1];
      Targets(rels[..|rels| - 1], minWeight) + (if rel.weight >= minWeight then {rel.targetId} else {})
  }

  /** Every id that ingesting the records registers: each record's id and each kept target */
  function Mentioned(records: seq<DataRecord>, minWeight: real): (ids: set<string>)
    ensures forall i :: 0 <= i < |records| ==> records[i].id in ids
  {
    if records == [] then {}
    else
      var r := records[|records| - 1];
      Mentioned(records[..|records| - 1], minWeight) + {r.id} + Targets(r.relationships, minWeight)
  }

  /** The links a record's relationships add, in order, dropping those below the weight filter */
  function RelLinks(source: string, rels: seq<Relationship>, minWeight: real): (links: seq<Link>)
    ensures forall i :: 0 <= i < |links| ==> links[i].source == source && links[i].weight >= minWeight
    ensures |links| <= |rels|
  {
    if rels == [] then []
    else
      var rel := rels[|rels| - 1];
      RelLinks(source, rels[..|rels| - 1], minWeight)
        + (if rel.weight >= minWeight then [Link(source, rel.targetId, rel.weight)] else [])
  }

  /** The links a batch of records adds, record by record */
  function RecordLinks(records: seq<DataRecord>, minWeight: real): (links: seq<Link>)
    ensures forall i :: 0 <= i < |links| ==> links[i].weight >= minWeight
  {
    if records == [] then []
    else
      var r := records[|records| - 1];
      RecordLinks(records[..|records| - 1], minWeight) + RelLinks(r.id, r.relationships, minWeight)
  }

  /**
   * The names a record's relationships intern, in the order add_edge
   * interns them: for each relationship that passes the weight filter,
   * the source and then the target.
   */
  function RelNames(source: string, rels: seq<Relationship>, minWeight: real): seq<string>
  {
    if rels == [] then []
    else
      var rel := rels[|rels| - 1];
      RelNames(source, rels[..|rels| - 1], minWeight)
        + (if rel.weight >= minWeight then [source, rel.targetId] else [])
  }

  /** The names a batch of records interns, in call order: each record's id, then its relationships' names */
  function RecordNames(records: seq<DataRecord>, minWeight: real): seq<string>
  {
    if records == [] then []
    else
      var r := records[|records| - 1];
      RecordNames(records[..|records| - 1], minWeight) + ([r.id] + RelNames(r.id, r.relationships, minWeight))
  }

  /** The names interned, taken as a set, are exactly the names ingestion registers. */
  lemma {:induction false} RecordNamesMentioned(records: seq<DataRecord>, minWeight: real)
    ensures forall s :: s in RecordNames(records, minWeight) <==> s in Mentioned(records, minWeight)
    decreases |records|
  {
    if records != [] {
      var r := records[|records| - 1];
      RecordNamesMentioned(records[..|records| - 1], minWeight);
      RelNamesTargets(r.id, r.relationships, minWeight);
    }
  }

  lemma {:induction false} RelNamesTargets(source: string, rels: seq<Relationship>, minWeight: real)
    ensures forall s :: s in RelNames(source, rels, minWeight) ==> s == source || s in Targets(rels, minWeight)
    ensures forall s :: s in Targets(rels, minWeight) ==> s in RelNames(source, rels, minWeight)
    decreases |rels|
  {
    if rels != [] {
      RelNamesTargets(source, rels[..|rels| - 1], minWeight);
    }
  }

  /** Interning a name with add_node and then another is interning the pair. */
  lemma InternPair(m0: map<string, nat>, x0: nat, m1: map<string, nat>, x1: nat, m2: map<string, nat>, x2: nat,
                   a: string, b: string)
    requires a in m0 ==> m1 == m0 && x1 == x0
    requires a !in m0 ==> m1 == m0[a := x0] && x1 == x0 + 1
    requires b in m1 ==> m2 == m1 && x2 == x1
    requires b !in m1 ==> m2 == m1[b := x1] && x2 == x1 + 1
    ensures (m2, x2) == InternAll(m0, x0, [a, b])
  {
    assert [a, b][..1] == [a] && [a][..0] == [];
    assert InternAll(m0, x0, [a]) == (m1, x1);
  }

  /** The interning invariant of the relationship loop survives one more relationship. */
  lemma InternRelStep(source: string, rels: seq<Relationship>, j: nat, minWeight: real,
                      before: (map<string, nat>, nat), s0: (map<string, nat>, nat), s1: (map<string, nat>, nat))
    requires j < |rels|
    requires s0 == InternAll(before.0, before.1, RelNames(source, rels[..j], minWeight))
    requires rels[j].weight < minWeight ==> s1 == s0
    requires rels[j].weight >= minWeight ==> s1 == InternAll(s0.0, s0.1, [source, rels[j].targetId])
    ensures s1 == InternAll(before.0, before.1, RelNames(source, rels[..j + 1], minWeight))
  {
    assert rels[..j + 1][..j] == rels[..j];
    if rels[j].weight >= minWeight {
      InternAllAppend(before.0, before.1, RelNames(source, rels[..j], minWeight), [source, rels[j].targetId]);
    } else {
      assert RelNames(source, rels[..j + 1], minWeight) == RelNames(source, rels[..j], minWeight);
    }
  }

  /** The interning invariant of the record loop survives one more record. */
  lemma InternRecordStep(records: seq<DataRecord>, i: nat, minWeight: real,
                         before: (map<string, nat>, nat), s0: (map<string, nat>, nat), s1: (map<string, nat>, nat))
    requires i < |records|
    requires s0 == InternAll(before.0, before.1, RecordNames(records[..i], minWeight))
    requires s1 == InternAll(s0.0, s0.1, [records[i].id] + RelNames(records[i].id, records[i].relationships, minWeight))
    ensures s1 == InternAll(before.0, before.1, RecordNames(records[..i + 1], minWeight))
  {
    assert records[..i + 1][..i] == records[..i];
    InternAllAppend(before.0, before.1, RecordNames(records[..i], minWeight),
      [records[i].id] + RelNames(records[i].id, records[i].relationships, minWeight));
  }

  /** Ingesting one more record adds its id, its kept targets and its links. */
  lemma IngestStep(records: seq<DataRecord>, i: nat, minWeight: real)
    requires i < |records|
    ensures Mentioned(records[..i + 1], minWeight)
      == Mentioned(records[..i], minWeight) + {records[i].id} + Targets(records[i].relationships, minWeight)
    ensures RecordLinks(records[..i + 1], minWeight)
      == RecordLinks(records[..i], minWeight) + RelLinks(records[i].id, records[i].relationships, minWeight)
  {
    assert records[..i + 1][..i] == records[..i];
  }

  /** Ingesting one more relationship adds its target and link when it passes the filter. */
  lemma RelationshipStep(source: string, rels: seq<Relationship>, j: nat, minWeight: real)
    requires j < |rels|
    ensures Targets(rels[..j + 1], minWeight)
      == Targets(rels[..j], minWeight) + (if rels[j].weight >= minWeight then {rels[j].targetId} else {})
    ensures RelLinks(source, rels[..j + 1], minWeight)
      == RelLinks(source, rels[..j], minWeight)
        + (if rels[j].weight >= minWeight then [Link(source, rels[j].targetId, rels[j].weight)] else [])
  {
    assert rels[..j + 1][..j] == rels[..j];
  }

  /** The loop invariant of record ingestion survives one more record. */
  lemma IngestAccumulates(records: seq<DataRecord>, i: nat, minWeight: real,
                          keysBefore: set<string>, keys0: set<string>, keys1: set<string>,
                          linksBefore: seq<Link>, links0: seq<Link>, links1: seq<Link>)
    requires i < |records|
    requires keys0 == keysBefore + Mentioned(records[..i], minWeight)
    requires keys1 == keys0 + {records[i].id} + Targets(records[i].relationships, minWeight)
    requires links0 == linksBefore + RecordLinks(records[..i], minWeight)
    requires links1 == links0 + RelLinks(records[i].id, records[i].relationships, minWeight)
    ensures keys1 == keysBefore + Mentioned(records[..i + 1], minWeight)
    ensures links1 == linksBefore + RecordLinks(records[..i + 1], minWeight)
  {
    IngestStep(records, i, minWeight);
  }

  /** The loop invariant of relationship ingestion survives one more relationship. */
  lemma RelationshipAccumulates(source: string, rels: seq<Relationship>, j: nat, minWeight: real,
                                keysBefore: set<string>, keys0: set<string>, keys1: set<string>,
                                linksBefore: seq<Link>, links0: seq<Link>, links1: seq<Link>)
    requires j < |rels| && source in keysBefore
    requires keys0 == keysBefore + Targets(rels[..j], minWeight)
    requires links0 == linksBefore + RelLinks(source, rels[..j], minWeight)
    requires rels[j].weight < minWeight ==> keys1 == keys0 && links1 == links0
    requires rels[j].weight >= minWeight ==>
      && keys1 == keys0 + {source, rels[j].targetId}
      && links1 == links0 + [Link(source, rels[j].targetId, rels[j].weight)]
    ensures keys1 == keysBefore + Targets(rels[..j + 1], minWeight)
    ensures links1 == linksBefore + RelLinks(source, rels[..j + 1], minWeight)
  {
    RelationshipStep(source, rels, j, minWeight);
  }
}
