/**
 * The cut estimate of the coherence engine: a closed-form heuristic over
 * the edge list (not a minimum-cut algorithm), the balanced partition sizes,
 * and the degree heuristic that picks the reported cut nodes.
 */
module Estimate {
  import opened Floats
  import opened Framework

  /** A stored edge: dense node indices and a weight */
  datatype Edge = Edge(source: nat, target: nat, weight: real)

  /** At most this many cut nodes are reported per signal */
  const MaxCutNodes: nat := 10

  predicate EdgesWithin(edges: seq<Edge>, next: nat)
  {
    forall i :: 0 <= i < |edges| ==> edges[i].source < next && edges[i].target < next
  }

  predicate NonNegativeWeights(edges: seq<Edge>)
  {
    forall i :: 0 <= i < |edges| ==> edges[i].weight >= 0.0
  }

  /** The sum of all edge weights */
  function TotalWeight(edges: seq<Edge>): real
  {
    if edges == [] then 0.0 else TotalWeight(edges[..|edges| - 1]) + edges[|edges| - 1].weight
  }

  lemma {:induction false} TotalWeightNonNegative(edges: seq<Edge>)
    requires NonNegativeWeights(edges)
    ensures TotalWeight(edges) >= 0.0
  {
    if edges != [] {
      TotalWeightNonNegative(edges[..|edges| - 1]);
    }
  }

  /**
   * What the total weight is divided by: the average degree 2E/n, or 1
   * when that average is below 1.
   */
  function CutDivisor(n: nat, edgeCount: nat): (d: real)
    requires n >= 1
    ensures d >= 1.0
    ensures 2 * edgeCount <= n ==> d == 1.0
    ensures 2 * edgeCount > n ==> d * n as real == (2 * edgeCount) as real
  {
    var avgDegree := (2 * edgeCount) as real / n as real;
    AverageAboveOne(2 * edgeCount, n);
    if avgDegree >= 1.0 then avgDegree else 1.0
  }

  lemma AverageAboveOne(sum: nat, n: nat)
    requires n >= 1
    ensures sum as real / n as real >= 1.0 <==> sum >= n
    ensures (sum as real / n as real) * n as real == sum as real
  {
  }

  /**
   * The cut value reported for a graph of n nodes: infinite without two
   * nodes, zero without edges, and otherwise the total edge weight divided
   * by the average degree 2E/n, where an average below 1 counts as 1.
   */
  function MinCut(n: nat, edges: seq<Edge>): (r: Float)
    ensures r.PosInf? <==> n < 2
    ensures n >= 2 ==> r.Finite?
    ensures n >= 2 && edges == [] ==> r == Finite(0.0)
    ensures n >= 2 && 2 * |edges| <= n ==> r == Finite(TotalWeight(edges))
    ensures n >= 2 && 2 * |edges| > n ==>
      r.value * ((2 * |edges|) as real / n as real) == TotalWeight(edges)
    ensures n >= 2 && NonNegativeWeights(edges) ==> 0.0 <= r.value <= TotalWeight(edges)
  {
    if n < 2 then PosInf
    else if edges == [] then Finite(0.0)
    else
      var divisor := CutDivisor(n, |edges|);
      CutFacts(n, edges, divisor);
      Finite(TotalWeight(edges) / divisor)
  }

  lemma CutFacts(n: nat, edges: seq<Edge>, divisor: real)
    requires n >= 2 && divisor == CutDivisor(n, |edges|)
    ensures 2 * |edges| <= n ==> TotalWeight(edges) / divisor == TotalWeight(edges)
    ensures 2 * |edges| > n ==>
      (TotalWeight(edges) / divisor) * ((2 * |edges|) as real / n as real) == TotalWeight(edges)
    ensures NonNegativeWeights(edges) ==> 0.0 <= TotalWeight(edges) / divisor <= TotalWeight(edges)
  {
    var total := TotalWeight(edges);
    QuotientFacts(total, divisor);
    if 2 * |edges| > n {
      AverageAboveOne(2 * |edges|, n);
      assert divisor == (2 * |edges|) as real / n as real;
    }
    if NonNegativeWeights(edges) {
      TotalWeightNonNegative(edges);
    }
  }

  lemma QuotientFacts(total: real, divisor: real)
    requires divisor >= 1.0
    ensures (total / divisor) * divisor == total
    ensures total >= 0.0 ==> 0.0 <= total / divisor <= total
  {
    if total >= 0.0 {
      assert total / divisor * divisor == total;
      assert total / divisor <= total / divisor * divisor;
    }
  }

  /** The reported partition: none below two nodes, else the balanced split (n/2, n - n/2) */
  function PartitionSizes(n: nat): (r: Option<(nat, nat)>)
    ensures r.None? <==> n < 2
    ensures r.Some? ==> r.value.0 + r.value.1 == n
    ensures r.Some? ==> 1 <= r.value.0 <= r.value.1 <= r.value.0 + 1
  {
    if n < 2 then None else Some((n / 2, n - n / 2))
  }

  /** Number of edge endpoints equal to id (a self-loop counts twice) */
  function Degree(edges: seq<Edge>, id: nat): nat
  {
    if edges == [] then 0
    else
      var e := edges[|edges| - 1];
      Degree(edges[..|edges| - 1], id) + (if e.source == id then 1 else 0) + (if e.target == id then 1 else 0)
  }

  /** The indices that occur as an endpoint of some edge */
  function Touched(edges: seq<Edge>): set<nat>
  {
    if edges == [] then {}
    else
      var e := edges[|edges| - 1];
      Touched(edges[..|edges| - 1]) + {e.source, e.target}
  }

  lemma {:induction false} TouchedIffDegree(edges: seq<Edge>, id: nat)
    ensures id in Touched(edges) <==> Degree(edges, id) > 0
  {
    if edges != [] {
      TouchedIffDegree(edges[..|edges| - 1], id);
    }
  }

  lemma {:induction false} TouchedWithin(edges: seq<Edge>, next: nat, id: nat)
    requires EdgesWithin(edges, next)
    requires id in Touched(edges)
    ensures id < next
  {
    var prefix := edges[..|edges| - 1];
    if id in Touched(prefix) {
      assert EdgesWithin(prefix, next) by {
        forall i | 0 <= i < |prefix| ensures prefix[i] == edges[i] { }
      }
      TouchedWithin(prefix, next, id);
    }
  }

  /** Sum of the degrees of the indices below k */
  function DegreeSum(edges: seq<Edge>, k: nat): nat
  {
    if k == 0 then 0 else DegreeSum(edges, k - 1) + Degree(edges, k - 1)
  }

  lemma {:induction false} DegreeSumStep(edges: seq<Edge>, k: nat)
    requires edges != []
    ensures var e := edges[|edges| - 1];
      DegreeSum(edges, k)
      == DegreeSum(edges[..|edges| - 1], k) + (if e.source < k then 1 else 0) + (if e.target < k then 1 else 0)
  {
    if k > 0 {
      DegreeSumStep(edges, k - 1);
    }
  }

  lemma {:induction false} DegreeSumNoEdges(k: nat)
    ensures DegreeSum([], k) == 0
  {
    if k > 0 {
      DegreeSumNoEdges(k - 1);
    }
  }

  /** Every edge adds one to the degree of each endpoint: the degrees of all nodes sum to 2E. */
  lemma {:induction false} DegreeSumTotal(edges: seq<Edge>, next: nat)
    requires EdgesWithin(edges, next)
    ensures DegreeSum(edges, next) == 2 * |edges|
  {
    if edges != [] {
      var prefix := edges[..|edges| - 1];
      assert EdgesWithin(prefix, next) by {
        forall i | 0 <= i < |prefix| ensures prefix[i] == edges[i] { }
      }
      DegreeSumTotal(prefix, next);
      DegreeSumStep(edges, next);
      assert edges[|edges| - 1].source < next && edges[|edges| - 1].target < next;
      assert DegreeSum(edges, next) == DegreeSum(prefix, next) + 2;
    } else {
      DegreeSumNoEdges(next);
    }
  }

  /** The integer average degree over the nodes that have an edge; 0 without edges */
  function AvgDegree(edges: seq<Edge>): nat
  {
    if |Touched(edges)| == 0 then 0 else (2 * |edges|) / |Touched(edges)|
  }

  lemma AvgDegreeOf(edges: seq<Edge>, total: nat, count: nat)
    requires total == 2 * |edges| && count == |Touched(edges)|
    ensures AvgDegree(edges) == if count == 0 then 0 else total / count
  {
  }

  /** The degree heuristic's notion of a boundary node: degree above twice the average */
  predicate IsHighDegree(edges: seq<Edge>, id: nat)
  {
    Degree(edges, id) > 2 * AvgDegree(edges)
  }

  /**
   * What the reported cut nodes may be: at most MaxCutNodes distinct names
   * of high-degree nodes, and every high-degree node unless the cap is hit.
   * Which ones are kept at the cap is left open (the Rust code takes them in
   * hash-map order).
   */
  ghost predicate CutNodeChoice(cut: seq<string>, nodes: map<string, nat>, nodeIds: map<nat, string>, edges: seq<Edge>)
  {
    && |cut| <= MaxCutNodes
    && (forall j, l :: 0 <= j < l < |cut| ==> cut[j] != cut[l])
    && (forall j :: 0 <= j < |cut| ==> cut[j] in nodes && IsHighDegree(edges, nodes[cut[j]]))
    && (|cut| < MaxCutNodes ==> forall id :: id in nodeIds && IsHighDegree(edges, id) ==> nodeIds[id] in cut)
  }

  /** The degree table: for each index with an edge, the number of edge ends at it */
  method CountDegrees(edges: seq<Edge>) returns (degrees: map<nat, nat>)
    ensures degrees.Keys == Touched(edges)
    ensures forall id :: id in degrees ==> degrees[id] == Degree(edges, id)
  {
    degrees := map[];
    var i := 0;
    while i < |edges|
      invariant 0 <= i <= |edges|
      invariant degrees.Keys == Touched(edges[..i])
      invariant forall id :: id in degrees ==> degrees[id] == Degree(edges[..i], id)
    {
      var e := edges[i];
      degrees := degrees[e.source := (if e.source in degrees then degrees[e.source] else 0) + 1];
      degrees := degrees[e.target := (if e.target in degrees then degrees[e.target] else 0) + 1];
      assert edges[..i + 1][..i] == edges[..i];
      forall id | id in degrees
        ensures degrees[id] == Degree(edges[..i + 1], id)
      {
        TouchedIffDegree(edges[..i], id);
      }
      i := i + 1;
    }
    assert edges[..i] == edges;
  }

  /**
   * The integer mean of the degree table's values. The table's values are
   * summed index by index below `next`, which bounds every edge end.
   */
  method AverageDegree(edges: seq<Edge>, next: nat, degrees: map<nat, nat>) returns (avg: nat)
    requires EdgesWithin(edges, next)
    requires degrees.Keys == Touched(edges)
    requires forall id :: id in degrees ==> degrees[id] == Degree(edges, id)
    ensures avg == AvgDegree(edges)
  {
    var total := 0;
    var id := 0;
    while id < next
      invariant 0 <= id <= next
      invariant total == DegreeSum(edges, id)
    {
      TouchedIffDegree(edges, id);
      total := total + (if id in degrees then degrees[id] else 0);
      id := id + 1;
    }
    DegreeSumTotal(edges, next);
    var count := |degrees|;
    assert count == |Touched(edges)| by {
      assert |degrees| == |degrees.Keys|;
    }
    AvgDegreeOf(edges, total, count);
    avg := if count == 0 then 0 else total / count;
  }
}
