/** The order in which the diagnostic command tries nodes (`diagnosticCandidates` in `cmd/rim/main.go`). */
module Diagnostics {
  import opened Prelude
  import opened Nodes
  import opened Sorting
  import Pool = ProbePool

  predicate Eligible(n: Node) {
    n.protocol == "tcp" && n.status == Available
  }

  predicate DiagnosticLess(a: Node, b: Node) {
    if a.latencyMS.Some? && b.latencyMS.Some? && a.latencyMS.value != b.latencyMS.value then
      a.latencyMS.value < b.latencyMS.value
    else a.score > b.score
  }

  function Eligibles(nodes: seq<Node>): seq<Node> {
    if nodes == [] then []
    else Eligibles(nodes[..|nodes|-1]) + (if Eligible(nodes[|nodes|-1]) then [nodes[|nodes|-1]] else [])
  }

  function Diagnosed(nodes: seq<Node>): seq<Node> {
    Sort(DiagnosticLess, Eligibles(nodes))
  }

  method DiagnosticCandidates(nodes: seq<Node>) returns (candidates: seq<Node>)
    ensures candidates == Diagnosed(nodes)
  {
    candidates := [];
    for i := 0 to |nodes|
      invariant candidates == Eligibles(nodes[..i])
    {
      assert nodes[..i+1][..i] == nodes[..i];
      if nodes[i].protocol == "tcp" && nodes[i].status == Available {
        candidates := candidates + [nodes[i]];
      }
    }
    assert nodes[..|nodes|] == nodes;
    candidates := Sort(DiagnosticLess, candidates);
  }

  /** No node without latency has a score between those of a faster and of a slower node. */
  ghost predicate NoneBetween(nodes: seq<Node>) {
    forall a, b, u :: a in nodes && b in nodes && u in nodes
      && a.latencyMS.Some? && b.latencyMS.Some? && u.latencyMS.None? && a.latencyMS.value < b.latencyMS.value
      ==> !(a.score <= u.score <= b.score)
  }

  /** Exactly when sorting with this comparator is meaningful. */
  lemma WeakOrderIff(nodes: seq<Node>)
    ensures WeakOrderOn(DiagnosticLess, nodes) <==> NoneBetween(nodes)
  {
    if WeakOrderOn(DiagnosticLess, nodes) {
      forall a, b, u | a in nodes && b in nodes && u in nodes && a.latencyMS.Some? && b.latencyMS.Some?
                       && u.latencyMS.None? && a.latencyMS.value < b.latencyMS.value
        ensures !(a.score <= u.score <= b.score)
      {
        assert DiagnosticLess(a, b);
        assert DiagnosticLess(a, u) || DiagnosticLess(u, b);
      }
    }
    if NoneBetween(nodes) {
      forall x, y, z | x in nodes && y in nodes && z in nodes && !DiagnosticLess(x, y) && !DiagnosticLess(y, z)
        ensures !DiagnosticLess(x, z)
      {
      }
    }
  }

  lemma {:induction false} AllEligible(nodes: seq<Node>)
    requires forall i :: 0 <= i < |nodes| ==> Eligible(nodes[i])
    ensures Eligibles(nodes) == nodes
  {
    if nodes == [] {
    } else {
      AllEligible(nodes[..|nodes|-1]);
    }
  }

  /** Without a latency on every node the comparator can run in a circle, on nodes that all pass the filter. */
  lemma ComparatorCanCycle(n: Node) returns (a: Node, b: Node, c: Node)
    requires Eligible(n)
    ensures Eligibles([a, b, c]) == [a, b, c]
    ensures DiagnosticLess(a, b) && DiagnosticLess(b, c) && DiagnosticLess(c, a)
    ensures !WeakOrderOn(DiagnosticLess, [a, b, c])
  {
    a := n.(latencyMS := Some(1), score := 0);
    b := n.(latencyMS := Some(2), score := 10);
    c := n.(latencyMS := None, score := 5);
    AllEligible([a, b, c]);
    CircleIsNoOrder([a, b, c], a, b, c);
  }

  lemma CircleIsNoOrder(nodes: seq<Node>, a: Node, b: Node, u: Node)
    requires a in nodes && b in nodes && u in nodes
    requires a.latencyMS.Some? && b.latencyMS.Some? && u.latencyMS.None? && a.latencyMS.value < b.latencyMS.value
    requires a.score <= u.score <= b.score
    ensures !WeakOrderOn(DiagnosticLess, nodes)
  {
    WeakOrderIff(nodes);
  }

  lemma {:induction false} EligiblesCorrect(nodes: seq<Node>)
    ensures forall n :: n in Eligibles(nodes) <==> n in nodes && Eligible(n)
  {
    if nodes == [] {
    } else {
      EligiblesCorrect(nodes[..|nodes|-1]);
      assert nodes == nodes[..|nodes|-1] + [nodes[|nodes|-1]];
    }
  }

  lemma ProbedEligiblesAreMeasured(b: Pool.Batch)
    requires |b.dials| == |b.nodes|
    ensures forall n :: n in Eligibles(Pool.Probed(b)) ==> n.latencyMS.Some?
  {
    var probed := Pool.Probed(b);
    Pool.ProbedKeeps(b);
    EligiblesCorrect(probed);
    forall n | n in Eligibles(probed) ensures n.latencyMS.Some? {
      var i :| 0 <= i < |probed| && probed[i] == n;
    }
  }

  /** After a probe the diagnostic list is the sorted, stable permutation of the eligible nodes. */
  lemma DiagnosisAfterProbe(b: Pool.Batch)
    requires |b.dials| == |b.nodes|
    ensures StableSortOf(DiagnosticLess, Eligibles(Pool.Probed(b)), Diagnosed(Pool.Probed(b)))
  {
    var eligible := Eligibles(Pool.Probed(b));
    ProbedEligiblesAreMeasured(b);
    WeakOrderIff(eligible);
    SortIsStableSort(DiagnosticLess, eligible);
  }

  /** It holds the available TCP nodes, faster ones first and, at the same latency, higher scores first. */
  lemma DiagnosisOrder(b: Pool.Batch, i: int, j: int)
    requires |b.dials| == |b.nodes| && 0 <= i < j < |Diagnosed(Pool.Probed(b))|
    ensures var x, y := Diagnosed(Pool.Probed(b))[i], Diagnosed(Pool.Probed(b))[j];
            && x in Pool.Probed(b) && x.protocol == "tcp" && x.status == Available
            && x.latencyMS.Some? && y.latencyMS.Some?
            && (x.latencyMS.value < y.latencyMS.value || (x.latencyMS == y.latencyMS && x.score >= y.score))
  {
    var eligible, d := Eligibles(Pool.Probed(b)), Diagnosed(Pool.Probed(b));
    DiagnosisAfterProbe(b);
    ProbedEligiblesAreMeasured(b);
    SortPermutes(DiagnosticLess, eligible);
    EligiblesCorrect(Pool.Probed(b));
    assert d[i] in eligible && d[j] in eligible;
    assert !DiagnosticLess(d[j], d[i]);
  }

  lemma DiagnosisMembers(nodes: seq<Node>, n: Node)
    ensures n in Diagnosed(nodes) <==> n in nodes && n.protocol == "tcp" && n.status == Available
  {
    SortPermutes(DiagnosticLess, Eligibles(nodes));
    EligiblesCorrect(nodes);
  }
}
