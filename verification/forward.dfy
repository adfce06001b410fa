/**
 The forward sweep: evaluate every node in creation order.
 */
module Evaluation {
  import opened Matrices
  import opened Hypergraphs

  /** The value the graph denotes at node `i`: the producing edge applied to the
      values its tails denote. This is the reference the sweep is checked
      against; it depends on the edges alone, not on any stored value. */
  function Eval(sem: EdgeSemantics, edges: seq<Edge>, i: nat): Matrix
    requires TailsPrecede(edges) && i < |edges|
    decreases i
  {
    var t := edges[i].tail;
    sem.forward(edges[i].op, seq(|t|, k requires 0 <= k < |t| => Eval(sem, edges, t[k])))
  }

  /** `Hypergraph::forward`. Node `i` ends up holding its producing edge run on
      exactly the current values of its tails, in tail order, which are the values
      the graph denotes there; its gradient slot is reset to zeros of the same
      shape; the answer is the last node's value. Nothing but the two slots
      changes, and the result does not depend on the slots' prior contents, so a
      second run reproduces the first. */
  method Forward(g: Hypergraph, sem: EdgeSemantics) returns (g': Hypergraph, out: Matrix)
    requires WellFormed(g) && |g.nodes| > 0
    ensures g'.edges == g.edges && |g'.nodes| == |g.nodes|
    ensures WellFormed(g')
    ensures forall i :: 0 <= i < |g.nodes| ==>
      g'.nodes[i].inEdge == g.nodes[i].inEdge && g'.nodes[i].name == g.nodes[i].name
    ensures forall i :: 0 <= i < |g.nodes| ==>
      g'.nodes[i].f == sem.forward(g.edges[i].op, Gather(g'.nodes, g.edges[i].tail))
    ensures forall i :: 0 <= i < |g.nodes| ==> g'.nodes[i].f == Eval(sem, g.edges, i)
    ensures forall i :: 0 <= i < |g.nodes| ==>
      g'.nodes[i].dEdf == Zero(g'.nodes[i].f.Shape())
    ensures GradientsShaped(g'.nodes)
    ensures out == g'.nodes[|g'.nodes| - 1].f
  {
    var nodes := g.nodes;
    var i := 0;
    while i < |nodes|
      invariant i <= |nodes| == |g.nodes|
      invariant forall j :: 0 <= j < |nodes| ==>
        nodes[j].inEdge == g.nodes[j].inEdge && nodes[j].name == g.nodes[j].name
      invariant forall j :: 0 <= j < i ==> nodes[j].f == Eval(sem, g.edges, j)
      invariant forall j :: 0 <= j < i ==> nodes[j].dEdf == Zero(nodes[j].f.Shape())
    {
      var inEdge := g.edges[nodes[i].inEdge];
      var tail := inEdge.tail;
      var xs := GatherValues(nodes, tail);
      assert xs == seq(|tail|, k requires 0 <= k < |tail| => Eval(sem, g.edges, tail[k]));
      var y := sem.forward(inEdge.op, xs);
      nodes := nodes[i := nodes[i].(f := y, dEdf := Zero(Dim(y.rows, y.cols)))];
      i := i + 1;
    }
    g' := Hypergraph(nodes, g.edges);
    out := nodes[|nodes| - 1].f;
    forall i | 0 <= i < |g.nodes|
      ensures g'.nodes[i].f == sem.forward(g.edges[i].op, Gather(g'.nodes, g.edges[i].tail))
    {
      var t := g.edges[i].tail;
      assert Gather(g'.nodes, t) == seq(|t|, k requires 0 <= k < |t| => Eval(sem, g.edges, t[k]));
    }
  }
}
