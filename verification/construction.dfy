/**
 Building a graph: every public constructor appends one node together with the
 zero-arity edge that produces it, and answers the index of the new node.
 */
module Construction {
  import opened Matrices
  import opened Hypergraphs

  /** The graph after an append, and the index handed back to the caller. */
  datatype Appended = Appended(graph: Hypergraph, index: nat)

  /** The append contract shared by all constructors: the answer is the old node
      count, both lists grow by one, everything already there stays, the new node
      points at the new edge, the new edge points back at the new node and reads
      no tails. */
  predicate AppendsOne(g: Hypergraph, r: Appended, op: Op, name: string) {
    && r.index == |g.nodes|
    && |r.graph.nodes| == |g.nodes| + 1
    && |r.graph.edges| == |g.edges| + 1
    && r.graph.nodes[..|g.nodes|] == g.nodes
    && r.graph.edges[..|g.edges|] == g.edges
    && r.graph.nodes[r.index].inEdge == |g.edges|
    && r.graph.nodes[r.index].name == name
    && r.graph.edges[|g.edges|].headNode == r.index
    && r.graph.edges[|g.edges|].tail == []
    && r.graph.edges[|g.edges|].op == op
  }

  /** The steps every constructor performs: push a node whose `in_edge` is the
      current edge count, push the edge, then set the edge's head to the new
      node's index. The value slots are left as the default empty matrix. */
  function Append(g: Hypergraph, op: Op, name: string): (r: Appended)
    ensures AppendsOne(g, r, op, name)
    ensures WellFormed(g) ==> WellFormed(r.graph)
  {
    var newNodeIndex := |g.nodes|;
    var nodes := g.nodes + [Node(|g.edges|, name, Empty, Empty)];
    var pushed := Edge([], 0, op);
    var edges := g.edges + [pushed.(headNode := newNodeIndex)];
    Appended(Hypergraph(nodes, edges), newNodeIndex)
  }

  /** `add_input`: a node holding the constant `m`. */
  function AddInput(g: Hypergraph, m: Matrix, name: string): (r: Appended)
    ensures AppendsOne(g, r, InputOp(m), name)
    ensures WellFormed(g) ==> WellFormed(r.graph)
  {
    Append(g, InputOp(m), name)
  }

  /** `add_scalar_input`: an input node whose constant is the 1x1 matrix `s`. */
  function AddScalarInput(g: Hypergraph, s: real, name: string): (r: Appended)
    ensures AppendsOne(g, r, InputOp(RawMatrix(1, 1, [s])), name)
    ensures WellFormed(g) ==> WellFormed(r.graph)
  {
    var m := Scalar(s);
    AddInput(g, m, name)
  }

  /** `add_parameter` for a single parameter tensor. */
  function AddParameter(g: Hypergraph, p: ParametersHandle, name: string): (r: Appended)
    ensures AppendsOne(g, r, ParameterOp(p), name)
    ensures WellFormed(g) ==> WellFormed(r.graph)
  {
    Append(g, ParameterOp(p), name)
  }

  /** `add_parameter` for a lookup table. */
  function AddLookupParameter(g: Hypergraph, p: LookupParametersHandle, name: string): (r: Appended)
    ensures AppendsOne(g, r, LookupOp(p), name)
    ensures WellFormed(g) ==> WellFormed(r.graph)
  {
    Append(g, LookupOp(p), name)
  }

  /** One call to a public constructor. */
  datatype Call =
    | ScalarInputCall(s: real, name: string)
    | InputCall(m: Matrix, name: string)
    | ParameterCall(p: ParametersHandle, name: string)
    | LookupParameterCall(lp: LookupParametersHandle, name: string)

  /** The edge operation a call appends. */
  function CallOp(c: Call): Op {
    match c
    case ScalarInputCall(s, _) => InputOp(Scalar(s))
    case InputCall(m, _) => InputOp(m)
    case ParameterCall(p, _) => ParameterOp(p)
    case LookupParameterCall(lp, _) => LookupOp(lp)
  }

  function Apply(g: Hypergraph, c: Call): (r: Appended)
    ensures AppendsOne(g, r, CallOp(c), c.name)
    ensures WellFormed(g) ==> WellFormed(r.graph)
  {
    match c
    case ScalarInputCall(s, name) => AddScalarInput(g, s, name)
    case InputCall(m, name) => AddInput(g, m, name)
    case ParameterCall(p, name) => AddParameter(g, p, name)
    case LookupParameterCall(lp, name) => AddLookupParameter(g, lp, name)
  }

  /** The graph a sequence of constructor calls builds from an empty graph, with
      the index each call answered. */
  function Build(calls: seq<Call>): (r: (Hypergraph, seq<nat>))
    ensures |r.0.nodes| == |r.0.edges| == |r.1| == |calls|
    decreases |calls|
  {
    if |calls| == 0 then (Hypergraph([], []), [])
    else
      var (g, indices) := Build(calls[..|calls| - 1]);
      var r := Apply(g, calls[|calls| - 1]);
      (r.graph, indices + [r.index])
  }

  /** Indices are handed out densely, 0 to n-1 in call order; the graph holds one
      node and one edge per call, and it is well formed. */
  lemma {:induction false} BuildIsDense(calls: seq<Call>)
    ensures forall k :: 0 <= k < |calls| ==> Build(calls).1[k] == k
    ensures WellFormed(Build(calls).0)
  {
    if |calls| > 0 {
      BuildIsDense(calls[..|calls| - 1]);
    }
  }

  /** Later calls never disturb what earlier calls built: the graph after the
      first `k` calls is a prefix of the final one, node for node and edge for
      edge. */
  lemma {:induction false} BuildExtends(calls: seq<Call>, k: nat)
    requires k <= |calls|
    ensures Build(calls).0.nodes[..k] == Build(calls[..k]).0.nodes
    ensures Build(calls).0.edges[..k] == Build(calls[..k]).0.edges
    decreases |calls|
  {
    if k < |calls| {
      var prefix := calls[..|calls| - 1];
      BuildExtends(prefix, k);
      var before := Build(prefix).0;
      var after := Apply(before, calls[|calls| - 1]).graph;
      assert Build(calls).0 == after;
      assert after.nodes[..k] == after.nodes[..|before.nodes|][..k];
      assert after.edges[..k] == after.edges[..|before.edges|][..k];
      assert prefix[..k] == calls[..k];
    } else {
      assert calls[..k] == calls;
    }
  }
}
