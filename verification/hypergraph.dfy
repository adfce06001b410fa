/**
 The data model of the computation graph: an append-only arena of nodes and
 edges addressed by index, and the interface every edge kind offers to the
 engine.
 */
module Hypergraphs {
  import opened Matrices

  /** Opaque handles to parameter storage; the graph only hands them to edges. */
  datatype ParametersHandle = ParametersHandle(id: nat)
  datatype LookupParametersHandle = LookupParametersHandle(id: nat)

  /** What an edge computes. The engine never looks inside an operation; it only
      dispatches on it through `EdgeSemantics`. */
  datatype Op =
    | InputOp(value: Matrix)                     // `InputEdge`: a constant
    | ParameterOp(params: ParametersHandle)      // `ParameterEdge`
    | LookupOp(lookup: LookupParametersHandle)   // `LookupEdge`
    | Operation(code: nat)                       // any operation edge added by callers

  /** A hyperedge: many tails, one head. */
  datatype Edge = Edge(tail: seq<nat>, headNode: nat, op: Op)

  /** A value slot `f` and its accumulated gradient `dEdf`. */
  datatype Node = Node(inEdge: nat, name: string, f: Matrix, dEdf: Matrix)

  datatype Hypergraph = Hypergraph(nodes: seq<Node>, edges: seq<Edge>)

  /** Whether an edge kind overrides the virtual `has_parameters`. */
  datatype ParametersAnswer = Inherited | Overrides(ownsParameters: bool)

  /** The virtual methods of `Edge`, resolved per operation. Their numerics are
      supplied by the edge kinds, so the engine treats them as given functions. */
  datatype EdgeSemantics = EdgeSemantics(
    forward: (Op, seq<Matrix>) -> Matrix,
    backward: (Op, seq<Matrix>, Matrix, Matrix, nat) -> Matrix,
    hasParameters: Op -> ParametersAnswer)

  /** `Edge::has_parameters`: an edge kind that does not override the virtual
      gets the base class answer, false. */
  function HasParameters(sem: EdgeSemantics, e: Edge): (b: bool)
    ensures b <==> sem.hasParameters(e.op) == Overrides(true)
  {
    match sem.hasParameters(e.op)
    case Inherited => false
    case Overrides(answer) => answer
  }

  /** Every tail of every edge names a node created before the edge's head. */
  predicate TailsPrecede(edges: seq<Edge>) {
    forall i, k :: 0 <= i < |edges| && 0 <= k < |edges[i].tail| ==> edges[i].tail[k] < i
  }

  /** The arena invariant: node `i` is produced by edge `i`, whose head is `i`,
      and every edge reads only earlier nodes. */
  predicate WellFormed(g: Hypergraph) {
    && |g.nodes| == |g.edges|
    && (forall i :: 0 <= i < |g.nodes| ==> g.nodes[i].inEdge == i)
    && (forall i :: 0 <= i < |g.edges| ==> g.edges[i].headNode == i)
    && TailsPrecede(g.edges)
  }

  /** The edge backward functions return a contribution shaped like the tail it
      is meant for. */
  ghost predicate ShapeRespecting(sem: EdgeSemantics) {
    forall op: Op, xs: seq<Matrix>, y: Matrix, d: Matrix, k: nat ::
      k < |xs| ==> sem.backward(op, xs, y, d, k).Shape() == xs[k].Shape()
  }

  /** Every gradient slot has the shape of its value slot. */
  predicate GradientsShaped(nodes: seq<Node>) {
    forall i :: 0 <= i < |nodes| ==> nodes[i].dEdf.Shape() == nodes[i].f.Shape()
  }

  /** The tail values an edge reads, in tail order. */
  function Gather(nodes: seq<Node>, tail: seq<nat>): (xs: seq<Matrix>)
    requires forall k :: 0 <= k < |tail| ==> tail[k] < |nodes|
    ensures |xs| == |tail|
    ensures forall k :: 0 <= k < |tail| ==> xs[k] == nodes[tail[k]].f
  {
    seq(|tail|, k requires 0 <= k < |tail| => nodes[tail[k]].f)
  }

  /** The gather loop both sweeps run: collect the tails' values in tail order. */
  method GatherValues(nodes: seq<Node>, tail: seq<nat>) returns (xs: seq<Matrix>)
    requires forall k :: 0 <= k < |tail| ==> tail[k] < |nodes|
    ensures xs == Gather(nodes, tail)
  {
    xs := [];
    var ti := 0;
    while ti < |tail|
      invariant ti <= |tail| && |xs| == ti
      invariant forall k :: 0 <= k < ti ==> xs[k] == nodes[tail[k]].f
    {
      xs := xs + [nodes[tail[ti]].f];
      ti := ti + 1;
    }
  }
}
