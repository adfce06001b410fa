/**
 A three-node graph worked through both sweeps: the input x = 3 (node 0), its
 square (node 1), and the square scaled by a parameter p = 2 (node 2, the only
 edge that owns parameters). Forward yields 18. Liveness only spreads from a
 parameter-owning edge to the nodes computed from it, so nodes 0 and 1 are
 dead and keep zero gradients; only with every node marked live would they
 receive the chain-rule gradients 2 and 12.
 */
module Example {
  import opened Matrices
  import opened Hypergraphs
  import opened Evaluation
  import opened Differentiation

  const Square: Op := Operation(0)
  const ScaleByParameter: Op := Operation(1)
  const P: real := 2.0

  /** The single entry of the first tail value, or 0 when there is none. */
  function First(xs: seq<Matrix>): real {
    if |xs| > 0 && |xs[0].data| > 0 then xs[0].data[0] else 0.0
  }

  function ExampleForward(op: Op, xs: seq<Matrix>): Matrix {
    match op
    case InputOp(v) => v
    case Operation(code) =>
      if code == 0 then Scalar(First(xs) * First(xs)) else Scalar(P * First(xs))
    case _ => Empty
  }

  /** d(head)/d(tail k) times the head gradient, shaped like tail k. */
  function ExampleBackward(op: Op, xs: seq<Matrix>, y: Matrix, d: Matrix, k: nat): Matrix {
    if k >= |xs| then Empty
    else if xs[k].Shape() != Dim(1, 1) || |d.data| == 0 || !op.Operation? then Zero(xs[k].Shape())
    else if op.code == 0 then Scalar(2.0 * First(xs) * d.data[0])
    else Scalar(P * d.data[0])
  }

  function ExampleHasParameters(op: Op): ParametersAnswer {
    if op == ScaleByParameter then Overrides(true) else Inherited
  }

  const Sem: EdgeSemantics := EdgeSemantics(ExampleForward, ExampleBackward, ExampleHasParameters)

  const Edges: seq<Edge> :=
    [Edge([], 0, InputOp(Scalar(3.0))), Edge([0], 1, Square), Edge([1], 2, ScaleByParameter)]

  /** The graph as the forward sweep leaves it. */
  const Evaluated: Hypergraph := Hypergraph(
    [Node(0, "x", Scalar(3.0), Zero(Dim(1, 1))),
     Node(1, "y", Scalar(9.0), Zero(Dim(1, 1))),
     Node(2, "z", Scalar(18.0), Zero(Dim(1, 1)))],
    Edges)

  lemma ExampleSemanticsShapeRespecting()
    ensures ShapeRespecting(Sem)
  {
  }

  /** Forward: the output is 18, and the stored values are the ones the sweep
      computes. */
  lemma ExampleForwardValues()
    ensures TailsPrecede(Edges)
    ensures Eval(Sem, Edges, 0) == Scalar(3.0)
    ensures Eval(Sem, Edges, 1) == Scalar(9.0)
    ensures Eval(Sem, Edges, 2) == Scalar(18.0)
  {
  }

  /** Only the node produced by the parameter-owning edge is live. */
  lemma ExampleLiveness()
    ensures TailsPrecede(Edges)
    ensures !NeedsDerivative(Sem, Edges, 0)
    ensures !NeedsDerivative(Sem, Edges, 1)
    ensures NeedsDerivative(Sem, Edges, 2)
  {
  }

  lemma ExampleWellFormed()
    ensures WellFormed(Evaluated) && GradientsShaped(Evaluated.nodes)
  {
  }

  /** Backward with the liveness pass: the output's gradient is the seed 1 and
      the two dead nodes keep their zero gradients. */
  lemma ExampleGradients()
    ensures WellFormed(Evaluated) && ShapeRespecting(Sem) && GradientsShaped(Evaluated.nodes)
    ensures Acc(Sem, Evaluated, LiveSet(Sem, Edges), 2, 0) == Scalar(1.0)
    ensures Acc(Sem, Evaluated, LiveSet(Sem, Edges), 1, 0) == Zero(Dim(1, 1))
    ensures Acc(Sem, Evaluated, LiveSet(Sem, Edges), 0, 0) == Zero(Dim(1, 1))
  {
    ExampleWellFormed();
    ExampleSemanticsShapeRespecting();
    ExampleLiveness();
    var live := LiveSet(Sem, Edges);
    GradientFinalWhenReached(Sem, Evaluated, live, 2, 0);
    DeadGradientUnchanged(Sem, Evaluated, live, 1, 0);
    DeadGradientUnchanged(Sem, Evaluated, live, 0, 0);
  }

  /** The same sweep with every node marked live hands out the chain-rule
      gradients: 2 for the square and 2 * 2 * 3 = 12 for the input. */
  lemma ExampleGradientsWithoutLiveness()
    ensures WellFormed(Evaluated) && ShapeRespecting(Sem) && GradientsShaped(Evaluated.nodes)
    ensures Acc(Sem, Evaluated, AllLive(3), 1, 0) == Scalar(2.0)
    ensures Acc(Sem, Evaluated, AllLive(3), 0, 0) == Scalar(12.0)
  {
    ExampleWellFormed();
    ExampleSemanticsShapeRespecting();
    var g, all := Evaluated, AllLive(3);
    var zero := Zero(Dim(1, 1));
    assert zero == Scalar(0.0);
    var seed := Acc(Sem, g, all, 2, 3);
    assert seed == Scalar(1.0);
    // node 1 receives P * 1 from edge 2
    var c1 := ExampleBackward(ScaleByParameter, [Scalar(9.0)], Scalar(18.0), seed, 0);
    assert c1 == Scalar(2.0);
    assert Acc(Sem, g, all, 1, 3) == zero;
    assert Gather(g.nodes, [1]) == [Scalar(9.0)];
    assert Push(Sem, g, all, 2, seed, 1, zero, 0) == zero;
    assert Push(Sem, g, all, 2, seed, 1, zero, 1) == Add(zero, c1);
    assert Add(zero, c1).data == [2.0];
    assert Acc(Sem, g, all, 1, 2) == Scalar(2.0);
    GradientFinalWhenReached(Sem, g, all, 1, 0);
    // node 0 receives 2 * x * 2 from edge 1
    var c0 := ExampleBackward(Square, [Scalar(3.0)], Scalar(9.0), Scalar(2.0), 0);
    assert c0 == Scalar(12.0);
    assert Acc(Sem, g, all, 0, 3) == zero;
    assert Acc(Sem, g, all, 0, 2) == zero;
    assert Gather(g.nodes, [0]) == [Scalar(3.0)];
    assert Push(Sem, g, all, 1, Scalar(2.0), 0, zero, 0) == zero;
    assert Push(Sem, g, all, 1, Scalar(2.0), 0, zero, 1) == Add(zero, c0);
    assert Add(zero, c0).data == [12.0];
    assert Acc(Sem, g, all, 0, 1) == Scalar(12.0);
  }
}
