/**
 The backward sweep: a liveness pass that marks the nodes whose gradient can
 matter, then reverse-mode accumulation of gradients from the last node down.
 */
module Differentiation {
  import opened Matrices
  import opened Hypergraphs

  // ---------------------------------------------------------------------------
  // Liveness
  // ---------------------------------------------------------------------------

  /** A node needs a derivative when its producing edge owns parameters or one of
      its tails needs a derivative. */
  predicate NeedsDerivative(sem: EdgeSemantics, edges: seq<Edge>, i: nat)
    requires TailsPrecede(edges) && i < |edges|
    decreases i
  {
    || HasParameters(sem, edges[i])
    || exists k :: 0 <= k < |edges[i].tail| && NeedsDerivative(sem, edges, edges[i].tail[k])
  }

  /** The liveness verdict for every node. */
  function LiveSet(sem: EdgeSemantics, edges: seq<Edge>): (live: seq<bool>)
    requires TailsPrecede(edges)
    ensures |live| == |edges|
    ensures forall i :: 0 <= i < |edges| ==> live[i] == NeedsDerivative(sem, edges, i)
  {
    seq(|edges|, i requires 0 <= i < |edges| => NeedsDerivative(sem, edges, i))
  }

  /** Node `i`'s value is computed, directly or through other nodes, from node
      `j`'s (or `i` is `j`). */
  predicate DependsOn(edges: seq<Edge>, i: nat, j: nat)
    requires TailsPrecede(edges) && i < |edges|
    decreases i
  {
    || i == j
    || exists k :: 0 <= k < |edges[i].tail| && DependsOn(edges, edges[i].tail[k], j)
  }

  /** A node depends only on nodes created no later than itself. */
  lemma {:induction false} DependsOnEarlier(edges: seq<Edge>, i: nat, j: nat)
    requires TailsPrecede(edges) && i < |edges| && DependsOn(edges, i, j)
    ensures j <= i
    decreases i
  {
    if i != j {
      var k :| 0 <= k < |edges[i].tail| && DependsOn(edges, edges[i].tail[k], j);
      DependsOnEarlier(edges, edges[i].tail[k], j);
    }
  }

  /** Liveness in closed form: a node is live exactly when some edge owning
      parameters produces a node it depends on. A node whose whole ancestry is
      parameter-free is dead. */
  lemma {:induction false} LiveIffParameterAncestor(sem: EdgeSemantics, edges: seq<Edge>, i: nat)
    requires TailsPrecede(edges) && i < |edges|
    ensures NeedsDerivative(sem, edges, i) <==>
      exists j :: 0 <= j <= i && HasParameters(sem, edges[j]) && DependsOn(edges, i, j)
    decreases i
  {
    var t := edges[i].tail;
    if NeedsDerivative(sem, edges, i) {
      if HasParameters(sem, edges[i]) {
        assert DependsOn(edges, i, i);
      } else {
        var k :| 0 <= k < |t| && NeedsDerivative(sem, edges, t[k]);
        LiveIffParameterAncestor(sem, edges, t[k]);
        var j :| 0 <= j <= t[k] && HasParameters(sem, edges[j]) && DependsOn(edges, t[k], j);
        assert DependsOn(edges, i, j);
      }
    }
    if exists j :: 0 <= j <= i && HasParameters(sem, edges[j]) && DependsOn(edges, i, j) {
      var j :| 0 <= j <= i && HasParameters(sem, edges[j]) && DependsOn(edges, i, j);
      if j != i {
        var k :| 0 <= k < |t| && DependsOn(edges, t[k], j);
        DependsOnEarlier(edges, t[k], j);
        LiveIffParameterAncestor(sem, edges, t[k]);
        assert NeedsDerivative(sem, edges, t[k]);
      }
    }
  }

  /** The first phase of `Hypergraph::backward`: one pass in index order, each
      node live when its edge owns parameters or any tail is already marked live. */
  method Liveness(g: Hypergraph, sem: EdgeSemantics) returns (live: seq<bool>)
    requires WellFormed(g)
    ensures |live| == |g.nodes|
    ensures forall i :: 0 <= i < |live| ==>
      (live[i] <==> || HasParameters(sem, g.edges[i])
                    || exists k :: 0 <= k < |g.edges[i].tail| && live[g.edges[i].tail[k]])
    ensures forall i :: 0 <= i < |live| ==> live[i] == NeedsDerivative(sem, g.edges, i)
  {
    live := seq(|g.nodes|, _ => false);
    var ni := 0;
    while ni < |g.nodes|
      invariant ni <= |g.nodes| == |live|
      invariant forall j :: 0 <= j < ni ==> live[j] == NeedsDerivative(sem, g.edges, j)
    {
      var inEdge := g.edges[g.nodes[ni].inEdge];
      var isVariable := HasParameters(sem, inEdge);
      var ti := 0;
      while ti < |inEdge.tail|
        invariant ti <= |inEdge.tail|
        invariant isVariable <==> || HasParameters(sem, inEdge)
                                  || exists k :: 0 <= k < ti && NeedsDerivative(sem, g.edges, inEdge.tail[k])
      {
        isVariable := isVariable || live[inEdge.tail[ti]];
        ti := ti + 1;
      }
      live := live[ni := isVariable];
      ni := ni + 1;
    }
  }

  // ---------------------------------------------------------------------------
  // Reverse accumulation
  // ---------------------------------------------------------------------------

  /** Node `j`'s gradient after edge `h` (head `h`, head gradient `gh`) has made
      its contributions for tail positions 0 to k-1, starting from `acc`: one
      backward contribution per position that names `j`, and none when `j` is
      dead. */
  function Push(sem: EdgeSemantics, g: Hypergraph, live: seq<bool>, h: nat, gh: Matrix,
                j: nat, acc: Matrix, k: nat): (r: Matrix)
    requires WellFormed(g) && ShapeRespecting(sem) && |live| == |g.nodes|
    requires h < |g.nodes| && j < |g.nodes| && k <= |g.edges[h].tail|
    requires acc.Shape() == g.nodes[j].f.Shape()
    ensures r.Shape() == g.nodes[j].f.Shape()
    decreases k
  {
    if k == 0 then acc
    else
      var a := Push(sem, g, live, h, gh, j, acc, k - 1);
      var t := g.edges[h].tail;
      if t[k - 1] == j && live[j] then
        Add(a, sem.backward(g.edges[h].op, Gather(g.nodes, t), g.nodes[h].f, gh, k - 1))
      else a
  }

  /** Node `j`'s gradient slot once the reverse sweep has visited heads
      |nodes|-1 down to `h`: the slot as the sweep found it (the seed 1 for the
      last node), plus the contributions of every visited head that reads `j`,
      each computed from that head's own final gradient. */
  function Acc(sem: EdgeSemantics, g: Hypergraph, live: seq<bool>, j: nat, h: nat): (r: Matrix)
    requires WellFormed(g) && ShapeRespecting(sem) && GradientsShaped(g.nodes)
    requires |live| == |g.nodes| && j < |g.nodes| && h <= |g.nodes|
    ensures j < |g.nodes| - 1 ==> r.Shape() == g.nodes[j].f.Shape()
    decreases |g.nodes| - h
  {
    if h == |g.nodes| then
      if j == |g.nodes| - 1 then Scalar(1.0) else g.nodes[j].dEdf
    else if h <= j then
      Acc(sem, g, live, j, h + 1)
    else
      Push(sem, g, live, h, Acc(sem, g, live, h, h + 1), j, Acc(sem, g, live, j, h + 1),
           |g.edges[h].tail|)
  }

  /** Sum law, completeness half: every edge that can contribute to node `j` has
      a head above `j`, so by the time the sweep reaches `j` its gradient is
      final, and the value the sweep reads there is the one it ends with. */
  lemma {:induction false} GradientFinalWhenReached(sem: EdgeSemantics, g: Hypergraph,
                                                  live: seq<bool>, j: nat, h: nat)
    requires WellFormed(g) && ShapeRespecting(sem) && GradientsShaped(g.nodes)
    requires |live| == |g.nodes| && j < |g.nodes| && h <= j + 1
    ensures Acc(sem, g, live, j, h) == Acc(sem, g, live, j, j + 1)
    decreases j + 1 - h
  {
    if h < j + 1 {
      GradientFinalWhenReached(sem, g, live, j, h + 1);
    }
  }

  lemma {:induction false} PushSkipsDead(sem: EdgeSemantics, g: Hypergraph, live: seq<bool>,
                                         h: nat, gh: Matrix, j: nat, acc: Matrix, k: nat)
    requires WellFormed(g) && ShapeRespecting(sem) && |live| == |g.nodes|
    requires h < |g.nodes| && j < |g.nodes| && k <= |g.edges[h].tail|
    requires acc.Shape() == g.nodes[j].f.Shape() && !live[j]
    ensures Push(sem, g, live, h, gh, j, acc, k) == acc
    decreases k
  {
    if k > 0 {
      PushSkipsDead(sem, g, live, h, gh, j, acc, k - 1);
    }
  }

  /** A dead node other than the last never receives a contribution: its slot
      keeps whatever it held when the sweep began. */
  lemma {:induction false} DeadGradientUnchanged(sem: EdgeSemantics, g: Hypergraph,
                                                 live: seq<bool>, j: nat, h: nat)
    requires WellFormed(g) && ShapeRespecting(sem) && GradientsShaped(g.nodes)
    requires |live| == |g.nodes| && j < |g.nodes| - 1 && h <= |g.nodes| && !live[j]
    ensures Acc(sem, g, live, j, h) == g.nodes[j].dEdf
    decreases |g.nodes| - h
  {
    if h < |g.nodes| {
      DeadGradientUnchanged(sem, g, live, j, h + 1);
      if h > j {
        PushSkipsDead(sem, g, live, h, Acc(sem, g, live, h, h + 1), j,
                      Acc(sem, g, live, j, h + 1), |g.edges[h].tail|);
      }
    }
  }

  /** Two liveness vectors that both mark `j` live make edge `h` contribute the
      same to `j`, provided the head gradients agree whenever `h` reads `j`. */
  lemma {:induction false} PushAgrees(sem: EdgeSemantics, g: Hypergraph, live1: seq<bool>,
                                      live2: seq<bool>, h: nat, gh1: Matrix, gh2: Matrix,
                                      j: nat, acc: Matrix, k: nat)
    requires WellFormed(g) && ShapeRespecting(sem) && |live1| == |live2| == |g.nodes|
    requires h < |g.nodes| && j < |g.nodes| && k <= |g.edges[h].tail|
    requires acc.Shape() == g.nodes[j].f.Shape() && live1[j] && live2[j]
    requires j in g.edges[h].tail ==> gh1 == gh2
    ensures Push(sem, g, live1, h, gh1, j, acc, k) == Push(sem, g, live2, h, gh2, j, acc, k)
    decreases k
  {
    if k > 0 {
      PushAgrees(sem, g, live1, live2, h, gh1, gh2, j, acc, k - 1);
      if g.edges[h].tail[k - 1] == j {
        assert j in g.edges[h].tail;
      }
    }
  }

  /** Marks every node live: the sweep without the liveness optimisation. */
  function AllLive(n: nat): (live: seq<bool>)
    ensures |live| == n && forall i :: 0 <= i < n ==> live[i]
  {
    seq(n, _ => true)
  }

  /** The liveness pass is a pure optimisation: every live node ends with the
      gradient it would get if every tail received its contribution. */
  lemma {:induction false} LivenessPreservesLiveGradients(sem: EdgeSemantics, g: Hypergraph,
                                                          j: nat, h: nat)
    requires WellFormed(g) && ShapeRespecting(sem) && GradientsShaped(g.nodes)
    requires j < |g.nodes| && h <= |g.nodes| && NeedsDerivative(sem, g.edges, j)
    ensures Acc(sem, g, LiveSet(sem, g.edges), j, h) == Acc(sem, g, AllLive(|g.nodes|), j, h)
    decreases |g.nodes| - h
  {
    var live, all := LiveSet(sem, g.edges), AllLive(|g.nodes|);
    if h < |g.nodes| {
      LivenessPreservesLiveGradients(sem, g, j, h + 1);
      if h > j {
        var t := g.edges[h].tail;
        if j in t {
          var k :| 0 <= k < |t| && t[k] == j;
          assert NeedsDerivative(sem, g.edges, h);
          LivenessPreservesLiveGradients(sem, g, h, h + 1);
        }
        PushAgrees(sem, g, live, all, h, Acc(sem, g, live, h, h + 1), Acc(sem, g, all, h, h + 1),
                   j, Acc(sem, g, live, j, h + 1), |t|);
      }
    }
  }

  /** Node `j`'s slot holds the contributions edge `i` owes it for tail
      positions 0 to k-1 on top of `start[j]` when `j` is below `i`, and just
      `start[j]` otherwise; values, names and producing edges are those of `g`. */
  ghost predicate PushedUpTo(g: Hypergraph, sem: EdgeSemantics, live: seq<bool>, nodes: seq<Node>,
                             i: nat, start: seq<Matrix>, k: nat)
    requires WellFormed(g) && ShapeRespecting(sem)
    requires |live| == |g.nodes| == |nodes| == |start| && i < |nodes| && k <= |g.edges[i].tail|
    requires forall j :: 0 <= j < i ==> start[j].Shape() == g.nodes[j].f.Shape()
  {
    && (forall j :: 0 <= j < |nodes| ==> SameValue(nodes[j], g.nodes[j]))
    && (forall j :: 0 <= j < i ==> nodes[j].dEdf == Push(sem, g, live, i, start[i], j, start[j], k))
    && (forall j :: i <= j < |nodes| ==> nodes[j].dEdf == start[j])
  }

  /** One tail position of the inner loop: when tail `k` of edge `i` is live,
      add the edge's backward contribution for that position into it. */
  method PushTail(g: Hypergraph, sem: EdgeSemantics, live: seq<bool>, nodes: seq<Node>, i: nat,
                  ghost start: seq<Matrix>, xs: seq<Matrix>, k: nat)
    returns (nodes': seq<Node>)
    requires WellFormed(g) && ShapeRespecting(sem)
    requires |live| == |g.nodes| == |nodes| == |start| && i < |nodes| && k < |g.edges[i].tail|
    requires forall j :: 0 <= j < i ==> start[j].Shape() == g.nodes[j].f.Shape()
    requires xs == Gather(g.nodes, g.edges[i].tail)
    requires PushedUpTo(g, sem, live, nodes, i, start, k)
    ensures |nodes'| == |nodes|
    ensures PushedUpTo(g, sem, live, nodes', i, start, k + 1)
  {
    var inEdge := g.edges[nodes[i].inEdge];
    var t := inEdge.tail[k];
    nodes' := nodes;
    if live[t] {
      var c := sem.backward(inEdge.op, xs, nodes[i].f, nodes[i].dEdf, k);
      nodes' := nodes[t := nodes[t].(dEdf := Add(nodes[t].dEdf, c))];
    }
    forall j | 0 <= j < i
      ensures nodes'[j].dEdf == Push(sem, g, live, i, start[i], j, start[j], k + 1)
    {
      if j != t || !live[t] {
        assert nodes'[j] == nodes[j];
      }
    }
  }

  /** The inner loop of the reverse sweep for head `i`: for each tail position
      in order, when the tail is live, run the edge's backward function and add
      the result into the tail's gradient. Starting from the slots `start`,
      every node below `i` ends with edge `i`'s contributions pushed onto its
      slot, and the rest are untouched. */
  method PushTails(g: Hypergraph, sem: EdgeSemantics, live: seq<bool>, nodes: seq<Node>, i: nat,
                   ghost start: seq<Matrix>)
    returns (nodes': seq<Node>)
    requires WellFormed(g) && ShapeRespecting(sem)
    requires |live| == |g.nodes| == |nodes| == |start| && i < |nodes|
    requires forall j :: 0 <= j < i ==> start[j].Shape() == g.nodes[j].f.Shape()
    requires forall j :: 0 <= j < |nodes| ==> SameValue(nodes[j], g.nodes[j])
    requires forall j :: 0 <= j < |nodes| ==> nodes[j].dEdf == start[j]
    ensures |nodes'| == |nodes|
    ensures forall j :: 0 <= j < |nodes| ==> SameValue(nodes'[j], g.nodes[j])
    ensures forall j :: 0 <= j < i ==>
      nodes'[j].dEdf == Push(sem, g, live, i, start[i], j, start[j], |g.edges[i].tail|)
    ensures forall j :: i <= j < |nodes| ==> nodes'[j].dEdf == start[j]
  {
    nodes' := nodes;
    var tail := g.edges[nodes[i].inEdge].tail;
    var xs := GatherValues(nodes, tail);
    assert xs == Gather(g.nodes, tail);
    var ti := 0;
    while ti < |tail|
      invariant ti <= |tail| && |nodes'| == |nodes|
      invariant PushedUpTo(g, sem, live, nodes', i, start, ti)
    {
      nodes' := PushTail(g, sem, live, nodes', i, start, xs, ti);
      ti := ti + 1;
    }
  }

  /** One step of the reverse sweep, visiting node `i`. On entry the slots hold
      what the sweep has accumulated from the heads above `i`; on exit they also
      hold edge `i`'s contributions. */
  method BackpropEdge(g: Hypergraph, sem: EdgeSemantics, live: seq<bool>, nodes: seq<Node>, i: nat)
    returns (nodes': seq<Node>)
    requires WellFormed(g) && ShapeRespecting(sem) && GradientsShaped(g.nodes)
    requires |live| == |g.nodes| == |nodes| && i < |nodes|
    requires forall j :: 0 <= j < |nodes| ==> SameValue(nodes[j], g.nodes[j])
    requires forall j :: 0 <= j < |nodes| ==> nodes[j].dEdf == Acc(sem, g, live, j, i + 1)
    ensures |nodes'| == |nodes|
    ensures forall j :: 0 <= j < |nodes| ==> SameValue(nodes'[j], g.nodes[j])
    ensures forall j :: 0 <= j < |nodes| ==> nodes'[j].dEdf == Acc(sem, g, live, j, i)
  {
    var n := |nodes|;
    ghost var start := seq(n, j requires 0 <= j < n => Acc(sem, g, live, j, i + 1));
    nodes' := PushTails(g, sem, live, nodes, i, start);
    forall j | 0 <= j < n
      ensures nodes'[j].dEdf == Acc(sem, g, live, j, i)
    {
      assert start[j] == Acc(sem, g, live, j, i + 1);
    }
  }

  /** The two nodes agree on everything but the gradient slot. */
  predicate SameValue(a: Node, b: Node) {
    a.inEdge == b.inEdge && a.name == b.name && a.f == b.f
  }

  /** `Hypergraph::backward`: the liveness pass, then the reverse sweep. The
      last node's gradient is seeded with the 1x1 matrix 1; nodes are visited
      from last to first, each adding its edge's contributions into its live
      tails. Every node ends with the gradient the sum law describes; values,
      names and edges are untouched; a dead node other than the last keeps its
      slot. */
  method Backward(g: Hypergraph, sem: EdgeSemantics) returns (g': Hypergraph)
    requires WellFormed(g) && |g.nodes| > 0
    requires ShapeRespecting(sem) && GradientsShaped(g.nodes)
    ensures g'.edges == g.edges && |g'.nodes| == |g.nodes|
    ensures forall i :: 0 <= i < |g.nodes| ==> SameValue(g'.nodes[i], g.nodes[i])
    ensures g'.nodes[|g.nodes| - 1].dEdf == Scalar(1.0)
    ensures forall j :: 0 <= j < |g.nodes| ==>
      g'.nodes[j].dEdf == Acc(sem, g, LiveSet(sem, g.edges), j, 0)
    ensures forall j :: 0 <= j < |g.nodes| - 1 && !NeedsDerivative(sem, g.edges, j) ==>
      g'.nodes[j].dEdf == g.nodes[j].dEdf
  {
    var live := Liveness(g, sem);
    assert live == LiveSet(sem, g.edges);
    var n := |g.nodes|;
    var nodes := g.nodes;
    nodes := nodes[n - 1 := nodes[n - 1].(dEdf := Scalar(1.0))];
    var i: int := n - 1;
    while i >= 0
      invariant -1 <= i < n == |nodes|
      invariant forall j :: 0 <= j < n ==> SameValue(nodes[j], g.nodes[j])
      invariant forall j :: 0 <= j < n ==> nodes[j].dEdf == Acc(sem, g, live, j, i + 1)
    {
      nodes := BackpropEdge(g, sem, live, nodes, i);
      i := i - 1;
    }
    g' := Hypergraph(nodes, g.edges);
    GradientFinalWhenReached(sem, g, live, n - 1, 0);
    forall j | 0 <= j < n - 1 && !NeedsDerivative(sem, g.edges, j)
      ensures g'.nodes[j].dEdf == g.nodes[j].dEdf
    {
      DeadGradientUnchanged(sem, g, live, j, 0);
    }
  }
}
