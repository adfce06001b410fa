/**
 The sum law of reverse accumulation, stated as a sum: a live node's final
 gradient is its starting slot plus every contribution owed to it, one per
 occurrence of the node among the tails of later edges, each computed from the
 consuming edge's own final head gradient.
 */
module SumLaw {
  import opened Matrices
  import opened Hypergraphs
  import opened Differentiation

  /** `acc` with the matrices of `cs` added on, first to last. */
  function SumOnto(acc: Matrix, cs: seq<Matrix>): (r: Matrix)
    requires forall k :: 0 <= k < |cs| ==> cs[k].Shape() == acc.Shape()
    ensures r.Shape() == acc.Shape()
    decreases |cs|
  {
    if |cs| == 0 then acc
    else
      var front := SumOnto(acc, cs[..|cs| - 1]);
      var last := cs[|cs| - 1];
      Add(front, last)
  }

  /** Adding two runs of contributions is adding their concatenation. */
  lemma {:induction false} SumOntoAppend(acc: Matrix, xs: seq<Matrix>, ys: seq<Matrix>)
    requires (forall k :: 0 <= k < |xs| ==> xs[k].Shape() == acc.Shape()) && (forall k :: 0 <= k < |ys| ==> ys[k].Shape() == acc.Shape())
    ensures SumOnto(SumOnto(acc, xs), ys) == SumOnto(acc, xs + ys)
    decreases |ys|
  {
    if |ys| > 0 {
      var ys' := ys[..|ys| - 1];
      assert (xs + ys)[..|xs + ys| - 1] == xs + ys';
      SumOntoAppend(acc, xs, ys');
    } else {
      assert xs + ys == xs;
    }
  }

  lemma SumOntoSnoc(acc: Matrix, xs: seq<Matrix>, c: Matrix)
    requires forall k :: 0 <= k < |xs| ==> xs[k].Shape() == acc.Shape()
    requires c.Shape() == acc.Shape()
    ensures SumOnto(acc, xs + [c]) == Add(SumOnto(acc, xs), c)
  {
    assert (xs + [c])[..|xs|] == xs;
  }

  /** The contributions edge `h` owes node `j` for tail positions 0 to k-1, in
      the order the sweep computes them: one per position holding `j`. */
  function EdgeContributions(sem: EdgeSemantics, g: Hypergraph, h: nat, gh: Matrix, j: nat, k: nat)
    : (cs: seq<Matrix>)
    requires WellFormed(g) && ShapeRespecting(sem)
    requires h < |g.nodes| && j < |g.nodes| && k <= |g.edges[h].tail|
    ensures forall k :: 0 <= k < |cs| ==> cs[k].Shape() == g.nodes[j].f.Shape()
    ensures |cs| == Count(g.edges[h].tail, j, k)
    decreases k
  {
    var t := g.edges[h].tail;
    if k == 0 then []
    else
      EdgeContributions(sem, g, h, gh, j, k - 1)
      + if t[k - 1] == j
        then [sem.backward(g.edges[h].op, Gather(g.nodes, t), g.nodes[h].f, gh, k - 1)]
        else []
  }

  /** How many of the first `k` entries of `t` are `x`. */
  function Count(t: seq<nat>, x: nat, k: nat): nat
    requires k <= |t|
  {
    if k == 0 then 0 else Count(t, x, k - 1) + if t[k - 1] == x then 1 else 0
  }

  lemma {:induction false} CountAbsent(t: seq<nat>, x: nat, k: nat)
    requires k <= |t| && forall m :: 0 <= m < k ==> t[m] != x
    ensures Count(t, x, k) == 0
  {
    if k > 0 {
      CountAbsent(t, x, k - 1);
    }
  }

  /** How many times node `j` occurs among the tails of edges `h` and later. */
  function Occurrences(edges: seq<Edge>, j: nat, h: nat): nat
    requires h <= |edges|
    decreases |edges| - h
  {
    if h == |edges| then 0
    else Count(edges[h].tail, j, |edges[h].tail|) + Occurrences(edges, j, h + 1)
  }

  /** Every contribution node `j` receives from the heads the sweep has visited
      (|nodes|-1 down to `h`), in the order they are added. */
  function Contributions(sem: EdgeSemantics, g: Hypergraph, live: seq<bool>, j: nat, h: nat)
    : (cs: seq<Matrix>)
    requires WellFormed(g) && ShapeRespecting(sem) && GradientsShaped(g.nodes)
    requires |live| == |g.nodes| && j < |g.nodes| && h <= |g.nodes|
    ensures forall k :: 0 <= k < |cs| ==> cs[k].Shape() == g.nodes[j].f.Shape()
    ensures |cs| == Occurrences(g.edges, j, h)
    decreases |g.nodes| - h
  {
    if h == |g.nodes| then []
    else
      var t := g.edges[h].tail;
      var rest := Contributions(sem, g, live, j, h + 1);
      if h <= j then
        CountAbsent(t, j, |t|);
        rest
      else
        rest + EdgeContributions(sem, g, h, Acc(sem, g, live, h, h + 1), j, |t|)
  }

  lemma {:induction false} PushIsSum(sem: EdgeSemantics, g: Hypergraph, live: seq<bool>,
                                     h: nat, gh: Matrix, j: nat, acc: Matrix, k: nat)
    requires WellFormed(g) && ShapeRespecting(sem) && |live| == |g.nodes|
    requires h < |g.nodes| && j < |g.nodes| && k <= |g.edges[h].tail|
    requires acc.Shape() == g.nodes[j].f.Shape() && live[j]
    ensures Push(sem, g, live, h, gh, j, acc, k) == SumOnto(acc, EdgeContributions(sem, g, h, gh, j, k))
    decreases k
  {
    if k > 0 {
      PushIsSum(sem, g, live, h, gh, j, acc, k - 1);
      var prev := EdgeContributions(sem, g, h, gh, j, k - 1);
      var cur := EdgeContributions(sem, g, h, gh, j, k);
      if |cur| != |prev| {
        var c := cur[|cur| - 1];
        assert cur == prev + [c];
        SumOntoSnoc(acc, prev, c);
      } else {
        assert cur == prev;
      }
    }
  }

  /** The sum law: once the sweep has visited heads |nodes|-1 down to `h`, a live
      node other than the last holds its starting slot plus, one after another,
      the contributions of every visited edge, one per occurrence of the node
      among that edge's tails. A dead node holds its starting slot. */
  lemma {:induction false} GradientIsSumOfContributions(sem: EdgeSemantics, g: Hypergraph,
                                                        live: seq<bool>, j: nat, h: nat)
    requires WellFormed(g) && ShapeRespecting(sem) && GradientsShaped(g.nodes)
    requires |live| == |g.nodes| && j < |g.nodes| - 1 && h <= |g.nodes|
    ensures live[j] ==>
      Acc(sem, g, live, j, h) == SumOnto(g.nodes[j].dEdf, Contributions(sem, g, live, j, h))
    ensures !live[j] ==> Acc(sem, g, live, j, h) == g.nodes[j].dEdf
    decreases |g.nodes| - h
  {
    if !live[j] {
      DeadGradientUnchanged(sem, g, live, j, h);
    } else if h < |g.nodes| {
      GradientIsSumOfContributions(sem, g, live, j, h + 1);
      var start := g.nodes[j].dEdf;
      var rest := Contributions(sem, g, live, j, h + 1);
      if h <= j {
        assert Contributions(sem, g, live, j, h) == rest;
        assert Acc(sem, g, live, j, h) == Acc(sem, g, live, j, h + 1);
      } else {
        var t := g.edges[h].tail;
        var gh := Acc(sem, g, live, h, h + 1);
        var before := Acc(sem, g, live, j, h + 1);
        var mine := EdgeContributions(sem, g, h, gh, j, |t|);
        assert Contributions(sem, g, live, j, h) == rest + mine;
        calc {
          Acc(sem, g, live, j, h);
          Push(sem, g, live, h, gh, j, before, |t|);
          { PushIsSum(sem, g, live, h, gh, j, before, |t|); }
          SumOnto(before, mine);
          SumOnto(SumOnto(start, rest), mine);
          { SumOntoAppend(start, rest, mine); }
          SumOnto(start, rest + mine);
        }
      }
    } else {
      assert Contributions(sem, g, live, j, h) == [];
    }
  }
}
