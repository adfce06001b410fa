# Hypergraph: computation-graph engine of cnn, modelled in Dafny

This project models the `Hypergraph` computation-graph engine of the `cnn`
library. It is the engine behind the library's reverse-mode automatic
differentiation. The graph is an append-only arena:
every node holds a value slot `f` and a gradient slot `dEdf`, and is produced
by exactly one hyperedge, which reads any number of earlier nodes (its tails).
The model covers:

- **Construction** (`add_input`, `add_scalar_input`, both `add_parameter`
  overloads). Each call appends one node and one zero-arity edge and answers
  the new node's index (`construction.dfy`).
- **Forward** evaluates nodes in index order. Each node gets its edge's
  forward function applied to its tails' values, and its gradient slot is
  reset to zeros of the same shape (`forward.dfy`).
- **Backward** runs a liveness pass, then a reverse sweep that seeds the last
  node with the 1x1 matrix 1. The sweep adds each edge's backward contribution
  into every live tail (`backward.dfy`). The sum law, stated as an explicit
  sum over contributions, is in `sumlaw.dfy`.
- A worked three-node graph is in `example.dfy`.

The edge kinds' numerics come from outside the engine, so the model takes
them as a parameter. `EdgeSemantics` holds the forward function, the backward
function and the `has_parameters` answer of each operation. The value type
is a real-valued dense matrix with the three primitives the engine uses:
`Zero(Dim)`, the 1x1 matrix, and element-wise `+=`.

The graph is well formed (`Hypergraphs.WellFormed`) when:

- node `i` is produced by edge `i`;
- edge `i`'s head is node `i`;
- every tail is smaller than its head.

Graphs built by the constructors are well formed (`BuildIsDense`). Operation
edges are appended by code outside this model, so the two sweeps take well
formedness as a precondition.

Two consequences of the code are worth stating on their own:

- Liveness spreads only *downstream* from edges that own parameters. A node
  computed only from inputs is therefore dead and keeps a zero gradient. In
  the worked example (x = 3, y = x^2, z = p * y with p = 2), x and y are dead
  and keep `dEdf` 0. The chain-rule values 12 and 2 appear only when every
  node is marked live (`Example.ExampleGradients`,
  `Example.ExampleGradientsWithoutLiveness`).
- Skipping dead tails leaves every live node's gradient unchanged
  (`Differentiation.LivenessPreservesLiveGradients`). Without the pass, dead
  nodes would receive gradients.

The code never checks its inputs, and the model treats each unchecked case as
follows:

- Bad tail indices and an empty graph are excluded by preconditions
  (`WellFormed`, a non-empty node list).
- Backward before forward is accepted. A node that was only appended holds
  the default 0x0 matrix in both slots, so the edges' backward functions run
  on those values, as they would in the source.
- Arity is taken to be the tail count. The source sizes the gathered value
  list by the edge's `arity()` and then fills it from the tail list; the
  model gathers exactly one value per tail position, so a mismatch between
  the two cannot be expressed.

## Model

| member | source | states |
|---|---|---|
| Construction.Append | src/cnn/cnn.cc:23-29 | the shared append step returns the old node count. Both lists grow by one and the old prefix is unchanged. The new node's `in_edge` is the new edge, whose `head_node` is the new node and whose tail list is empty. Well formedness is preserved |
| Construction.AddInput | src/cnn/cnn.cc:23-30 | `add_input` appends one node and one input edge carrying the given matrix, under the append contract |
| Construction.AddScalarInput | src/cnn/cnn.cc:17-21 | `add_scalar_input(s)` appends an input edge whose constant is the 1x1 matrix with single entry `s` |
| Construction.AddParameter | src/cnn/cnn.cc:32-38 | `add_parameter` (tensor) appends one node and one parameter edge wrapping the handle, under the append contract |
| Construction.AddLookupParameter | src/cnn/cnn.cc:40-46 | `add_parameter` (lookup table) appends one node and one lookup edge wrapping the handle, under the append contract |
| Construction.BuildIsDense | src/cnn/cnn.cc:23-46 | any sequence of constructor calls hands out the indices 0..n-1 in call order. It leaves n nodes and n edges, and the graph is well formed |
| Construction.BuildExtends | src/cnn/cnn.cc:24-28 | after further calls, the nodes and edges built by the first k calls are unchanged |
| Hypergraphs.HasParameters | src/cnn/cnn.cc:10 | an edge owns parameters exactly when its kind overrides `has_parameters` to answer true; the inherited default is false |
| Hypergraphs.GatherValues | src/cnn/cnn.cc:51-56 | the gather loop collects exactly the tails' `f` values, in tail order |
| Evaluation.Forward | src/cnn/cnn.cc:48-61 | each node's `f` is its edge's forward function applied to its tails' `f` values in tail order. Each `f` equals the value the graph denotes there (`Eval`), whatever the slots held before, so a second run gives the same result. Each `dEdf` is zero with the shape of its `f`. The answer is the last node's `f`. Edges, `in_edge` and names are untouched |
| Differentiation.Liveness | src/cnn/cnn.cc:64-73 | `needs_derivative[i]` holds exactly when edge `i` owns parameters or some tail is marked. It agrees with the reference `NeedsDerivative` |
| Differentiation.LiveIffParameterAncestor | src/cnn/cnn.cc:65-73 | a node is live exactly when it depends, directly or transitively, on a node whose edge owns parameters. A node with a parameter-free ancestry is dead |
| Differentiation.DependsOnEarlier | src/cnn/cnn.cc:49 | in a well-formed graph a node depends only on nodes with a smaller or equal index, which is the topological order both sweeps rely on |
| Differentiation.Acc | src/cnn/cnn.cc:89-94 | throughout the sweep, the gradient slot of every node except the last keeps the shape of its value, so every `+=` is between equal shapes |
| Differentiation.GradientFinalWhenReached | src/cnn/cnn.cc:79-95 | once the sweep reaches node `j`, no later step changes `j`'s gradient. The value read when `j` acts as a head is its final gradient |
| Differentiation.DeadGradientUnchanged | src/cnn/cnn.cc:89-93 | a dead node other than the last never receives a contribution, so its slot keeps its starting value |
| Differentiation.LivenessPreservesLiveGradients | src/cnn/cnn.cc:64-94 | for every live node, the sweep with the liveness pass gives the same gradient as the sweep that treats every node as live |
| Differentiation.BackpropEdge | src/cnn/cnn.cc:81-94 | visiting node `i` runs its edge's backward function once per live tail position and adds each result into that tail's `dEdf`. Values, names and `in_edge` stay unchanged |
| Differentiation.Backward | src/cnn/cnn.cc:63-96 | the last node's `dEdf` is the 1x1 matrix 1. Every node ends with the gradient of the reverse-order accumulation (`Acc`). A dead node other than the last keeps its pre-backward `dEdf`, which is zero after `Forward`. Values, edges, names and `in_edge` are untouched |
| SumLaw.EdgeContributions | src/cnn/cnn.cc:89-94 | one edge owes a node as many contributions as there are occurrences of the node among its tails, each shaped like the node's value |
| SumLaw.Contributions | src/cnn/cnn.cc:80-95 | a node receives exactly one contribution per occurrence among the tails of all later edges |
| SumLaw.PushIsSum | src/cnn/cnn.cc:89-94 | for a live node, the tail loop of one edge adds onto the slot exactly that edge's contributions to the node, one per occurrence, in tail order |
| SumLaw.GradientIsSumOfContributions | src/cnn/cnn.cc:80-95 | sum law: a live node other than the last ends with its starting slot plus every contribution owed to it. Each contribution comes from a consuming edge with a larger head index and uses that head's final gradient. A dead node keeps its starting slot |
| Example.ExampleForwardValues | src/cnn/cnn.cc:48-61 | in the three-node example, forward gives 3, 9 and 18 |
| Example.ExampleLiveness | src/cnn/cnn.cc:65-73 | in the example only the node produced by the parameter edge is live |
| Example.ExampleGradients | src/cnn/cnn.cc:63-95 | in the example, backward leaves gradient 1 at the output and zero at the two dead nodes |
| Example.ExampleGradientsWithoutLiveness | src/cnn/cnn.cc:80-95 | with every node live, the same sweep gives the chain-rule gradients 2 and 12 |

## Left out

- `PrintGraphviz` is left out because it only writes text to the error stream. It emits one labelled line per node and one arrow per (tail, edge) pair.
- The destructor and the manual `delete` calls are left out. They only free memory, and the sequence-based arena owns nothing that needs releasing.
- The concrete edge classes (`InputEdge`, `ParameterEdge`, `LookupEdge`, the operation edges) are given as the parameter `EdgeSemantics`. They live in `edges.h`, which is not part of this model. So do `add_function` and the other ways operation edges are appended.
- The `Node` constructor is in `cnn.h`, which is not part of this model. New nodes start with both slots holding the default 0x0 matrix.
- Matrix arithmetic uses exact reals, so floating-point rounding is not modelled.
- Parameter and lookup-table storage are modelled only as opaque handles.
- Node indices are unbounded `nat`s. The source's `unsigned` indices would wrap past 2^32 nodes, and the reverse sweep's signed counter `int i = nodes.size() - 1` (src/cnn/cnn.cc:80) already goes wrong past 2^31 - 1 nodes; neither limit is modelled.
- The implicit assumption that the last node's value is 1x1 is not checked by the source, so it is not a precondition here. Backward overwrites that node's slot with the 1x1 matrix 1 whatever its value's shape.
- Evaluation.Forward requires a well-formed, non-empty graph. An empty graph is undefined behaviour in the source (`nodes.back()`), and the tail order is never checked.
- Differentiation.Backward requires a well-formed, non-empty graph. It also requires gradient slots shaped like their values, which is what `Forward` leaves. It also requires edge backward functions that return contributions shaped like their tail. Eigen's `+=` on mismatched shapes is an assertion failure that is not modelled.
