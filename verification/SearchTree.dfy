/**
 The search of `tools/gen_wmltypes.py`: comparisons of one value, as recovered from the
 image.  A node compares with its own number; an equal value goes to `equal` if the node
 has that branch, the others to `greater` or `less`.  A node without an equality branch
 splits on >= and <; a node with one edge sends every other value along it.
 */
module SearchTree {
  import opened Words
  import opened Wrappers

  type Address = int

  datatype Node = Node(value: Word, equal: Option<Address>, greater: Option<Address>, less: Option<Address>) {
    predicate Takes(x: int) {
      equal.Some? && x == Signed(value)
    }

    /** Where a value goes that is not taken as equal. */
    function Next(x: int): Option<Address> {
      if x >= Signed(value) then (if greater.Some? then greater else less)
      else (if less.Some? then less else greater)
    }
  }

  type Graph = map<Address, Node>

  /** Where control ends up: at a body, or at the epilogue, which stands for the default. */
  datatype Landing = Body(at: Address) | Default

  function Land(epilogue: Address, a: Address): Landing {
    if a == epilogue then Default else Body(a)
  }

  /** The edges go down, so the nodes form a tree, or share subtrees. */
  ghost predicate Tree(graph: Graph, rank: Address -> nat) {
    forall a :: a in graph ==> Falls(graph, rank, a, graph[a].greater) && Falls(graph, rank, a, graph[a].less)
  }

  predicate Falls(graph: Graph, rank: Address -> nat, a: Address, edge: Option<Address>) {
    edge.Some? && edge.value in graph ==> rank(edge.value) < rank(a)
  }

  /** Compare and branch from `a` until an address that is no comparison, or a comparison that goes nowhere. */
  ghost function Follow(graph: Graph, rank: Address -> nat, epilogue: Address, a: Address, x: int): Landing
    requires Tree(graph, rank)
    decreases a in graph, rank(a)
  {
    if a !in graph then Land(epilogue, a)
    else
      var n := graph[a];
      assert Falls(graph, rank, a, n.greater) && Falls(graph, rank, a, n.less);
      if n.Takes(x) then Land(epilogue, n.equal.value)
      else if n.Next(x).None? then Body(a)
      else Follow(graph, rank, epilogue, n.Next(x).value, x)
  }

  /** The search from `a` on x comes to `b`. */
  ghost predicate Passes(graph: Graph, rank: Address -> nat, a: Address, x: int, b: Address)
    requires Tree(graph, rank)
    decreases a in graph, rank(a)
  {
    || a == b
    || (a in graph && !graph[a].Takes(x) && graph[a].Next(x).Some?
        && (assert Falls(graph, rank, a, graph[a].greater) && Falls(graph, rank, a, graph[a].less);
            Passes(graph, rank, graph[a].Next(x).value, x, b)))
  }

  /** Whatever the search passes, it ends as it would from there. */
  lemma {:induction false} PassesEndsAlike(graph: Graph, rank: Address -> nat, epilogue: Address, a: Address, x: int,
                                           b: Address)
    requires Tree(graph, rank) && Passes(graph, rank, a, x, b)
    ensures Follow(graph, rank, epilogue, a, x) == Follow(graph, rank, epilogue, b, x)
    decreases a in graph, rank(a)
  {
    if a != b {
      assert Falls(graph, rank, a, graph[a].greater) && Falls(graph, rank, a, graph[a].less);
      PassesEndsAlike(graph, rank, epilogue, graph[a].Next(x).value, x, b);
    }
  }

  lemma {:induction false} PassesOn(graph: Graph, rank: Address -> nat, a: Address, x: int, b: Address)
    requires Tree(graph, rank) && Passes(graph, rank, a, x, b)
    requires b in graph && !graph[b].Takes(x) && graph[b].Next(x).Some?
    ensures Passes(graph, rank, a, x, graph[b].Next(x).value)
    decreases a in graph, rank(a)
  {
    assert Falls(graph, rank, a, graph[a].greater) && Falls(graph, rank, a, graph[a].less);
    if a != b { PassesOn(graph, rank, graph[a].Next(x).value, x, b); }
  }
}
