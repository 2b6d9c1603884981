/**
 `case_set` of `tools/gen_wmltypes.py`: a walk over the search tree, with the interval
 of values each edge carries, reads a table from case value to body address.
 */
module CaseTable {
  import opened SearchTree
  import opened Words
  import opened Wrappers

  const LOWEST := -0x80000000
  const HIGHEST := 0x7FFFFFFF

  /** What the emitted `switch` does with `x`. */
  function Lookup(cases: map<int, Address>, epilogue: Address, x: int): Landing {
    if x in cases then Land(epilogue, cases[x]) else Default
  }

  function Max(a: int, b: int): int { if a > b then a else b }

  function Min(a: int, b: int): int { if a < b then a else b }

  /** The values that take the greater edge out of `n`, from those in lo..hi. */
  function GreaterFrom(n: Node, lo: int): int {
    var s := Signed(n.value);
    Max(lo, if n.equal.None? then s else s + 1)
  }

  function LessTo(n: Node, hi: int): int {
    Min(hi, Signed(n.value) - 1)
  }

  datatype Visit = Visit(at: Address, lo: int, hi: int) {
    predicate Holds(x: int) { lo <= x <= hi }

    function Greater(n: Node): Visit
      requires n.greater.Some?
    {
      Visit(n.greater.value, GreaterFrom(n, lo), hi)
    }

    function Less(n: Node): Visit
      requires n.less.Some?
    {
      Visit(n.less.value, lo, LessTo(n, hi))
    }
  }

  datatype Range = Range(lo: int, hi: int, body: Address)

  /** The bounds an interval can have: those of the type, and a node's value and its neighbours. */
  ghost function Bounds(graph: Graph): set<int> {
    {LOWEST, HIGHEST}
    + (set a | a in graph :: Signed(graph[a].value) - 1)
    + (set a | a in graph :: Signed(graph[a].value))
    + (set a | a in graph :: Signed(graph[a].value) + 1)
  }

  ghost function Universe(graph: Graph): set<Visit> {
    set a, lo, hi | a in graph && lo in Bounds(graph) && hi in Bounds(graph) :: Visit(a, lo, hi)
  }

  // ----- the reader -----

  /** What the reader has accumulated. */
  datatype State = State(cases: map<int, Address>, ambiguous: seq<Range>, seen: set<Visit>)

  /** `seen.add(...)` and the equality case. */
  ghost function Entered(graph: Graph, st: State, v: Visit): State
    requires v.at in graph
  {
    var n := graph[v.at];
    st.(seen := st.seen + {v},
        cases := if n.equal.Some? then st.cases[Signed(n.value) := n.equal.value] else st.cases)
  }

  /** The state after `visit(addr, lo, hi)`; it ends on any graph, since `seen` grows inside a finite universe. */
  ghost function Visited(graph: Graph, epilogue: Address, st: State, v: Visit): (r: State)
    requires v.lo in Bounds(graph) && v.hi in Bounds(graph) && st.seen <= Universe(graph)
    ensures st.seen <= r.seen <= Universe(graph)
    decreases Universe(graph) - st.seen, 0
  {
    if v.at !in graph || v in st.seen then st
    else
      var n := graph[v.at];
      var s0 := Entered(graph, st, v);
      var s1 := if n.greater.None? then s0
                else Taken(graph, epilogue, s0, v.Greater(n));
      if n.less.None? then s1 else Taken(graph, epilogue, s1, v.Less(n))
  }

  /** The state after one edge has been taken. */
  ghost function Taken(graph: Graph, epilogue: Address, st: State, v: Visit): (r: State)
    requires v.lo in Bounds(graph) && v.hi in Bounds(graph) && st.seen <= Universe(graph)
    ensures st.seen <= r.seen <= Universe(graph)
    decreases Universe(graph) - st.seen, 1
  {
    if v.at in graph then Visited(graph, epilogue, st, v)
    else if v.at == epilogue then st
    else if v.lo == v.hi then st.(cases := st.cases[v.lo := v.at])
    else st.(ambiguous := st.ambiguous + [Range(v.lo, v.hi, v.at)])
  }

  class Visitor {
    const graph: Graph
    const epilogue: Address
    var cases: map<int, Address>
    var ambiguous: seq<Range>
    var seen: set<Visit>

    constructor (graph: Graph, epilogue: Address)
      ensures this.graph == graph && this.epilogue == epilogue
      ensures Snapshot() == State(map[], [], {})
    {
      this.graph := graph;
      this.epilogue := epilogue;
      cases, ambiguous, seen := map[], [], {};
    }

    ghost function Snapshot(): State
      reads this
    {
      State(cases, ambiguous, seen)
    }

    /** `visit(addr, lo, hi)`. */
    method VisitNode(at: Address, lo: int, hi: int)
      requires lo in Bounds(graph) && hi in Bounds(graph) && seen <= Universe(graph)
      modifies this`cases, this`ambiguous, this`seen
      ensures Snapshot() == Visited(graph, epilogue, old(Snapshot()), Visit(at, lo, hi))
      decreases Universe(graph) - seen, 0
    {
      if at !in graph || Visit(at, lo, hi) in seen {
        return;
      }
      seen := seen + {Visit(at, lo, hi)};
      var n := graph[at];
      var s := Signed(n.value);
      if n.equal.Some? {
        cases := cases[s := n.equal.value];
      }
      if n.greater.Some? {
        TakeEdge(n.greater.value, GreaterFrom(n, lo), hi);
      }
      if n.less.Some? {
        TakeEdge(n.less.value, lo, LessTo(n, hi));
      }
    }

    method TakeEdge(to: Address, lo: int, hi: int)
      requires lo in Bounds(graph) && hi in Bounds(graph) && seen <= Universe(graph)
      modifies this`cases, this`ambiguous, this`seen
      ensures Snapshot() == Taken(graph, epilogue, old(Snapshot()), Visit(to, lo, hi))
      decreases Universe(graph) - seen, 1
    {
      if to in graph {
        VisitNode(to, lo, hi);
      } else if to != epilogue {
        if lo == hi {
          cases := cases[lo := to];
        } else {
          ambiguous := ambiguous + [Range(lo, hi, to)];
        }
      }
    }
  }

  /** The table `case_set` returns; None is its refusal. */
  ghost function Table(graph: Graph, epilogue: Address, root: Address): Option<map<int, Address>> {
    var st := Visited(graph, epilogue, State(map[], [], {}), Visit(root, LOWEST, HIGHEST));
    if st.ambiguous == [] then Some(st.cases) else None
  }

  method CaseSet(graph: Graph, epilogue: Address, root: Address) returns (r: Option<map<int, Address>>)
    ensures r == Table(graph, epilogue, root)
  {
    var visitor := new Visitor(graph, epilogue);
    visitor.VisitNode(root, LOWEST, HIGHEST);
    r := if visitor.ambiguous != [] then None else Some(visitor.cases);
  }

  // ----- what a visit writes -----

  /** Visiting `v` writes t for x, if it is not visited already. */
  ghost predicate Writes(graph: Graph, rank: Address -> nat, epilogue: Address, v: Visit, x: int, t: Address)
    requires Tree(graph, rank)
    decreases v.at in graph, rank(v.at)
  {
    if v.at !in graph then v.at != epilogue && v.lo == x == v.hi && t == v.at
    else
      var n := graph[v.at];
      assert Falls(graph, rank, v.at, n.greater) && Falls(graph, rank, v.at, n.less);
      || (n.Takes(x) && n.equal.value == t)
      || (n.greater.Some? && Writes(graph, rank, epilogue, v.Greater(n), x, t))
      || (n.less.Some? && Writes(graph, rank, epilogue, v.Less(n), x, t))
  }

  /** No body but the default hangs on an edge that does not carry exactly one value. */
  ghost predicate Readable(graph: Graph, rank: Address -> nat, epilogue: Address, v: Visit)
    requires Tree(graph, rank)
    decreases v.at in graph, rank(v.at)
  {
    if v.at !in graph then v.at == epilogue || v.lo == v.hi
    else
      var n := graph[v.at];
      assert Falls(graph, rank, v.at, n.greater) && Falls(graph, rank, v.at, n.less);
      && (n.greater.Some? ==> Readable(graph, rank, epilogue, v.Greater(n)))
      && (n.less.Some? ==> Readable(graph, rank, epilogue, v.Less(n)))
  }

  /** All that `v` would write is in the table, and what it would refuse has been refused. */
  ghost predicate Finished(graph: Graph, rank: Address -> nat, epilogue: Address, st: State, v: Visit)
    requires Tree(graph, rank)
  {
    && (forall x, t :: Writes(graph, rank, epilogue, v, x, t) ==> x in st.cases)
    && (st.ambiguous == [] ==> Readable(graph, rank, epilogue, v))
  }

  /** `v` is part of `w`. */
  ghost predicate PartOf(graph: Graph, rank: Address -> nat, epilogue: Address, v: Visit, w: Visit)
    requires Tree(graph, rank)
  {
    && (forall x, t :: Writes(graph, rank, epilogue, v, x, t) ==> Writes(graph, rank, epilogue, w, x, t))
    && (Readable(graph, rank, epilogue, w) ==> Readable(graph, rank, epilogue, v))
  }

  /**
   The state while `top` is visited: what has been written belongs to it, nothing is
   refused without reason, and the visits that are over are finished.
   */
  ghost predicate Within(graph: Graph, rank: Address -> nat, epilogue: Address, top: Visit,
                         st: State, open: set<Visit>)
    requires Tree(graph, rank)
  {
    && (forall x :: x in st.cases ==> Writes(graph, rank, epilogue, top, x, st.cases[x]))
    && (Readable(graph, rank, epilogue, top) ==> st.ambiguous == [])
    && (forall v :: v in st.seen && v !in open ==> Finished(graph, rank, epilogue, st, v))
  }

  /** The visits in progress lie above `a`. */
  ghost predicate Above(graph: Graph, rank: Address -> nat, open: set<Visit>, a: Address) {
    a in graph ==> forall v :: v in open ==> rank(v.at) > rank(a)
  }

  ghost predicate Grows(st: State, r: State) {
    st.cases.Keys <= r.cases.Keys && st.ambiguous <= r.ambiguous
  }

  lemma {:induction false} StillFinished(graph: Graph, rank: Address -> nat, epilogue: Address, st: State, r: State,
                                         v: Visit)
    requires Tree(graph, rank) && Grows(st, r) && Finished(graph, rank, epilogue, st, v)
    ensures Finished(graph, rank, epilogue, r, v)
  {
    forall x, t | Writes(graph, rank, epilogue, v, x, t)
      ensures x in r.cases
    {
      assert x in st.cases.Keys;
    }
  }

  lemma {:induction false} EdgesPartOf(graph: Graph, rank: Address -> nat, epilogue: Address, v: Visit, top: Visit)
    requires Tree(graph, rank) && v.at in graph && PartOf(graph, rank, epilogue, v, top)
    ensures var n := graph[v.at];
            && Falls(graph, rank, v.at, n.greater) && Falls(graph, rank, v.at, n.less)
            && (n.greater.Some? ==> PartOf(graph, rank, epilogue, v.Greater(n), top))
            && (n.less.Some? ==> PartOf(graph, rank, epilogue, v.Less(n), top))
            && (n.equal.Some? ==> Writes(graph, rank, epilogue, top, Signed(n.value), n.equal.value))
  {
    var n := graph[v.at];
    assert Falls(graph, rank, v.at, n.greater) && Falls(graph, rank, v.at, n.less);
    if n.equal.Some? { assert Writes(graph, rank, epilogue, v, Signed(n.value), n.equal.value); }
  }

  lemma {:induction false} EdgeBounds(graph: Graph, st: State, v: Visit)
    requires v.lo in Bounds(graph) && v.hi in Bounds(graph) && st.seen <= Universe(graph) && v.at in graph
    requires v !in st.seen
    ensures GreaterFrom(graph[v.at], v.lo) in Bounds(graph) && LessTo(graph[v.at], v.hi) in Bounds(graph)
    ensures Entered(graph, st, v).seen <= Universe(graph) && st.seen < Entered(graph, st, v).seen
  {
    assert v in Universe(graph);
  }

  lemma {:induction false} EnterWithin(graph: Graph, rank: Address -> nat, epilogue: Address, top: Visit,
                                       st: State, open: set<Visit>, v: Visit)
    requires Tree(graph, rank) && v.at in graph && Within(graph, rank, epilogue, top, st, open)
    requires var n := graph[v.at];
             n.equal.Some? ==> Writes(graph, rank, epilogue, top, Signed(n.value), n.equal.value)
    ensures var s0 := Entered(graph, st, v); Grows(st, s0) && Within(graph, rank, epilogue, top, s0, open + {v})
  {
    var s0 := Entered(graph, st, v);
    forall w | w in s0.seen && w !in open + {v}
      ensures Finished(graph, rank, epilogue, s0, w)
    {
      StillFinished(graph, rank, epilogue, st, s0, w);
    }
  }

  /** When both edges are done the visit is. */
  lemma {:induction false} Leave(graph: Graph, rank: Address -> nat, epilogue: Address, top: Visit,
                                 s1: State, s2: State, open: set<Visit>, v: Visit)
    requires Tree(graph, rank) && v.at in graph && Grows(s1, s2)
    requires Falls(graph, rank, v.at, graph[v.at].greater) && Falls(graph, rank, v.at, graph[v.at].less)
    requires var n := graph[v.at];
             && (n.equal.Some? ==> Signed(n.value) in s1.cases.Keys)
             && (n.greater.Some? ==> Finished(graph, rank, epilogue, s1, v.Greater(n)))
             && (n.less.Some? ==> Finished(graph, rank, epilogue, s2, v.Less(n)))
    requires Within(graph, rank, epilogue, top, s2, open + {v})
    ensures Within(graph, rank, epilogue, top, s2, open) && Finished(graph, rank, epilogue, s2, v)
  {
    var n := graph[v.at];
    if n.greater.Some? { StillFinished(graph, rank, epilogue, s1, s2, v.Greater(n)); }
    forall x, t | Writes(graph, rank, epilogue, v, x, t)
      ensures x in s2.cases
    {
      if n.greater.Some? && Writes(graph, rank, epilogue, v.Greater(n), x, t) {
      } else if n.less.Some? && Writes(graph, rank, epilogue, v.Less(n), x, t) {
      } else {
        assert n.Takes(x);
        assert x in s1.cases.Keys;
      }
    }
  }

  lemma {:induction false} Descend(graph: Graph, rank: Address -> nat, open: set<Visit>, v: Visit,
                                   edge: Option<Address>)
    requires v.at in graph && Falls(graph, rank, v.at, edge) && edge.Some? && Above(graph, rank, open, v.at)
    ensures Above(graph, rank, open + {v}, edge.value)
  {
  }

  /** Visiting does what it would write, and nothing else. */
  lemma {:induction false} VisitedWrites(graph: Graph, rank: Address -> nat, epilogue: Address, top: Visit,
                                         st: State, open: set<Visit>, v: Visit)
    requires v.lo in Bounds(graph) && v.hi in Bounds(graph) && st.seen <= Universe(graph)
    requires Tree(graph, rank) && PartOf(graph, rank, epilogue, v, top)
    requires Within(graph, rank, epilogue, top, st, open) && Above(graph, rank, open, v.at)
    ensures var r := Visited(graph, epilogue, st, v);
            && Grows(st, r) && Within(graph, rank, epilogue, top, r, open)
            && (v.at in graph ==> Finished(graph, rank, epilogue, r, v))
    decreases Universe(graph) - st.seen, 0
  {
    if v.at in graph && v !in st.seen {
      var n := graph[v.at];
      var s0 := Entered(graph, st, v);
      EdgesPartOf(graph, rank, epilogue, v, top);
      EdgeBounds(graph, st, v);
      EnterWithin(graph, rank, epilogue, top, st, open, v);
      var s1 := if n.greater.None? then s0 else Taken(graph, epilogue, s0, v.Greater(n));
      if n.greater.Some? {
        Descend(graph, rank, open, v, n.greater);
        TakenWrites(graph, rank, epilogue, top, s0, open + {v}, v.Greater(n));
      }
      var s2 := if n.less.None? then s1 else Taken(graph, epilogue, s1, v.Less(n));
      if n.less.Some? {
        Descend(graph, rank, open, v, n.less);
        TakenWrites(graph, rank, epilogue, top, s1, open + {v}, v.Less(n));
      }
      Leave(graph, rank, epilogue, top, s1, s2, open, v);
    } else if v.at in graph {
      assert v !in open;
    }
  }

  lemma {:induction false} TakenWrites(graph: Graph, rank: Address -> nat, epilogue: Address, top: Visit,
                                       st: State, open: set<Visit>, v: Visit)
    requires v.lo in Bounds(graph) && v.hi in Bounds(graph) && st.seen <= Universe(graph)
    requires Tree(graph, rank) && PartOf(graph, rank, epilogue, v, top)
    requires Within(graph, rank, epilogue, top, st, open) && Above(graph, rank, open, v.at)
    ensures var r := Taken(graph, epilogue, st, v);
            && Grows(st, r) && Within(graph, rank, epilogue, top, r, open)
            && Finished(graph, rank, epilogue, r, v)
    decreases Universe(graph) - st.seen, 1
  {
    if v.at in graph {
      VisitedWrites(graph, rank, epilogue, top, st, open, v);
    } else {
      LeafWrites(graph, rank, epilogue, top, st, open, v);
    }
  }

  lemma {:induction false} LeafWrites(graph: Graph, rank: Address -> nat, epilogue: Address, top: Visit,
                                      st: State, open: set<Visit>, v: Visit)
    requires v.lo in Bounds(graph) && v.hi in Bounds(graph) && st.seen <= Universe(graph)
    requires Tree(graph, rank) && PartOf(graph, rank, epilogue, v, top) && v.at !in graph
    requires Within(graph, rank, epilogue, top, st, open)
    ensures var r := Taken(graph, epilogue, st, v);
            && Grows(st, r) && Within(graph, rank, epilogue, top, r, open)
            && Finished(graph, rank, epilogue, r, v)
  {
    var r := Taken(graph, epilogue, st, v);
    if v.at != epilogue && v.lo == v.hi { assert Writes(graph, rank, epilogue, v, v.lo, v.at); }
    forall w | w in r.seen && w !in open
      ensures Finished(graph, rank, epilogue, r, w)
    {
      StillFinished(graph, rank, epilogue, st, r, w);
    }
  }

  /** The visit of the whole tree. */
  function Whole(root: Address): Visit {
    Visit(root, LOWEST, HIGHEST)
  }

  /** The value is written somewhere. */
  ghost predicate Written(graph: Graph, rank: Address -> nat, epilogue: Address, v: Visit, x: int)
    requires Tree(graph, rank)
  {
    exists t :: Writes(graph, rank, epilogue, v, x, t)
  }

  /** All values written, each with one of the bodies written for it. */
  ghost predicate IsTable(graph: Graph, rank: Address -> nat, epilogue: Address, root: Address, cases: map<int,
                          Address>)
    requires Tree(graph, rank)
  {
    forall x ::
      && (x in cases <==> Written(graph, rank, epilogue, Whole(root), x))
      && (x in cases ==> Writes(graph, rank, epilogue, Whole(root), x, cases[x]))
  }

  /** There is a table exactly when every edge can be read, and then it is what the visit writes. */
  lemma {:induction false} TableIs(graph: Graph, rank: Address -> nat, epilogue: Address, root: Address)
    requires Tree(graph, rank) && root in graph
    ensures Table(graph, epilogue, root).Some? <==> Readable(graph, rank, epilogue, Whole(root))
    ensures Table(graph, epilogue, root).Some? ==>
              IsTable(graph, rank, epilogue, root, Table(graph, epilogue, root).value)
  {
    VisitedWrites(graph, rank, epilogue, Whole(root), State(map[], [], {}), {}, Whole(root));
  }
}
