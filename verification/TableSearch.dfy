/** When the table of `CaseTable` is the search it was read from. */
module TableSearch {
  import opened CaseTable
  import opened SearchTree
  import opened Words
  import opened Wrappers

  // ----- what the table depends on -----

  /** The search comes to this test with the value it tests for, or ends in the test's body without it. */
  ghost predicate HonestTest(graph: Graph, rank: Address -> nat, epilogue: Address, root: Address, a: Address)
    requires Tree(graph, rank) && a in graph && graph[a].equal.Some?
  {
    var s := Signed(graph[a].value);
    Passes(graph, rank, root, s, a) || Follow(graph, rank, epilogue, root, s) == Land(epilogue, graph[a].equal.value)
  }

  ghost predicate TestsHonest(graph: Graph, rank: Address -> nat, epilogue: Address, root: Address, v: Visit)
    requires Tree(graph, rank)
    decreases v.at in graph, rank(v.at)
  {
    v.at in graph ==>
      var n := graph[v.at];
      assert Falls(graph, rank, v.at, n.greater) && Falls(graph, rank, v.at, n.less);
      && (n.equal.Some? ==> HonestTest(graph, rank, epilogue, root, v.at))
      && (n.greater.Some? ==> TestsHonest(graph, rank, epilogue, root, v.Greater(n)))
      && (n.less.Some? ==> TestsHonest(graph, rank, epilogue, root, v.Less(n)))
  }

  /** The value has no edge of its own at the node. */
  predicate Missing(n: Node, x: int) {
    !n.Takes(x) && if x >= Signed(n.value) then n.greater.None? else n.less.None?
  }

  /** The values that arrive and have no edge of their own end in the default, or are written elsewhere. */
  ghost predicate MissingAtNode(graph: Graph, rank: Address -> nat, epilogue: Address, root: Address, v: Visit)
    requires Tree(graph, rank) && v.at in graph
  {
    forall x :: v.Holds(x) && Missing(graph[v.at], x) ==>
      Follow(graph, rank, epilogue, v.at, x).Default? || Written(graph, rank, epilogue, Whole(root), x)
  }

  ghost predicate MissingCovered(graph: Graph, rank: Address -> nat, epilogue: Address, root: Address, v: Visit)
    requires Tree(graph, rank)
    decreases v.at in graph, rank(v.at)
  {
    v.at in graph ==>
      var n := graph[v.at];
      assert Falls(graph, rank, v.at, n.greater) && Falls(graph, rank, v.at, n.less);
      && MissingAtNode(graph, rank, epilogue, root, v)
      && (n.greater.Some? ==> MissingCovered(graph, rank, epilogue, root, v.Greater(n)))
      && (n.less.Some? ==> MissingCovered(graph, rank, epilogue, root, v.Less(n)))
  }

  /** The values of the interval do come here. */
  ghost predicate Arrive(graph: Graph, rank: Address -> nat, root: Address, v: Visit)
    requires Tree(graph, rank)
  {
    && LOWEST <= v.lo && v.hi <= HIGHEST
    && forall x :: v.Holds(x) ==> Passes(graph, rank, root, x, v.at)
  }

  lemma {:induction false} EdgesArrive(graph: Graph, rank: Address -> nat, root: Address, v: Visit)
    requires Tree(graph, rank) && v.at in graph && Arrive(graph, rank, root, v)
    ensures var n := graph[v.at];
            && Falls(graph, rank, v.at, n.greater) && Falls(graph, rank, v.at, n.less)
            && (n.greater.Some? ==> Arrive(graph, rank, root, v.Greater(n)))
            && (n.less.Some? ==> Arrive(graph, rank, root, v.Less(n)))
  {
    var n := graph[v.at];
    if n.greater.Some? {
      forall x | v.Greater(n).Holds(x)
        ensures Passes(graph, rank, root, x, n.greater.value)
      {
        assert v.Holds(x) && !n.Takes(x) && n.Next(x) == n.greater;
        PassesOn(graph, rank, root, x, v.at);
      }
    }
    if n.less.Some? {
      forall x | v.Less(n).Holds(x)
        ensures Passes(graph, rank, root, x, n.less.value)
      {
        assert v.Holds(x) && !n.Takes(x) && n.Next(x) == n.less;
        PassesOn(graph, rank, root, x, v.at);
      }
    }
  }

  // ----- what is written -----

  /** With honest tests, whatever is written for a value is where the search of it ends. */
  lemma {:induction false} WritesHonest(graph: Graph, rank: Address -> nat, epilogue: Address, root: Address, v: Visit,
                                        x: int, t: Address)
    requires Tree(graph, rank) && Arrive(graph, rank, root, v) && TestsHonest(graph, rank, epilogue, root, v)
    requires Writes(graph, rank, epilogue, v, x, t)
    ensures Follow(graph, rank, epilogue, root, x) == Land(epilogue, t)
    decreases v.at in graph, rank(v.at)
  {
    if v.at !in graph {
      assert v.Holds(x);
      PassesEndsAlike(graph, rank, epilogue, root, x, v.at);
    } else {
      var n := graph[v.at];
      EdgesArrive(graph, rank, root, v);
      if n.greater.Some? && Writes(graph, rank, epilogue, v.Greater(n), x, t) {
        WritesHonest(graph, rank, epilogue, root, v.Greater(n), x, t);
      } else if n.less.Some? && Writes(graph, rank, epilogue, v.Less(n), x, t) {
        WritesHonest(graph, rank, epilogue, root, v.Less(n), x, t);
      } else if Passes(graph, rank, root, x, v.at) {
        PassesEndsAlike(graph, rank, epilogue, root, x, v.at);
      }
    }
  }

  /** And only with honest tests. */
  lemma {:induction false} HonestNeeded(graph: Graph, rank: Address -> nat, epilogue: Address, root: Address, v: Visit)
    requires Tree(graph, rank)
    requires forall x, t :: Writes(graph, rank, epilogue, v, x, t) ==>
               Follow(graph, rank, epilogue, root, x) == Land(epilogue, t)
    ensures TestsHonest(graph, rank, epilogue, root, v)
    decreases v.at in graph, rank(v.at)
  {
    if v.at in graph {
      var n := graph[v.at];
      assert Falls(graph, rank, v.at, n.greater) && Falls(graph, rank, v.at, n.less);
      if n.equal.Some? { assert Writes(graph, rank, epilogue, v, Signed(n.value), n.equal.value); }
      if n.greater.Some? { HonestNeeded(graph, rank, epilogue, root, v.Greater(n)); }
      if n.less.Some? { HonestNeeded(graph, rank, epilogue, root, v.Less(n)); }
    }
  }

  // ----- what is not written -----

  /** A value that is written nowhere ends in the default, if the missing sides are covered. */
  lemma {:induction false} UnwrittenDefault(graph: Graph, rank: Address -> nat, epilogue: Address, root: Address,
                                            v: Visit, x: int)
    requires Tree(graph, rank) && PartOf(graph, rank, epilogue, v, Whole(root))
    requires Readable(graph, rank, epilogue, v) && MissingCovered(graph, rank, epilogue, root, v)
    requires v.Holds(x) && !Written(graph, rank, epilogue, Whole(root), x)
    ensures Follow(graph, rank, epilogue, v.at, x) == Default
    decreases v.at in graph, rank(v.at)
  {
    if v.at !in graph {
      assert Writes(graph, rank, epilogue, v, x, v.at) || v.at == epilogue;
    } else {
      var n := graph[v.at];
      EdgesPartOf(graph, rank, epilogue, v, Whole(root));
      if Missing(n, x) {
        assert MissingAtNode(graph, rank, epilogue, root, v);
      } else {
        NotTaken(graph, rank, epilogue, root, v, x);
        if x >= Signed(n.value) {
          UnwrittenDefault(graph, rank, epilogue, root, v.Greater(n), x);
        } else {
          UnwrittenDefault(graph, rank, epilogue, root, v.Less(n), x);
        }
      }
    }
  }

  lemma {:induction false} NotTaken(graph: Graph, rank: Address -> nat, epilogue: Address, root: Address, v: Visit,
                                    x: int)
    requires Tree(graph, rank) && PartOf(graph, rank, epilogue, v, Whole(root)) && v.at in graph
    requires !Written(graph, rank, epilogue, Whole(root), x)
    ensures !graph[v.at].Takes(x)
  {
    if graph[v.at].Takes(x) {
      EdgesPartOf(graph, rank, epilogue, v, Whole(root));
    }
  }

  /** And only then. */
  lemma {:induction false} CoverNeeded(graph: Graph, rank: Address -> nat, epilogue: Address, root: Address, v: Visit)
    requires Tree(graph, rank) && Arrive(graph, rank, root, v)
    requires forall x :: LOWEST <= x <= HIGHEST && !Written(graph, rank, epilogue, Whole(root), x) ==>
               Follow(graph, rank, epilogue, root, x) == Default
    ensures MissingCovered(graph, rank, epilogue, root, v)
    decreases v.at in graph, rank(v.at)
  {
    if v.at in graph {
      var n := graph[v.at];
      EdgesArrive(graph, rank, root, v);
      forall x | v.Holds(x) && Missing(n, x) && !Written(graph, rank, epilogue, Whole(root), x)
        ensures Follow(graph, rank, epilogue, v.at, x).Default?
      {
        PassesEndsAlike(graph, rank, epilogue, root, x, v.at);
      }
      if n.greater.Some? { CoverNeeded(graph, rank, epilogue, root, v.Greater(n)); }
      if n.less.Some? { CoverNeeded(graph, rank, epilogue, root, v.Less(n)); }
    }
  }

  // ----- the table and the search -----

  ghost predicate Agrees(graph: Graph, rank: Address -> nat, epilogue: Address, root: Address, cases: map<int, Address>)
    requires Tree(graph, rank)
  {
    forall x :: LOWEST <= x <= HIGHEST ==> Lookup(cases, epilogue, x) == Follow(graph, rank, epilogue, root, x)
  }

  /** No value is written for two different ends, one of which the table loses. */
  ghost predicate OneAnswer(graph: Graph, rank: Address -> nat, epilogue: Address, root: Address)
    requires Tree(graph, rank)
  {
    forall x, t, u ::
      Writes(graph, rank, epilogue, Whole(root), x, t) && Writes(graph, rank, epilogue, Whole(root), x, u) ==>
        Land(epilogue, t) == Land(epilogue, u)
  }

  lemma {:induction false} WholeArrives(graph: Graph, rank: Address -> nat, root: Address)
    requires Tree(graph, rank)
    ensures Arrive(graph, rank, root, Whole(root))
  {
  }

  lemma {:induction false} WrittenInRange(graph: Graph, rank: Address -> nat, epilogue: Address, v: Visit, x: int,
                                          t: Address)
    requires Tree(graph, rank) && Writes(graph, rank, epilogue, v, x, t) && LOWEST <= v.lo && v.hi <= HIGHEST
    ensures LOWEST <= x <= HIGHEST
    decreases v.at in graph, rank(v.at)
  {
    if v.at in graph {
      var n := graph[v.at];
      assert Falls(graph, rank, v.at, n.greater) && Falls(graph, rank, v.at, n.less);
      if n.greater.Some? && Writes(graph, rank, epilogue, v.Greater(n), x, t) {
        WrittenInRange(graph, rank, epilogue, v.Greater(n), x, t);
      } else if n.less.Some? && Writes(graph, rank, epilogue, v.Less(n), x, t) {
        WrittenInRange(graph, rank, epilogue, v.Less(n), x, t);
      }
    }
  }

  /**
   If a table is returned: looking up is searching, for every value, and no value was written for two
   ends, exactly when the tests are honest and the missing sides covered.
   */
  lemma {:induction false} TableIsSearch(graph: Graph, rank: Address -> nat, epilogue: Address, root: Address)
    requires Tree(graph, rank) && root in graph
    ensures Table(graph, epilogue, root).Some? <==> Readable(graph, rank, epilogue, Whole(root))
    ensures Table(graph, epilogue, root).Some? ==>
              (Agrees(graph, rank, epilogue, root, Table(graph, epilogue, root).value)
               && OneAnswer(graph, rank, epilogue, root)
               <==> TestsHonest(graph, rank, epilogue, root, Whole(root))
                    && MissingCovered(graph, rank, epilogue, root, Whole(root)))
  {
    TableIs(graph, rank, epilogue, root);
    if Table(graph, epilogue, root).Some? {
      var cases := Table(graph, epilogue, root).value;
      if TestsHonest(graph, rank, epilogue, root, Whole(root))
         && MissingCovered(graph, rank, epilogue, root, Whole(root)) {
        SearchIsTable(graph, rank, epilogue, root, cases);
      }
      if Agrees(graph, rank, epilogue, root, cases) && OneAnswer(graph, rank, epilogue, root) {
        ConditionsNeeded(graph, rank, epilogue, root, cases);
      }
    }
  }

  lemma {:induction false} SearchIsTable(graph: Graph, rank: Address -> nat, epilogue: Address, root: Address,
                                         cases: map<int, Address>)
    requires Tree(graph, rank) && Readable(graph, rank, epilogue, Whole(root))
    requires IsTable(graph, rank, epilogue, root, cases)
    requires TestsHonest(graph, rank, epilogue, root, Whole(root))
    requires MissingCovered(graph, rank, epilogue, root, Whole(root))
    ensures Agrees(graph, rank, epilogue, root, cases) && OneAnswer(graph, rank, epilogue, root)
  {
    WholeArrives(graph, rank, root);
    forall x | LOWEST <= x <= HIGHEST
      ensures Lookup(cases, epilogue, x) == Follow(graph, rank, epilogue, root, x)
    {
      if x in cases {
        WritesHonest(graph, rank, epilogue, root, Whole(root), x, cases[x]);
      } else {
        UnwrittenDefault(graph, rank, epilogue, root, Whole(root), x);
      }
    }
    HonestIsOneAnswer(graph, rank, epilogue, root);
  }

  lemma {:induction false} HonestIsOneAnswer(graph: Graph, rank: Address -> nat, epilogue: Address, root: Address)
    requires Tree(graph, rank) && TestsHonest(graph, rank, epilogue, root, Whole(root))
    ensures OneAnswer(graph, rank, epilogue, root)
  {
    WholeArrives(graph, rank, root);
    forall x, t, u | Writes(graph, rank, epilogue, Whole(root), x, t)
                     && Writes(graph, rank, epilogue, Whole(root), x, u)
      ensures Land(epilogue, t) == Land(epilogue, u)
    {
      WritesHonest(graph, rank, epilogue, root, Whole(root), x, t);
      WritesHonest(graph, rank, epilogue, root, Whole(root), x, u);
    }
  }

  lemma {:induction false} ConditionsNeeded(graph: Graph, rank: Address -> nat, epilogue: Address, root: Address,
                                            cases: map<int, Address>)
    requires Tree(graph, rank) && Readable(graph, rank, epilogue, Whole(root))
    requires IsTable(graph, rank, epilogue, root, cases)
    requires Agrees(graph, rank, epilogue, root, cases) && OneAnswer(graph, rank, epilogue, root)
    ensures TestsHonest(graph, rank, epilogue, root, Whole(root))
    ensures MissingCovered(graph, rank, epilogue, root, Whole(root))
  {
    WholeArrives(graph, rank, root);
    forall x, t | Writes(graph, rank, epilogue, Whole(root), x, t)
      ensures Follow(graph, rank, epilogue, root, x) == Land(epilogue, t)
    {
      WrittenInRange(graph, rank, epilogue, Whole(root), x, t);
      assert Written(graph, rank, epilogue, Whole(root), x);
      assert Lookup(cases, epilogue, x) == Land(epilogue, cases[x]) == Land(epilogue, t);
    }
    HonestNeeded(graph, rank, epilogue, root, Whole(root));
    forall x | LOWEST <= x <= HIGHEST && !Written(graph, rank, epilogue, Whole(root), x)
      ensures Follow(graph, rank, epilogue, root, x) == Default
    {
      assert x !in cases && Lookup(cases, epilogue, x) == Default;
    }
    CoverNeeded(graph, rank, epilogue, root, Whole(root));
  }

  // ----- trees without stray tests -----

  /** Every test stands where its value arrives. */
  ghost predicate WellPlaced(graph: Graph, rank: Address -> nat, v: Visit)
    requires Tree(graph, rank)
    decreases v.at in graph, rank(v.at)
  {
    v.at in graph ==>
      var n := graph[v.at];
      assert Falls(graph, rank, v.at, n.greater) && Falls(graph, rank, v.at, n.less);
      && (n.equal.Some? ==> v.Holds(Signed(n.value)))
      && (n.greater.Some? ==> WellPlaced(graph, rank, v.Greater(n)))
      && (n.less.Some? ==> WellPlaced(graph, rank, v.Less(n)))
  }

  /** At every node the values that arrive and have no edge of their own are none, or end in the default. */
  ghost predicate MissingDefault(graph: Graph, rank: Address -> nat, epilogue: Address, v: Visit)
    requires Tree(graph, rank)
    decreases v.at in graph, rank(v.at)
  {
    v.at in graph ==>
      var n := graph[v.at];
      assert Falls(graph, rank, v.at, n.greater) && Falls(graph, rank, v.at, n.less);
      && (forall x :: v.Holds(x) && Missing(n, x) ==> Follow(graph, rank, epilogue, v.at, x).Default?)
      && (n.greater.Some? ==> MissingDefault(graph, rank, epilogue, v.Greater(n)))
      && (n.less.Some? ==> MissingDefault(graph, rank, epilogue, v.Less(n)))
  }

  lemma {:induction false} WellPlacedIsHonest(graph: Graph, rank: Address -> nat, epilogue: Address, root: Address,
                                              v: Visit)
    requires Tree(graph, rank) && WellPlaced(graph, rank, v) && Arrive(graph, rank, root, v)
    ensures TestsHonest(graph, rank, epilogue, root, v)
    decreases v.at in graph, rank(v.at)
  {
    if v.at in graph {
      var n := graph[v.at];
      EdgesArrive(graph, rank, root, v);
      if n.greater.Some? { WellPlacedIsHonest(graph, rank, epilogue, root, v.Greater(n)); }
      if n.less.Some? { WellPlacedIsHonest(graph, rank, epilogue, root, v.Less(n)); }
    }
  }

  lemma {:induction false} WritesHere(graph: Graph, rank: Address -> nat, epilogue: Address, v: Visit, x: int,
                                      t: Address)
    requires Tree(graph, rank) && WellPlaced(graph, rank, v) && Writes(graph, rank, epilogue, v, x, t)
    ensures v.Holds(x)
    decreases v.at in graph, rank(v.at)
  {
    if v.at in graph {
      var n := graph[v.at];
      assert Falls(graph, rank, v.at, n.greater) && Falls(graph, rank, v.at, n.less);
      if n.greater.Some? && Writes(graph, rank, epilogue, v.Greater(n), x, t) {
        WritesHere(graph, rank, epilogue, v.Greater(n), x, t);
      } else if n.less.Some? && Writes(graph, rank, epilogue, v.Less(n), x, t) {
        WritesHere(graph, rank, epilogue, v.Less(n), x, t);
      }
    }
  }

  /** What is written for a value of the interval is written below. */
  ghost predicate OnlyHere(graph: Graph, rank: Address -> nat, epilogue: Address, root: Address, v: Visit)
    requires Tree(graph, rank)
  {
    forall x :: v.Holds(x) && Written(graph, rank, epilogue, Whole(root), x) ==> Written(graph, rank, epilogue, v, x)
  }

  /** A value of one side is not written on the other, nor by the test; one without an edge is not written at all. */
  lemma {:induction false} WrittenBelow(graph: Graph, rank: Address -> nat, epilogue: Address, v: Visit, x: int)
    requires Tree(graph, rank) && WellPlaced(graph, rank, v) && v.at in graph && Written(graph, rank, epilogue, v, x)
    requires v.Holds(x) && !graph[v.at].Takes(x)
    ensures var n := graph[v.at];
            && !Missing(n, x) && Falls(graph, rank, v.at, n.greater) && Falls(graph, rank, v.at, n.less)
            && (x >= Signed(n.value) ==> Written(graph, rank, epilogue, v.Greater(n), x))
            && (x < Signed(n.value) ==> Written(graph, rank, epilogue, v.Less(n), x))
  {
    var n := graph[v.at];
    assert Falls(graph, rank, v.at, n.greater) && Falls(graph, rank, v.at, n.less);
    var t :| Writes(graph, rank, epilogue, v, x, t);
    if n.greater.Some? && Writes(graph, rank, epilogue, v.Greater(n), x, t) {
      WritesHere(graph, rank, epilogue, v.Greater(n), x, t);
    } else if n.less.Some? && Writes(graph, rank, epilogue, v.Less(n), x, t) {
      WritesHere(graph, rank, epilogue, v.Less(n), x, t);
    }
  }

  lemma {:induction false} EdgesOnlyHere(graph: Graph, rank: Address -> nat, epilogue: Address, root: Address, v: Visit)
    requires Tree(graph, rank) && WellPlaced(graph, rank, v) && v.at in graph
    requires OnlyHere(graph, rank, epilogue, root, v)
    ensures var n := graph[v.at];
            && (n.greater.Some? ==> OnlyHere(graph, rank, epilogue, root, v.Greater(n)))
            && (n.less.Some? ==> OnlyHere(graph, rank, epilogue, root, v.Less(n)))
  {
    var n := graph[v.at];
    if n.greater.Some? {
      forall x | v.Greater(n).Holds(x) && Written(graph, rank, epilogue, Whole(root), x)
        ensures Written(graph, rank, epilogue, v.Greater(n), x)
      {
        WrittenBelow(graph, rank, epilogue, v, x);
      }
    }
    if n.less.Some? {
      forall x | v.Less(n).Holds(x) && Written(graph, rank, epilogue, Whole(root), x)
        ensures Written(graph, rank, epilogue, v.Less(n), x)
      {
        WrittenBelow(graph, rank, epilogue, v, x);
      }
    }
  }

  lemma {:induction false} MissingIs(graph: Graph, rank: Address -> nat, epilogue: Address, root: Address, v: Visit)
    requires Tree(graph, rank) && WellPlaced(graph, rank, v) && OnlyHere(graph, rank, epilogue, root, v)
    ensures MissingCovered(graph, rank, epilogue, root, v) <==> MissingDefault(graph, rank, epilogue, v)
    decreases v.at in graph, rank(v.at)
  {
    if v.at in graph {
      var n := graph[v.at];
      assert Falls(graph, rank, v.at, n.greater) && Falls(graph, rank, v.at, n.less);
      EdgesOnlyHere(graph, rank, epilogue, root, v);
      if n.greater.Some? { MissingIs(graph, rank, epilogue, root, v.Greater(n)); }
      if n.less.Some? { MissingIs(graph, rank, epilogue, root, v.Less(n)); }
      forall x | v.Holds(x) && Missing(n, x)
        ensures !Written(graph, rank, epilogue, Whole(root), x)
      {
        if Written(graph, rank, epilogue, Whole(root), x) { WrittenBelow(graph, rank, epilogue, v, x); }
      }
    }
  }

  /** Without stray tests the table is the search exactly when missing sides lead nowhere but to the default. */
  lemma {:induction false} WellPlacedExactly(graph: Graph, rank: Address -> nat, epilogue: Address, root: Address)
    requires Tree(graph, rank) && root in graph && WellPlaced(graph, rank, Whole(root))
    ensures Table(graph, epilogue, root).Some? ==>
              (Agrees(graph, rank, epilogue, root, Table(graph, epilogue, root).value)
               <==> MissingDefault(graph, rank, epilogue, Whole(root)))
  {
    WholeArrives(graph, rank, root);
    WellPlacedIsHonest(graph, rank, epilogue, root, Whole(root));
    HonestIsOneAnswer(graph, rank, epilogue, root);
    MissingIs(graph, rank, epilogue, root, Whole(root));
    TableIsSearch(graph, rank, epilogue, root);
  }

  lemma {:induction false} WellPlacedConditions(graph: Graph, rank: Address -> nat, epilogue: Address, root: Address)
    requires Tree(graph, rank) && root in graph && WellPlaced(graph, rank, Whole(root))
    requires MissingDefault(graph, rank, epilogue, Whole(root))
    ensures TestsHonest(graph, rank, epilogue, root, Whole(root))
    ensures MissingCovered(graph, rank, epilogue, root, Whole(root))
  {
    WholeArrives(graph, rank, root);
    WellPlacedIsHonest(graph, rank, epilogue, root, Whole(root));
    MissingIs(graph, rank, epilogue, root, Whole(root));
  }

  ghost predicate BothEdges(graph: Graph) {
    forall a :: a in graph ==> graph[a].greater.Some? && graph[a].less.Some?
  }

  lemma {:induction false} NothingMissing(graph: Graph, rank: Address -> nat, epilogue: Address, v: Visit)
    requires Tree(graph, rank) && BothEdges(graph)
    ensures MissingDefault(graph, rank, epilogue, v)
    decreases v.at in graph, rank(v.at)
  {
    if v.at in graph {
      var n := graph[v.at];
      assert Falls(graph, rank, v.at, n.greater) && Falls(graph, rank, v.at, n.less);
      NothingMissing(graph, rank, epilogue, v.Greater(n));
      NothingMissing(graph, rank, epilogue, v.Less(n));
    }
  }

  /** And when every node has both edges, always. */
  lemma {:induction false} BothEdgesSuffice(graph: Graph, rank: Address -> nat, epilogue: Address, root: Address)
    requires Tree(graph, rank) && root in graph && WellPlaced(graph, rank, Whole(root)) && BothEdges(graph)
    ensures Table(graph, epilogue, root).Some? ==>
              Agrees(graph, rank, epilogue, root, Table(graph, epilogue, root).value)
  {
    NothingMissing(graph, rank, epilogue, Whole(root));
    WellPlacedExactly(graph, rank, epilogue, root);
  }

  // ----- where they part -----

  /** A test of 5 below the values greater than 10: no value 5 ever gets there. */
  const Stray: Graph := map[0 := Node(10, Some(100), Some(1), Some(9)), 1 := Node(5, Some(200), Some(9), Some(9))]

  /** A node under the values greater than 10 that sends whatever is not 12 to one body. */
  const HalfOpen: Graph := map[0 := Node(10, Some(100), Some(1), Some(9)), 1 := Node(12, Some(101), None, Some(200))]

  /** A test of 3 where 3 never comes, and later the one where it does. */
  const Twice: Graph := map[0 := Node(5, None, Some(1), Some(2)), 1 := Node(3, Some(200), Some(9), Some(9)),
                            2 := Node(3, Some(100), Some(9), Some(9))]

  function RootFirst(a: Address): nat { if a == 0 then 1 else 0 }

  /** The reader does not check where a test stands: it records 5 for a body the search never runs on 5. */
  lemma {:induction false} StrayTestIsRecorded()
    ensures Tree(Stray, RootFirst) && BothEdges(Stray) && !HonestTest(Stray, RootFirst, 9, 0, 1)
    ensures Follow(Stray, RootFirst, 9, 0, 5) == Default
    ensures Table(Stray, 9, 0) == Some(map[10 := 100, 5 := 200])
  {
    StrayTable();
    StrayMissed();
  }

  /** The search for 5 goes past the test of 5. */
  lemma {:induction false} StrayMissed()
    ensures Tree(Stray, RootFirst)
    ensures !Passes(Stray, RootFirst, 0, 5, 1) && Follow(Stray, RootFirst, 9, 0, 5) == Default
  {
    var n := Stray[0];
    assert !n.Takes(5) && n.Next(5) == Some(9) && 9 !in Stray;
    assert !Passes(Stray, RootFirst, 9, 5, 1);
    assert Follow(Stray, RootFirst, 9, 9, 5) == Default;
  }

  lemma {:induction false} StrayTable()
    ensures Table(Stray, 9, 0) == Some(map[10 := 100, 5 := 200])
  {
    var st, v0, v1 := State(map[], [], {}), Visit(0, LOWEST, HIGHEST), Visit(1, 11, HIGHEST);
    var s0, s1 := State(map[10 := 100], [], {v0}), State(map[10 := 100, 5 := 200], [], {v0, v1});
    assert Entered(Stray, st, v0) == s0;
    assert v0.Greater(Stray[0]) == v1 && v0.Less(Stray[0]) == Visit(9, LOWEST, 9);
    assert Visited(Stray, 9, s0, v1) == s1;
    assert Taken(Stray, 9, s0, v1) == s1;
    assert Taken(Stray, 9, s1, Visit(9, LOWEST, 9)) == s1;
    assert Visited(Stray, 9, st, v0) == s1;
  }

  /** The side that is not there is not looked at: 13 goes to the body of 11, and the table calls it default. */
  lemma {:induction false} MissingSideIsLost()
    ensures Tree(HalfOpen, RootFirst) && WellPlaced(HalfOpen, RootFirst, Whole(0))
    ensures Follow(HalfOpen, RootFirst, 9, 0, 13) == Body(200)
    ensures Table(HalfOpen, 9, 0) == Some(map[10 := 100, 12 := 101, 11 := 200])
  {
    var v0, v1 := Whole(0), Visit(1, 11, HIGHEST);
    assert v0.Greater(HalfOpen[0]) == v1 && v0.Less(HalfOpen[0]) == Visit(9, LOWEST, 9);
    assert v1.Less(HalfOpen[1]) == Visit(200, 11, 11);
    assert WellPlaced(HalfOpen, RootFirst, v1);
    assert Follow(HalfOpen, RootFirst, 9, 1, 13) == Follow(HalfOpen, RootFirst, 9, 200, 13);
    HalfOpenTable();
  }

  lemma {:induction false} HalfOpenTable()
    ensures Table(HalfOpen, 9, 0) == Some(map[10 := 100, 12 := 101, 11 := 200])
  {
    var st, v0, v1 := State(map[], [], {}), Visit(0, LOWEST, HIGHEST), Visit(1, 11, HIGHEST);
    var s0, s2 := State(map[10 := 100], [], {v0}), State(map[10 := 100, 12 := 101, 11 := 200], [], {v0, v1});
    assert Entered(HalfOpen, st, v0) == s0;
    assert v0.Greater(HalfOpen[0]) == v1 && v0.Less(HalfOpen[0]) == Visit(9, LOWEST, 9);
    HalfOpenRight(s0, v1);
    assert Taken(HalfOpen, 9, s0, v1) == s2;
    assert Taken(HalfOpen, 9, s2, Visit(9, LOWEST, 9)) == s2;
    assert Visited(HalfOpen, 9, st, v0) == s2;
  }

  lemma {:induction false} HalfOpenRight(s0: State, v1: Visit)
    requires v1 == Visit(1, 11, HIGHEST) && s0 == State(map[10 := 100], [], {Visit(0, LOWEST, HIGHEST)})
    ensures {11, HIGHEST} <= Bounds(HalfOpen) && s0.seen <= Universe(HalfOpen)
    ensures Visited(HalfOpen, 9, s0, v1) == State(map[10 := 100, 12 := 101, 11 := 200], [], s0.seen + {v1})
  {
    var s1 := State(map[10 := 100, 12 := 101], [], s0.seen + {v1});
    assert Signed(HalfOpen[0].value) + 1 == 11;
    assert v1.Less(HalfOpen[1]) == Visit(200, 11, 11);
    assert Entered(HalfOpen, s0, v1) == s1;
    assert Taken(HalfOpen, 9, s1, Visit(200, 11, 11)) == State(map[10 := 100, 12 := 101, 11 := 200], [], s1.seen);
  }

  /** A stray test does no harm when a later one for the same value is read over it. */
  lemma {:induction false} LaterTestHides()
    ensures Tree(Twice, RootFirst) && Agrees(Twice, RootFirst, 9, 0, map[3 := 100])
    ensures !HonestTest(Twice, RootFirst, 9, 0, 1)
    ensures Table(Twice, 9, 0) == Some(map[3 := 100])
  {
    TwiceTable();
    TwiceAgrees();
    TwiceStray();
  }

  lemma {:induction false} TwiceAgrees()
    ensures Tree(Twice, RootFirst) && Agrees(Twice, RootFirst, 9, 0, map[3 := 100])
  {
    TwiceFollow(0);
    forall x | LOWEST <= x <= HIGHEST
      ensures Lookup(map[3 := 100], 9, x) == Follow(Twice, RootFirst, 9, 0, x)
    {
      TwiceFollow(x);
    }
  }

  lemma {:induction false} TwiceStray()
    ensures Tree(Twice, RootFirst) && !HonestTest(Twice, RootFirst, 9, 0, 1)
  {
    TwiceFollow(3);
    assert !Passes(Twice, RootFirst, 2, 3, 1);
  }

  lemma {:induction false} TwiceFollow(x: int)
    ensures Tree(Twice, RootFirst)
    ensures Follow(Twice, RootFirst, 9, 0, x) == if x == 3 then Body(100) else Default
  {
    assert Follow(Twice, RootFirst, 9, 9, x) == Default;
    assert x >= 5 ==> Follow(Twice, RootFirst, 9, 1, x) == Default;
    assert x < 5 ==> Follow(Twice, RootFirst, 9, 2, x) == if x == 3 then Body(100) else Default;
  }

  lemma {:induction false} TwiceTable()
    ensures Table(Twice, 9, 0) == Some(map[3 := 100])
  {
    var st, v0 := State(map[], [], {}), Visit(0, LOWEST, HIGHEST);
    var v1, v2 := Visit(1, 5, HIGHEST), Visit(2, LOWEST, 4);
    var s0, s1 := State(map[], [], {v0}), State(map[3 := 200], [], {v0, v1});
    var s2 := State(map[3 := 100], [], {v0, v1, v2});
    assert Entered(Twice, st, v0) == s0;
    assert v0.Greater(Twice[0]) == v1 && v0.Less(Twice[0]) == v2;
    TestAlone(1, v1, s0, s1);
    TestAlone(2, v2, s1, s2);
    assert Visited(Twice, 9, st, v0) == s2;
  }

  /** Visiting one of the two tests of 3 writes its body and nothing else. */
  lemma {:induction false} TestAlone(a: Address, v: Visit, s: State, r: State)
    requires (a == 1 && v == Visit(1, 5, HIGHEST)) || (a == 2 && v == Visit(2, LOWEST, 4))
    requires v.lo in Bounds(Twice) && v.hi in Bounds(Twice) && s.seen <= Universe(Twice) && v !in s.seen
    requires r == State(s.cases[3 := if a == 1 then 200 else 100], s.ambiguous, s.seen + {v})
    ensures Taken(Twice, 9, s, v) == r
  {
    assert Entered(Twice, s, v) == r;
    assert v in Universe(Twice);
    EdgeBounds(Twice, s, v);
    assert Taken(Twice, 9, r, v.Greater(Twice[a])) == r;
    assert Taken(Twice, 9, r, v.Less(Twice[a])) == r;
    assert Visited(Twice, 9, s, v) == r;
  }
}
