/**
 The by-value emitter of `tools/dwarf_types.py`: `emit` writes a type after every
 type it holds by value, depth first, sharing one `seen` set and one `order` list
 between all the types requested.
 */
module TypeEmit {

  type Name = string

  /** A named type; a composite lists what it holds by value, as `deps_of` finds it. */
  datatype Kind = Composite(deps: seq<Name>) | Enumeration | Other

  type Types = map<Name, Kind>

  predicate Emittable(types: Types, n: Name) {
    n in types && !types[n].Other?
  }

  function DepsOf(types: Types, n: Name): seq<Name> {
    if n in types && types[n].Composite? then types[n].deps else []
  }

  /** n holds d by value, and d is a type of its own. */
  predicate Holds(types: Types, n: Name, d: Name) {
    d in DepsOf(types, n) && d in types
  }

  // ----- what emission does -----

  datatype State = State(seen: set<Name>, order: seq<Name>)

  /** `emit(name, seen, order)`; it ends on any graph, a cyclic one included, because `seen` grows. */
  function Emitted(types: Types, st: State, name: Name): (r: State)
    ensures st.seen <= r.seen && name in r.seen
    decreases types.Keys - st.seen, 0, 0
  {
    if name in st.seen then st
    else
      var s0 := st.(seen := st.seen + {name});
      if name !in types then s0
      else match types[name]
           case Enumeration => s0.(order := s0.order + [name])
           case Other => s0
           case Composite(deps) =>
             var s1 := EmittedAll(types, s0, deps);
             s1.(order := s1.order + [name])
  }

  function EmittedAll(types: Types, st: State, names: seq<Name>): (r: State)
    ensures st.seen <= r.seen
    decreases types.Keys - st.seen, 1, |names|
  {
    if names == [] then st
    else EmittedAll(types, if names[0] in types then Emitted(types, st, names[0]) else st, names[1..])
  }

  class Emitter {
    const types: Types
    var seen: set<Name>
    var order: seq<Name>

    constructor (types: Types)
      ensures this.types == types && Snapshot() == State({}, [])
    {
      this.types := types;
      seen, order := {}, [];
    }

    function Snapshot(): State
      reads this
    {
      State(seen, order)
    }

    method Emit(name: Name)
      modifies this`seen, this`order
      ensures Snapshot() == Emitted(types, old(Snapshot()), name)
      decreases types.Keys - seen, 0, 0
    {
      if name in seen {
        return;
      }
      seen := seen + {name};
      if name !in types {
        return;
      }
      match types[name]
      case Enumeration => order := order + [name];
      case Other =>
      case Composite(deps) =>
        EmitAll(deps);
        order := order + [name];
    }

    /** The loop over the types needed, and the one over the types requested. */
    method EmitAll(names: seq<Name>)
      modifies this`seen, this`order
      ensures Snapshot() == EmittedAll(types, old(Snapshot()), names)
      decreases types.Keys - seen, 1
    {
      var left := names;
      while left != []
        invariant old(seen) <= seen
        invariant EmittedAll(types, Snapshot(), left) == EmittedAll(types, old(Snapshot()), names)
        decreases |left|
      {
        if left[0] in types {
          Emit(left[0]);
        }
        left := left[1..];
      }
    }
  }

  /** What a run over the requested types emits. */
  function Order(types: Types, requested: seq<Name>): seq<Name> {
    EmittedAll(types, State({}, []), requested).order
  }

  // ----- reachability -----

  /** A path of by-value containment. */
  ghost predicate Path(types: Types, p: seq<Name>) {
    && p != []
    && forall i :: 0 <= i < |p| - 1 ==> Holds(types, p[i], p[i + 1])
  }

  ghost predicate Reachable(types: Types, from: seq<Name>, n: Name) {
    exists p :: Path(types, p) && p[0] in from && p[0] in types && p[|p| - 1] == n
  }

  lemma {:induction false} ReachableSelf(types: Types, from: seq<Name>, n: Name)
    requires n in from && n in types
    ensures Reachable(types, from, n)
  {
    var p := [n];
    assert Path(types, p) && p[0] in from && p[|p| - 1] == n;
  }

  lemma {:induction false} ReachableStep(types: Types, from: seq<Name>, n: Name, d: Name)
    requires Reachable(types, from, n) && Holds(types, n, d)
    ensures Reachable(types, from, d)
  {
    var p :| Path(types, p) && p[0] in from && p[0] in types && p[|p| - 1] == n;
    var q := p + [d];
    forall i | 0 <= i < |q| - 1
      ensures Holds(types, q[i], q[i + 1])
    {
      if i < |p| - 1 { assert Holds(types, p[i], p[i + 1]); }
    }
    assert Path(types, q) && q[0] in from && q[|q| - 1] == d;
  }

  // ----- the invariant of emission -----

  predicate Distinct(s: seq<Name>) {
    forall i, j :: 0 <= i < j < |s| ==> s[i] != s[j]
  }

  /**
   Every seen type that is not in progress has been emitted (if it can be) and has
   everything it holds seen; nothing is emitted twice or without being seen.
   */
  ghost predicate Consistent(types: Types, st: State, open: set<Name>) {
    && Distinct(st.order)
    && open <= st.seen
    && (forall n :: n in st.order ==> n in st.seen && n !in open && Emittable(types, n))
    && (forall n :: n in st.seen && n !in open && Emittable(types, n) ==> n in st.order)
    && (forall n, d :: n in st.seen && n !in open && Holds(types, n, d) ==> d in st.seen)
  }

  ghost predicate AllReachable(types: Types, st: State, from: seq<Name>) {
    forall n :: n in st.seen ==> Reachable(types, from, n)
  }

  lemma {:induction false} EmitConsistent(types: Types, st: State, name: Name, open: set<Name>, from: seq<Name>)
    requires Consistent(types, st, open) && AllReachable(types, st, from) && Reachable(types, from, name)
    ensures Consistent(types, Emitted(types, st, name), open)
    ensures AllReachable(types, Emitted(types, st, name), from)
    decreases types.Keys - st.seen, 0, 0
  {
    if name !in st.seen {
      var s0 := st.(seen := st.seen + {name});
      assert Consistent(types, s0, open + {name});
      if name in types && types[name].Composite? {
        var deps := types[name].deps;
        forall d | d in deps && d in types
          ensures Reachable(types, from, d)
        {
          assert Holds(types, name, d);
          ReachableStep(types, from, name, d);
        }
        EmitAllConsistent(types, s0, deps, open + {name}, from);
        var s1 := EmittedAll(types, s0, deps);
      } else if name in types {
        assert forall d :: !Holds(types, name, d);
      }
    }
  }

  lemma {:induction false} EmitAllConsistent(types: Types, st: State, names: seq<Name>, open: set<Name>,
                                             from: seq<Name>)
    requires Consistent(types, st, open) && AllReachable(types, st, from)
    requires forall d :: d in names && d in types ==> Reachable(types, from, d)
    ensures var r := EmittedAll(types, st, names);
            && Consistent(types, r, open) && AllReachable(types, r, from)
            && forall d :: d in names && d in types ==> d in r.seen
    decreases types.Keys - st.seen, 1, |names|
  {
    if names != [] {
      var next := if names[0] in types then Emitted(types, st, names[0]) else st;
      if names[0] in types { EmitConsistent(types, st, names[0], open, from); }
      EmitAllConsistent(types, next, names[1..], open, from);
      assert forall d :: d in names ==> d == names[0] || d in names[1..];
    }
  }

  /** Each type once, and exactly the composites and enums reachable from the request, on any graph. */
  lemma {:induction false} EmitsReachable(types: Types, requested: seq<Name>)
    ensures Distinct(Order(types, requested))
    ensures forall n :: n in Order(types, requested) <==> Emittable(types, n) && Reachable(types, requested, n)
  {
    var st := EmittedAll(types, State({}, []), requested);
    EmitsFrom(types, requested);
    forall n | Emittable(types, n) && Reachable(types, requested, n)
      ensures n in st.order
    {
      ReachableEmitted(types, requested, st, n);
    }
  }

  /** From nothing, what is emitted is reachable, and the requested names have been seen. */
  lemma {:induction false} EmitsFrom(types: Types, requested: seq<Name>)
    ensures var st := EmittedAll(types, State({}, []), requested);
            && Consistent(types, st, {}) && AllReachable(types, st, requested)
            && forall d :: d in requested && d in types ==> d in st.seen
  {
    forall d | d in requested && d in types
      ensures Reachable(types, requested, d)
    {
      ReachableSelf(types, requested, d);
    }
    EmitAllConsistent(types, State({}, []), requested, {}, requested);
  }

  lemma {:induction false} ReachableEmitted(types: Types, requested: seq<Name>, st: State, n: Name)
    requires Consistent(types, st, {}) && (forall d :: d in requested && d in types ==> d in st.seen)
    requires Emittable(types, n) && Reachable(types, requested, n)
    ensures n in st.order
  {
    var p :| Path(types, p) && p[0] in requested && p[0] in types && p[|p| - 1] == n;
    PathSeen(types, st, p, |p| - 1);
  }

  lemma {:induction false} PathSeen(types: Types, st: State, p: seq<Name>, k: nat)
    requires Path(types, p) && k < |p| && Consistent(types, st, {}) && p[0] in st.seen
    ensures p[k] in st.seen
  {
    if k > 0 {
      PathSeen(types, st, p, k - 1);
      assert Holds(types, p[k - 1], p[k - 1 + 1]);
    }
  }

  // ----- order -----

  /** Every type stands after everything it holds by value. */
  ghost predicate Topological(types: Types, order: seq<Name>) {
    forall j, d :: 0 <= j < |order| && Holds(types, order[j], d) && Emittable(types, d) ==> d in order[..j]
  }

  /** By-value containment is acyclic among the types in `region`. */
  ghost predicate Acyclic(types: Types, region: iset<Name>, rank: Name -> nat) {
    forall n, d :: n in region && Holds(types, n, d) && Emittable(types, d) ==> rank(d) < rank(n)
  }

  ghost function Region(types: Types, requested: seq<Name>): iset<Name> {
    iset n | Reachable(types, requested, n)
  }

  lemma {:induction false} EmitTopological(types: Types, st: State, name: Name, open: set<Name>, from: seq<Name>,
                                           rank: Name -> nat)
    requires Consistent(types, st, open) && AllReachable(types, st, from) && Reachable(types, from, name)
    requires Acyclic(types, Region(types, from), rank) && Topological(types, st.order)
    requires forall o :: o in open && Emittable(types, name) ==> rank(o) > rank(name)
    ensures Topological(types, Emitted(types, st, name).order)
    decreases types.Keys - st.seen, 0, 0
  {
    if name !in st.seen && name in types {
      var s0 := st.(seen := st.seen + {name});
      assert Consistent(types, s0, open + {name});
      if types[name].Composite? {
        var deps := types[name].deps;
        forall d | d in deps && d in types
          ensures Reachable(types, from, d)
          ensures Emittable(types, d) ==> forall o :: o in open + {name} ==> rank(o) > rank(d)
        {
          assert Holds(types, name, d);
          ReachableStep(types, from, name, d);
          assert name in Region(types, from);
        }
        EmitAllConsistent(types, s0, deps, open + {name}, from);
        EmitAllTopological(types, s0, deps, open + {name}, from, rank);
        var s1 := EmittedAll(types, s0, deps);
        forall d | Holds(types, name, d) && Emittable(types, d)
          ensures d in s1.order
        {
          assert d in deps && d !in open + {name};
        }
        TopologicalSnoc(types, s1.order, name);
      } else {
        TopologicalSnoc(types, s0.order, name);
      }
    }
  }

  lemma {:induction false} TopologicalSnoc(types: Types, order: seq<Name>, name: Name)
    requires Topological(types, order)
    requires forall d :: Holds(types, name, d) && Emittable(types, d) ==> d in order
    ensures Topological(types, order + [name])
  {
    var longer := order + [name];
    forall j, d | 0 <= j < |longer| && Holds(types, longer[j], d) && Emittable(types, d)
      ensures d in longer[..j]
    {
      if j < |order| {
        assert longer[..j] == order[..j];
      } else {
        assert longer[..j] == order;
      }
    }
  }

  lemma {:induction false} EmitAllTopological(types: Types, st: State, names: seq<Name>, open: set<Name>,
                                              from: seq<Name>,
                                              rank: Name -> nat)
    requires Consistent(types, st, open) && AllReachable(types, st, from)
    requires Acyclic(types, Region(types, from), rank) && Topological(types, st.order)
    requires forall d :: d in names && d in types ==> Reachable(types, from, d)
    requires forall d, o :: d in names && Emittable(types, d) && o in open ==> rank(o) > rank(d)
    ensures Topological(types, EmittedAll(types, st, names).order)
    decreases types.Keys - st.seen, 1, |names|
  {
    if names != [] {
      var next := if names[0] in types then Emitted(types, st, names[0]) else st;
      if names[0] in types {
        EmitConsistent(types, st, names[0], open, from);
        EmitTopological(types, st, names[0], open, from, rank);
      }
      EmitAllTopological(types, next, names[1..], open, from, rank);
    }
  }

  lemma {:induction false} AcyclicIsTopological(types: Types, requested: seq<Name>, rank: Name -> nat)
    requires Acyclic(types, Region(types, requested), rank)
    ensures Topological(types, Order(types, requested))
  {
    forall d | d in requested && d in types
      ensures Reachable(types, requested, d)
    {
      ReachableSelf(types, requested, d);
    }
    EmitAllTopological(types, State({}, []), requested, {}, requested, rank);
  }

  /** One more than the place of n in the order; 0 when it is not there. */
  function Rank(order: seq<Name>, n: Name): nat {
    if order == [] then 0
    else if order[|order| - 1] == n then |order|
    else Rank(order[..|order| - 1], n)
  }

  lemma {:induction false} RankIs(order: seq<Name>, n: Name, j: nat)
    requires Distinct(order) && j < |order| && order[j] == n
    ensures Rank(order, n) == j + 1
  {
    if j < |order| - 1 {
      RankIs(order[..|order| - 1], n, j);
    }
  }

  /** The order emitted is topological exactly when nothing reachable holds itself by value, however indirectly. */
  lemma {:induction false} TopologicalExactly(types: Types, requested: seq<Name>)
    ensures Topological(types, Order(types, requested))
            <==> exists rank: Name -> nat :: Acyclic(types, Region(types, requested), rank)
  {
    var order := Order(types, requested);
    if Topological(types, order) {
      EmitsReachable(types, requested);
      var rank := n => Rank(order, n);
      forall n, d | n in Region(types, requested) && Holds(types, n, d) && Emittable(types, d)
        ensures rank(d) < rank(n)
      {
        assert Emittable(types, n);
        var j :| 0 <= j < |order| && order[j] == n;
        assert d in order[..j];
        var i :| 0 <= i < j && order[i] == d;
        RankIs(order, n, j);
        RankIs(order, d, i);
      }
      assert Acyclic(types, Region(types, requested), rank);
    }
    if exists rank: Name -> nat :: Acyclic(types, Region(types, requested), rank) {
      var rank: Name -> nat :| Acyclic(types, Region(types, requested), rank);
      AcyclicIsTopological(types, requested, rank);
    }
  }
}
