/** What a worklist explores: everything its pushes reach from a first entry, and nothing else. */
module Worklist {
  /** A chain of entries, each pushed by the one before. */
  ghost predicate Chain<T(!new)>(push: T -> seq<T>, first: T, path: seq<T>) {
    && |path| > 0
    && path[0] == first
    && forall k :: 0 <= k < |path| - 1 ==> Link(push, path, k)
  }

  ghost predicate Link<T(!new)>(push: T -> seq<T>, path: seq<T>, k: nat)
    requires k < |path| - 1
  {
    path[k + 1] in push(path[k])
  }

  ghost predicate Reached<T(!new)>(push: T -> seq<T>, first: T, e: T) {
    exists path :: Chain(push, first, path) && path[|path| - 1] == e
  }

  lemma {:induction false} ReachedFirst<T(!new)>(push: T -> seq<T>, first: T)
    ensures Reached(push, first, first)
  {
    assert Chain(push, first, [first]) && [first][|[first]| - 1] == first;
  }

  lemma {:induction false} ReachedStep<T(!new)>(push: T -> seq<T>, first: T, e: T, f: T)
    requires Reached(push, first, e) && f in push(e)
    ensures Reached(push, first, f)
  {
    var path :| Chain(push, first, path) && path[|path| - 1] == e;
    var longer := path + [f];
    forall k | 0 <= k < |longer| - 1
      ensures Link(push, longer, k)
    {
      if k < |path| - 1 { assert Link(push, path, k); }
    }
    assert Chain(push, first, longer) && longer[|longer| - 1] == f;
  }

  /** The first entry is seen or waiting, what a seen entry pushes is too, and all of them are reached. */
  ghost predicate Explored<T(!new)>(push: T -> seq<T>, first: T, seen: set<T>, stack: seq<T>) {
    && (forall e :: e in seen ==> Reached(push, first, e))
    && (forall e :: e in stack ==> Reached(push, first, e))
    && (first in seen || first in stack)
    && forall e :: e in seen ==> Kept(push, e, seen, stack)
  }

  ghost predicate Kept<T(!new)>(push: T -> seq<T>, e: T, seen: set<T>, stack: seq<T>) {
    forall f :: f in push(e) ==> f in seen || f in stack
  }

  lemma {:induction false} ExploreStart<T(!new)>(push: T -> seq<T>, first: T)
    ensures Explored(push, first, {}, [first])
  {
    ReachedFirst(push, first);
  }

  lemma {:induction false} ExploreSkip<T(!new)>(push: T -> seq<T>, first: T, seen: set<T>, stack: seq<T>)
    requires Explored(push, first, seen, stack) && stack != [] && stack[|stack| - 1] in seen
    ensures Explored(push, first, seen, stack[..|stack| - 1])
  {
    var rest := stack[..|stack| - 1];
    assert forall e :: e in stack ==> e in rest || e in seen;
    forall e | e in seen
      ensures Kept(push, e, seen, rest)
    {
      assert Kept(push, e, seen, stack);
    }
  }

  lemma {:induction false} ExploreStep<T(!new)>(push: T -> seq<T>, first: T, seen: set<T>, stack: seq<T>)
    requires Explored(push, first, seen, stack) && stack != []
    ensures var e := stack[|stack| - 1];
            Explored(push, first, seen + {e}, stack[..|stack| - 1] + push(e))
  {
    var e := stack[|stack| - 1];
    var seen', stack' := seen + {e}, stack[..|stack| - 1] + push(e);
    assert forall f :: f in stack ==> f in stack[..|stack| - 1] || f == e;
    forall f | f in push(e)
      ensures Reached(push, first, f)
    {
      ReachedStep(push, first, e, f);
    }
    forall x | x in seen'
      ensures Kept(push, x, seen', stack')
    {
      if x in seen { assert Kept(push, x, seen, stack); }
    }
  }

  /** With nothing waiting, everything reached has been seen. */
  lemma {:induction false} NothingMissed<T(!new)>(push: T -> seq<T>, first: T, seen: set<T>)
    requires Explored(push, first, seen, [])
    ensures forall e :: e in seen <==> Reached(push, first, e)
  {
    forall e | Reached(push, first, e)
      ensures e in seen
    {
      var path :| Chain(push, first, path) && path[|path| - 1] == e;
      SeenAlong(push, first, seen, path, |path| - 1);
    }
  }

  lemma {:induction false} SeenAlong<T(!new)>(push: T -> seq<T>, first: T, seen: set<T>, path: seq<T>, k: nat)
    requires Explored(push, first, seen, []) && Chain(push, first, path) && k < |path|
    ensures path[k] in seen
  {
    if k > 0 {
      SeenAlong(push, first, seen, path, k - 1);
      assert Link(push, path, k - 1) && Kept(push, path[k - 1], seen, []);
    }
  }
}
