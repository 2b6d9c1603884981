/**
 When the bisecting search of `tools/linkable.py` is the one-at-a-time search, and
 when that gives the largest set that links.
 */
module LinkGreedy {
  import opened LinkSearch

  // ----- bisecting and greedy -----

  /** A block accepted at once is accepted one by one. */
  lemma {:induction false} GreedyTakesBlock<T(!new)>(trial: Oracle<T>, good: seq<T>, block: seq<T>, rest: seq<T>)
    requires PrefixClosed(trial) && Links(trial, good + block)
    ensures Greedy(trial, good, block + rest) == Greedy(trial, good + block, rest)
    decreases |block|
  {
    if block == [] {
      assert block + rest == rest && good + block == good;
    } else {
      var first := good + [block[0]];
      assert first + block[1..] == good + block;
      assert Links(trial, first);
      assert (block + rest)[1..] == block[1..] + rest;
      GreedyTakesBlock(trial, first, block[1..], rest);
    }
  }

  /** Where prefixes of what links link, the loop keeps what greedy keeps. */
  lemma {:induction false} KeptIsGreedy<T(!new)>(trial: Oracle<T>, good: seq<T>, queue: seq<seq<T>>)
    requires PrefixClosed(trial) && NoEmptyBlock(queue)
    ensures Kept(trial, good, queue) == Greedy(trial, good, Flatten(queue))
    decreases Cost(queue)
  {
    if queue != [] {
      var block, rest := queue[0], queue[1..];
      CostNonNegative(queue);
      CostNonNegative(rest);
      if Links(trial, good + block) {
        KeptIsGreedy(trial, good + block, rest);
        GreedyTakesBlock(trial, good, block, Flatten(rest));
      } else if |block| == 1 {
        KeptIsGreedy(trial, good, rest);
        assert block == [block[0]] && Flatten(queue)[1..] == Flatten(rest);
      } else {
        HalvedCost(queue, |block| / 2);
        KeptIsGreedy(trial, good, Halved(queue, |block| / 2));
      }
    }
  }

  lemma {:induction false} GreedyLength<T(!new)>(trial: Oracle<T>, good: seq<T>, cands: seq<T>)
    ensures |Greedy(trial, good, cands)| <= |good| + |cands|
    decreases |cands|
  {
    if cands != [] {
      GreedyLength(trial, good + [cands[0]], cands[1..]);
      GreedyLength(trial, good, cands[1..]);
    }
  }

  /** If greedy takes everything, it has found every prefix to link. */
  lemma {:induction false} GreedyTookAll<T(!new)>(trial: Oracle<T>, good: seq<T>, cands: seq<T>, k: nat)
    requires Greedy(trial, good, cands) == good + cands && Links(trial, good) && k <= |cands|
    ensures Links(trial, good + cands[..k])
    decreases |cands|
  {
    if k == 0 {
      assert good + cands[..0] == good;
    } else {
      var first := good + [cands[0]];
      GreedyLength(trial, good, cands[1..]);
      assert good + cands == first + cands[1..];
      GreedyTookAll(trial, first, cands[1..], k - 1);
      assert good + cands[..k] == first + cands[1..][..k - 1];
    }
  }

  /** For every list of candidates and every chunk, the search keeps what greedy keeps. */
  ghost predicate AlwaysGreedy<T(!new)>(trial: Oracle<T>) {
    forall cands: seq<T>, chunk: nat :: chunk > 0 ==> SameAsGreedy(trial, cands, chunk)
  }

  ghost predicate SameAsGreedy<T>(trial: Oracle<T>, cands: seq<T>, chunk: nat)
    requires chunk > 0
  {
    Kept(trial, [], Chunks(cands, chunk)) == Greedy(trial, [], cands)
  }

  /** The search is plain greedy, whatever it is given, exactly when linking is closed under prefixes. */
  lemma {:induction false} SearchIsGreedyExactly<T(!new)>(trial: Oracle<T>)
    requires Links(trial, [])
    ensures AlwaysGreedy(trial) <==> PrefixClosed(trial)
  {
    if PrefixClosed(trial) {
      forall cands: seq<T>, chunk: nat | chunk > 0
        ensures SameAsGreedy(trial, cands, chunk)
      {
        KeptIsGreedy(trial, [], Chunks(cands, chunk));
      }
    }
    if AlwaysGreedy(trial) {
      forall a: seq<T>, b: seq<T> | Links(trial, a + b)
        ensures Links(trial, a)
      {
        PrefixLinks(trial, a, b);
      }
    }
  }

  lemma {:induction false} OneBlockKept<T(!new)>(trial: Oracle<T>, all: seq<T>)
    requires all != [] && Links(trial, all)
    ensures Kept(trial, [], [all]) == all
  {
    assert [] + all == all && [all][1..] == [];
    assert Kept(trial, all, []) == all;
  }

  lemma {:induction false} PrefixLinks<T(!new)>(trial: Oracle<T>, a: seq<T>, b: seq<T>)
    requires Links(trial, []) && AlwaysGreedy(trial) && Links(trial, a + b)
    ensures Links(trial, a)
  {
    var all := a + b;
    if all != [] {
      assert SameAsGreedy(trial, all, |all|);
      assert Chunks(all, |all|) == [all];
      OneBlockKept(trial, all);
      assert [] + all == all;
      GreedyTookAll(trial, [], all, |a|);
      assert all[..|a|] == a && [] + a == a;
    }
  }

  /** Downward closure is closure under prefixes and more, so it is enough. */
  lemma {:induction false} ClosedDownIsPrefixClosed<T(!new)>(trial: Oracle<T>)
    requires ClosedDown(trial)
    ensures PrefixClosed(trial)
  {
    forall a: seq<T>, b: seq<T> | Links(trial, a + b)
      ensures Links(trial, a)
    {
      SubsequencePrepend(a, [], b);
      assert a + [] == a;
    }
  }

  // ----- the largest set -----

  ghost predicate NoneTwice<T>(s: seq<T>) {
    forall i, j :: 0 <= i < j < |s| ==> s[i] != s[j]
  }

  /** No list of these candidates that links is longer. */
  ghost predicate Largest<T(!new)>(trial: Oracle<T>, good: seq<T>, cands: seq<T>) {
    forall b: seq<T> :: NoneTwice(b) && AllIn(b, cands) && Links(trial, b) ==> |b| <= |good|
  }

  ghost predicate AllIn<T>(b: seq<T>, cands: seq<T>) {
    forall c :: c in b ==> c in cands
  }

  /** Of two sets that link, the smaller takes a unit of the larger. */
  ghost predicate Exchange<T(!new)>(trial: Oracle<T>) {
    forall a: seq<T>, b: seq<T> :: NoneTwice(a) && NoneTwice(b) && Links(trial, a) && Links(trial, b) && |a| < |b|
      ==> TakesOne(trial, a, b)
  }

  ghost predicate TakesOne<T(!new)>(trial: Oracle<T>, a: seq<T>, b: seq<T>) {
    exists c :: c in b && c !in a && Links(trial, a + [c])
  }

  ghost predicate SearchIsLargest<T(!new)>(trial: Oracle<T>, cands: seq<T>, chunk: nat)
    requires chunk > 0
  {
    Largest(trial, Kept(trial, [], Chunks(cands, chunk)), cands)
  }

  ghost predicate AlwaysLargest<T(!new)>(trial: Oracle<T>) {
    forall cands: seq<T>, chunk: nat :: NoneTwice(cands) && chunk > 0 ==> SearchIsLargest(trial, cands, chunk)
  }

  /** Greedy only adds, candidates only, none of them twice, and what it holds links. */
  lemma {:induction false} GreedyAdds<T(!new)>(trial: Oracle<T>, good: seq<T>, cands: seq<T>)
    requires Links(trial, good) && NoneTwice(good + cands)
    ensures var g := Greedy(trial, good, cands);
            good <= g && NoneTwice(g) && AllIn(g, good + cands) && Links(trial, g)
    decreases |cands|
  {
    if cands == [] {
      assert good + cands == good;
    } else {
      var first := good + [cands[0]];
      assert first + cands[1..] == good + cands;
      if Links(trial, first) {
        GreedyAdds(trial, first, cands[1..]);
      } else {
        LeaveOut(good, cands);
        GreedyAdds(trial, good, cands[1..]);
      }
    }
  }

  lemma {:induction false} LeaveOut<T>(good: seq<T>, cands: seq<T>)
    requires cands != [] && NoneTwice(good + cands)
    ensures NoneTwice(good + cands[1..])
  {
    var s, t := good + cands, good + cands[1..];
    forall i, j | 0 <= i < j < |t|
      ensures t[i] != t[j]
    {
      var i', j' := if i < |good| then i else i + 1, if j < |good| then j else j + 1;
      assert t[i] == s[i'] && t[j] == s[j'];
    }
  }

  /** A candidate greedy left out fits no better in the end. */
  lemma {:induction false} LeftOutStaysOut<T(!new)>(trial: Oracle<T>, good: seq<T>, cands: seq<T>, c: T)
    requires ClosedDown(trial) && Links(trial, good) && NoneTwice(good + cands)
    requires c in cands && c !in Greedy(trial, good, cands)
    ensures !Links(trial, Greedy(trial, good, cands) + [c])
    decreases |cands|
  {
    var first := good + [cands[0]];
    assert first + cands[1..] == good + cands;
    LeaveOut(good, cands);
    if Links(trial, first) {
      GreedyAdds(trial, first, cands[1..]);
      assert cands[0] in first;
      LeftOutStaysOut(trial, first, cands[1..], c);
    } else {
      GreedyAdds(trial, good, cands[1..]);
      if c == cands[0] {
        var more := Greedy(trial, good, cands[1..])[|good|..];
        StillRejected(trial, good, more, [c]);
        assert good + more == Greedy(trial, good, cands[1..]);
      } else {
        LeftOutStaysOut(trial, good, cands[1..], c);
      }
    }
  }

  lemma {:induction false} GreedyStays<T(!new)>(trial: Oracle<T>, good: seq<T>, cands: seq<T>)
    requires forall c :: c in cands ==> !Links(trial, good + [c])
    ensures Greedy(trial, good, cands) == good
    decreases |cands|
  {
    if cands != [] { GreedyStays(trial, good, cands[1..]); }
  }

  /** The elements of b that are not in a. */
  function Beyond<T(==)>(a: seq<T>, b: seq<T>): seq<T> {
    if b == [] then [] else (if b[0] in a then [] else [b[0]]) + Beyond(a, b[1..])
  }

  lemma {:induction false} BeyondIs<T>(a: seq<T>, b: seq<T>)
    requires NoneTwice(b)
    ensures forall c :: c in Beyond(a, b) <==> c in b && c !in a
    ensures NoneTwice(Beyond(a, b))
  {
    if b != [] {
      BeyondIs(a, b[1..]);
      assert b[0] !in b[1..];
    }
  }

  lemma {:induction false} NoneTwiceJoined<T>(a: seq<T>, b: seq<T>)
    requires NoneTwice(a) && NoneTwice(b) && forall c :: c in b ==> c !in a
    ensures NoneTwice(a + b)
  {
    var s := a + b;
    forall i, j | 0 <= i < j < |s|
      ensures s[i] != s[j]
    {
      if i < |a| <= j { assert s[j] in b; }
    }
  }

  /** Where subsets of linking sets link, the search always keeps a largest set exactly when sets exchange. */
  lemma {:induction false} LargestExactly<T(!new)>(trial: Oracle<T>)
    requires ClosedDown(trial) && Links(trial, [])
    ensures AlwaysLargest(trial) <==> Exchange(trial)
  {
    if Exchange(trial) {
      forall cands: seq<T>, chunk: nat | NoneTwice(cands) && chunk > 0
        ensures SearchIsLargest(trial, cands, chunk)
      {
        ExchangeMakesLargest(trial, cands);
        ClosedDownIsPrefixClosed(trial);
        KeptIsGreedy(trial, [], Chunks(cands, chunk));
      }
    }
    if AlwaysLargest(trial) {
      forall a: seq<T>, b: seq<T> | NoneTwice(a) && NoneTwice(b) && Links(trial, a) && Links(trial, b) && |a| < |b|
        ensures TakesOne(trial, a, b)
      {
        LargestMakesExchange(trial, a, b);
      }
    }
  }

  lemma {:induction false} ExchangeMakesLargest<T(!new)>(trial: Oracle<T>, cands: seq<T>)
    requires ClosedDown(trial) && Links(trial, []) && Exchange(trial) && NoneTwice(cands)
    ensures Largest(trial, Greedy(trial, [], cands), cands)
  {
    var g := Greedy(trial, [], cands);
    assert [] + cands == cands;
    GreedyAdds(trial, [], cands);
    forall b: seq<T> | NoneTwice(b) && AllIn(b, cands) && Links(trial, b)
      ensures |b| <= |g|
    {
      if |b| > |g| {
        assert TakesOne(trial, g, b);
        var c :| c in b && c !in g && Links(trial, g + [c]);
        LeftOutStaysOut(trial, [], cands, c);
      }
    }
  }

  lemma {:induction false} LargestMakesExchange<T(!new)>(trial: Oracle<T>, a: seq<T>, b: seq<T>)
    requires ClosedDown(trial) && Links(trial, []) && AlwaysLargest(trial)
    requires NoneTwice(a) && NoneTwice(b) && Links(trial, a) && Links(trial, b) && |a| < |b|
    ensures TakesOne(trial, a, b)
  {
    if !TakesOne(trial, a, b) {
      var rest := Beyond(a, b);
      BeyondIs(a, b);
      NoneTwiceJoined(a, rest);
      ClosedDownIsPrefixClosed(trial);
      assert [] + a == a;
      GreedyTakesBlock(trial, [], a, rest);
      GreedyStays(trial, a, rest);
      assert Greedy(trial, [], a + rest) == a;
      assert SearchIsLargest(trial, a + rest, 1);
      KeptIsGreedy(trial, [], Chunks(a + rest, 1));
      assert Largest(trial, a, a + rest);
      assert AllIn(b, a + rest);
    }
  }

  /** Unit 0 links with neither 1 nor 2. */
  function Conflict(units: seq<int>): Verdict {
    if 0 in units && (1 in units || 2 in units) then ShaFail else Ok
  }

  lemma {:induction false} SubsequenceMembers(a: seq<int>, b: seq<int>, x: int)
    requires Subsequence(a, b) && x in a
    ensures x in b
    decreases |b|
  {
    if a[0] == b[0] && Subsequence(a[1..], b[1..]) {
      if x != a[0] { SubsequenceMembers(a[1..], b[1..], x); }
    } else {
      SubsequenceMembers(a, b[1..], x);
    }
  }

  /** The result is maximal, not the largest subset that links. */
  lemma {:induction false} MaximalIsNotLargest()
    ensures ClosedDown(Conflict)
    ensures Greedy(Conflict, [], [0, 1, 2]) == [0]
    ensures Links(Conflict, [1, 2]) && Subsequence([1, 2], [0, 1, 2])
  {
    forall a, b | Subsequence(a, b) && Links(Conflict, b)
      ensures Links(Conflict, a)
    {
      forall x | x in a ensures x in b { SubsequenceMembers(a, b, x); }
    }
    assert [0, 1, 2][1..] == [1, 2] && [1, 2][1..] == [2];
    assert [0] + [1] == [0, 1] && [0] + [2] == [0, 2] && [] + [0] == [0];
    assert Greedy(Conflict, [0], [2]) == [0];
    assert Greedy(Conflict, [0], [1, 2]) == [0];
    assert Subsequence([2], [2]);
    assert Subsequence([1, 2], [1, 2]);
  }
}
