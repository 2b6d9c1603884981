/**
 The bisecting search of `tools/linkable.py`.  Blocks of candidates wait in a queue;
 each is tried on top of what has been kept, and is kept, rejected or split in two.
 A trial build is an oracle from the units it flips to a verdict.
 */
module LinkSearch {

  datatype Verdict = Ok | LinkError(errors: nat) | ShaFail

  type Oracle<!T> = seq<T> -> Verdict

  datatype Outcome<T> =
    | DirtyBaseline
    | ZeroChunk
    | Searched(good: seq<T>, bad: seq<T>, tests: nat)

  predicate Links<T>(trial: Oracle<T>, units: seq<T>) {
    trial(units) == Ok
  }

  // ----- independent reference: one candidate at a time, in order -----

  function Greedy<T>(trial: Oracle<T>, good: seq<T>, cands: seq<T>): seq<T>
    decreases |cands|
  {
    if cands == [] then good
    else if Links(trial, good + [cands[0]]) then Greedy(trial, good + [cands[0]], cands[1..])
    else Greedy(trial, good, cands[1..])
  }

  /** `a` is `b` with some elements left out. */
  predicate Subsequence<T(==)>(a: seq<T>, b: seq<T>) {
    if a == [] then true
    else if b == [] then false
    else if a[0] == b[0] && Subsequence(a[1..], b[1..]) then true
    else Subsequence(a, b[1..])
  }

  /** Taking units out of a set that links never breaks it. */
  ghost predicate ClosedDown<T(!new)>(trial: Oracle<T>) {
    forall a, b :: Subsequence(a, b) && Links(trial, b) ==> Links(trial, a)
  }

  /** Taking units off the end of a list that links never breaks it. */
  ghost predicate PrefixClosed<T(!new)>(trial: Oracle<T>) {
    forall a, b :: Links(trial, a + b) ==> Links(trial, a)
  }

  ghost predicate NothingLinks<T(!new)>(trial: Oracle<T>) {
    forall s :: s != [] ==> !Links(trial, s)
  }

  /** The elements of `s` whose flag is `want`, in order. */
  function Pick<T>(s: seq<T>, flags: seq<bool>, want: bool): seq<T>
    requires |s| == |flags|
  {
    if s == [] then []
    else (if flags[0] == want then [s[0]] else []) + Pick(s[1..], flags[1..], want)
  }

  /** `good` and `bad` split `s` between them, each in the order of `s`. */
  ghost predicate SplitsInOrder<T(!new)>(s: seq<T>, good: seq<T>, bad: seq<T>) {
    exists flags: seq<bool> ::
      |flags| == |s| && Pick(s, flags, true) == good && Pick(s, flags, false) == bad
  }

  function Flatten<T>(queue: seq<seq<T>>): seq<T> {
    if queue == [] then [] else queue[0] + Flatten(queue[1..])
  }

  /** The most trials a queue of blocks can still cost: 2m - 1 for a block of m. */
  function Cost<T>(queue: seq<seq<T>>): int {
    if queue == [] then 0 else 2 * |queue[0]| - 1 + Cost(queue[1..])
  }

  function CeilDiv(n: nat, k: nat): nat
    requires k > 0
  {
    (n + k - 1) / k
  }

  /** `[cands[i:i + chunk] for i in range(0, len(cands), chunk)]` for a positive chunk. */
  function Chunks<T>(cands: seq<T>, chunk: nat): (queue: seq<seq<T>>)
    requires chunk > 0
    ensures Flatten(queue) == cands
    ensures forall i :: 0 <= i < |queue| ==> 1 <= |queue[i]| <= chunk
    decreases |cands|
  {
    if cands == [] then []
    else if |cands| <= chunk then
      assert Flatten([cands]) == cands + Flatten([]);
      [cands]
    else
      assert cands[..chunk] + cands[chunk..] == cands;
      [cands[..chunk]] + Chunks(cands[chunk..], chunk)
  }

  lemma {:induction false} MulLe(a: int, b: int, k: nat)
    requires a <= b
    ensures a * k <= b * k
  {
    assert (b - a) * k >= 0;
  }

  lemma {:induction false} DivUnique(a: nat, k: nat, q: nat)
    requires k > 0 && q * k <= a < q * k + k
    ensures a / k == q
  {
    var d := a / k;
    if d < q {
      MulLe(d + 1, q, k);
    } else if d > q {
      MulLe(q + 1, d, k);
    }
  }

  lemma {:induction false} CeilDivStep(n: nat, k: nat)
    requires k > 0
    ensures CeilDiv(0, k) == 0
    ensures 0 < n <= k ==> CeilDiv(n, k) == 1
    ensures n > k ==> CeilDiv(n, k) == 1 + CeilDiv(n - k, k)
  {
    DivUnique(k - 1, k, 0);
    if 0 < n <= k {
      DivUnique(n + k - 1, k, 1);
    } else if n > k {
      var q := (n - 1) / k;
      assert q * k <= n - 1 < q * k + k;
      DivUnique(n + k - 1, k, q + 1);
    }
  }

  lemma {:induction false} CostJoined<T>(block: seq<T>, queue: seq<seq<T>>)
    ensures Cost([block] + queue) == 2 * |block| - 1 + Cost(queue)
  {
    assert ([block] + queue)[1..] == queue;
  }

  lemma {:induction false} ChunkCount<T>(cands: seq<T>, chunk: nat)
    requires chunk > 0
    ensures |Chunks(cands, chunk)| == CeilDiv(|cands|, chunk)
    ensures Cost(Chunks(cands, chunk)) == 2 * |cands| - CeilDiv(|cands|, chunk)
    decreases |cands|
  {
    CeilDivStep(|cands|, chunk);
    if 0 < |cands| <= chunk {
      assert Chunks(cands, chunk) == [cands];
      CostJoined(cands, []);
      assert [cands] + [] == [cands];
    } else if |cands| > chunk {
      var first, more := cands[..chunk], Chunks(cands[chunk..], chunk);
      ChunkCount(cands[chunk..], chunk);
      assert Chunks(cands, chunk) == [first] + more;
      CostJoined(first, more);
    }
  }

  // ----- the search -----

  ghost predicate NoEmptyBlock<T>(queue: seq<seq<T>>) {
    forall i :: 0 <= i < |queue| ==> queue[i] != []
  }

  /** What the loop keeps in the end, with `good` kept so far. */
  ghost function Kept<T>(trial: Oracle<T>, good: seq<T>, queue: seq<seq<T>>): seq<T>
    requires NoEmptyBlock(queue)
    decreases Cost(queue)
  {
    CostNonNegative(queue);
    if queue == [] then good
    else
      var block, rest := queue[0], queue[1..];
      CostNonNegative(rest);
      if Links(trial, good + block) then Kept(trial, good + block, rest)
      else if |block| == 1 then Kept(trial, good, rest)
      else
        var mid := |block| / 2;
        HalvedCost(queue, mid);
        Kept(trial, good, Halved(queue, mid))
  }

  /** The queue with its first block split in two. */
  function Halved<T>(queue: seq<seq<T>>, mid: nat): seq<seq<T>>
    requires queue != [] && mid <= |queue[0]|
  {
    [queue[0][..mid]] + ([queue[0][mid..]] + queue[1..])
  }

  lemma {:induction false} HalvedCost<T>(queue: seq<seq<T>>, mid: nat)
    requires queue != [] && mid <= |queue[0]|
    ensures Cost(Halved(queue, mid)) == Cost(queue) - 1
    ensures Flatten(Halved(queue, mid)) == Flatten(queue)
  {
    var halved := Halved(queue, mid);
    assert halved[1..] == [queue[0][mid..]] + queue[1..];
    assert halved[1..][1..] == queue[1..];
    assert queue[0][..mid] + (queue[0][mid..] + Flatten(queue[1..])) == queue[0] + Flatten(queue[1..]);
  }

  /**
   The whole search.  Whatever the oracle, with a positive chunk nothing is lost,
   what is kept links, and the number of trials is bounded (and the bound is met
   when nothing links); when subsets of linking sets link, nothing rejected fits.
   */
  method Search<T(!new)>(trial: Oracle<T>, cands: seq<T>, chunk: int) returns (r: Outcome<T>)
    ensures r.DirtyBaseline? <==> !Links(trial, [])
    ensures r.ZeroChunk? <==> Links(trial, []) && chunk == 0
    ensures r.Searched? ==> Links(trial, r.good)
    ensures r.Searched? ==> (SplitsInOrder(cands, r.good, r.bad) <==> chunk > 0 || cands == [])
    ensures r.Searched? && chunk < 0 ==> r == Searched([], [], 1)
    ensures r.Searched? && chunk > 0 ==>
              1 + CeilDiv(|cands|, chunk) <= r.tests <= 1 + 2 * |cands| - CeilDiv(|cands|, chunk)
    ensures r.Searched? && chunk > 0 && NothingLinks(trial) ==>
              r.tests == 1 + 2 * |cands| - CeilDiv(|cands|, chunk)
    ensures r.Searched? && chunk > 0 ==> r.good == Kept(trial, [], Chunks(cands, chunk))
    ensures r.Searched? && ClosedDown(trial) ==> forall c :: c in r.bad ==> !Links(trial, r.good + [c])
  {
    var v := trial([]);
    if v != Ok {
      return DirtyBaseline;
    }
    if chunk == 0 {
      return ZeroChunk;
    }
    var queue := if chunk > 0 then Chunks(cands, chunk) else [];
    if chunk > 0 {
      ChunkCount(cands, chunk);
    } else {
      NothingSplitsIntoNothing(cands);
    }
    var good, bad, tests := Drain(trial, if chunk > 0 then cands else [], queue);
    return Searched(good, bad, tests);
  }

  /** The `while queue` loop. */
  method Drain<T(!new)>(trial: Oracle<T>, cands: seq<T>, blocks: seq<seq<T>>)
      returns (good: seq<T>, bad: seq<T>, tests: nat)
    requires Links(trial, []) && Flatten(blocks) == cands
    requires NoEmptyBlock(blocks)
    ensures Links(trial, good) && SplitsInOrder(cands, good, bad)
    ensures 1 + |blocks| <= tests <= 1 + Cost(blocks)
    ensures NothingLinks(trial) ==> tests == 1 + Cost(blocks)
    ensures good == Kept(trial, [], blocks)
    ensures StillOut(trial, good, bad)
  {
    good, bad, tests := [], [], 1;
    var queue := blocks;
    ghost var flags: seq<bool> := [];
    while queue != []
      invariant NoEmptyBlock(queue)
      invariant Links(trial, good)
      invariant Accounted(cands, flags, good, bad, queue)
      invariant Kept(trial, good, queue) == Kept(trial, [], blocks)
      invariant StillOut(trial, good, bad)
      invariant tests + Cost(queue) <= 1 + Cost(blocks)
      invariant tests + |queue| >= 1 + |blocks|
      invariant NothingLinks(trial) ==> tests + Cost(queue) == 1 + Cost(blocks)
      decreases Cost(queue)
    {
      var block := queue[0];
      var rest := queue[1..];
      CostNonNegative(queue);
      CostNonNegative(rest);
      var v := trial(good + block);
      tests := tests + 1;
      if v == Ok {
        TakeBlock(trial, cands, flags, good, bad, block, queue);
        flags := flags + seq(|block|, _ => true);
        good := good + block;
        queue := rest;
      } else if |block| == 1 {
        RejectUnit(trial, cands, flags, good, bad, block, queue);
        flags := flags + seq(1, _ => false);
        bad := bad + [block[0]];
        queue := rest;
      } else {
        var mid := |block| / 2;
        HalvedCost(queue, mid);
        queue := [block[..mid]] + ([block[mid..]] + rest);
      }
    }
    assert cands[..|flags|] == cands;
  }

  /** The decided prefix is split by `flags`; what is left is the flattened queue. */
  ghost predicate Accounted<T>(cands: seq<T>, flags: seq<bool>, good: seq<T>, bad: seq<T>, queue: seq<seq<T>>) {
    && |flags| <= |cands|
    && cands[|flags|..] == Flatten(queue)
    && Pick(cands[..|flags|], flags, true) == good
    && Pick(cands[..|flags|], flags, false) == bad
  }

  ghost predicate StillOut<T(!new)>(trial: Oracle<T>, good: seq<T>, bad: seq<T>) {
    ClosedDown(trial) ==> forall c :: c in bad ==> !Links(trial, good + [c])
  }

  lemma {:induction false} TakeBlock<T(!new)>(trial: Oracle<T>, cands: seq<T>, flags: seq<bool>, good: seq<T>,
                                              bad: seq<T>, block: seq<T>, queue: seq<seq<T>>)
    requires queue != [] && block == queue[0] && block != [] && Links(trial, good + block)
    requires Accounted(cands, flags, good, bad, queue)
    requires StillOut(trial, good, bad)
    ensures !NothingLinks(trial)
    ensures Accounted(cands, flags + seq(|block|, _ => true), good + block, bad, queue[1..])
    ensures StillOut(trial, good + block, bad)
  {
    assert |good + block| > 0;
    FrontBlock(cands, |flags|, block, Flatten(queue[1..]));
    PickExtend(cands, flags, block, true);
    StillRejected(trial, good, block, bad);
  }

  lemma {:induction false} RejectUnit<T(!new)>(trial: Oracle<T>, cands: seq<T>, flags: seq<bool>, good: seq<T>,
                                               bad: seq<T>, block: seq<T>, queue: seq<seq<T>>)
    requires queue != [] && block == queue[0] && |block| == 1 && !Links(trial, good + block)
    requires Accounted(cands, flags, good, bad, queue)
    requires StillOut(trial, good, bad)
    ensures Accounted(cands, flags + seq(1, _ => false), good, bad + [block[0]], queue[1..])
    ensures StillOut(trial, good, bad + [block[0]])
  {
    assert block == [block[0]];
    FrontBlock(cands, |flags|, block, Flatten(queue[1..]));
    PickExtend(cands, flags, block, false);
    assert Flatten(queue)[1..] == Flatten(queue[1..]);
  }

  lemma {:induction false} FrontBlock<T>(cands: seq<T>, d: nat, block: seq<T>, rest: seq<T>)
    requires d <= |cands| && cands[d..] == block + rest
    ensures d + |block| <= |cands| && cands[d..d + |block|] == block && cands[d + |block|..] == rest
  {
    assert cands[d..][..|block|] == block;
    assert cands[d..][|block|..] == rest;
  }

  lemma CostNonNegative<T>(queue: seq<seq<T>>)
    requires NoEmptyBlock(queue)
    ensures Cost(queue) >= |queue|
  {
  }

  lemma {:induction false} PickAppend<T>(a: seq<T>, fa: seq<bool>, b: seq<T>, fb: seq<bool>, want: bool)
    requires |a| == |fa| && |b| == |fb|
    ensures Pick(a + b, fa + fb, want) == Pick(a, fa, want) + Pick(b, fb, want)
  {
    if a == [] {
      assert a + b == b && fa + fb == fb;
    } else {
      var s, f := a + b, fa + fb;
      assert s[0] == a[0] && f[0] == fa[0];
      assert s[1..] == a[1..] + b && f[1..] == fa[1..] + fb;
      PickAppend(a[1..], fa[1..], b, fb, want);
    }
  }

  lemma {:induction false} PickCounts<T>(s: seq<T>, flags: seq<bool>)
    requires |s| == |flags|
    ensures |Pick(s, flags, true)| + |Pick(s, flags, false)| == |s|
  {
    if s != [] { PickCounts(s[1..], flags[1..]); }
  }

  lemma {:induction false} PickUniform<T>(b: seq<T>, flag: bool)
    ensures Pick(b, seq(|b|, _ => flag), flag) == b
    ensures Pick(b, seq(|b|, _ => flag), !flag) == []
  {
    if b != [] {
      assert seq(|b|, _ => flag)[1..] == seq(|b| - 1, _ => flag);
      PickUniform(b[1..], flag);
    }
  }

  lemma {:induction false} PickExtend<T>(cands: seq<T>, flags: seq<bool>, block: seq<T>, flag: bool)
    requires |flags| + |block| <= |cands| && cands[|flags|..|flags| + |block|] == block
    ensures var d := |flags|; var e := d + |block|;
            && Pick(cands[..e], flags + seq(|block|, _ => flag), flag) == Pick(cands[..d], flags, flag) + block
            && Pick(cands[..e], flags + seq(|block|, _ => flag), !flag) == Pick(cands[..d], flags, !flag)
  {
    var d, e := |flags|, |flags| + |block|;
    assert cands[..e] == cands[..d] + block;
    PickAppend(cands[..d], flags, block, seq(|block|, _ => flag), true);
    PickAppend(cands[..d], flags, block, seq(|block|, _ => flag), false);
    PickUniform(block, flag);
  }

  // ----- subsequences -----

  lemma SubsequenceRefl<T>(a: seq<T>)
    ensures Subsequence(a, a)
  {
  }

  lemma {:induction false} SubsequencePrepend<T>(p: seq<T>, a: seq<T>, b: seq<T>)
    requires Subsequence(a, b)
    ensures Subsequence(p + a, p + b)
  {
    if p == [] {
      assert p + a == a && p + b == b;
    } else {
      SubsequencePrepend(p[1..], a, b);
      assert (p + a)[1..] == p[1..] + a && (p + b)[1..] == p[1..] + b;
    }
  }

  /** A unit that did not fit keeps not fitting as the good set grows. */
  lemma {:induction false} StillRejected<T(!new)>(trial: Oracle<T>, good: seq<T>, block: seq<T>, bad: seq<T>)
    requires ClosedDown(trial) ==> forall c :: c in bad ==> !Links(trial, good + [c])
    ensures ClosedDown(trial) ==> forall c :: c in bad ==> !Links(trial, good + block + [c])
  {
    if ClosedDown(trial) {
      forall c | c in bad
        ensures !Links(trial, good + block + [c])
      {
        SubsequenceTail([c], block);
        SubsequencePrepend(good, [c], block + [c]);
        assert good + (block + [c]) == good + block + [c];
      }
    }
  }

  lemma {:induction false} SubsequenceTail<T>(a: seq<T>, p: seq<T>)
    ensures Subsequence(a, p + a)
  {
    if p == [] {
      assert p + a == a;
      SubsequenceRefl(a);
    } else {
      SubsequenceTail(a, p[1..]);
      assert (p + a)[1..] == p[1..] + a;
      if a != [] && a[0] == p[0] { SubsequenceDropHead(a, p[1..] + a); }
    }
  }

  lemma {:induction false} SubsequenceDropHead<T>(a: seq<T>, b: seq<T>)
    requires a != [] && Subsequence(a, b)
    ensures Subsequence(a[1..], b)
    decreases |b|
  {
    if a[1..] != [] {
      if a[0] == b[0] && Subsequence(a[1..], b[1..]) {
      } else {
        SubsequenceDropHead(a, b[1..]);
      }
    }
  }

  lemma {:induction false} NothingSplitsIntoNothing<T(!new)>(s: seq<T>)
    ensures SplitsInOrder(s, [], []) <==> s == []
  {
    if s == [] {
      assert Pick(s, [], true) == [] && Pick(s, [], false) == [];
    } else if SplitsInOrder(s, [], []) {
      var flags: seq<bool> :| |flags| == |s| && Pick(s, flags, true) == [] && Pick(s, flags, false) == [];
      assert |Pick(s, flags, true)| + |Pick(s, flags, false)| == |s| by { PickCounts(s, flags); }
    }
  }
}
