/**
 Functions to source files, in `tools/dwarf_splits.py`: headers absorbed into
 the file around them, and functions in a row gathered into runs.
 */
module HeaderRuns {
  import opened Sorting
  import opened TextOrder
  import opened Wrappers

  datatype Func = Func(lo: int, hi: int, file: string)

  // ----- the order functions are sorted in -----

  predicate FuncLe(a: Func, b: Func) {
    a.lo < b.lo || (a.lo == b.lo && (a.hi < b.hi || (a.hi == b.hi && TextLe(a.file, b.file))))
  }

  lemma {:induction false} FuncOrder()
    ensures Ordering(FuncLe)
  {
    forall a: Func, b: Func
      ensures FuncLe(a, b) || FuncLe(b, a)
    {
      TextTotal(a.file, b.file);
    }
    forall a: Func, b: Func, c: Func | FuncLe(a, b) && FuncLe(b, c)
      ensures FuncLe(a, c)
    {
      FuncTransitive(a, b, c);
    }
  }

  lemma {:induction false} FuncTransitive(a: Func, b: Func, c: Func)
    requires FuncLe(a, b) && FuncLe(b, c)
    ensures FuncLe(a, c)
  {
    if TextLe(a.file, b.file) && TextLe(b.file, c.file) { TextTransitive(a.file, b.file, c.file); }
  }

  // ----- headers -----

  // In what follows, src tells source files from headers.

  /** The nearest source file before function k. */
  function LeftOf(src: string -> bool, fns: seq<Func>, k: nat): Option<string>
    requires k <= |fns|
  {
    if k == 0 then None
    else if src(fns[k - 1].file) then Some(fns[k - 1].file)
    else LeftOf(src, fns, k - 1)
  }

  /** The nearest source file from function k on. */
  function RightOf(src: string -> bool, fns: seq<Func>, k: nat): Option<string>
    requires k <= |fns|
    decreases |fns| - k
  {
    if k == |fns| then None
    else if src(fns[k].file) then Some(fns[k].file)
    else RightOf(src, fns, k + 1)
  }

  /** A header's function whose neighbours on both sides are one source file. */
  predicate Bracketed(src: string -> bool, fns: seq<Func>, k: nat)
    requires k < |fns|
  {
    !src(fns[k].file) && LeftOf(src, fns, k).Some? && LeftOf(src, fns, k) == RightOf(src, fns, k)
  }

  function Given(src: string -> bool, fns: seq<Func>, k: nat): Func
    requires k < |fns|
  {
    if Bracketed(src, fns, k) then fns[k].(file := LeftOf(src, fns, k).value) else fns[k]
  }

  function Absorbed(src: string -> bool, fns: seq<Func>): (out: seq<Func>)
    ensures |out| == |fns|
    ensures forall k :: 0 <= k < |fns| ==> out[k] == Given(src, fns, k)
  {
    seq(|fns|, k requires 0 <= k < |fns| => Given(src, fns, k))
  }

  function CountHeaders(src: string -> bool, fns: seq<Func>, n: nat): nat
    requires n <= |fns|
  {
    if n == 0 then 0 else CountHeaders(src, fns, n - 1) + if src(fns[n - 1].file) then 0 else 1
  }

  function CountBracketed(src: string -> bool, fns: seq<Func>, n: nat): nat
    requires n <= |fns|
  {
    if n == 0 then 0 else CountBracketed(src, fns, n - 1) + if Bracketed(src, fns, n - 1) then 1 else 0
  }

  ghost predicate HeadersOnly(src: string -> bool, fns: seq<Func>, i: nat, j: nat)
    requires i <= j <= |fns|
  {
    forall k :: i <= k < j ==> !src(fns[k].file)
  }

  /** From i to j is a block of headers that ends, on both sides, at a source file or the edge. */
  ghost predicate Block(src: string -> bool, fns: seq<Func>, i: nat, j: nat) {
    && i <= j <= |fns| && HeadersOnly(src, fns, i, j)
    && (i == 0 || src(fns[i - 1].file)) && (j == |fns| || src(fns[j].file))
  }

  /** The loop's progress: everything before i is settled, nothing after it is touched. */
  ghost predicate Settled(src: string -> bool, fns: seq<Func>, out: seq<Func>, i: nat) {
    && |out| == |fns| && i <= |fns|
    && (forall k :: 0 <= k < i ==> out[k] == Given(src, fns, k))
    && (forall k :: i <= k < |fns| ==> out[k] == fns[k])
  }

  lemma {:induction false} SettledNext(src: string -> bool, fns: seq<Func>, out: seq<Func>, k: nat, f: Func)
    requires k < |fns| && Settled(src, fns, out, k) && f == Given(src, fns, k)
    ensures Settled(src, fns, out[k := f], k + 1)
  {
  }

  lemma {:induction false} SettledKept(src: string -> bool, fns: seq<Func>, out: seq<Func>, i: nat, j: nat)
    requires i <= j <= |fns| && Settled(src, fns, out, i)
    requires forall k :: i <= k < j ==> Given(src, fns, k) == fns[k]
    ensures Settled(src, fns, out, j)
  {
  }

  /** `absorb_headers`. */
  method AbsorbHeaders(src: string -> bool, funcs: seq<Func>) returns (out: seq<Func>, moved: nat, total: nat)
    ensures var fns := Sort(funcs, FuncLe);
            && out == Absorbed(src, fns)
            && moved == CountBracketed(src, fns, |fns|)
            && total == CountHeaders(src, fns, |fns|)
  {
    var fns := Sort(funcs, FuncLe);
    out := fns;
    var n := |fns|;
    moved, total := 0, 0;
    var i := 0;
    while i < n
      invariant Settled(src, fns, out, i)
      invariant i == 0 || i == n || src(fns[i - 1].file) || src(fns[i].file)
      invariant moved == CountBracketed(src, fns, i) && total == CountHeaders(src, fns, i)
    {
      if src(fns[i].file) {
        i := i + 1;
        continue;
      }
      var j := i;
      while j < n && !src(fns[j].file)
        invariant i <= j <= n && HeadersOnly(src, fns, i, j)
      {
        j := j + 1;
      }
      total := total + (j - i);
      var left := if i > 0 then Some(fns[i - 1].file) else None;
      var right := if j < n then Some(fns[j].file) else None;
      BlockSettles(src, fns, i, j, left, right);
      if left.Some? && left == right {
        for k := i to j
          invariant Settled(src, fns, out, k)
        {
          SettledNext(src, fns, out, k, Func(fns[k].lo, fns[k].hi, left.value));
          out := out[k := Func(fns[k].lo, fns[k].hi, left.value)];
        }
        moved := moved + (j - i);
      } else {
        SettledKept(src, fns, out, i, j);
      }
      i := j;
    }
  }

  lemma {:induction false} BlockLeft(src: string -> bool, fns: seq<Func>, i: nat, j: nat, k: nat)
    requires Block(src, fns, i, j) && i <= k <= j
    ensures LeftOf(src, fns, k) == if i > 0 then Some(fns[i - 1].file) else None
  {
    if k > i { BlockLeft(src, fns, i, j, k - 1); }
  }

  lemma {:induction false} BlockRight(src: string -> bool, fns: seq<Func>, i: nat, j: nat, k: nat)
    requires Block(src, fns, i, j) && i <= k <= j
    ensures RightOf(src, fns, k) == if j < |fns| then Some(fns[j].file) else None
    decreases j - k
  {
    if k < j { BlockRight(src, fns, i, j, k + 1); }
  }

  lemma {:induction false} BlockNeighbours(src: string -> bool, fns: seq<Func>, i: nat, j: nat)
    requires Block(src, fns, i, j)
    ensures forall k :: i <= k < j ==>
              LeftOf(src, fns, k) == (if i > 0 then Some(fns[i - 1].file) else None)
              && RightOf(src, fns, k) == (if j < |fns| then Some(fns[j].file) else None)
  {
    forall k | i <= k < j
      ensures LeftOf(src, fns, k) == (if i > 0 then Some(fns[i - 1].file) else None)
              && RightOf(src, fns, k) == (if j < |fns| then Some(fns[j].file) else None)
    {
      BlockLeft(src, fns, i, j, k);
      BlockRight(src, fns, i, j, k);
    }
  }

  lemma {:induction false} BlockCounts(src: string -> bool, fns: seq<Func>, i: nat, j: nat, all: bool)
    requires i <= j <= |fns| && HeadersOnly(src, fns, i, j)
    requires forall k :: i <= k < j ==> (Bracketed(src, fns, k) <==> all)
    ensures CountHeaders(src, fns, j) == CountHeaders(src, fns, i) + (j - i)
    ensures CountBracketed(src, fns, j) == CountBracketed(src, fns, i) + if all then j - i else 0
    decreases j
  {
    if i < j { BlockCounts(src, fns, i, j - 1, all); }
  }

  /** What the loop does to a block is what each of its functions is given. */
  lemma {:induction false} BlockSettles(src: string -> bool, fns: seq<Func>, i: nat, j: nat, left: Option<string>,
                                        right: Option<string>)
    requires Block(src, fns, i, j)
    requires left == (if i > 0 then Some(fns[i - 1].file) else None)
    requires right == (if j < |fns| then Some(fns[j].file) else None)
    ensures var moves := left.Some? && left == right;
            && CountHeaders(src, fns, j) == CountHeaders(src, fns, i) + (j - i)
            && CountBracketed(src, fns, j) == CountBracketed(src, fns, i) + (if moves then j - i else 0)
            && forall k :: i <= k < j ==>
                 Given(src, fns, k) == if moves then Func(fns[k].lo, fns[k].hi, left.value) else fns[k]
  {
    BlockNeighbours(src, fns, i, j);
    BlockCounts(src, fns, i, j, left.Some? && left == right);
  }

  /** Addresses and order stay; only headers' functions change, and each to the source files on both its sides. */
  lemma {:induction false} AbsorbConserves(src: string -> bool, funcs: seq<Func>, k: nat)
    requires k < |funcs|
    ensures var fns := Sort(funcs, FuncLe);
            var out := Absorbed(src, fns);
            && multiset(fns) == multiset(funcs) && |out| == |fns| == |funcs|
            && out[k].lo == fns[k].lo && out[k].hi == fns[k].hi
            && (out[k] != fns[k] ==> !src(fns[k].file) && src(out[k].file)
                                     && Some(out[k].file) == LeftOf(src, fns, k) == RightOf(src, fns, k))
  {
    FuncOrder();
    SortSorts(funcs, FuncLe);
    LeftIsSource(src, Sort(funcs, FuncLe), k);
  }

  lemma {:induction false} LeftIsSource(src: string -> bool, fns: seq<Func>, k: nat)
    requires k <= |fns|
    ensures LeftOf(src, fns, k).Some? ==> src(LeftOf(src, fns, k).value)
  {
    if k > 0 { LeftIsSource(src, fns, k - 1); }
  }

  /** A block of headers moves as one, or stays as one: exactly if one source file is on both its sides. */
  lemma {:induction false} BlockMovesWhole(src: string -> bool, fns: seq<Func>, i: nat, j: nat, k: nat)
    requires Block(src, fns, i, j) && i <= k < j
    ensures Absorbed(src, fns)[k] != fns[k] <==> 0 < i && j < |fns| && fns[i - 1].file == fns[j].file
    ensures Absorbed(src, fns)[k] != fns[k] ==> Absorbed(src, fns)[k] == fns[k].(file := fns[j].file)
  {
    BlockNeighbours(src, fns, i, j);
    if 0 < i && j < |fns| && fns[i - 1].file == fns[j].file {
      assert src(fns[j].file) && !src(fns[k].file);
    }
  }

  // ----- a second application -----

  /** What follows a moved header is the file it moved to. */
  lemma {:induction false} NextGiven(src: string -> bool, fns: seq<Func>, k: nat)
    requires k + 1 < |fns| && Bracketed(src, fns, k)
    ensures Given(src, fns, k + 1).file == LeftOf(src, fns, k).value
  {
    assert RightOf(src, fns, k) == RightOf(src, fns, k + 1) && LeftOf(src, fns, k + 1) == LeftOf(src, fns, k);
    if src(fns[k + 1].file) {
      assert RightOf(src, fns, k + 1) == Some(fns[k + 1].file);
    } else {
      assert Bracketed(src, fns, k + 1);
    }
  }

  /** Neighbours in the list stay in order. */
  lemma {:induction false} AbsorbedStep(src: string -> bool, fns: seq<Func>, k: nat)
    requires SortedBy(fns, FuncLe) && k + 1 < |fns|
    ensures FuncLe(Given(src, fns, k), Given(src, fns, k + 1))
  {
    var a, b := fns[k], fns[k + 1];
    assert FuncLe(a, b);
    if Bracketed(src, fns, k) {
      TextTotal(LeftOf(src, fns, k).value, LeftOf(src, fns, k).value);
      NextGiven(src, fns, k);
    } else if Bracketed(src, fns, k + 1) {
      TextTotal(a.file, a.file);
    }
  }

  lemma {:induction false} AbsorbedOrder(src: string -> bool, fns: seq<Func>, i: nat, j: nat)
    requires SortedBy(fns, FuncLe) && i < j < |fns|
    ensures FuncLe(Given(src, fns, i), Given(src, fns, j))
    decreases j
  {
    AbsorbedStep(src, fns, j - 1);
    if i < j - 1 {
      AbsorbedOrder(src, fns, i, j - 1);
      FuncTransitive(Given(src, fns, i), Given(src, fns, j - 1), Given(src, fns, j));
    }
  }

  lemma {:induction false} AbsorbedSorted(src: string -> bool, fns: seq<Func>)
    requires SortedBy(fns, FuncLe)
    ensures SortedBy(Absorbed(src, fns), FuncLe)
  {
    forall i, j | 0 <= i < j < |fns|
      ensures FuncLe(Absorbed(src, fns)[i], Absorbed(src, fns)[j])
    {
      AbsorbedOrder(src, fns, i, j);
    }
  }

  /** What is left a header has the neighbours it had. */
  lemma {:induction false} SameLeft(src: string -> bool, fns: seq<Func>, k: nat)
    requires k < |fns| && !src(Absorbed(src, fns)[k].file)
    ensures LeftOf(src, Absorbed(src, fns), k) == LeftOf(src, fns, k)
  {
    LeftIsSource(src, fns, k);
    if k > 0 {
      if !src(fns[k - 1].file) {
        SameLeftStep(src, fns, k);
        SameLeft(src, fns, k - 1);
      }
    }
  }

  lemma {:induction false} SameLeftStep(src: string -> bool, fns: seq<Func>, k: nat)
    requires 0 < k < |fns| && !src(Absorbed(src, fns)[k].file) && !src(fns[k - 1].file)
    ensures !src(Absorbed(src, fns)[k - 1].file)
  {
    LeftIsSource(src, fns, k);
    assert !src(fns[k].file) && !Bracketed(src, fns, k);
    assert LeftOf(src, fns, k) == LeftOf(src, fns, k - 1) && RightOf(src, fns, k - 1) == RightOf(src, fns, k);
    assert !Bracketed(src, fns, k - 1);
  }

  lemma {:induction false} SameRight(src: string -> bool, fns: seq<Func>, k: nat)
    requires k < |fns| && !src(Absorbed(src, fns)[k].file)
    ensures RightOf(src, Absorbed(src, fns), k) == RightOf(src, fns, k)
    decreases |fns| - k
  {
    LeftIsSource(src, fns, k);
    assert !src(fns[k].file) && !Bracketed(src, fns, k);
    if k + 1 < |fns| && !src(fns[k + 1].file) {
      assert LeftOf(src, fns, k + 1) == LeftOf(src, fns, k) && RightOf(src, fns, k) == RightOf(src, fns, k + 1);
      assert !Bracketed(src, fns, k + 1);
      SameRight(src, fns, k + 1);
    }
  }

  lemma {:induction false} NothingLeft(src: string -> bool, fns: seq<Func>, k: nat)
    requires k < |fns|
    ensures !Bracketed(src, Absorbed(src, fns), k)
  {
    var out := Absorbed(src, fns);
    if !src(out[k].file) {
      LeftIsSource(src, fns, k);
      SameLeft(src, fns, k);
      SameRight(src, fns, k);
    }
  }

  lemma {:induction false} NoneBracketed(src: string -> bool, fns: seq<Func>, n: nat)
    requires n <= |fns| && forall k :: 0 <= k < |fns| ==> !Bracketed(src, fns, k)
    ensures CountBracketed(src, fns, n) == 0
  {
    if n > 0 { NoneBracketed(src, fns, n - 1); }
  }

  /** Absorbing a second time changes nothing and moves nothing. */
  lemma {:induction false} AbsorbTwice(src: string -> bool, funcs: seq<Func>)
    ensures var once := Absorbed(src, Sort(funcs, FuncLe));
            && Sort(once, FuncLe) == once
            && Absorbed(src, once) == once
            && CountBracketed(src, once, |once|) == 0
  {
    var fns := Sort(funcs, FuncLe);
    var once := Absorbed(src, fns);
    FuncOrder();
    SortSorts(funcs, FuncLe);
    AbsorbedSorted(src, fns);
    SortOfSorted(once, FuncLe);
    forall k | 0 <= k < |once|
      ensures !Bracketed(src, once, k)
    {
      NothingLeft(src, fns, k);
    }
    NoneBracketed(src, once, |once|);
  }

  // ----- runs -----

  datatype Run = Run(lo: int, hi: int, file: string, count: nat)

  function MaxHi(fs: seq<Func>): int
    requires fs != []
  {
    if |fs| == 1 then fs[0].hi
    else
      var before := MaxHi(fs[..|fs| - 1]);
      if fs[|fs| - 1].hi > before then fs[|fs| - 1].hi else before
  }

  /** The functions of a run: one file, each at most 64 bytes past the ones before it. */
  ghost predicate RunOf(r: Run, fs: seq<Func>) {
    && fs != [] && r.count == |fs|
    && (forall k :: 0 <= k < |fs| ==> fs[k].file == r.file)
    && r.lo == fs[0].lo && r.hi == MaxHi(fs)
    && (forall k :: 0 < k < |fs| ==> fs[k].lo <= MaxHi(fs[..k]) + 64)
  }

  /** The functions fall apart into the runs, in order; each run goes as far as it can. */
  ghost predicate Partitioned(runs: seq<Run>, funcs: seq<Func>)
    decreases |runs|
  {
    && (runs == [] ==> funcs == [])
    && (runs != [] ==>
          var last := runs[|runs| - 1];
          && last.count <= |funcs|
          && RunOf(last, funcs[|funcs| - last.count..])
          && Partitioned(runs[..|runs| - 1], funcs[..|funcs| - last.count])
          && (|runs| > 1 ==> !Joins(runs[|runs| - 2], funcs[|funcs| - last.count])))
  }

  predicate Joins(r: Run, f: Func) {
    r.file == f.file && f.lo <= r.hi + 64
  }

  function Grown(r: Run, f: Func): Run {
    Run(r.lo, if f.hi > r.hi then f.hi else r.hi, r.file, r.count + 1)
  }

  /** `runs_of`. */
  method RunsOf(funcs: seq<Func>) returns (runs: seq<Run>)
    ensures Partitioned(runs, funcs)
  {
    runs := [];
    for k := 0 to |funcs|
      invariant Partitioned(runs, funcs[..k])
    {
      var f := funcs[k];
      RunStep(runs, funcs, k);
      if runs != [] && runs[|runs| - 1].file == f.file && f.lo <= runs[|runs| - 1].hi + 64 {
        runs := runs[|runs| - 1 := Grown(runs[|runs| - 1], f)];
      } else {
        runs := runs + [Run(f.lo, f.hi, f.file, 1)];
      }
    }
    assert funcs[..|funcs|] == funcs;
  }

  lemma {:induction false} RunStep(runs: seq<Run>, funcs: seq<Func>, k: nat)
    requires k < |funcs| && Partitioned(runs, funcs[..k])
    ensures runs != [] && Joins(runs[|runs| - 1], funcs[k]) ==>
              Partitioned(runs[|runs| - 1 := Grown(runs[|runs| - 1], funcs[k])], funcs[..k + 1])
    ensures !(runs != [] && Joins(runs[|runs| - 1], funcs[k])) ==>
              Partitioned(runs + [Run(funcs[k].lo, funcs[k].hi, funcs[k].file, 1)], funcs[..k + 1])
  {
    assert funcs[..k + 1] == funcs[..k] + [funcs[k]];
    if runs != [] && Joins(runs[|runs| - 1], funcs[k]) {
      RunGrows(runs, funcs[..k], funcs[k]);
    } else {
      RunStarts(runs, funcs[..k], funcs[k]);
    }
  }

  lemma {:induction false} RunLonger(r: Run, fs: seq<Func>, f: Func)
    requires RunOf(r, fs) && Joins(r, f)
    ensures RunOf(Grown(r, f), fs + [f])
  {
    var gs := fs + [f];
    assert gs[..|gs| - 1] == fs;
    forall k | 0 < k < |gs|
      ensures gs[k].lo <= MaxHi(gs[..k]) + 64
    {
      if k < |fs| { assert gs[..k] == fs[..k]; }
    }
  }

  lemma {:induction false} RunGrows(runs: seq<Run>, fs: seq<Func>, f: Func)
    requires Partitioned(runs, fs) && runs != [] && Joins(runs[|runs| - 1], f)
    ensures Partitioned(runs[|runs| - 1 := Grown(runs[|runs| - 1], f)], fs + [f])
  {
    LastGrows(runs, runs[|runs| - 1], fs, |fs| - runs[|runs| - 1].count, f);
  }

  lemma {:induction false} LastGrows(runs: seq<Run>, cur: Run, fs: seq<Func>, at: nat, f: Func)
    requires runs != [] && cur == runs[|runs| - 1] && Joins(cur, f)
    requires at < |fs| && cur.count == |fs| - at && RunOf(cur, fs[at..])
    requires Partitioned(runs[..|runs| - 1], fs[..at])
    requires |runs| > 1 ==> !Joins(runs[|runs| - 2], fs[at])
    ensures Partitioned(runs[|runs| - 1 := Grown(cur, f)], fs + [f])
  {
    RunLonger(cur, fs[at..], f);
    Extended(runs, Grown(cur, f), fs, at, [f]);
    LastReplaced(runs, Grown(cur, f), fs + [f], at);
  }

  lemma {:induction false} LastReplaced(runs: seq<Run>, r: Run, gs: seq<Func>, at: nat)
    requires runs != [] && r.file == runs[|runs| - 1].file
    requires at < |gs| && r.count == |gs| - at && RunOf(r, gs[at..])
    requires Partitioned(runs[..|runs| - 1], gs[..at])
    requires |runs| > 1 ==> !Joins(runs[|runs| - 2], gs[at])
    ensures Partitioned(runs[|runs| - 1 := r], gs)
  {
    var all := runs[|runs| - 1 := r];
    assert all[..|all| - 1] == runs[..|runs| - 1];
    WithLast(all, r, gs, at);
  }

  lemma {:induction false} WithLast(all: seq<Run>, r: Run, gs: seq<Func>, at: nat)
    requires all != [] && all[|all| - 1] == r
    requires at < |gs| && r.count == |gs| - at && RunOf(r, gs[at..])
    requires Partitioned(all[..|all| - 1], gs[..at])
    requires |all| > 1 ==> !Joins(all[|all| - 2], gs[at])
    ensures Partitioned(all, gs)
  {
  }

  lemma {:induction false} Extended(runs: seq<Run>, r: Run, fs: seq<Func>, at: nat, more: seq<Func>)
    requires at <= |fs| && runs != []
    ensures (fs + more)[at..] == fs[at..] + more && (fs + more)[..at] == fs[..at]
    ensures runs[|runs| - 1 := r][..|runs| - 1] == runs[..|runs| - 1]
  {
  }

  lemma {:induction false} RunStarts(runs: seq<Run>, fs: seq<Func>, f: Func)
    requires Partitioned(runs, fs) && (runs != [] ==> !Joins(runs[|runs| - 1], f))
    ensures Partitioned(runs + [Run(f.lo, f.hi, f.file, 1)], fs + [f])
  {
    var all := runs + [Run(f.lo, f.hi, f.file, 1)];
    assert all[..|all| - 1] == runs;
    assert (fs + [f])[|fs|..] == [f] && (fs + [f])[..|fs|] == fs;
  }

  function CountAll(runs: seq<Run>): nat {
    if runs == [] then 0 else CountAll(runs[..|runs| - 1]) + runs[|runs| - 1].count
  }

  lemma {:induction false} MaxHiBounds(fs: seq<Func>, k: nat)
    requires k < |fs|
    ensures fs[k].hi <= MaxHi(fs)
  {
    if |fs| > 1 && k < |fs| - 1 { MaxHiBounds(fs[..|fs| - 1], k); }
  }

  /** A run of functions that do not end before they begin does not either; if they are not empty, neither is it. */
  lemma {:induction false} RunsAreProper(runs: seq<Run>, funcs: seq<Func>, r: Run)
    requires Partitioned(runs, funcs) && r in runs
    ensures (forall f :: f in funcs ==> f.lo <= f.hi) ==> r.lo <= r.hi
    ensures (forall f :: f in funcs ==> f.lo < f.hi) ==> r.lo < r.hi
    decreases |runs|
  {
    var last, init := runs[|runs| - 1], runs[..|runs| - 1];
    var at := |funcs| - last.count;
    if r == last {
      assert funcs[at..][0] == funcs[at] && funcs[at] in funcs;
      MaxHiBounds(funcs[at..], 0);
    } else {
      assert runs == init + [last];
      assert forall f :: f in funcs[..at] ==> f in funcs;
      RunsAreProper(init, funcs[..at], r);
    }
  }

  /** No function is lost or counted twice, and a run's functions are all of its file. */
  lemma {:induction false} RunsConserve(runs: seq<Run>, funcs: seq<Func>)
    requires Partitioned(runs, funcs)
    ensures CountAll(runs) == |funcs|
    ensures forall k :: 0 <= k < |runs| ==> exists f :: f in funcs && f.file == runs[k].file && f.lo == runs[k].lo
    decreases |runs|
  {
    if runs != [] {
      var last := runs[|runs| - 1];
      var at := |funcs| - last.count;
      RunsConserve(runs[..|runs| - 1], funcs[..at]);
      assert funcs[at..][0] == funcs[at];
      forall k | 0 <= k < |runs|
        ensures exists f :: f in funcs && f.file == runs[k].file && f.lo == runs[k].lo
      {
        if k < |runs| - 1 {
          assert runs[..|runs| - 1][k] == runs[k];
          var f :| f in funcs[..at] && f.file == runs[k].file && f.lo == runs[k].lo;
          assert f in funcs;
        } else {
          assert funcs[at] in funcs;
        }
      }
    }
  }
}
