/**
 The coverage count of `tools/dwarf_data_decl.py`: the variables of a section,
 clipped to it, merged into intervals and added up.
 */
module Coverage {
  import opened Sorting
  import opened Wrappers

  datatype Variable = Variable(addr: int, size: int)

  datatype Interval = Interval(start: int, end: int)

  function Max(a: int, b: int): int { if a < b then b else a }

  function Min(a: int, b: int): int { if b < a then b else a }

  /** What a variable covers: at least a byte, and nothing beyond the section. */
  function Clip(v: Variable, hi: int): Interval {
    Interval(v.addr, Min(v.addr + Max(v.size, 1), hi))
  }

  predicate Before(a: Interval, b: Interval) {
    a.start < b.start || (a.start == b.start && a.end <= b.end)
  }

  function Clipped(vars: seq<Variable>, lo: int, hi: int): seq<Interval> {
    if vars == [] then []
    else (if lo <= vars[0].addr < hi then [Clip(vars[0], hi)] else []) + Clipped(vars[1..], lo, hi)
  }

  /** An address of the section that some variable of the section covers. */
  predicate Covered(vars: seq<Variable>, lo: int, hi: int, x: int) {
    && lo <= x < hi
    && exists i :: 0 <= i < |vars| && lo <= vars[i].addr <= x < vars[i].addr + Max(vars[i].size, 1)
  }

  predicate In(v: Interval, x: int) {
    v.start <= x < v.end
  }

  predicate Within(ivs: seq<Interval>, x: int) {
    exists i :: 0 <= i < |ivs| && In(ivs[i], x)
  }

  predicate NonEmpty(ivs: seq<Interval>) {
    forall i :: 0 <= i < |ivs| ==> ivs[i].start < ivs[i].end
  }

  /** In order, none empty, and no two touching. */
  ghost predicate Apart(ivs: seq<Interval>) {
    && NonEmpty(ivs)
    && (forall i, j :: 0 <= i < j < |ivs| ==> ivs[i].end < ivs[j].start)
  }

  function Total(ivs: seq<Interval>): int {
    if ivs == [] then 0 else Total(ivs[..|ivs| - 1]) + (ivs[|ivs| - 1].end - ivs[|ivs| - 1].start)
  }

  function Pending(merged: seq<Interval>, cur: Option<Interval>): seq<Interval> {
    if cur.None? then merged else merged + [cur.value]
  }

  /** The merging loop's state after the first k intervals. */
  ghost predicate Merging(iv: seq<Interval>, k: nat, merged: seq<Interval>, cur: Option<Interval>)
    requires k <= |iv|
  {
    && Apart(Pending(merged, cur))
    && (cur.None? <==> k == 0) && (cur.None? ==> merged == [])
    && (cur.Some? ==> forall i :: k <= i < |iv| ==> cur.value.start <= iv[i].start)
    && (forall x :: Within(Pending(merged, cur), x) <==> Within(iv[..k], x))
  }

  /** The merging loop and the sum. */
  method Measure(vars: seq<Variable>, lo: int, hi: int) returns (merged: seq<Interval>, cov: int)
    ensures Apart(merged)
    ensures forall x :: Within(merged, x) <==> Covered(vars, lo, hi, x)
    ensures cov == |set x | lo <= x < hi && Covered(vars, lo, hi, x)|
  {
    var iv := Sort(Clipped(vars, lo, hi), Before);
    SortedNonEmpty(vars, lo, hi);
    merged := [];
    var cur: Option<Interval> := None;
    for k := 0 to |iv|
      invariant Merging(iv, k, merged, cur)
    {
      var s, e := iv[k].start, iv[k].end;
      if cur.Some? && s <= cur.value.end {
        Widen(iv, k, merged, cur.value);
        cur := Some(Interval(cur.value.start, Max(cur.value.end, e)));
      } else {
        Start(iv, k, merged, cur);
        if cur.Some? {
          merged := merged + [cur.value];
        }
        cur := Some(Interval(s, e));
      }
    }
    MergingDone(vars, lo, hi, merged, cur);
    if cur.Some? {
      merged := merged + [cur.value];
    }
    cov := Sum(merged);
  }

  method Sum(ivs: seq<Interval>) returns (cov: int)
    ensures cov == Total(ivs)
  {
    cov := 0;
    for k := 0 to |ivs|
      invariant cov == Total(ivs[..k])
    {
      assert ivs[..k + 1][..k] == ivs[..k];
      cov := cov + (ivs[k].end - ivs[k].start);
    }
    assert ivs[..|ivs|] == ivs;
  }

  lemma {:induction false} MergingDone(vars: seq<Variable>, lo: int, hi: int, merged: seq<Interval>,
                                       cur: Option<Interval>)
    requires var iv := Sort(Clipped(vars, lo, hi), Before); Merging(iv, |iv|, merged, cur)
    ensures var all := Pending(merged, cur);
            && Apart(all)
            && (forall x :: Within(all, x) <==> Covered(vars, lo, hi, x))
            && Total(all) == |set x | lo <= x < hi && Covered(vars, lo, hi, x)|
  {
    var iv := Sort(Clipped(vars, lo, hi), Before);
    var all := Pending(merged, cur);
    assert iv[..|iv|] == iv;
    forall x
      ensures Within(all, x) <==> Covered(vars, lo, hi, x)
    {
      SortedWithin(vars, lo, hi, x);
    }
    TotalIsSize(all);
    assert Points(all) == set x | lo <= x < hi && Covered(vars, lo, hi, x);
  }

  lemma {:induction false} ClippedWithin(vars: seq<Variable>, lo: int, hi: int, x: int)
    ensures Within(Clipped(vars, lo, hi), x) <==> Covered(vars, lo, hi, x)
  {
    if vars != [] {
      ClippedWithin(vars[1..], lo, hi, x);
      var rest := Clipped(vars[1..], lo, hi);
      if lo <= vars[0].addr < hi {
        WithinCons(Clip(vars[0], hi), rest, x);
      } else {
        assert [] + rest == rest;
      }
      CoveredCons(vars, lo, hi, x);
    }
  }

  lemma {:induction false} WithinCons(v: Interval, rest: seq<Interval>, x: int)
    ensures Within([v] + rest, x) <==> In(v, x) || Within(rest, x)
  {
    var all := [v] + rest;
    if In(v, x) { assert all[0] == v; }
    if Within(rest, x) {
      var i :| 0 <= i < |rest| && In(rest[i], x);
      assert all[i + 1] == rest[i];
    }
  }

  lemma {:induction false} CoveredCons(vars: seq<Variable>, lo: int, hi: int, x: int)
    requires vars != []
    ensures Covered(vars, lo, hi, x) <==>
              (lo <= x < hi && lo <= vars[0].addr <= x < vars[0].addr + Max(vars[0].size, 1))
              || Covered(vars[1..], lo, hi, x)
  {
    if Covered(vars[1..], lo, hi, x) {
      var i :| 0 <= i < |vars[1..]| && lo <= vars[1..][i].addr <= x < vars[1..][i].addr + Max(vars[1..][i].size, 1);
      assert vars[i + 1] == vars[1..][i];
    }
    if Covered(vars, lo, hi, x) {
      var i :| 0 <= i < |vars| && lo <= vars[i].addr <= x < vars[i].addr + Max(vars[i].size, 1);
      if i > 0 { assert vars[1..][i - 1] == vars[i]; }
    }
  }

  lemma {:induction false} SortedWithin(vars: seq<Variable>, lo: int, hi: int, x: int)
    ensures Within(Sort(Clipped(vars, lo, hi), Before), x) <==> Covered(vars, lo, hi, x)
  {
    var raw := Clipped(vars, lo, hi);
    var iv := Sort(raw, Before);
    SortSorts(raw, Before);
    ClippedWithin(vars, lo, hi, x);
    if Within(raw, x) { SameMembersWithin(raw, iv, x); }
    if Within(iv, x) { SameMembersWithin(iv, raw, x); }
  }

  lemma {:induction false} SameMembersWithin(a: seq<Interval>, b: seq<Interval>, x: int)
    requires multiset(a) == multiset(b) && Within(a, x)
    ensures Within(b, x)
  {
    var i :| 0 <= i < |a| && In(a[i], x);
    assert a[i] in multiset(b);
    var j :| 0 <= j < |b| && b[j] == a[i];
  }

  lemma {:induction false} ClippedNonEmpty(vars: seq<Variable>, lo: int, hi: int)
    ensures NonEmpty(Clipped(vars, lo, hi))
  {
    if vars != [] { ClippedNonEmpty(vars[1..], lo, hi); }
  }

  lemma {:induction false} SortedNonEmpty(vars: seq<Variable>, lo: int, hi: int)
    ensures SortedBy(Sort(Clipped(vars, lo, hi), Before), Before)
    ensures NonEmpty(Sort(Clipped(vars, lo, hi), Before))
  {
    var raw := Clipped(vars, lo, hi);
    var iv := Sort(raw, Before);
    SortSorts(raw, Before);
    ClippedNonEmpty(vars, lo, hi);
    forall i | 0 <= i < |iv|
      ensures iv[i].start < iv[i].end
    {
      assert iv[i] in multiset(raw);
    }
  }

  lemma {:induction false} WithinSnoc(ivs: seq<Interval>, v: Interval, x: int)
    ensures Within(ivs + [v], x) <==> Within(ivs, x) || In(v, x)
  {
    var all := ivs + [v];
    if Within(ivs, x) {
      var i :| 0 <= i < |ivs| && In(ivs[i], x);
      assert all[i] == ivs[i];
    }
    if In(v, x) { assert all[|ivs|] == v; }
  }

  lemma {:induction false} Widen(iv: seq<Interval>, k: nat, merged: seq<Interval>, cur: Interval)
    requires k < |iv| && SortedBy(iv, Before) && NonEmpty(iv)
    requires Merging(iv, k, merged, Some(cur)) && iv[k].start <= cur.end
    ensures Merging(iv, k + 1, merged, Some(Interval(cur.start, Max(cur.end, iv[k].end))))
  {
    var wide := Interval(cur.start, Max(cur.end, iv[k].end));
    assert iv[..k + 1] == iv[..k] + [iv[k]];
    assert (merged + [cur])[|merged|] == cur;
    WidenApart(merged, cur, wide);
    forall x
      ensures Within(merged + [wide], x) <==> Within(iv[..k + 1], x)
    {
      WithinSnoc(iv[..k], iv[k], x);
      WithinSnoc(merged, cur, x);
      WithinSnoc(merged, wide, x);
    }
  }

  lemma {:induction false} WidenApart(merged: seq<Interval>, cur: Interval, wide: Interval)
    requires Apart(merged + [cur]) && wide.start == cur.start && cur.end <= wide.end
    ensures Apart(merged + [wide])
  {
    var a, b := merged + [cur], merged + [wide];
    forall i | 0 <= i < |b|
      ensures b[i].start < b[i].end
    {
      assert a[i].start < a[i].end;
    }
    forall i, j | 0 <= i < j < |b|
      ensures b[i].end < b[j].start
    {
      assert a[i].end < a[j].start;
    }
  }

  lemma {:induction false} Start(iv: seq<Interval>, k: nat, merged: seq<Interval>, cur: Option<Interval>)
    requires k < |iv| && SortedBy(iv, Before) && NonEmpty(iv)
    requires Merging(iv, k, merged, cur) && (cur.Some? ==> cur.value.end < iv[k].start)
    ensures Merging(iv, k + 1, Pending(merged, cur), Some(iv[k]))
  {
    var done := Pending(merged, cur);
    assert iv[..k + 1] == iv[..k] + [iv[k]];
    StartApart(done, iv[k]);
    forall x
      ensures Within(done + [iv[k]], x) <==> Within(iv[..k + 1], x)
    {
      WithinSnoc(iv[..k], iv[k], x);
      WithinSnoc(done, iv[k], x);
    }
  }

  lemma {:induction false} StartApart(done: seq<Interval>, v: Interval)
    requires Apart(done) && v.start < v.end && (done != [] ==> done[|done| - 1].end < v.start)
    ensures Apart(done + [v])
  {
    var b := done + [v];
    forall i, j | 0 <= i < j < |b|
      ensures b[i].end < b[j].start
    {
      if j == |done| && i < |done| - 1 { assert done[i].end < done[|done| - 1].start; }
    }
  }

  // ----- counting addresses -----

  function Span(v: Interval): set<int> {
    set x | v.start <= x < v.end && In(v, x)
  }

  lemma {:induction false} SpanSize(v: Interval)
    requires v.start <= v.end
    ensures |Span(v)| == v.end - v.start
    decreases v.end - v.start
  {
    if v.start == v.end {
      assert Span(v) == {};
    } else {
      var w := Interval(v.start, v.end - 1);
      SpanSize(w);
      assert Span(v) == Span(w) + {v.end - 1};
    }
  }

  function Points(ivs: seq<Interval>): (s: set<int>)
    ensures forall x :: x in s <==> Within(ivs, x)
  {
    if ivs == [] then {}
    else
      var init, last := ivs[..|ivs| - 1], ivs[|ivs| - 1];
      assert ivs == init + [last];
      assert forall x :: Within(init + [last], x) <==> Within(init, x) || In(last, x) by {
        forall x
          ensures Within(init + [last], x) <==> Within(init, x) || In(last, x)
        {
          WithinSnoc(init, last, x);
        }
      }
      Points(init) + Span(last)
  }

  /** Of intervals that do not overlap, the lengths add up to the number of addresses. */
  lemma {:induction false} TotalIsSize(ivs: seq<Interval>)
    requires Apart(ivs)
    ensures Total(ivs) == |Points(ivs)|
  {
    if ivs != [] {
      var init, last := ivs[..|ivs| - 1], ivs[|ivs| - 1];
      TotalIsSize(init);
      SpanSize(last);
      forall x | x in Points(init)
        ensures x !in Span(last)
      {
        var i :| 0 <= i < |init| && In(init[i], x);
        assert ivs[i].end < last.start;
      }
      assert Points(init) * Span(last) == {};
    }
  }
}
