/** Cutting unity units into source files and remainders, in `tools/dwarf_splits.py`. */
module SplitPlan {
  import opened HeaderRuns
  import opened Sorting
  import opened TextOrder
  import opened Wrappers

  /** The text of a unity unit, or of a piece of one. */
  datatype Range = Range(name: string, lo: int, hi: int)

  datatype Segment = Segment(parent: string, lo: int, hi: int, count: nat, source: Option<string>)

  /** The parents' ranges, the runs, which names are sources, and how many may be taken. */
  datatype Setup = Setup(ranges: seq<Range>, runs: seq<Run>, src: string -> bool, limit: int)

  predicate Inside(r: Run, range: Range) {
    range.lo <= r.lo && r.hi <= range.hi
  }

  predicate InSome(ranges: seq<Range>, r: Run) {
    exists k :: 0 <= k < |ranges| && Inside(r, ranges[k])
  }

  /** How many runs of a file lie inside the parents. */
  function CountOf(ranges: seq<Range>, runs: seq<Run>, file: string): nat {
    if runs == [] then 0
    else
      var last := runs[|runs| - 1];
      CountOf(ranges, runs[..|runs| - 1], file) + if last.file == file && InSome(ranges, last) then 1 else 0
  }

  predicate RunLe(a: Run, b: Run) {
    || a.lo < b.lo
    || (a.lo == b.lo && a.hi < b.hi)
    || (a.lo == b.lo && a.hi == b.hi && TextLe(a.file, b.file) && (a.file == b.file ==> a.count <= b.count))
  }

  function InRange(runs: seq<Run>, range: Range): seq<Run> {
    if runs == [] then [] else (if Inside(runs[0], range) then [runs[0]] else []) + InRange(runs[1..], range)
  }

  predicate Eligible(s: Setup, r: Run) {
    CountOf(s.ranges, s.runs, r.file) == 1 && s.src(r.file)
  }

  /** How often a file, or any file, is taken in the first n. */
  function TimesFirst(out: seq<Segment>, file: Option<string>, n: nat): nat
    requires n <= |out|
  {
    if n == 0 then 0 else TimesFirst(out, file, n - 1) + One(out[n - 1], file)
  }

  function One(g: Segment, file: Option<string>): nat {
    if g.source.Some? && (file.None? || g.source == file) then 1 else 0
  }

  function Taken(out: seq<Segment>): nat {
    TimesFirst(out, None, |out|)
  }

  function Times(out: seq<Segment>, file: string): nat {
    TimesFirst(out, Some(file), |out|)
  }

  function Remainder(name: string, lo: int, hi: int): seq<Segment> {
    if lo < hi then [Segment(name, lo, hi, 0, None)] else []
  }

  function Attributed(name: string, r: Run): Segment {
    Segment(name, r.lo, r.hi, r.count, Some(r.file))
  }

  /** What is laid out from `cursor` on, with `taken` files taken already. */
  function Fill(s: Setup, name: string, here: seq<Run>, cursor: int, taken: nat, hi: int): seq<Segment> {
    if here == [] then Remainder(name, cursor, hi)
    else if !Eligible(s, here[0]) || here[0].lo < cursor then Fill(s, name, here[1..], cursor, taken, hi)
    else if taken >= s.limit then Remainder(name, cursor, hi)
    else Remainder(name, cursor, here[0].lo) + [Attributed(name, here[0])]
         + Fill(s, name, here[1..], here[0].hi, taken + 1, hi)
  }

  function Part(s: Setup, range: Range, taken: nat): seq<Segment> {
    Fill(s, range.name, Sort(InRange(s.runs, range), RunLe), range.lo, taken, range.hi)
  }

  /** Parts laid out one behind the other, each after what has been taken before it. */
  function LayOut(part: (Range, nat) -> seq<Segment>, ranges: seq<Range>, k: nat): seq<Segment>
    requires k <= |ranges|
  {
    if k == 0 then []
    else LayOut(part, ranges, k - 1) + part(ranges[k - 1], Taken(LayOut(part, ranges, k - 1)))
  }

  function Filling(s: Setup): (Range, nat) -> seq<Segment> {
    (range: Range, taken: nat) => Part(s, range, taken)
  }

  /** The plan for the first k ranges. */
  function PlanOf(s: Setup, k: nat): seq<Segment>
    requires k <= |s.ranges|
  {
    LayOut(Filling(s), s.ranges, k)
  }

  function Lookup(count: map<string, nat>, file: string): nat {
    if file in count then count[file] else 0
  }

  /** `plan`. */
  method Plan(s: Setup) returns (out: seq<Segment>)
    ensures out == PlanOf(s, |s.ranges|)
  {
    var count := CountRuns(s);
    out := [];
    for k := 0 to |s.ranges|
      invariant out == PlanOf(s, k)
    {
      var range := s.ranges[k];
      var here := Sort(InRange(s.runs, range), RunLe);
      out := PlanRange(s, range, here, count, out);
    }
  }

  method CountRuns(s: Setup) returns (count: map<string, nat>)
    ensures forall f :: Lookup(count, f) == CountOf(s.ranges, s.runs, f)
  {
    count := map[];
    for k := 0 to |s.runs|
      invariant forall f :: Lookup(count, f) == CountOf(s.ranges, s.runs[..k], f)
    {
      var r := s.runs[k];
      assert s.runs[..k + 1][..k] == s.runs[..k];
      if InSome(s.ranges, r) {
        count := count[r.file := Lookup(count, r.file) + 1];
      }
    }
    assert s.runs[..|s.runs|] == s.runs;
  }

  method PlanRange(s: Setup, range: Range, here: seq<Run>, count: map<string, nat>, before: seq<Segment>)
    returns (out: seq<Segment>)
    requires forall f :: Lookup(count, f) == CountOf(s.ranges, s.runs, f)
    ensures out == before + Fill(s, range.name, here, range.lo, Taken(before), range.hi)
  {
    out := before;
    var cursor := range.lo;
    var n := 0;
    assert here[0..] == here;
    while n < |here|
      invariant n <= |here|
      invariant before + Fill(s, range.name, here, range.lo, Taken(before), range.hi)
                == out + Fill(s, range.name, here[n..], cursor, Taken(out), range.hi)
    {
      var r := here[n];
      assert here[n..][0] == r && here[n..][1..] == here[n + 1..];
      n := n + 1;
      if Lookup(count, r.file) != 1 { continue; }
      if !s.src(r.file) { continue; }
      if r.lo < cursor { continue; }
      if Taken(out) >= s.limit {
        if cursor < range.hi {
          out := out + [Segment(range.name, cursor, range.hi, 0, None)];
        } else {
          assert out + [] == out;
        }
        return;
      }
      FillStep(s, range.name, here[n..], cursor, range.hi, r, out);
      if r.lo > cursor {
        out := out + [Segment(range.name, cursor, r.lo, 0, None)];
      }
      out := out + [Segment(range.name, r.lo, r.hi, r.count, Some(r.file))];
      cursor := r.hi;
    }
    if cursor < range.hi {
      out := out + [Segment(range.name, cursor, range.hi, 0, None)];
    } else {
      assert out + [] == out;
    }
  }

  lemma {:induction false} TimesPrefix(a: seq<Segment>, b: seq<Segment>, file: Option<string>, n: nat)
    requires n <= |a|
    ensures TimesFirst(a + b, file, n) == TimesFirst(a, file, n)
  {
    if n > 0 { TimesPrefix(a, b, file, n - 1); }
  }

  lemma {:induction false} TimesJoined(a: seq<Segment>, b: seq<Segment>, file: Option<string>, n: nat)
    requires n <= |b|
    ensures TimesFirst(a + b, file, |a| + n) == TimesFirst(a, file, |a|) + TimesFirst(b, file, n)
  {
    if n == 0 { TimesPrefix(a, b, file, |a|); } else { TimesJoined(a, b, file, n - 1); }
  }

  lemma {:induction false} TakenAppend(a: seq<Segment>, b: seq<Segment>)
    ensures Taken(a + b) == Taken(a) + Taken(b)
  {
    TimesJoined(a, b, None, |b|);
  }

  lemma {:induction false} TakenSnoc(out: seq<Segment>, g: Segment)
    ensures Taken(out + [g]) == Taken(out) + if g.source.Some? then 1 else 0
  {
    TakenAppend(out, [g]);
    assert TimesFirst([g], None, 1) == One(g, None);
  }

  lemma {:induction false} FillStep(s: Setup, name: string, rest: seq<Run>, cursor: int, hi: int, r: Run,
                                    out: seq<Segment>)
    requires cursor <= r.lo
    ensures var gap := if r.lo > cursor then out + [Segment(name, cursor, r.lo, 0, None)] else out;
            var all := gap + [Attributed(name, r)];
            && Taken(all) == Taken(out) + 1
            && out + (Remainder(name, cursor, r.lo) + [Attributed(name, r)]
                      + Fill(s, name, rest, r.hi, Taken(out) + 1, hi))
               == all + Fill(s, name, rest, r.hi, Taken(all), hi)
  {
    var gap := if r.lo > cursor then out + [Segment(name, cursor, r.lo, 0, None)] else out;
    TakenSnoc(out, Segment(name, cursor, r.lo, 0, None));
    TakenSnoc(gap, Attributed(name, r));
    FourParts(out, Remainder(name, cursor, r.lo), [Attributed(name, r)], Fill(s, name, rest, r.hi, Taken(out) + 1, hi));
    assert out + [] == out;
  }

  lemma {:induction false} FourParts<T>(a: seq<T>, b: seq<T>, c: seq<T>, d: seq<T>)
    ensures a + (b + c + d) == a + b + c + d
  {
  }

  // ----- tiling -----

  /** What is left over is not empty; a run may be. */
  predicate Sized(g: Segment) {
    g.lo <= g.hi && (g.source.None? ==> g.lo < g.hi)
  }

  /** The segments follow each other from lo to hi without gap or overlap. */
  ghost predicate Chain(segs: seq<Segment>, lo: int, hi: int) {
    if segs == [] then lo == hi
    else segs[0].lo == lo && Sized(segs[0]) && Chain(segs[1..], segs[0].hi, hi)
  }

  ghost predicate NoTwoRemainders(segs: seq<Segment>) {
    forall i :: 0 <= i < |segs| - 1 ==> segs[i].source.Some? || segs[i + 1].source.Some?
  }

  /** What is taken is an eligible run, whole. */
  ghost predicate FromRuns(s: Setup, name: string, here: seq<Run>, segs: seq<Segment>) {
    forall g :: g in segs ==>
      g.parent == name
      && (g.source.Some? ==> exists r :: r in here && Eligible(s, r) && g == Attributed(name, r))
  }

  predicate NotAfter(a: Run, b: Run) {
    a.lo < b.lo || (a.lo == b.lo && a.hi <= b.hi)
  }

  ghost predicate Fitting(here: seq<Run>, hi: int) {
    && (forall r :: r in here ==> r.lo <= r.hi <= hi)
    && (forall i, j :: 0 <= i < j < |here| ==> NotAfter(here[i], here[j]))
  }

  lemma {:induction false} FillTiles(s: Setup, name: string, here: seq<Run>, cursor: int, taken: nat, hi: int)
    requires cursor <= hi && Fitting(here, hi)
    ensures var segs := Fill(s, name, here, cursor, taken, hi);
            Chain(segs, cursor, hi) && NoTwoRemainders(segs) && FromRuns(s, name, here, segs)
  {
    if here != [] {
      var r, rest := here[0], here[1..];
      if !Eligible(s, r) || r.lo < cursor {
        FillTiles(s, name, rest, cursor, taken, hi);
      } else if taken < s.limit {
        FillTiles(s, name, rest, r.hi, taken + 1, hi);
        TakeTiles(s, name, here, cursor, hi, Fill(s, name, rest, r.hi, taken + 1, hi));
      }
    }
  }

  lemma {:induction false} TakeTiles(s: Setup, name: string, here: seq<Run>, cursor: int, hi: int, later: seq<Segment>)
    requires here != [] && Eligible(s, here[0]) && cursor <= here[0].lo <= here[0].hi
    requires Chain(later, here[0].hi, hi) && NoTwoRemainders(later) && FromRuns(s, name, here[1..], later)
    ensures var segs := Remainder(name, cursor, here[0].lo) + [Attributed(name, here[0])] + later;
            Chain(segs, cursor, hi) && NoTwoRemainders(segs) && FromRuns(s, name, here, segs)
  {
    TakeChains(name, here[0], cursor, hi, later);
    TakeMembers(s, name, here, cursor, later);
  }

  lemma {:induction false} TakeChains(name: string, r: Run, cursor: int, hi: int, later: seq<Segment>)
    requires cursor <= r.lo <= r.hi && Chain(later, r.hi, hi) && NoTwoRemainders(later)
    ensures var segs := Remainder(name, cursor, r.lo) + [Attributed(name, r)] + later;
            Chain(segs, cursor, hi) && NoTwoRemainders(segs)
  {
    var tail := [Attributed(name, r)] + later;
    assert tail[0] == Attributed(name, r) && tail[1..] == later;
    assert Chain(tail, r.lo, hi);
    if cursor < r.lo {
      var segs := [Segment(name, cursor, r.lo, 0, None)] + tail;
      assert Remainder(name, cursor, r.lo) + [Attributed(name, r)] + later == segs && segs[1..] == tail;
    } else {
      assert Remainder(name, cursor, r.lo) + [Attributed(name, r)] + later == tail;
    }
  }

  lemma {:induction false} TakeMembers(s: Setup, name: string, here: seq<Run>, cursor: int, later: seq<Segment>)
    requires here != [] && Eligible(s, here[0]) && FromRuns(s, name, here[1..], later)
    ensures FromRuns(s, name, here, Remainder(name, cursor, here[0].lo) + [Attributed(name, here[0])] + later)
  {
    assert forall r :: r in here[1..] ==> r in here;
  }

  lemma {:induction false} InRangeMembers(runs: seq<Run>, range: Range, r: Run)
    ensures r in InRange(runs, range) <==> r in runs && Inside(r, range)
  {
    if runs != [] { InRangeMembers(runs[1..], range, r); }
  }

  lemma {:induction false} RunOrder()
    ensures Ordering(RunLe)
  {
    forall a: Run, b: Run
      ensures RunLe(a, b) || RunLe(b, a)
    {
      TextTotal(a.file, b.file);
    }
    forall a: Run, b: Run, c: Run | RunLe(a, b) && RunLe(b, c)
      ensures RunLe(a, c)
    {
      RunTransitive(a, b, c);
    }
  }

  lemma {:induction false} RunTransitive(a: Run, b: Run, c: Run)
    requires RunLe(a, b) && RunLe(b, c)
    ensures RunLe(a, c)
  {
    if a.lo == c.lo && a.hi == c.hi {
      TextTransitive(a.file, b.file, c.file);
      if a.file == c.file { TextAntisymmetric(a.file, b.file); }
    }
  }

  /** No run ends before it begins. */
  ghost predicate RunsProper(s: Setup) {
    forall r :: r in s.runs ==> r.lo <= r.hi
  }

  lemma {:induction false} HereFits(s: Setup, range: Range)
    requires RunsProper(s)
    ensures var here := Sort(InRange(s.runs, range), RunLe);
            && Fitting(here, range.hi)
            && forall r :: r in here <==> r in s.runs && Inside(r, range)
  {
    var raw := InRange(s.runs, range);
    var here := Sort(raw, RunLe);
    RunOrder();
    SortSorts(raw, RunLe);
    forall r
      ensures r in here <==> r in s.runs && Inside(r, range)
    {
      SortMembers(raw, RunLe, r);
      InRangeMembers(s.runs, range, r);
    }
    forall i, j | 0 <= i < j < |here|
      ensures NotAfter(here[i], here[j])
    {
      assert RunLe(here[i], here[j]);
    }
  }

  /** Each range is covered by its pieces exactly, in order, and two remainders are never neighbours. */
  lemma {:induction false} RangeTiled(s: Setup, range: Range, taken: nat)
    requires RunsProper(s) && range.lo <= range.hi
    ensures var part := Part(s, range, taken);
            && Chain(part, range.lo, range.hi) && NoTwoRemainders(part)
            && forall g :: g in part ==>
                 g.parent == range.name
                 && (g.source.Some? ==>
                       exists r :: r in s.runs && Inside(r, range) && Eligible(s, r) && g == Attributed(range.name, r))
  {
    HereFits(s, range);
    FillTiles(s, range.name, Sort(InRange(s.runs, range), RunLe), range.lo, taken, range.hi);
  }

  // ----- what is taken -----

  lemma {:induction false} CountPresent(ranges: seq<Range>, runs: seq<Run>, r: Run)
    requires r in runs && InSome(ranges, r)
    ensures CountOf(ranges, runs, r.file) >= 1
  {
    var last := runs[|runs| - 1];
    if r != last {
      assert runs == runs[..|runs| - 1] + [last];
      CountPresent(ranges, runs[..|runs| - 1], r);
    }
  }

  /** A file that is counted once has one run in the parents. */
  lemma {:induction false} OnlyRun(ranges: seq<Range>, runs: seq<Run>, a: Run, b: Run)
    requires a in runs && b in runs && InSome(ranges, a) && InSome(ranges, b)
    requires a.file == b.file && CountOf(ranges, runs, a.file) == 1
    ensures a == b
  {
    var init, last := runs[..|runs| - 1], runs[|runs| - 1];
    assert runs == init + [last];
    if a in init { CountPresent(ranges, init, a); }
    if b in init { CountPresent(ranges, init, b); }
    if a in init && b in init { OnlyRun(ranges, init, a, b); }
  }

  lemma {:induction false} ChainOrder(segs: seq<Segment>, lo: int, hi: int)
    requires Chain(segs, lo, hi)
    ensures lo <= hi
    ensures forall i :: 0 <= i < |segs| ==> lo <= segs[i].lo <= segs[i].hi <= hi && Sized(segs[i])
    ensures forall i, j :: 0 <= i < j < |segs| ==> segs[i].hi <= segs[j].lo
  {
    if segs != [] { ChainOrder(segs[1..], segs[0].hi, hi); }
  }

  lemma {:induction false} FillLimit(s: Setup, name: string, here: seq<Run>, cursor: int, taken: nat, hi: int)
    ensures var n := Taken(Fill(s, name, here, cursor, taken, hi));
            n == 0 || taken + n <= s.limit
  {
    if here == [] || taken >= s.limit {
      RemainderTakes(name, cursor, hi);
      if here != [] { FillLimit(s, name, here[1..], cursor, taken, hi); }
    } else if !Eligible(s, here[0]) || here[0].lo < cursor {
      FillLimit(s, name, here[1..], cursor, taken, hi);
    } else {
      FillLimit(s, name, here[1..], here[0].hi, taken + 1, hi);
      RemainderTakes(name, cursor, here[0].lo);
      TakenSnoc(Remainder(name, cursor, here[0].lo), Attributed(name, here[0]));
      TakenAppend(Remainder(name, cursor, here[0].lo) + [Attributed(name, here[0])],
                  Fill(s, name, here[1..], here[0].hi, taken + 1, hi));
    }
  }

  lemma {:induction false} RemainderTakes(name: string, lo: int, hi: int)
    ensures Taken(Remainder(name, lo, hi)) == 0
  {
    if lo < hi {
      TakenSnoc([], Segment(name, lo, hi, 0, None));
      assert [] + Remainder(name, lo, hi) == Remainder(name, lo, hi);
    }
  }

  /** No more files are taken than allowed. */
  lemma {:induction false} PlanLimit(s: Setup, k: nat)
    requires k <= |s.ranges|
    ensures Taken(PlanOf(s, k)) == 0 || Taken(PlanOf(s, k)) <= s.limit
  {
    if k > 0 {
      PlanLimit(s, k - 1);
      var before, range := PlanOf(s, k - 1), s.ranges[k - 1];
      FillLimit(s, range.name, Sort(InRange(s.runs, range), RunLe), range.lo, Taken(before), range.hi);
      TakenAppend(before, Part(s, range, Taken(before)));
    }
  }

  /** A run that could be taken is, unless one that was reaches over its beginning or the limit has been reached. */
  ghost predicate Served(s: Setup, name: string, r: Run, cursor: int, taken: nat, segs: seq<Segment>) {
    || r.lo < cursor
    || Attributed(name, r) in segs
    || (exists g :: g in segs && Overlaid(r, g))
    || taken + Taken(segs) >= s.limit
  }

  /** A file was taken that comes before the run and reaches over its beginning. */
  predicate Overlaid(r: Run, g: Segment) {
    g.source.Some? && g.lo <= r.lo < g.hi && (g.lo < r.lo || g.hi <= r.hi)
  }

  lemma {:induction false} FillServes(s: Setup, name: string, here: seq<Run>, cursor: int, taken: nat, hi: int, r: Run)
    requires Fitting(here, hi) && r in here && Eligible(s, r)
    ensures Served(s, name, r, cursor, taken, Fill(s, name, here, cursor, taken, hi))
  {
    var first, rest := here[0], here[1..];
    if !Eligible(s, first) || first.lo < cursor {
      if r in rest { FillServes(s, name, rest, cursor, taken, hi, r); }
    } else if taken < s.limit {
      var later := Fill(s, name, rest, first.hi, taken + 1, hi);
      var front := Remainder(name, cursor, first.lo) + [Attributed(name, first)];
      RemainderTakes(name, cursor, first.lo);
      TakenSnoc(Remainder(name, cursor, first.lo), Attributed(name, first));
      TakenAppend(front, later);
      assert Attributed(name, first) in front;
      if r in rest {
        FillServes(s, name, rest, first.hi, taken + 1, hi, r);
        ServedLater(s, name, r, cursor, taken, first, front, later);
      }
    }
  }

  lemma {:induction false} ServedLater(s: Setup, name: string, r: Run, cursor: int, taken: nat, first: Run,
                                       front: seq<Segment>, later: seq<Segment>)
    requires NotAfter(first, r) && Attributed(name, first) in front
    requires Taken(front + later) == 1 + Taken(later)
    requires Served(s, name, r, first.hi, taken + 1, later)
    ensures Served(s, name, r, cursor, taken, front + later)
  {
    if r.lo < first.hi {
      assert Attributed(name, first) in front + later;
    } else if exists g :: g in later && Overlaid(r, g) {
      var g :| g in later && Overlaid(r, g);
      assert g in front + later;
    }
  }

  /** So nothing eligible in a range is passed over without a reason. */
  lemma {:induction false} RangeServed(s: Setup, range: Range, taken: nat, r: Run)
    requires RunsProper(s) && r in s.runs && Inside(r, range) && Eligible(s, r)
    ensures var part := Part(s, range, taken);
            || Attributed(range.name, r) in part
            || (exists g :: g in part && Overlaid(r, g))
            || taken + Taken(part) >= s.limit
  {
    HereFits(s, range);
    FillServes(s, range.name, Sort(InRange(s.runs, range), RunLe), range.lo, taken, range.hi, r);
  }
}
