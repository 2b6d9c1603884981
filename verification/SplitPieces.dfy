/** The pieces of the plan of `SplitPlan` lie apart, and when each source file is taken once. */
module SplitPieces {
  import opened HeaderRuns
  import opened Sorting
  import opened SplitPlan
  import opened Wrappers

  /** The parents' ranges are proper and do not overlap. */
  ghost predicate RangesProper(ranges: seq<Range>) {
    && (forall k :: 0 <= k < |ranges| ==> ranges[k].lo <= ranges[k].hi)
    && (forall k, l :: 0 <= k < l < |ranges| ==> ranges[k].hi <= ranges[l].lo || ranges[l].hi <= ranges[k].lo)
  }

  /** The segment lies in one of the first k ranges, and if it is attributed then to an eligible run. */
  ghost predicate Placed(s: Setup, k: nat, g: Segment)
    requires k <= |s.ranges|
  {
    exists l :: 0 <= l < k && PlacedIn(s, s.ranges[l], g)
  }

  ghost predicate PlacedIn(s: Setup, range: Range, g: Segment) {
    && range.lo <= g.lo <= g.hi <= range.hi && Sized(g) && g.parent == range.name
    && (g.source.Some? ==>
          exists r :: r in s.runs && Inside(r, range) && Eligible(s, r) && g == Attributed(range.name, r))
  }

  ghost predicate Apart(a: Segment, b: Segment) {
    a.hi <= b.lo || b.hi <= a.lo
  }

  lemma {:induction false} PartPlaced(s: Setup, k: nat, taken: nat)
    requires RunsProper(s) && RangesProper(s.ranges) && k < |s.ranges|
    ensures LaidOutIn(s, s.ranges[k], Part(s, s.ranges[k], taken))
  {
    RangeTiled(s, s.ranges[k], taken);
    ChainOrder(Part(s, s.ranges[k], taken), s.ranges[k].lo, s.ranges[k].hi);
  }

  /** What holds of the segments of the first k ranges. */
  ghost predicate LaidOut(s: Setup, k: nat, out: seq<Segment>)
    requires k <= |s.ranges|
  {
    && (forall i :: 0 <= i < |out| ==> Placed(s, k, out[i]))
    && (forall i, j :: 0 <= i < j < |out| ==> Apart(out[i], out[j]))
  }

  ghost predicate LaidOutIn(s: Setup, range: Range, part: seq<Segment>) {
    && (forall i :: 0 <= i < |part| ==> PlacedIn(s, range, part[i]))
    && (forall i, j :: 0 <= i < j < |part| ==> Apart(part[i], part[j]))
  }

  lemma {:induction false} JoinPlaced(s: Setup, k: nat, before: seq<Segment>, part: seq<Segment>)
    requires RangesProper(s.ranges) && 0 < k <= |s.ranges|
    requires LaidOut(s, k - 1, before) && LaidOutIn(s, s.ranges[k - 1], part)
    ensures LaidOut(s, k, before + part)
  {
    var all := before + part;
    forall i | 0 <= i < |all|
      ensures Placed(s, k, all[i])
    {
      if i < |before| {
        assert Placed(s, k - 1, before[i]);
        var l :| 0 <= l < k - 1 && PlacedIn(s, s.ranges[l], before[i]);
      } else {
        assert PlacedIn(s, s.ranges[k - 1], part[i - |before|]);
      }
    }
    forall i, j | 0 <= i < j < |all|
      ensures Apart(all[i], all[j])
    {
      if j < |before| {
        assert Apart(before[i], before[j]);
      } else if i < |before| {
        RangesKeepApart(s, k, before[i], part[j - |before|]);
      } else {
        assert Apart(part[i - |before|], part[j - |before|]);
      }
    }
  }

  lemma {:induction false} RangesKeepApart(s: Setup, k: nat, a: Segment, b: Segment)
    requires RangesProper(s.ranges) && 0 < k <= |s.ranges|
    requires Placed(s, k - 1, a) && PlacedIn(s, s.ranges[k - 1], b)
    ensures Apart(a, b)
  {
    var l :| 0 <= l < k - 1 && PlacedIn(s, s.ranges[l], a);
  }

  // ----- the plan as its parts -----

  function Joined(parts: seq<seq<Segment>>): seq<Segment> {
    if parts == [] then [] else Joined(parts[..|parts| - 1]) + parts[|parts| - 1]
  }

  function PartsOf(part: (Range, nat) -> seq<Segment>, ranges: seq<Range>): seq<seq<Segment>> {
    seq(|ranges|, k requires 0 <= k < |ranges| => part(ranges[k], Taken(LayOut(part, ranges, k))))
  }

  function Parts(s: Setup): seq<seq<Segment>> {
    PartsOf(Filling(s), s.ranges)
  }

  lemma {:induction false} PartsJoined(part: (Range, nat) -> seq<Segment>, ranges: seq<Range>, n: nat)
    requires n <= |ranges|
    ensures Joined(PartsOf(part, ranges)[..n]) == LayOut(part, ranges, n)
  {
    if n > 0 {
      PartsJoined(part, ranges, n - 1);
      JoinedFirst(PartsOf(part, ranges), n, part(ranges[n - 1], Taken(LayOut(part, ranges, n - 1))));
    }
  }

  lemma {:induction false} JoinedFirst(parts: seq<seq<Segment>>, n: nat, part: seq<Segment>)
    requires 0 < n <= |parts| && part == parts[n - 1]
    ensures Joined(parts[..n]) == Joined(parts[..n - 1]) + part
  {
    assert parts[..n][..n - 1] == parts[..n - 1];
  }

  lemma {:induction false} AllPartsJoined(part: (Range, nat) -> seq<Segment>, ranges: seq<Range>)
    ensures Joined(PartsOf(part, ranges)) == LayOut(part, ranges, |ranges|)
  {
    PartsJoined(part, ranges, |ranges|);
    assert PartsOf(part, ranges)[..|ranges|] == PartsOf(part, ranges);
  }

  lemma {:induction false} WholePlan(s: Setup)
    ensures Joined(Parts(s)) == PlanOf(s, |s.ranges|)
  {
    AllPartsJoined(Filling(s), s.ranges);
  }

  /** What holds of the part for each range. */
  ghost predicate PartsLaidOut(s: Setup, parts: seq<seq<Segment>>) {
    |parts| <= |s.ranges| && forall k :: 0 <= k < |parts| ==> LaidOutIn(s, s.ranges[k], parts[k])
  }

  lemma {:induction false} PartsArePlaced(s: Setup)
    requires RunsProper(s) && RangesProper(s.ranges)
    ensures PartsLaidOut(s, Parts(s))
  {
    forall k | 0 <= k < |s.ranges|
      ensures LaidOutIn(s, s.ranges[k], Parts(s)[k])
    {
      PartPlaced(s, k, Taken(PlanOf(s, k)));
    }
  }

  lemma {:induction false} JoinedPlaced(s: Setup, parts: seq<seq<Segment>>)
    requires RangesProper(s.ranges) && PartsLaidOut(s, parts)
    ensures LaidOut(s, |parts|, Joined(parts))
    decreases |parts|
  {
    if parts != [] {
      JoinedPlaced(s, parts[..|parts| - 1]);
      JoinPlaced(s, |parts|, Joined(parts[..|parts| - 1]), parts[|parts| - 1]);
    }
  }

  lemma {:induction false} PlanPlaced(s: Setup)
    requires RunsProper(s) && RangesProper(s.ranges)
    ensures LaidOut(s, |s.ranges|, PlanOf(s, |s.ranges|))
  {
    PartsArePlaced(s);
    JoinedPlaced(s, Parts(s));
    WholePlan(s);
  }

  /** No two pieces overlap, and nothing is attributed to a header. */
  lemma {:induction false} PlanApart(s: Setup, i: nat, j: nat)
    requires RunsProper(s) && RangesProper(s.ranges) && i < j < |PlanOf(s, |s.ranges|)|
    ensures var out := PlanOf(s, |s.ranges|);
            && Apart(out[i], out[j]) && Sized(out[i])
            && (out[i].source.Some? ==> s.src(out[i].source.value))
  {
    var n := |s.ranges|;
    var out := PlanOf(s, n);
    PlanPlaced(s);
    assert Placed(s, n, out[i]);
    if out[i].source.Some? { var k, r := PieceRun(s, n, out[i]); }
  }

  // ----- no source twice -----

  /** No run that could be taken lies in two parents. */
  ghost predicate NoneInTwo(s: Setup) {
    forall r, k, l :: r in s.runs && Eligible(s, r) && 0 <= k < l < |s.ranges| ==>
      !(Inside(r, s.ranges[k]) && Inside(r, s.ranges[l]))
  }

  /** No source file is taken twice. */
  ghost predicate SourcesOnce(out: seq<Segment>) {
    forall i, j :: 0 <= i < j < |out| && out[i].source.Some? ==> out[i].source != out[j].source
  }

  /** An attributed piece is a run that could be taken, in the range it lies in. */
  lemma {:induction false} PieceRun(s: Setup, n: nat, g: Segment) returns (k: nat, r: Run)
    requires n <= |s.ranges| && Placed(s, n, g) && g.source.Some?
    ensures k < n && r in s.runs && Inside(r, s.ranges[k]) && Eligible(s, r)
    ensures g == Attributed(s.ranges[k].name, r)
  {
    k :| 0 <= k < n && PlacedIn(s, s.ranges[k], g);
    r :| r in s.runs && Inside(r, s.ranges[k]) && Eligible(s, r) && g == Attributed(s.ranges[k].name, r);
  }

  /** Files that can be taken come once each. */
  ghost predicate FilesOnce(s: Setup, here: seq<Run>) {
    forall i, j :: 0 <= i < j < |here| && Eligible(s, here[i]) ==> here[i].file != here[j].file
  }

  lemma {:induction false} FillOnce(s: Setup, name: string, here: seq<Run>, cursor: int, taken: nat, hi: int)
    requires cursor <= hi && Fitting(here, hi) && FilesOnce(s, here)
    ensures SourcesOnce(Fill(s, name, here, cursor, taken, hi))
  {
    if here != [] {
      var r, rest := here[0], here[1..];
      if !Eligible(s, r) || r.lo < cursor {
        FillOnce(s, name, rest, cursor, taken, hi);
      } else if taken < s.limit {
        var later := Fill(s, name, rest, r.hi, taken + 1, hi);
        FillOnce(s, name, rest, r.hi, taken + 1, hi);
        FillTiles(s, name, rest, r.hi, taken + 1, hi);
        forall g | g in later && g.source.Some?
          ensures g.source.value != r.file
        {
          var q :| q in rest && Eligible(s, q) && g == Attributed(name, q);
        }
        OnceBehind(Remainder(name, cursor, r.lo), Attributed(name, r), later);
      }
    }
  }

  lemma {:induction false} OnceBehind(gap: seq<Segment>, g: Segment, later: seq<Segment>)
    requires (forall h :: h in gap ==> h.source.None?) && SourcesOnce(later)
    requires forall h :: h in later ==> h.source != g.source
    ensures SourcesOnce(gap + [g] + later)
  {
    var all := gap + [g] + later;
    assert forall i :: 0 <= i < |gap| ==> all[i] == gap[i] && all[i].source.None?;
    forall i, j | 0 <= i < j < |all| && all[i].source.Some?
      ensures all[i].source != all[j].source
    {
      if i == |gap| {
        assert all[j] == later[j - |gap| - 1];
      } else {
        assert all[i] == later[i - |gap| - 1] && all[j] == later[j - |gap| - 1];
      }
    }
  }

  /** A run is counted as often as it comes. */
  lemma {:induction false} CountedEachTime(ranges: seq<Range>, runs: seq<Run>, r: Run)
    requires InSome(ranges, r)
    ensures multiset(runs)[r] <= CountOf(ranges, runs, r.file)
  {
    if runs != [] {
      CountedEachTime(ranges, runs[..|runs| - 1], r);
      assert runs == runs[..|runs| - 1] + [runs[|runs| - 1]];
    }
  }

  lemma {:induction false} InRangeTimes(runs: seq<Run>, range: Range, r: Run)
    ensures multiset(InRange(runs, range))[r] <= multiset(runs)[r]
  {
    if runs != [] {
      InRangeTimes(runs[1..], range, r);
      assert runs == [runs[0]] + runs[1..];
      if !Inside(runs[0], range) { assert [] + InRange(runs[1..], range) == InRange(runs[1..], range); }
    }
  }

  lemma {:induction false} TwiceIn<T>(s: seq<T>, i: nat, j: nat)
    requires i < j < |s| && s[i] == s[j]
    ensures multiset(s)[s[i]] >= 2
  {
    assert s == s[..j] + s[j..];
    assert s[i] in s[..j] && s[j] in s[j..];
  }

  lemma {:induction false} HereOnce(s: Setup, range: Range)
    requires RunsProper(s) && range in s.ranges
    ensures FilesOnce(s, Sort(InRange(s.runs, range), RunLe))
  {
    var raw := InRange(s.runs, range);
    var here := Sort(raw, RunLe);
    HereFits(s, range);
    RunOrder();
    SortSorts(raw, RunLe);
    forall i, j | 0 <= i < j < |here| && Eligible(s, here[i])
      ensures here[i].file != here[j].file
    {
      if here[i].file == here[j].file {
        var r := here[i];
        assert InSome(s.ranges, r) && InSome(s.ranges, here[j]);
        OnlyRun(s.ranges, s.runs, r, here[j]);
        TwiceIn(here, i, j);
        InRangeTimes(s.runs, range, r);
        CountedEachTime(s.ranges, s.runs, r);
      }
    }
  }

  /** With no eligible run in two parents, no source file is taken twice, whatever the limit. */
  lemma {:induction false} PlanOnce(s: Setup)
    requires RunsProper(s) && RangesProper(s.ranges) && NoneInTwo(s)
    ensures SourcesOnce(PlanOf(s, |s.ranges|))
  {
    PartsArePlaced(s);
    forall k | 0 <= k < |s.ranges|
      ensures SourcesOnce(Parts(s)[k])
    {
      PartOnce(s, s.ranges[k], Taken(PlanOf(s, k)));
    }
    JoinedOnce(s, Parts(s));
    WholePlan(s);
  }

  lemma {:induction false} PartOnce(s: Setup, range: Range, taken: nat)
    requires RunsProper(s) && range in s.ranges && range.lo <= range.hi
    ensures SourcesOnce(Part(s, range, taken))
  {
    HereFits(s, range);
    HereOnce(s, range);
    FillOnce(s, range.name, Sort(InRange(s.runs, range), RunLe), range.lo, taken, range.hi);
  }

  lemma {:induction false} JoinedOnce(s: Setup, parts: seq<seq<Segment>>)
    requires RangesProper(s.ranges) && NoneInTwo(s) && PartsLaidOut(s, parts)
    requires forall k :: 0 <= k < |parts| ==> SourcesOnce(parts[k])
    ensures SourcesOnce(Joined(parts))
    decreases |parts|
  {
    if parts != [] {
      var init := parts[..|parts| - 1];
      JoinedOnce(s, init);
      JoinedPlaced(s, init);
      OnceJoined(s, |parts|, Joined(init), parts[|parts| - 1]);
    }
  }

  lemma {:induction false} OnceJoined(s: Setup, n: nat, before: seq<Segment>, part: seq<Segment>)
    requires NoneInTwo(s) && 0 < n <= |s.ranges|
    requires LaidOut(s, n - 1, before) && LaidOutIn(s, s.ranges[n - 1], part)
    requires SourcesOnce(before) && SourcesOnce(part)
    ensures SourcesOnce(before + part)
  {
    var all := before + part;
    forall i, j | 0 <= i < j < |all| && all[i].source.Some?
      ensures all[i].source != all[j].source
    {
      if j < |before| {
        assert all[i] == before[i] && all[j] == before[j];
      } else if i < |before| {
        DifferentFiles(s, n, before[i], part[j - |before|]);
      } else {
        assert all[i] == part[i - |before|] && all[j] == part[j - |before|];
      }
    }
  }

  lemma {:induction false} DifferentFiles(s: Setup, n: nat, g: Segment, h: Segment)
    requires NoneInTwo(s) && 0 < n <= |s.ranges| && Placed(s, n - 1, g) && PlacedIn(s, s.ranges[n - 1], h)
    requires g.source.Some?
    ensures g.source != h.source
  {
    if g.source == h.source {
      var k, a := PieceRun(s, n - 1, g);
      assert Placed(s, n, h);
      var b :| b in s.runs && Inside(b, s.ranges[n - 1]) && Eligible(s, b) && h == Attributed(s.ranges[n - 1].name, b);
      assert InSome(s.ranges, a) && InSome(s.ranges, b);
      OnlyRun(s.ranges, s.runs, a, b);
    }
  }

  // ----- a source twice -----

  lemma {:induction false} TimesAtLeast(out: seq<Segment>, file: string, n: nat, i: nat)
    requires i < n <= |out| && out[i].source == Some(file)
    ensures TimesFirst(out, Some(file), n) >= 1
  {
    if i < n - 1 { TimesAtLeast(out, file, n - 1, i); }
  }

  lemma {:induction false} OnceTimes(out: seq<Segment>, file: string, n: nat)
    requires SourcesOnce(out) && n <= |out|
    ensures TimesFirst(out, Some(file), n) <= 1
    ensures TimesFirst(out, Some(file), n) == 1 ==> exists i :: 0 <= i < n && out[i].source == Some(file)
  {
    if n > 0 { OnceTimes(out, file, n - 1); }
  }

  /** The limit on the files taken is not reached at any range. */
  ghost predicate NeverFull(s: Setup) {
    forall k :: 0 <= k <= |s.ranges| ==> Taken(PlanOf(s, k)) < s.limit
  }

  /** An eligible run on the border of two ranges is taken in each of them, the limit permitting. */
  lemma {:induction false} BorderTaken(s: Setup, k: nat, l: nat, r: Run, taken: nat)
    requires RunsProper(s) && RangesProper(s.ranges) && k < |s.ranges| && l < |s.ranges| && k != l
    requires r in s.runs && Eligible(s, r) && Inside(r, s.ranges[k]) && Inside(r, s.ranges[l])
    requires taken + Taken(Part(s, s.ranges[k], taken)) < s.limit
    ensures Attributed(s.ranges[k].name, r) in Part(s, s.ranges[k], taken)
  {
    var range := s.ranges[k];
    assert if k < l then s.ranges[k].hi <= s.ranges[l].lo || s.ranges[l].hi <= s.ranges[k].lo
           else s.ranges[l].hi <= s.ranges[k].lo || s.ranges[k].hi <= s.ranges[l].lo;
    RangeServed(s, range, taken, r);
    PartPlaced(s, k, taken);
    forall g | g in Part(s, range, taken)
      ensures !Overlaid(r, g)
    {
      assert PlacedIn(s, range, g);
    }
  }

  lemma {:induction false} OneMorePart(part: (Range, nat) -> seq<Segment>, ranges: seq<Range>, k: nat)
    requires k < |ranges|
    ensures Taken(LayOut(part, ranges, k + 1))
            == Taken(LayOut(part, ranges, k)) + Taken(part(ranges[k], Taken(LayOut(part, ranges, k))))
  {
    TakenAppend(LayOut(part, ranges, k), part(ranges[k], Taken(LayOut(part, ranges, k))));
  }

  lemma {:induction false} TakenGrows(part: (Range, nat) -> seq<Segment>, ranges: seq<Range>, k: nat, n: nat)
    requires k <= n <= |ranges|
    ensures Taken(LayOut(part, ranges, k)) <= Taken(LayOut(part, ranges, n))
  {
    if k < n {
      TakenGrows(part, ranges, k, n - 1);
      OneMorePart(part, ranges, n - 1);
    }
  }

  ghost predicate Holds(part: seq<Segment>, file: string) {
    exists i :: 0 <= i < |part| && part[i].source == Some(file)
  }

  /** A part that holds the file adds to its count. */
  lemma {:induction false} HeldTimes(parts: seq<seq<Segment>>, file: string, k: nat)
    requires k < |parts| && Holds(parts[k], file)
    ensures Times(Joined(parts), file) >= 1
  {
    var init, last := parts[..|parts| - 1], parts[|parts| - 1];
    TimesJoined(Joined(init), last, Some(file), |last|);
    if k < |parts| - 1 {
      HeldTimes(init, file, k);
    } else {
      var i :| 0 <= i < |last| && last[i].source == Some(file);
      TimesAtLeast(last, file, |last|, i);
    }
  }

  lemma {:induction false} HeldTwice(parts: seq<seq<Segment>>, file: string, k: nat, l: nat)
    requires k < l < |parts| && Holds(parts[k], file) && Holds(parts[l], file)
    ensures Times(Joined(parts), file) >= 2
  {
    var init, last := parts[..|parts| - 1], parts[|parts| - 1];
    TimesJoined(Joined(init), last, Some(file), |last|);
    if l < |parts| - 1 {
      HeldTwice(init, file, k, l);
    } else {
      HeldTimes(init, file, k);
      var i :| 0 <= i < |last| && last[i].source == Some(file);
      TimesAtLeast(last, file, |last|, i);
    }
  }

  lemma {:induction false} HoldsFrom(part: seq<Segment>, name: string, r: Run)
    requires Attributed(name, r) in part
    ensures Holds(part, r.file)
  {
    var i :| 0 <= i < |part| && part[i] == Attributed(name, r);
  }

  lemma {:induction false} BorderHeld(s: Setup, k: nat, l: nat, r: Run)
    requires RunsProper(s) && RangesProper(s.ranges) && k < |s.ranges| && l < |s.ranges| && k != l
    requires r in s.runs && Eligible(s, r) && Inside(r, s.ranges[k]) && Inside(r, s.ranges[l])
    requires NeverFull(s)
    ensures Holds(Part(s, s.ranges[k], Taken(PlanOf(s, k))), r.file)
  {
    var taken := Taken(PlanOf(s, k));
    OneMorePart(Filling(s), s.ranges, k);
    assert Filling(s)(s.ranges[k], taken) == Part(s, s.ranges[k], taken);
    assert Taken(PlanOf(s, k + 1)) < s.limit;
    BorderTaken(s, k, l, r, taken);
    HoldsFrom(Part(s, s.ranges[k], Taken(PlanOf(s, k))), s.ranges[k].name, r);
  }

  lemma {:induction false} LimitLeft(s: Setup)
    requires Taken(PlanOf(s, |s.ranges|)) < s.limit
    ensures NeverFull(s)
  {
    forall k | 0 <= k <= |s.ranges|
      ensures Taken(PlanOf(s, k)) < s.limit
    {
      TakenGrows(Filling(s), s.ranges, k, |s.ranges|);
    }
  }

  lemma {:induction false} BorderHolds(s: Setup, k: nat, l: nat, r: Run)
    requires RunsProper(s) && RangesProper(s.ranges) && k < |s.ranges| && l < |s.ranges| && k != l
    requires r in s.runs && Eligible(s, r) && Inside(r, s.ranges[k]) && Inside(r, s.ranges[l])
    requires NeverFull(s)
    ensures Holds(Parts(s)[k], r.file)
  {
    BorderHeld(s, k, l, r);
  }

  lemma {:induction false} HeldNotOnce(parts: seq<seq<Segment>>, file: string, k: nat, l: nat)
    requires k < l < |parts| && Holds(parts[k], file) && Holds(parts[l], file)
    ensures !SourcesOnce(Joined(parts))
  {
    HeldTwice(parts, file, k, l);
    TwiceTimes(Joined(parts), file);
  }

  lemma {:induction false} TwiceTimes(out: seq<Segment>, file: string)
    requires Times(out, file) >= 2
    ensures !SourcesOnce(out)
  {
    if SourcesOnce(out) { OnceTimes(out, file, |out|); }
  }

  /** When the limit is not reached, a source is taken twice exactly when an eligible run lies in two parents. */
  lemma {:induction false} TakenOnceExactly(s: Setup)
    requires RunsProper(s) && RangesProper(s.ranges) && Taken(PlanOf(s, |s.ranges|)) < s.limit
    ensures SourcesOnce(PlanOf(s, |s.ranges|)) <==> NoneInTwo(s)
  {
    if NoneInTwo(s) {
      PlanOnce(s);
    } else {
      var r, k, l :| r in s.runs && Eligible(s, r) && 0 <= k < l < |s.ranges|
        && Inside(r, s.ranges[k]) && Inside(r, s.ranges[l]);
      LimitLeft(s);
      BorderHolds(s, k, l, r);
      BorderHolds(s, l, k, r);
      HeldNotOnce(Parts(s), r.file, k, l);
      WholePlan(s);
    }
  }

  /** Runs of functions that end after they begin lie in one parent at most. */
  lemma {:induction false} ProperFunctionsSuffice(s: Setup, funcs: seq<Func>)
    requires Partitioned(s.runs, funcs) && RangesProper(s.ranges)
    requires forall f :: f in funcs ==> f.lo < f.hi
    ensures RunsProper(s) && NoneInTwo(s)
  {
    forall r | r in s.runs
      ensures r.lo < r.hi
    {
      RunsAreProper(s.runs, funcs, r);
    }
  }
}
