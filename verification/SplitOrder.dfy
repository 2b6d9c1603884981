/** The pieces of a plan, named and written down: they lie apart, and stand in one line. */
module SplitOrder {
  import opened LinkOrder
  import opened SplitNames
  import opened SplitPieces
  import opened SplitPlan
  import opened SplitStretches
  import opened Sorting

  // ----- pieces of one parent, sorted -----

  /** No two of the pieces overlap. */
  ghost predicate PairsApart(segs: seq<Segment>) {
    forall i, j :: 0 <= i < j < |segs| ==> Apart(segs[i], segs[j])
  }

  ghost predicate ApartFrom(g: Segment, segs: seq<Segment>) {
    forall h :: h in segs ==> Apart(g, h)
  }

  lemma {:induction false} PairsTail(segs: seq<Segment>)
    requires PairsApart(segs) && segs != []
    ensures PairsApart(segs[1..]) && ApartFrom(segs[0], segs[1..])
  {
  }

  lemma {:induction false} PairsCons(g: Segment, segs: seq<Segment>)
    requires PairsApart(segs) && ApartFrom(g, segs)
    ensures PairsApart([g] + segs)
  {
  }

  lemma {:induction false} OfMembers(out: seq<Segment>, parent: string, g: Segment)
    ensures g in Of(out, parent) <==> g in out && g.parent == parent
  {
    if out != [] { OfMembers(out[1..], parent, g); }
  }

  lemma {:induction false} OfApart(out: seq<Segment>, parent: string)
    requires PairsApart(out)
    ensures PairsApart(Of(out, parent))
  {
    if out != [] {
      PairsTail(out);
      OfApart(out[1..], parent);
      if out[0].parent == parent {
        forall h | h in Of(out[1..], parent)
          ensures Apart(out[0], h)
        {
          OfMembers(out[1..], parent, h);
        }
        PairsCons(out[0], Of(out[1..], parent));
      } else {
        assert [] + Of(out[1..], parent) == Of(out[1..], parent);
      }
    }
  }

  lemma {:induction false} InsertMembers<T>(x: T, s: seq<T>, le: (T, T) -> bool, y: T)
    ensures y in Insert(x, s, le) <==> y == x || y in s
  {
    if !(s == [] || le(x, s[0])) { InsertMembers(x, s[1..], le, y); }
  }

  lemma {:induction false} SortedMembers<T>(s: seq<T>, le: (T, T) -> bool, y: T)
    ensures y in Sort(s, le) <==> y in s
  {
    if s != [] {
      SortedMembers(s[1..], le, y);
      InsertMembers(s[0], Sort(s[1..], le), le, y);
    }
  }

  lemma {:induction false} InsertApart(g: Segment, segs: seq<Segment>, le: (Segment, Segment) -> bool)
    requires PairsApart(segs) && ApartFrom(g, segs)
    ensures PairsApart(Insert(g, segs, le))
  {
    if segs == [] || le(g, segs[0]) {
      PairsCons(g, segs);
    } else {
      PairsTail(segs);
      InsertApart(g, segs[1..], le);
      forall h | h in Insert(g, segs[1..], le)
        ensures Apart(segs[0], h)
      {
        InsertMembers(g, segs[1..], le, h);
        if h == g { assert segs[0] in segs; }
      }
      PairsCons(segs[0], Insert(g, segs[1..], le));
    }
  }

  lemma {:induction false} SortApart(segs: seq<Segment>, le: (Segment, Segment) -> bool)
    requires PairsApart(segs)
    ensures PairsApart(Sort(segs, le))
  {
    if segs != [] {
      PairsTail(segs);
      SortApart(segs[1..], le);
      forall h | h in Sort(segs[1..], le)
        ensures Apart(segs[0], h)
      {
        SortedMembers(segs[1..], le, h);
      }
      InsertApart(segs[0], Sort(segs[1..], le), le);
    }
  }

  // ----- their lines -----

  predicate LineOf(t: Text, g: Segment) {
    t.lo == g.lo && t.hi == g.hi
  }

  /** One line a piece, in the order of the pieces. */
  lemma {:induction false} RowLines(units: set<string>, parent: string, segs: seq<Segment>, path: string -> string,
                                    rows: seq<Row>, n: nat)
    requires ParentRows(units, parent, segs, path, rows) && n <= |segs|
    ensures |TextsOf(rows, n)| == n && forall i :: 0 <= i < n ==> LineOf(TextsOf(rows, n)[i], segs[i])
  {
    if n > 0 {
      RowLines(units, parent, segs, path, rows, n - 1);
      assert RowIs(units, parent, segs, path, n - 1, rows[n - 1]);
    }
  }

  /** The lines are those of some pieces of these parents, and no two overlap. */
  ghost predicate LinesLie(out: seq<Segment>, parents: seq<string>, texts: seq<Text>) {
    && (forall i :: 0 <= i < |texts| ==> FromPiece(out, parents, texts[i]))
    && Disjoint(texts)
  }

  ghost predicate FromPiece(out: seq<Segment>, parents: seq<string>, t: Text) {
    exists g :: g in out && g.parent in parents && LineOf(t, g)
  }

  lemma {:induction false} BlockLies(units: set<string>, out: seq<Segment>, parent: string, path: string -> string,
                                     rows: seq<Row>)
    requires PairsApart(out) && ParentRows(units, parent, PiecesOf(out, parent), path, rows)
    ensures LinesLie(out, [parent], TextsOf(rows, |rows|))
  {
    var segs := PiecesOf(out, parent);
    OfApart(out, parent);
    SortApart(Of(out, parent), SegLe);
    RowLines(units, parent, segs, path, rows, |segs|);
    assert TextsOf(rows, |rows|) == TextsOf(rows, |segs|);
    PiecesLie(out, parent, segs, TextsOf(rows, |segs|));
  }

  lemma {:induction false} PiecesLie(out: seq<Segment>, parent: string, segs: seq<Segment>, texts: seq<Text>)
    requires segs == PiecesOf(out, parent) && PairsApart(segs)
    requires |texts| == |segs| && forall i :: 0 <= i < |segs| ==> LineOf(texts[i], segs[i])
    ensures LinesLie(out, [parent], texts)
  {
    forall i | 0 <= i < |texts|
      ensures FromPiece(out, [parent], texts[i])
    {
      assert segs[i] in segs;
      SortedMembers(Of(out, parent), SegLe, segs[i]);
      OfMembers(out, parent, segs[i]);
    }
    forall i, j | 0 <= i < j < |texts|
      ensures Below(texts[i], texts[j]) || Below(texts[j], texts[i])
    {
      assert Apart(segs[i], segs[j]);
    }
  }

  lemma {:induction false} DisjointJoined(a: seq<Text>, b: seq<Text>)
    requires Disjoint(a) && Disjoint(b)
    requires forall i, j :: 0 <= i < |a| && 0 <= j < |b| ==> Below(a[i], b[j]) || Below(b[j], a[i])
    ensures Disjoint(a + b)
  {
    var all := a + b;
    forall i, j | 0 <= i < j < |all|
      ensures Below(all[i], all[j]) || Below(all[j], all[i])
    {
      if j < |a| {
        assert all[i] == a[i] && all[j] == a[j];
      } else if i < |a| {
        assert all[i] == a[i] && all[j] == b[j - |a|];
      } else {
        assert all[i] == b[i - |a|] && all[j] == b[j - |a|];
      }
    }
  }

  /** Lines of different parents come from different pieces. */
  lemma {:induction false} ParentsApart(out: seq<Segment>, p: seq<string>, q: seq<string>, t: Text, u: Text)
    requires PairsApart(out) && FromPiece(out, p, t) && FromPiece(out, q, u)
    requires forall x :: x in p ==> x !in q
    ensures Below(t, u) || Below(u, t)
  {
    var g :| g in out && g.parent in p && LineOf(t, g);
    var h :| h in out && h.parent in q && LineOf(u, h);
    var i :| 0 <= i < |out| && out[i] == g;
    var j :| 0 <= j < |out| && out[j] == h;
    assert g.parent != h.parent;
    assert if i < j then Apart(out[i], out[j]) else Apart(out[j], out[i]);
  }

  lemma {:induction false} LinesJoined(out: seq<Segment>, p: seq<string>, q: string, a: seq<Text>, b: seq<Text>)
    requires PairsApart(out) && LinesLie(out, p, a) && LinesLie(out, [q], b) && q !in p
    ensures LinesLie(out, p + [q], a + b)
  {
    forall i, j | 0 <= i < |a| && 0 <= j < |b|
      ensures Below(a[i], b[j]) || Below(b[j], a[i])
    {
      ParentsApart(out, p, [q], a[i], b[j]);
    }
    DisjointJoined(a, b);
    forall i | 0 <= i < |a + b|
      ensures FromPiece(out, p + [q], (a + b)[i])
    {
      FromMore(out, p, q, if i < |a| then a[i] else b[i - |a|]);
    }
  }

  lemma {:induction false} FromMore(out: seq<Segment>, p: seq<string>, q: string, t: Text)
    requires FromPiece(out, p, t) || FromPiece(out, [q], t)
    ensures FromPiece(out, p + [q], t)
  {
    if FromPiece(out, p, t) {
      var g :| g in out && g.parent in p && LineOf(t, g);
      assert g.parent in p + [q];
    } else {
      var g :| g in out && g.parent in [q] && LineOf(t, g);
      assert g.parent in p + [q];
    }
  }

  lemma {:induction false} NewTextsLie(units: set<string>, out: seq<Segment>, path: string -> string,
                                       blocks: seq<seq<Row>>, n: nat)
    requires PairsApart(out) && Named(units, out, path, blocks) && n <= |blocks|
    ensures LinesLie(out, ParentsOf(out)[..n], NewTexts(blocks, n))
  {
    if n > 0 {
      var order := ParentsOf(out);
      NewTextsLie(units, out, path, blocks, n - 1);
      BlockLies(units, out, order[n - 1], path, blocks[n - 1]);
      ParentsOfIs(out);
      LinesStep(out, order, n, NewTexts(blocks, n - 1), TextsOf(blocks[n - 1], |blocks[n - 1]|));
    }
  }

  lemma {:induction false} LinesStep(out: seq<Segment>, order: seq<string>, n: nat, a: seq<Text>, b: seq<Text>)
    requires 0 < n <= |order| && forall i, j :: 0 <= i < j < |order| ==> order[i] != order[j]
    requires PairsApart(out) && LinesLie(out, order[..n - 1], a) && LinesLie(out, [order[n - 1]], b)
    ensures LinesLie(out, order[..n], a + b)
  {
    assert order[n - 1] !in order[..n - 1];
    assert order[..n] == order[..n - 1] + [order[n - 1]];
    LinesJoined(out, order[..n - 1], order[n - 1], a, b);
  }

  // ----- all lines -----

  /** What is read: lines that lie apart, the parents' among them, and runs that are not empty. */
  ghost predicate ProperInput(s: Setup, lines: seq<Text>) {
    && NonEmpty(lines) && Disjoint(lines)
    && (forall k :: 0 <= k < |s.ranges| ==> Text(s.ranges[k].name, s.ranges[k].lo, s.ranges[k].hi) in lines)
    && RangesProper(s.ranges)
    && forall r :: r in s.runs ==> r.lo < r.hi
  }

  lemma {:induction false} LinesTail(lines: seq<Text>)
    requires Disjoint(lines) && NonEmpty(lines) && lines != []
    ensures Disjoint(lines[1..]) && NonEmpty(lines[1..]) && ClearOf(lines[0], lines[1..]) && lines[0].lo < lines[0].hi
  {
  }

  /** The line overlaps none of these. */
  ghost predicate ClearOf(t: Text, texts: seq<Text>) {
    forall i :: 0 <= i < |texts| ==> Below(t, texts[i]) || Below(texts[i], t)
  }

  lemma {:induction false} KeptLie(out: seq<Segment>, lines: seq<Text>)
    requires Disjoint(lines) && NonEmpty(lines)
    ensures Disjoint(Kept(out, lines)) && NonEmpty(Kept(out, lines))
  {
    if lines != [] {
      var rest := Kept(out, lines[1..]);
      LinesTail(lines);
      KeptLie(out, lines[1..]);
      if KeptText(out, lines[0]) {
        KeptClear(out, lines[0], lines[1..]);
        ClearJoined(lines[0], rest);
      } else {
        assert [] + rest == rest;
      }
    }
  }

  lemma {:induction false} ClearJoined(t: Text, texts: seq<Text>)
    requires Disjoint(texts) && NonEmpty(texts) && ClearOf(t, texts) && t.lo < t.hi
    ensures Disjoint([t] + texts) && NonEmpty([t] + texts)
  {
  }

  lemma {:induction false} KeptClear(out: seq<Segment>, t: Text, lines: seq<Text>)
    requires ClearOf(t, lines)
    ensures ClearOf(t, Kept(out, lines))
  {
    var kept := Kept(out, lines);
    forall i | 0 <= i < |kept|
      ensures Below(t, kept[i]) || Below(kept[i], t)
    {
      KeptMembers(out, lines, kept[i]);
      var k :| 0 <= k < |lines| && lines[k] == kept[i];
    }
  }

  /** A new line lies in its parent's old one, so it is not empty and does not reach into a line that stays. */
  lemma {:induction false} NewAgainstKept(s: Setup, lines: seq<Text>, t: Text, u: Text)
    requires ProperInput(s, lines)
    requires FromPiece(PlanOf(s, |s.ranges|), ParentsOf(PlanOf(s, |s.ranges|)), t)
    requires u in Kept(PlanOf(s, |s.ranges|), lines)
    ensures Below(t, u) || Below(u, t)
  {
    var out := PlanOf(s, |s.ranges|);
    var g := PieceOf(s, t);
    var range := RangeOf(s, g);
    KeptMembers(out, lines, u);
    ParentsOfIs(out);
    var i :| 0 <= i < |lines| && lines[i] == Text(range.name, range.lo, range.hi);
    var j :| 0 <= j < |lines| && lines[j] == u;
    assert if i < j then Below(lines[i], lines[j]) || Below(lines[j], lines[i])
           else Below(lines[j], lines[i]) || Below(lines[i], lines[j]);
  }

  lemma {:induction false} PieceOf(s: Setup, t: Text) returns (g: Segment)
    requires FromPiece(PlanOf(s, |s.ranges|), ParentsOf(PlanOf(s, |s.ranges|)), t)
    ensures g in PlanOf(s, |s.ranges|) && LineOf(t, g)
  {
    g :| g in PlanOf(s, |s.ranges|) && g.parent in ParentsOf(PlanOf(s, |s.ranges|)) && LineOf(t, g);
  }

  /** The range a piece of the plan was cut from; pieces of proper runs are not empty. */
  lemma {:induction false} RangeOf(s: Setup, g: Segment) returns (range: Range)
    requires RangesProper(s.ranges) && (forall r :: r in s.runs ==> r.lo < r.hi) && g in PlanOf(s, |s.ranges|)
    ensures range in s.ranges && range.lo <= g.lo < g.hi <= range.hi && g.parent == range.name
  {
    PlanPlaced(s);
    var out := PlanOf(s, |s.ranges|);
    var i :| 0 <= i < |out| && out[i] == g;
    assert Placed(s, |s.ranges|, out[i]);
    var k :| 0 <= k < |s.ranges| && PlacedIn(s, s.ranges[k], g);
    range := s.ranges[k];
  }

  /** The plan only cuts units there are, so its pieces can be named. */
  lemma {:induction false} PlanCutsUnits(s: Setup, lines: seq<Text>, units: set<string>)
    requires ProperInput(s, lines)
    requires (forall t :: t in lines ==> t.name in units) && forall r :: r in s.ranges ==> Cpp(r.name)
    ensures UnityUnits(units, PlanOf(s, |s.ranges|))
  {
    var out := PlanOf(s, |s.ranges|);
    ParentsOfIs(out);
    forall p | p in ParentsOf(out)
      ensures p in units && Cpp(p)
    {
      var g :| g in out && g.parent == p;
      var range := RangeOf(s, g);
      assert Text(range.name, range.lo, range.hi) in lines;
    }
  }

  lemma {:induction false} PlanPairsApart(s: Setup)
    requires RunsProper(s) && RangesProper(s.ranges)
    ensures PairsApart(PlanOf(s, |s.ranges|))
  {
    PlanPlaced(s);
  }

  /** Written down, the pieces and the lines that stay lie apart, and none is empty. */
  lemma {:induction false} LinesStayApart(s: Setup, lines: seq<Text>, units: set<string>, path: string -> string,
                                          blocks: seq<seq<Row>>)
    requires ProperInput(s, lines) && Named(units, PlanOf(s, |s.ranges|), path, blocks)
    ensures NonEmpty(After(PlanOf(s, |s.ranges|), lines, blocks))
    ensures Disjoint(After(PlanOf(s, |s.ranges|), lines, blocks))
  {
    var out := PlanOf(s, |s.ranges|);
    var kept, more := Kept(out, lines), NewTexts(blocks, |blocks|);
    NewLinesLie(s, units, path, blocks);
    KeptLie(out, lines);
    forall i, j | 0 <= i < |kept| && 0 <= j < |more|
      ensures Below(kept[i], more[j]) || Below(more[j], kept[i])
    {
      NewAgainstKept(s, lines, more[j], kept[i]);
    }
    DisjointJoined(kept, more);
    forall j | 0 <= j < |more|
      ensures more[j].lo < more[j].hi
    {
      var g := PieceOf(s, more[j]);
      var range := RangeOf(s, g);
    }
  }

  lemma {:induction false} NewLinesLie(s: Setup, units: set<string>, path: string -> string, blocks: seq<seq<Row>>)
    requires RangesProper(s.ranges) && (forall r :: r in s.runs ==> r.lo < r.hi)
    requires Named(units, PlanOf(s, |s.ranges|), path, blocks)
    ensures LinesLie(PlanOf(s, |s.ranges|), ParentsOf(PlanOf(s, |s.ranges|)), NewTexts(blocks, |blocks|))
  {
    var out := PlanOf(s, |s.ranges|);
    PlanPairsApart(s);
    NewTextsLie(units, out, path, blocks, |blocks|);
    assert ParentsOf(out)[..|blocks|] == ParentsOf(out);
  }

  /**
   So the units stand in one line, with no cycle, when the paths taken differ and are new and no unit
   kept two stretches; and in any case there is a cycle exactly when a unit surrounds another.
   */
  lemma {:induction false} SplitIsLinear(s: Setup, lines: seq<Text>, units: set<string>, path: string -> string,
                                         blocks: seq<seq<Row>>)
    requires ProperInput(s, lines) && Named(units, PlanOf(s, |s.ranges|), path, blocks)
    requires (forall t :: t in lines ==> t.name in units) && forall r :: r in s.ranges ==> Cpp(r.name)
    ensures var out := PlanOf(s, |s.ranges|); var texts := After(out, lines, blocks);
            && (Acyclic(texts) <==> Linear(texts)) && (Acyclic(texts) <==> !Surrounds(texts))
            && (OneStretchEach(Kept(out, lines)) && PathsDiffer(out, path) && PathsNew(units, lines, out, path) ==>
                  OneStretchEach(texts) && Linear(texts))
  {
    var out := PlanOf(s, |s.ranges|);
    var texts := After(out, lines, blocks);
    LinesStayApart(s, lines, units, path, blocks);
    AcyclicExactly(texts);
    PlanCutsUnits(s, lines, units);
    OneStretchExactly(units, lines, out, path, blocks);
    if OneStretchEach(texts) { OneStretchIsLinear(texts); }
  }
}
