/**
 How many stretches of text each unit owns once the pieces of `SplitNames` are written
 in place of their parents, and when none owns two.
 */
module SplitStretches {
  import opened Counting
  import opened LinkOrder
  import opened SplitNames
  import opened SplitPlan
  import opened Wrappers

  // ----- what splits.txt holds afterwards -----

  predicate KeptText(out: seq<Segment>, t: Text) {
    t.name !in ParentsOf(out)
  }

  /** The lines of the units that are not cut up. */
  function Kept(out: seq<Segment>, lines: seq<Text>): seq<Text> {
    if lines == [] then [] else (if KeptText(out, lines[0]) then [lines[0]] else []) + Kept(out, lines[1..])
  }

  /** The lines of the first n rows. */
  function TextsOf(rows: seq<Row>, n: nat): seq<Text>
    requires n <= |rows|
  {
    if n == 0 then []
    else
      var row := rows[n - 1];
      TextsOf(rows, n - 1)
      + if row.text.Some? then [Text(row.name, row.text.value.0, row.text.value.1)] else []
  }

  /** The lines of the first n parents' rows. */
  function NewTexts(blocks: seq<seq<Row>>, n: nat): seq<Text>
    requires n <= |blocks|
  {
    if n == 0 then [] else NewTexts(blocks, n - 1) + TextsOf(blocks[n - 1], |blocks[n - 1]|)
  }

  /** All `.text` lines, once the parents' blocks are replaced. */
  function After(out: seq<Segment>, lines: seq<Text>, blocks: seq<seq<Row>>): seq<Text> {
    Kept(out, lines) + NewTexts(blocks, |blocks|)
  }

  // ----- counting -----

  function Called(name: string): Text -> bool {
    (t: Text) => t.name == name
  }

  function Stretches(texts: seq<Text>, name: string): nat {
    Tally(texts, Called(name))
  }

  /** A source file with this path. */
  function PathIs(path: string -> string, name: string): Segment -> bool {
    (g: Segment) => g.source.Some? && path(g.source.value) == name
  }

  function Remainders(out: seq<Segment>, parent: string): nat {
    Tally(Of(out, parent), IsRemainder)
  }

  /** Among the parent's first m - 1 free numbers. */
  ghost predicate NumberUsed(units: set<string>, parent: string, m: nat, name: string) {
    exists k: nat :: FreeAt(units, parent, name, k) && FreeCount(units, parent, k) < m
  }

  /** The name of one of a parent's m remainders. */
  ghost predicate ChunkOf(units: set<string>, parent: string, m: nat, name: string) {
    m > 0 && (name == parent || NumberUsed(units, parent, m, name))
  }

  lemma {:induction false} FreeCounted(units: set<string>, parent: string, name: string, j: nat, k: nat)
    requires FreeAt(units, parent, name, j) && FreeAt(units, parent, name, k)
    ensures j == k && FreeCount(units, parent, k) >= 1
  {
    ChunkNameInjective(parent, j, k);
  }

  lemma {:induction false} NumbersFromOne(units: set<string>, parent: string, name: string)
    ensures !NumberUsed(units, parent, 1, name)
  {
    forall k: nat | FreeAt(units, parent, name, k)
      ensures FreeCount(units, parent, k) >= 1
    {
      FreeCounted(units, parent, name, k, k);
    }
  }

  lemma {:induction false} LongerName(parent: string, k: nat)
    requires Cpp(parent)
    ensures ChunkName(parent, k) != parent
  {
    assert |ChunkName(parent, k)| == |parent| + 1 + |Decimal.Format(k)|;
  }

  /** One more remainder is one more name. */
  lemma {:induction false} OneMoreChunk(units: set<string>, parent: string, path: string -> string, g: Segment,
                                        m: nat, given: string, name: string)
    requires Cpp(parent) && parent in units && g.source.None? && NameIs(units, parent, path, g, m, given)
    ensures ChunkOf(units, parent, m + 1, name) <==> ChunkOf(units, parent, m, name) || name == given
    ensures !ChunkOf(units, parent, m, given)
  {
    if m == 0 {
      NumbersFromOne(units, parent, name);
    } else {
      var k: nat :| FreeAt(units, parent, given, k) && FreeCount(units, parent, k) == m;
      LongerName(parent, k);
      if NumberUsed(units, parent, m, given) {
        var j: nat :| FreeAt(units, parent, given, j) && FreeCount(units, parent, j) < m;
        FreeCounted(units, parent, given, j, k);
      }
      if NumberUsed(units, parent, m + 1, name) && !NumberUsed(units, parent, m, name) {
        var j: nat :| FreeAt(units, parent, name, j) && FreeCount(units, parent, j) < m + 1;
        SameCount(units, parent, j, name, k, given);
      }
      if name == given { assert FreeAt(units, parent, name, k) && FreeCount(units, parent, k) < m + 1; }
      if NumberUsed(units, parent, m, name) {
        var j: nat :| FreeAt(units, parent, name, j) && FreeCount(units, parent, j) < m;
        assert FreeCount(units, parent, j) < m + 1;
      }
    }
  }

  /** Two free numbers with the same count are one. */
  lemma {:induction false} SameCount(units: set<string>, parent: string, j: nat, a: string, k: nat, b: string)
    requires FreeAt(units, parent, a, j) && FreeAt(units, parent, b, k)
    requires FreeCount(units, parent, j) == FreeCount(units, parent, k)
    ensures j == k && a == b
  {
    if j < k {
      FreeCountGrows(units, parent, j, k - 1);
    } else if k < j {
      FreeCountGrows(units, parent, k, j - 1);
    }
  }

  /** The stretches of the first n rows of a parent: files with that path, and chunks with that name. */
  lemma {:induction false} RowStretches(units: set<string>, parent: string, segs: seq<Segment>, path: string -> string,
                                        rows: seq<Row>, n: nat, name: string)
    requires Cpp(parent) && parent in units && ParentRows(units, parent, segs, path, rows) && n <= |segs|
    ensures Stretches(TextsOf(rows, n), name)
            == Tally(segs[..n], PathIs(path, name))
             + if ChunkOf(units, parent, Tally(segs[..n], IsRemainder), name) then 1 else 0
  {
    if n > 0 {
      RowStretches(units, parent, segs, path, rows, n - 1, name);
      TallyFirst(segs, PathIs(path, name), n - 1);
      TallyFirst(segs, IsRemainder, n - 1);
      RowAdds(units, parent, segs, path, rows, n - 1, name);
    }
  }

  lemma {:induction false} RowAdds(units: set<string>, parent: string, segs: seq<Segment>, path: string -> string,
                                   rows: seq<Row>, i: nat, name: string)
    requires Cpp(parent) && parent in units && ParentRows(units, parent, segs, path, rows) && i < |segs|
    ensures Stretches(TextsOf(rows, i + 1), name)
            == Stretches(TextsOf(rows, i), name) + if rows[i].name == name then 1 else 0
    ensures var m := Tally(segs[..i], IsRemainder);
            if segs[i].source.Some? then rows[i].name == path(segs[i].source.value)
            else && (ChunkOf(units, parent, m + 1, name) <==> ChunkOf(units, parent, m, name) || name == rows[i].name)
                 && !ChunkOf(units, parent, m, rows[i].name)
  {
    assert RowIs(units, parent, segs, path, i, rows[i]);
    var row := rows[i];
    var line := Text(row.name, row.text.value.0, row.text.value.1);
    TallyAppend(TextsOf(rows, i), [line], Called(name));
    if segs[i].source.None? {
      OneMoreChunk(units, parent, path, segs[i], Tally(segs[..i], IsRemainder), row.name, name);
    }
  }

  /** The stretches all rows of a parent have. */
  lemma {:induction false} BlockStretches(units: set<string>, out: seq<Segment>, parent: string, path: string -> string,
                                          rows: seq<Row>, name: string)
    requires Cpp(parent) && parent in units && ParentRows(units, parent, PiecesOf(out, parent), path, rows)
    ensures Stretches(TextsOf(rows, |rows|), name)
            == Tally(Of(out, parent), PathIs(path, name))
             + if ChunkOf(units, parent, Remainders(out, parent), name) then 1 else 0
  {
    var segs := PiecesOf(out, parent);
    RowStretches(units, parent, segs, path, rows, |segs|, name);
    assert segs[..|segs|] == segs;
    SortTally(Of(out, parent), SegLe, PathIs(path, name));
    SortTally(Of(out, parent), SegLe, IsRemainder);
    if Tally(segs, IsRemainder) == 0 {
      assert TextsOf(rows, |rows|) == TextsOf(rows, |segs|);
    }
  }

  // ----- all parents -----

  /** A source file with this path, cut from one of these parents. */
  function PathFrom(path: string -> string, name: string, parents: seq<string>): Segment -> bool {
    (g: Segment) => g.parent in parents && g.source.Some? && path(g.source.value) == name
  }

  lemma {:induction false} OneMoreParent(out: seq<Segment>, path: string -> string, name: string, parents: seq<string>,
                                         parent: string)
    requires parent !in parents
    ensures Tally(out, PathFrom(path, name, parents + [parent]))
            == Tally(out, PathFrom(path, name, parents)) + Tally(Of(out, parent), PathIs(path, name))
  {
    if out != [] {
      OneMoreParent(out[1..], path, name, parents, parent);
      if out[0].parent == parent {
        TallyAppend([out[0]], Of(out[1..], parent), PathIs(path, name));
      } else {
        assert [] + Of(out[1..], parent) == Of(out[1..], parent);
      }
    }
  }

  /** One of the first n parents gives a remainder this name. */
  ghost predicate ChunkAmong(units: set<string>, out: seq<Segment>, n: nat, name: string)
    requires n <= |ParentsOf(out)|
  {
    exists b :: 0 <= b < n && ChunkOf(units, ParentsOf(out)[b], Remainders(out, ParentsOf(out)[b]), name)
  }

  /** No two parents do. */
  lemma {:induction false} ChunksApart(units: set<string>, p: string, m: nat, q: string, n: nat, name: string)
    requires Cpp(p) && Cpp(q) && p in units && q in units
    requires ChunkOf(units, p, m, name) && ChunkOf(units, q, n, name)
    ensures p == q
  {
    if name != p && name != q {
      var j: nat :| FreeAt(units, p, name, j) && FreeCount(units, p, j) < m;
      var k: nat :| FreeAt(units, q, name, k) && FreeCount(units, q, k) < n;
      NumbersApart(p, j, q, k);
    }
  }

  lemma {:induction false} NewStretches(units: set<string>, out: seq<Segment>, path: string -> string,
                                        blocks: seq<seq<Row>>, n: nat, name: string)
    requires UnityUnits(units, out) && Named(units, out, path, blocks) && n <= |blocks|
    ensures Stretches(NewTexts(blocks, n), name)
            == Tally(out, PathFrom(path, name, ParentsOf(out)[..n]))
             + if ChunkAmong(units, out, n, name) then 1 else 0
  {
    if n == 0 {
      NoneFrom(out, path, name);
    } else {
      NewStretches(units, out, path, blocks, n - 1, name);
      assert ParentsOf(out)[n - 1] in ParentsOf(out);
      BlockStretches(units, out, ParentsOf(out)[n - 1], path, blocks[n - 1], name);
      TallyAppend(NewTexts(blocks, n - 1), TextsOf(blocks[n - 1], |blocks[n - 1]|), Called(name));
      ParentStep(out, ParentsOf(out), path, name, n);
      ChunkStep(units, out, n, name);
    }
  }

  lemma {:induction false} ParentStep(out: seq<Segment>, order: seq<string>, path: string -> string, name: string,
                                      n: nat)
    requires order == ParentsOf(out) && 0 < n <= |order|
    ensures Tally(out, PathFrom(path, name, order[..n]))
            == Tally(out, PathFrom(path, name, order[..n - 1])) + Tally(Of(out, order[n - 1]), PathIs(path, name))
  {
    ParentsOfIs(out);
    assert order[..n] == order[..n - 1] + [order[n - 1]];
    OneMoreParent(out, path, name, order[..n - 1], order[n - 1]);
  }

  lemma {:induction false} NoneFrom(out: seq<Segment>, path: string -> string, name: string)
    ensures Tally(out, PathFrom(path, name, [])) == 0
  {
    if out != [] { NoneFrom(out[1..], path, name); }
  }

  lemma {:induction false} ChunkStep(units: set<string>, out: seq<Segment>, n: nat, name: string)
    requires UnityUnits(units, out) && 0 < n <= |ParentsOf(out)|
    ensures var p := ParentsOf(out)[n - 1]; var own := ChunkOf(units, p, Remainders(out, p), name);
            && (ChunkAmong(units, out, n, name) <==> ChunkAmong(units, out, n - 1, name) || own)
            && !(ChunkAmong(units, out, n - 1, name) && own)
  {
    var p := ParentsOf(out)[n - 1];
    assert p in ParentsOf(out);
    ParentsOfIs(out);
    if ChunkAmong(units, out, n - 1, name) {
      var b :| 0 <= b < n - 1 && ChunkOf(units, ParentsOf(out)[b], Remainders(out, ParentsOf(out)[b]), name);
      var q := ParentsOf(out)[b];
      assert q in ParentsOf(out);
      if ChunkOf(units, p, Remainders(out, p), name) {
        ChunksApart(units, p, Remainders(out, p), q, Remainders(out, q), name);
      }
    }
  }

  /** Some parent gives a remainder this name. */
  ghost predicate ChunkHas(units: set<string>, out: seq<Segment>, name: string) {
    exists p :: p in ParentsOf(out) && ChunkOf(units, p, Remainders(out, p), name)
  }

  lemma {:induction false} ChunkHasAmong(units: set<string>, out: seq<Segment>, name: string)
    ensures ChunkHas(units, out, name) <==> ChunkAmong(units, out, |ParentsOf(out)|, name)
  {
    if ChunkHas(units, out, name) {
      var p :| p in ParentsOf(out) && ChunkOf(units, p, Remainders(out, p), name);
      var b :| 0 <= b < |ParentsOf(out)| && ParentsOf(out)[b] == p;
    }
    if ChunkAmong(units, out, |ParentsOf(out)|, name) {
      var b :| 0 <= b < |ParentsOf(out)| && ChunkOf(units, ParentsOf(out)[b], Remainders(out, ParentsOf(out)[b]), name);
      assert ParentsOf(out)[b] in ParentsOf(out);
    }
  }

  /**
   Whatever is cut and however it is named, a name owns as many stretches of text as it keeps,
   one for each recovered file with that path, and one if it is what a remainder is called.
   */
  lemma {:induction false} StretchesAre(units: set<string>, lines: seq<Text>, out: seq<Segment>, path: string -> string,
                                        blocks: seq<seq<Row>>, name: string)
    requires UnityUnits(units, out) && Named(units, out, path, blocks)
    ensures Stretches(After(out, lines, blocks), name)
            == Stretches(Kept(out, lines), name)
             + Tally(out, PathIs(path, name))
             + if ChunkHas(units, out, name) then 1 else 0
  {
    TallyAppend(Kept(out, lines), NewTexts(blocks, |blocks|), Called(name));
    NewStretches(units, out, path, blocks, |blocks|, name);
    ChunkHasAmong(units, out, name);
    var parents := ParentsOf(out);
    assert parents[..|blocks|] == parents;
    ParentsOfIs(out);
    TallySame(out, PathFrom(path, name, parents), PathIs(path, name));
  }

  // ----- one stretch each -----

  /** No two recovered files have one path. */
  ghost predicate PathsDiffer(out: seq<Segment>, path: string -> string) {
    forall i, j :: 0 <= i < j < |out| && out[i].source.Some? && out[j].source.Some? ==>
      path(out[i].source.value) != path(out[j].source.value)
  }

  /** The path of a recovered file is new: no text of that name stays, and no remainder is called so. */
  ghost predicate NewPath(units: set<string>, lines: seq<Text>, out: seq<Segment>, name: string) {
    && (forall t :: t in lines && t.name == name ==> name in ParentsOf(out))
    && (name in ParentsOf(out) ==> Remainders(out, name) == 0)
    && (forall p :: p in ParentsOf(out) ==> !NumberUsed(units, p, Remainders(out, p), name))
  }

  ghost predicate PathsNew(units: set<string>, lines: seq<Text>, out: seq<Segment>, path: string -> string) {
    forall g :: g in out && g.source.Some? ==> NewPath(units, lines, out, path(g.source.value))
  }

  lemma {:induction false} OneEachIs(texts: seq<Text>)
    ensures OneStretchEach(texts) <==> forall name :: Stretches(texts, name) <= 1
  {
    if OneStretchEach(texts) {
      forall name
        ensures Stretches(texts, name) <= 1
      {
        if Stretches(texts, name) >= 2 {
          var i, j := TallyFoundTwo(texts, Called(name));
        }
      }
    }
    if forall name :: Stretches(texts, name) <= 1 {
      forall i, j | 0 <= i < j < |texts|
        ensures texts[i].name != texts[j].name
      {
        assert Stretches(texts, texts[i].name) <= 1;
        if texts[i].name == texts[j].name { TallyTwo(texts, Called(texts[i].name), i, j); }
      }
    }
  }

  lemma {:induction false} PathsDifferIs(out: seq<Segment>, path: string -> string)
    ensures PathsDiffer(out, path) <==> forall name :: Tally(out, PathIs(path, name)) <= 1
  {
    if PathsDiffer(out, path) {
      forall name
        ensures Tally(out, PathIs(path, name)) <= 1
      {
        if Tally(out, PathIs(path, name)) >= 2 {
          var i, j := TallyFoundTwo(out, PathIs(path, name));
        }
      }
    }
    if forall name :: Tally(out, PathIs(path, name)) <= 1 {
      forall i, j | 0 <= i < j < |out| && out[i].source.Some? && out[j].source.Some?
        ensures path(out[i].source.value) != path(out[j].source.value)
      {
        var name := path(out[i].source.value);
        if path(out[j].source.value) == name { TallyTwo(out, PathIs(path, name), i, j); }
        assert Tally(out, PathIs(path, name)) <= 1;
      }
    }
  }

  lemma {:induction false} KeptMembers(out: seq<Segment>, lines: seq<Text>, t: Text)
    ensures t in Kept(out, lines) <==> t in lines && KeptText(out, t)
  {
    if lines != [] { KeptMembers(out, lines[1..], t); }
  }

  /** A name owns kept text exactly when a line of a unit that is not cut up has it. */
  lemma {:induction false} KeptStretch(out: seq<Segment>, lines: seq<Text>, name: string)
    ensures Stretches(Kept(out, lines), name) > 0 <==>
              name !in ParentsOf(out) && exists t :: t in lines && t.name == name
  {
    var kept := Kept(out, lines);
    if Stretches(kept, name) > 0 {
      var i := TallyFound(kept, Called(name));
      KeptMembers(out, lines, kept[i]);
    }
    if name !in ParentsOf(out) && exists t :: t in lines && t.name == name {
      var t :| t in lines && t.name == name;
      KeptMembers(out, lines, t);
      var i :| 0 <= i < |kept| && kept[i] == t;
      TallyOne(kept, Called(name), i);
    }
  }

  /** A new path owns nothing but the recovered file. */
  lemma {:induction false} NewPathIs(units: set<string>, lines: seq<Text>, out: seq<Segment>, name: string)
    ensures NewPath(units, lines, out, name) <==> Stretches(Kept(out, lines), name) == 0 && !ChunkHas(units, out, name)
  {
    KeptStretch(out, lines, name);
    if ChunkHas(units, out, name) {
      var p :| p in ParentsOf(out) && ChunkOf(units, p, Remainders(out, p), name);
    }
    if !NewPath(units, lines, out, name) {
      if name in ParentsOf(out) && Remainders(out, name) > 0 {
        assert ChunkOf(units, name, Remainders(out, name), name);
      } else if exists p :: p in ParentsOf(out) && NumberUsed(units, p, Remainders(out, p), name) {
        var p :| p in ParentsOf(out) && NumberUsed(units, p, Remainders(out, p), name);
        assert Remainders(out, p) > 0 by {
          var k: nat :| FreeAt(units, p, name, k) && FreeCount(units, p, k) < Remainders(out, p);
        }
        assert ChunkOf(units, p, Remainders(out, p), name);
      }
    }
  }

  /** A remainder has no name that a unit keeps. */
  lemma {:induction false} ChunkNotKept(units: set<string>, lines: seq<Text>, out: seq<Segment>, name: string)
    requires forall t :: t in lines ==> t.name in units
    requires ChunkHas(units, out, name)
    ensures Stretches(Kept(out, lines), name) == 0
  {
    KeptStretch(out, lines, name);
    var p :| p in ParentsOf(out) && ChunkOf(units, p, Remainders(out, p), name);
  }

  /**
   No unit owns two stretches of text exactly when none kept two before, and the paths of the
   recovered files are all different and all new.
   */
  lemma {:induction false} OneStretchExactly(units: set<string>, lines: seq<Text>, out: seq<Segment>,
                                             path: string -> string, blocks: seq<seq<Row>>)
    requires UnityUnits(units, out) && Named(units, out, path, blocks)
    requires forall t :: t in lines ==> t.name in units
    ensures OneStretchEach(After(out, lines, blocks)) <==>
              OneStretchEach(Kept(out, lines)) && PathsDiffer(out, path) && PathsNew(units, lines, out, path)
  {
    OneEachIs(After(out, lines, blocks));
    OneEachIs(Kept(out, lines));
    PathsDifferIs(out, path);
    PathsNewIs(units, lines, out, path);
    forall name
      ensures Stretches(After(out, lines, blocks), name) <= 1 <==>
                && Stretches(Kept(out, lines), name) <= 1 && Tally(out, PathIs(path, name)) <= 1
                && (Tally(out, PathIs(path, name)) > 0 ==> NewPath(units, lines, out, name))
    {
      StretchesAre(units, lines, out, path, blocks, name);
      NewPathIs(units, lines, out, name);
      if ChunkHas(units, out, name) { ChunkNotKept(units, lines, out, name); }
    }
  }

  lemma {:induction false} PathsNewIs(units: set<string>, lines: seq<Text>, out: seq<Segment>, path: string -> string)
    ensures PathsNew(units, lines, out, path) <==>
              forall name :: Tally(out, PathIs(path, name)) > 0 ==> NewPath(units, lines, out, name)
  {
    if PathsNew(units, lines, out, path) {
      forall name | Tally(out, PathIs(path, name)) > 0
        ensures NewPath(units, lines, out, name)
      {
        var i := TallyFound(out, PathIs(path, name));
        assert out[i] in out;
      }
    }
    if forall name :: Tally(out, PathIs(path, name)) > 0 ==> NewPath(units, lines, out, name) {
      forall g | g in out && g.source.Some?
        ensures NewPath(units, lines, out, path(g.source.value))
      {
        var i :| 0 <= i < |out| && out[i] == g;
        TallyOne(out, PathIs(path, path(g.source.value)), i);
      }
    }
  }

  /** Different paths that no unit has, and that are no number of a parent, are enough for any remainders. */
  lemma {:induction false} NewPathsSuffice(units: set<string>, lines: seq<Text>, out: seq<Segment>,
                                           path: string -> string, blocks: seq<seq<Row>>)
    requires UnityUnits(units, out) && Named(units, out, path, blocks)
    requires (forall t :: t in lines ==> t.name in units) && OneStretchEach(Kept(out, lines)) && PathsDiffer(out, path)
    requires forall g :: g in out && g.source.Some? ==> path(g.source.value) !in units
    requires forall g, p :: g in out && g.source.Some? && p in ParentsOf(out) ==> !Numbered(p, path(g.source.value))
    ensures OneStretchEach(After(out, lines, blocks))
  {
    forall g | g in out && g.source.Some?
      ensures NewPath(units, lines, out, path(g.source.value))
    {
      var name := path(g.source.value);
      forall p | p in ParentsOf(out)
        ensures !NumberUsed(units, p, Remainders(out, p), name)
      {
        assert !Numbered(p, name);
      }
    }
    OneStretchExactly(units, lines, out, path, blocks);
  }

  /** So a path that no unit has is not enough: it must not be a number that a remainder is given, either. */
  lemma {:induction false} NumberedPathCollides(units: set<string>, lines: seq<Text>, out: seq<Segment>,
                                                path: string -> string, blocks: seq<seq<Row>>, g: Segment, p: string)
    requires UnityUnits(units, out) && Named(units, out, path, blocks)
    requires forall t :: t in lines ==> t.name in units
    requires p in ParentsOf(out) && Remainders(out, p) >= 2 && ChunkName(p, 1) !in units
    requires g in out && g.source.Some? && path(g.source.value) == ChunkName(p, 1)
    ensures path(g.source.value) !in units && !OneStretchEach(After(out, lines, blocks))
  {
    assert FreeAt(units, p, ChunkName(p, 1), 1) && FreeCount(units, p, 0) == 0;
    assert NumberUsed(units, p, Remainders(out, p), path(g.source.value));
    OneStretchExactly(units, lines, out, path, blocks);
  }
}
