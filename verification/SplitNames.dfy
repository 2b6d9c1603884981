/**
 Naming the pieces of the unity units, in `tools/dwarf_splits.py`: each parent keeps its
 first remainder, the later ones get its free numbers, the source files their paths.
 */
module SplitNames {
  import opened Counting
  import opened SplitPlan
  import opened Sorting
  import opened TextOrder
  import opened Wrappers
  import Decimal

  /** A unit: its name, its stretch of text if it has one, and the source file it was recovered from. */
  datatype Row = Row(name: string, text: Option<(int, int)>, source: Option<string>)

  // ----- numbers -----

  function Stem(parent: string): string {
    if |parent| < 4 then "" else parent[..|parent| - 4]
  }

  function ChunkName(parent: string, idx: nat): string {
    Stem(parent) + "_" + Decimal.Format(idx) + ".cpp"
  }

  lemma {:induction false} ChunkNameInjective(parent: string, m: nat, n: nat)
    requires ChunkName(parent, m) == ChunkName(parent, n)
    ensures m == n
  {
    ChunkStems(parent, m, parent, n);
  }

  /** The digits reach back to the last underscore, so the name gives stem and number. */
  lemma {:induction false} ChunkStems(p: string, m: nat, q: string, n: nat)
    requires ChunkName(p, m) == ChunkName(q, n)
    ensures Stem(p) == Stem(q) && m == n
  {
    LastUnderscore(Stem(p), Decimal.Format(m), Stem(q), Decimal.Format(n));
    Decimal.FormatInjective(m, n);
  }

  lemma {:induction false} LastUnderscore(a: string, d: string, b: string, e: string)
    requires Decimal.AllDigits(d) && Decimal.AllDigits(e)
    requires a + "_" + d + ".cpp" == b + "_" + e + ".cpp"
    ensures a == b && d == e
  {
    var s, t := a + "_" + d + ".cpp", b + "_" + e + ".cpp";
    assert s[|a|] == '_' && t[|b|] == '_';
    forall i | |a| < i < |a| + 1 + |d|
      ensures s[i] != '_'
    {
      assert s[i] == d[i - |a| - 1];
    }
    forall i | |b| < i < |b| + 1 + |e|
      ensures t[i] != '_'
    {
      assert t[i] == e[i - |b| - 1];
    }
    assert |a| == |b|;
    assert s[..|a|] == a && t[..|b|] == b;
    assert s[|a| + 1..|a| + 1 + |d|] == d && t[|b| + 1..|b| + 1 + |e|] == e;
  }

  /** How many of the parent's numbers up to k no unit has. */
  function FreeCount(units: set<string>, parent: string, k: nat): nat {
    if k == 0 then 0 else FreeCount(units, parent, k - 1) + if ChunkName(parent, k) in units then 0 else 1
  }

  /** The name is the parent's r-th free number. */
  ghost predicate NthFree(units: set<string>, parent: string, r: nat, name: string) {
    exists k: nat :: FreeAt(units, parent, name, k) && FreeCount(units, parent, k) == r
  }

  predicate FreeAt(units: set<string>, parent: string, name: string, k: nat) {
    k >= 1 && name == ChunkName(parent, k) && name !in units
  }

  lemma {:induction false} FreeCountGrows(units: set<string>, parent: string, j: nat, k: nat)
    requires j <= k
    ensures FreeCount(units, parent, j) <= FreeCount(units, parent, k)
  {
    if j < k { FreeCountGrows(units, parent, j, k - 1); }
  }

  lemma {:induction false} FreeCountSkips(units: set<string>, parent: string, j: nat, k: nat)
    requires j <= k && forall i: nat :: j < i <= k ==> ChunkName(parent, i) in units
    ensures FreeCount(units, parent, j) == FreeCount(units, parent, k)
  {
    if j < k { FreeCountSkips(units, parent, j, k - 1); }
  }

  /** The first index after `idx` whose name is free: the loop ends because the names used up are all taken. */
  method FreeName(parent: string, idx: nat, taken: set<string>) returns (next: nat, name: string)
    ensures next > idx && name == ChunkName(parent, next) && name !in taken
    ensures forall k: nat :: idx < k < next ==> ChunkName(parent, k) in taken
  {
    next := idx + 1;
    name := ChunkName(parent, next);
    ghost var left := taken;
    while name in taken
      invariant next > idx && name == ChunkName(parent, next)
      invariant forall k: nat :: idx < k < next ==> ChunkName(parent, k) in taken
      invariant forall k: nat :: k >= next && ChunkName(parent, k) in taken ==> ChunkName(parent, k) in left
      decreases |left|
    {
      forall k: nat | k > next
        ensures ChunkName(parent, k) != name
      {
        if ChunkName(parent, k) == name { ChunkNameInjective(parent, k, next); }
      }
      left := left - {name};
      next := next + 1;
      name := ChunkName(parent, next);
    }
  }

  // ----- one parent -----

  predicate IsRemainder(g: Segment) { g.source.None? }

  /** The name a piece gets that has r remainders of its parent before it. */
  ghost predicate NameIs(units: set<string>, parent: string, path: string -> string, g: Segment, r: nat, name: string) {
    if g.source.Some? then name == path(g.source.value)
    else if r == 0 then name == parent
    else NthFree(units, parent, r, name)
  }

  ghost predicate RowIs(units: set<string>, parent: string, segs: seq<Segment>, path: string -> string, i: nat,
                        row: Row)
    requires i < |segs|
  {
    && row.text == Some((segs[i].lo, segs[i].hi)) && row.source == segs[i].source
    && NameIs(units, parent, path, segs[i], Tally(segs[..i], IsRemainder), row.name)
  }

  /** The rows of a parent: one a piece, and the bare parent when nothing of it remains. */
  ghost predicate ParentRows(units: set<string>, parent: string, segs: seq<Segment>, path: string -> string,
                             rows: seq<Row>) {
    && |rows| == |segs| + (if Tally(segs, IsRemainder) == 0 then 1 else 0)
    && (forall i :: 0 <= i < |segs| ==> RowIs(units, parent, segs, path, i, rows[i]))
    && (Tally(segs, IsRemainder) == 0 ==> rows[|segs|] == Row(parent, None, None))
  }

  /** Past `idx` the names taken are those of units. */
  ghost predicate Ahead(units: set<string>, parent: string, idx: nat, taken: set<string>) {
    forall k: nat :: k > idx ==> (ChunkName(parent, k) in taken <==> ChunkName(parent, k) in units)
  }

  ghost predicate Numbered(parent: string, name: string) {
    exists k: nat :: name == ChunkName(parent, k)
  }

  ghost predicate TakenFor(parent: string, before: set<string>, taken: set<string>) {
    before <= taken && forall x :: x in taken ==> x in before || Numbered(parent, x)
  }

  /** The loop's state after n pieces. */
  ghost predicate Going(units: set<string>, parent: string, segs: seq<Segment>, path: string -> string,
                        before: set<string>, n: nat, rows: seq<Row>, used: bool, taken: set<string>, idx: nat)
    requires n <= |segs|
  {
    && |rows| == n
    && (forall i :: 0 <= i < n ==> RowIs(units, parent, segs, path, i, rows[i]))
    && (used <==> Tally(segs[..n], IsRemainder) > 0)
    && FreeCount(units, parent, idx) == (if used then Tally(segs[..n], IsRemainder) - 1 else 0)
    && Ahead(units, parent, idx, taken)
    && TakenFor(parent, before, taken)
  }

  /** A source file has a path of its own; */
  lemma {:induction false} SourceNamed(units: set<string>, parent: string, segs: seq<Segment>,
                                       path: string -> string, before: set<string>, n: nat, rows: seq<Row>, used: bool,
                                       taken: set<string>, idx: nat)
    requires n < |segs| && segs[n].source.Some? && Going(units, parent, segs, path, before, n, rows, used, taken, idx)
    ensures var g := segs[n];
            Going(units, parent, segs, path, before, n + 1,
                  rows + [Row(path(g.source.value), Some((g.lo, g.hi)), g.source)], used, taken, idx)
  {
    TallyFirst(segs, IsRemainder, n);
  }

  /** the first remainder keeps the parent's name, */
  lemma {:induction false} ParentNamed(units: set<string>, parent: string, segs: seq<Segment>,
                                       path: string -> string, before: set<string>, n: nat, rows: seq<Row>,
                                       taken: set<string>, idx: nat)
    requires n < |segs| && segs[n].source.None? && Going(units, parent, segs, path, before, n, rows, false, taken, idx)
    ensures var g := segs[n];
            Going(units, parent, segs, path, before, n + 1, rows + [Row(parent, Some((g.lo, g.hi)), None)], true,
                  taken, idx)
  {
    TallyFirst(segs, IsRemainder, n);
  }

  /** and a later one takes the next free number. */
  lemma {:induction false} NumberNamed(units: set<string>, parent: string, segs: seq<Segment>,
                                       path: string -> string, before: set<string>, n: nat, rows: seq<Row>,
                                       taken: set<string>, idx: nat, next: nat)
    requires n < |segs| && segs[n].source.None? && Going(units, parent, segs, path, before, n, rows, true, taken, idx)
    requires FreeCount(units, parent, next) == FreeCount(units, parent, idx) + 1
    requires FreeAt(units, parent, ChunkName(parent, next), next)
    requires Ahead(units, parent, next, taken + {ChunkName(parent, next)})
    requires TakenFor(parent, before, taken + {ChunkName(parent, next)})
    ensures var g, name := segs[n], ChunkName(parent, next);
            Going(units, parent, segs, path, before, n + 1, rows + [Row(name, Some((g.lo, g.hi)), None)], true,
                  taken + {name}, next)
  {
    TallyFirst(segs, IsRemainder, n);
  }

  /** The naming loop for one parent. */
  method NameParent(ghost units: set<string>, parent: string, segs: seq<Segment>, path: string -> string,
                    before: set<string>)
    returns (rows: seq<Row>, taken: set<string>)
    requires Ahead(units, parent, 0, before)
    ensures ParentRows(units, parent, segs, path, rows)
    ensures TakenFor(parent, before, taken)
  {
    var usedParent := false;
    var idx := 0;
    rows, taken := [], before;
    for n := 0 to |segs|
      invariant Going(units, parent, segs, path, before, n, rows, usedParent, taken, idx)
    {
      var g := segs[n];
      if g.source.Some? {
        SourceNamed(units, parent, segs, path, before, n, rows, usedParent, taken, idx);
        rows := rows + [Row(path(g.source.value), Some((g.lo, g.hi)), g.source)];
        continue;
      }
      if !usedParent {
        ParentNamed(units, parent, segs, path, before, n, rows, taken, idx);
        rows := rows + [Row(parent, Some((g.lo, g.hi)), None)];
        usedParent := true;
      } else {
        var next, name := FreeName(parent, idx, taken);
        NumberTaken(units, parent, before, taken, idx, next);
        NumberNamed(units, parent, segs, path, before, n, rows, taken, idx, next);
        idx := next;
        taken := taken + {name};
        rows := rows + [Row(name, Some((g.lo, g.hi)), None)];
      }
    }
    assert segs[..|segs|] == segs;
    if !usedParent {
      rows := rows + [Row(parent, None, None)];
    }
  }

  lemma {:induction false} NumberTaken(units: set<string>, parent: string, before: set<string>, taken: set<string>,
                                       idx: nat, next: nat)
    requires Ahead(units, parent, idx, taken) && TakenFor(parent, before, taken)
    requires next > idx && ChunkName(parent, next) !in taken
    requires forall k: nat :: idx < k < next ==> ChunkName(parent, k) in taken
    ensures FreeCount(units, parent, next) == FreeCount(units, parent, idx) + 1
    ensures FreeAt(units, parent, ChunkName(parent, next), next)
    ensures Ahead(units, parent, next, taken + {ChunkName(parent, next)})
    ensures TakenFor(parent, before, taken + {ChunkName(parent, next)})
  {
    FreeCountSkips(units, parent, idx, next - 1);
    forall k: nat | k > next
      ensures ChunkName(parent, k) != ChunkName(parent, next)
    {
      if ChunkName(parent, k) == ChunkName(parent, next) { ChunkNameInjective(parent, k, next); }
    }
  }

  // ----- all parents -----

  function Of(out: seq<Segment>, parent: string): seq<Segment> {
    if out == [] then [] else (if out[0].parent == parent then [out[0]] else []) + Of(out[1..], parent)
  }

  /** The parents in the order in which they first come. */
  function ParentsOf(out: seq<Segment>): seq<string> {
    if out == [] then []
    else
      var before, p := ParentsOf(out[..|out| - 1]), out[|out| - 1].parent;
      if p in before then before else before + [p]
  }

  lemma {:induction false} ParentsOfIs(out: seq<Segment>)
    ensures forall p :: p in ParentsOf(out) <==> exists g :: g in out && g.parent == p
    ensures forall i, j :: 0 <= i < j < |ParentsOf(out)| ==> ParentsOf(out)[i] != ParentsOf(out)[j]
  {
    if out != [] {
      var init, last := out[..|out| - 1], out[|out| - 1];
      ParentsOfIs(init);
      assert out == init + [last];
      forall p
        ensures p in ParentsOf(out) <==> exists g :: g in out && g.parent == p
      {
        if p in ParentsOf(init) {
          var g :| g in init && g.parent == p;
          assert g in out;
        } else if p == last.parent {
          assert last in out;
        }
      }
    }
  }

  /** Low end, high end, count and source: the order of Python's tuples. */
  predicate SegLe(a: Segment, b: Segment) {
    if a.lo != b.lo then a.lo < b.lo
    else if a.hi != b.hi then a.hi < b.hi
    else if a.count != b.count then a.count < b.count
    else a.source.None? || (b.source.Some? && TextLe(a.source.value, b.source.value))
  }

  function PiecesOf(out: seq<Segment>, parent: string): seq<Segment> {
    Sort(Of(out, parent), SegLe)
  }

  /** Every parent's pieces have their rows. */
  ghost predicate Named(units: set<string>, out: seq<Segment>, path: string -> string, blocks: seq<seq<Row>>) {
    && |blocks| == |ParentsOf(out)|
    && forall b :: 0 <= b < |blocks| ==>
         ParentRows(units, ParentsOf(out)[b], PiecesOf(out, ParentsOf(out)[b]), path, blocks[b])
  }

  /** The parents are units, and their names end as the pattern that picks them says. */
  ghost predicate UnityUnits(units: set<string>, out: seq<Segment>) {
    forall p :: p in ParentsOf(out) ==> p in units && Cpp(p)
  }

  predicate Cpp(name: string) {
    |name| >= 4 && name[|name| - 4..] == ".cpp"
  }

  /** A number of one parent is no number of another. */
  lemma {:induction false} NumbersApart(p: string, m: nat, q: string, n: nat)
    requires Cpp(p) && Cpp(q) && ChunkName(p, m) == ChunkName(q, n)
    ensures p == q && m == n
  {
    ChunkStems(p, m, q, n);
    assert p == Stem(p) + ".cpp" && q == Stem(q) + ".cpp";
  }

  lemma {:induction false} StillAhead(units: set<string>, p: string, q: string, before: set<string>, taken: set<string>)
    requires Cpp(p) && Cpp(q) && p != q && Ahead(units, q, 0, before) && TakenFor(p, before, taken)
    ensures Ahead(units, q, 0, taken)
  {
    forall k: nat | k > 0
      ensures ChunkName(q, k) in taken <==> ChunkName(q, k) in units
    {
      if Numbered(p, ChunkName(q, k)) {
        var j: nat :| ChunkName(q, k) == ChunkName(p, j);
        NumbersApart(q, k, p, j);
      }
    }
  }

  method ParentsInOrder(out: seq<Segment>) returns (order: seq<string>)
    ensures order == ParentsOf(out)
  {
    order := [];
    for n := 0 to |out|
      invariant order == ParentsOf(out[..n])
    {
      assert out[..n + 1][..n] == out[..n];
      if out[n].parent !in order {
        order := order + [out[n].parent];
      }
    }
    assert out[..|out|] == out;
  }

  /** No number of the parents still to come has been taken. */
  ghost predicate AllAhead(units: set<string>, order: seq<string>, n: nat, taken: set<string>) {
    forall b :: n <= b < |order| ==> Ahead(units, order[b], 0, taken)
  }

  ghost predicate Parents(order: seq<string>) {
    && (forall b :: 0 <= b < |order| ==> Cpp(order[b]))
    && forall i, j :: 0 <= i < j < |order| ==> order[i] != order[j]
  }

  lemma {:induction false} StillAllAhead(units: set<string>, order: seq<string>, n: nat, before: set<string>,
                                         taken: set<string>)
    requires n < |order| && Parents(order) && AllAhead(units, order, n, before) && TakenFor(order[n], before, taken)
    ensures AllAhead(units, order, n + 1, taken)
  {
    forall b | n < b < |order|
      ensures Ahead(units, order[b], 0, taken)
    {
      StillAhead(units, order[n], order[b], before, taken);
    }
  }

  /** The rows of the first parents. */
  ghost predicate RowsSoFar(units: set<string>, out: seq<Segment>, path: string -> string, order: seq<string>,
                            blocks: seq<seq<Row>>) {
    && |blocks| <= |order|
    && forall b :: 0 <= b < |blocks| ==> ParentRows(units, order[b], PiecesOf(out, order[b]), path, blocks[b])
  }

  lemma {:induction false} RowsOn(units: set<string>, out: seq<Segment>, path: string -> string, order: seq<string>,
                                  blocks: seq<seq<Row>>, rows: seq<Row>)
    requires |blocks| < |order| && RowsSoFar(units, out, path, order, blocks)
    requires ParentRows(units, order[|blocks|], PiecesOf(out, order[|blocks|]), path, rows)
    ensures RowsSoFar(units, out, path, order, blocks + [rows])
  {
  }

  lemma {:induction false} UnityParents(units: set<string>, out: seq<Segment>)
    requires UnityUnits(units, out)
    ensures Parents(ParentsOf(out)) && AllAhead(units, ParentsOf(out), 0, units)
  {
    ParentsOfIs(out);
    forall b | 0 <= b < |ParentsOf(out)|
      ensures Cpp(ParentsOf(out)[b])
    {
      assert ParentsOf(out)[b] in ParentsOf(out);
    }
  }

  /** The naming loop: for each parent its pieces, lowest first. */
  method NameSegments(units: set<string>, out: seq<Segment>, path: string -> string)
    returns (order: seq<string>, blocks: seq<seq<Row>>)
    requires UnityUnits(units, out)
    ensures order == ParentsOf(out) && Named(units, out, path, blocks)
  {
    order := ParentsInOrder(out);
    UnityParents(units, out);
    blocks := [];
    var taken := units;
    for n := 0 to |order|
      invariant |blocks| == n && RowsSoFar(units, out, path, order, blocks)
      invariant AllAhead(units, order, n, taken)
    {
      var rows, now := NameParent(units, order[n], PiecesOf(out, order[n]), path, taken);
      StillAllAhead(units, order, n, taken, now);
      RowsOn(units, out, path, order, blocks, rows);
      blocks := blocks + [rows];
      taken := now;
    }
  }
}
