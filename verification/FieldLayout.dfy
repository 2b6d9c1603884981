/**
 The class layout of `tools/gen_assetfix.py`: members recorded at the offsets
 the code reads, merged, and written out with padding between them.
 */
module FieldLayout {
  import opened Wrappers

  datatype Member = Member(ctype: string, name: string, size: nat)

  datatype Use = Use(off: int, m: Member)

  // ----- recording members -----

  predicate Mergeable(a: Member, b: Member) {
    a.size == b.size && {a.ctype, b.ctype} == {"int", "unsigned int"}
  }

  class Fields {
    var at: map<int, Member>

    constructor ()
      ensures at == map[]
    {
      at := map[];
    }

    /** `put`: false where the source refuses. */
    method Put(off: int, ctype: string, name: string, size: nat) returns (ok: bool)
      modifies this
      ensures ok <==> Recorded(old(at), Use(off, Member(ctype, name, size))).Some?
      ensures ok ==> at == Recorded(old(at), Use(off, Member(ctype, name, size))).value
      ensures !ok ==> at == old(at)
    {
      var m := Member(ctype, name, size);
      if off in at {
        var was := at[off];
        if was == m { return true; }
        if was.size == size && {was.ctype, ctype} == {"int", "unsigned int"} {
          at := at[off := Member("unsigned int", name, size)];
          return true;
        }
        return false;
      }
      at := at[off := m];
      return true;
    }

    /** `render` of a class without a base. */
    method Render() returns (out: Option<seq<Line>>)
      ensures out.Some? <==> Fits(at)
      ensures out.Some? ==> out.value == Lines(Slots(at), 0, 0)
    {
      FitsExactly(at);
      var slots := Sorted(at);
      var lines: seq<Line> := [];
      var cursor, n := 0, 0;
      RenderStart(slots);
      for k := 0 to |slots|
        invariant Rendering(slots, k, lines, cursor, n)
      {
        var off, m := slots[k].off, slots[k].m;
        if off < cursor {
          RenderStops(slots, k, lines, cursor, n);
          return None;
        }
        RenderStep(slots, k, lines, cursor, n);
        if off > cursor {
          lines := lines + [Pad(n, off - cursor)];
          n := n + 1;
        }
        lines := lines + [Decl(m.ctype, m.name)];
        cursor := off + m.size;
      }
      RenderEnds(slots, lines, cursor, n);
      return Some(lines);
    }
  }

  /** `sorted` over the map. */
  method Sorted(at: map<int, Member>) returns (slots: seq<Use>)
    ensures slots == Slots(at)
  {
    var rest := at;
    slots := [];
    while rest.Keys != {}
      invariant slots + Slots(rest) == Slots(at)
      decreases |rest.Keys|
    {
      HasLeast(rest);
      var off :| Least(rest, off);
      var u := Use(off, rest[off]);
      assert slots + ([u] + Slots(rest - {off})) == slots + [u] + Slots(rest - {off});
      assert (rest - {off}).Keys == rest.Keys - {off};
      slots := slots + [u];
      rest := rest - {off};
    }
    assert slots + [] == slots;
  }

  function Recorded(at: map<int, Member>, u: Use): Option<map<int, Member>> {
    if u.off !in at then Some(at[u.off := u.m])
    else if at[u.off] == u.m then Some(at)
    else if Mergeable(at[u.off], u.m) then Some(at[u.off := u.m.(ctype := "unsigned int")])
    else None
  }

  /** All the uses, in the order they come; None as soon as one is refused. */
  function RecordAll(uses: seq<Use>): Option<map<int, Member>> {
    if uses == [] then Some(map[])
    else
      var before := RecordAll(uses[..|uses| - 1]);
      if before.None? then None else Recorded(before.value, uses[|uses| - 1])
  }

  /** The member recorded at an offset: what every use there says, unsigned if any of them is. */
  ghost predicate Describes(uses: seq<Use>, off: int, m: Member) {
    && (exists u :: u in uses && u.off == off && u.m == m)
    && (forall u :: u in uses && u.off == off ==> u.m == m || (Mergeable(u.m, m) && m.ctype == "unsigned int"))
  }

  /** The map says of every offset what its uses say, and nothing of others. */
  ghost predicate Agrees(uses: seq<Use>, at: map<int, Member>) {
    && (forall off :: off in at <==> exists u :: u in uses && u.off == off)
    && (forall off :: off in at ==> Describes(uses, off, at[off]))
  }

  predicate Compatible(a: Use, b: Use) {
    a.off == b.off ==> a.m == b.m || Mergeable(a.m, b.m)
  }

  ghost predicate AllCompatible(uses: seq<Use>) {
    forall a, b :: a in uses && b in uses ==> Compatible(a, b)
  }

  /** An offset goes by one name. */
  ghost predicate OneName(uses: seq<Use>) {
    forall a, b :: a in uses && b in uses && a.off == b.off ==> a.m.name == b.m.name
  }

  lemma {:induction false} InInit(uses: seq<Use>, u: Use)
    requires uses != []
    ensures u in uses <==> u in uses[..|uses| - 1] || u == uses[|uses| - 1]
  {
    assert uses == uses[..|uses| - 1] + [uses[|uses| - 1]];
  }

  /** The uses are accepted exactly when any two at one offset agree, and the map is what they say together. */
  lemma {:induction false} RecordAllIs(uses: seq<Use>)
    requires OneName(uses)
    ensures RecordAll(uses).Some? <==> AllCompatible(uses)
    ensures RecordAll(uses).Some? ==> Agrees(uses, RecordAll(uses).value)
  {
    if uses != [] {
      var init, last := uses[..|uses| - 1], uses[|uses| - 1];
      forall u ensures u in uses <==> u in init || u == last { InInit(uses, u); }
      RecordAllIs(init);
      if RecordAll(init).Some? {
        RecordOne(uses, init, last, RecordAll(init).value);
      }
    }
  }

  lemma {:induction false} RecordOne(uses: seq<Use>, init: seq<Use>, last: Use, at: map<int, Member>)
    requires forall u :: u in uses <==> u in init || u == last
    requires OneName(uses) && AllCompatible(init) && Agrees(init, at)
    ensures Recorded(at, last).Some? <==> AllCompatible(uses)
    ensures Recorded(at, last).Some? ==> Agrees(uses, Recorded(at, last).value)
  {
    var r := Recorded(at, last);
    if last.off in at {
      var m := at[last.off];
      var w :| w in init && w.off == last.off && w.m == m;
      if r.None? {
        assert !Compatible(w, last);
      } else {
        forall u | u in init && u.off == last.off
          ensures Compatible(u, last) && Compatible(last, u)
        {
          assert u.m.name == last.m.name && w.m.name == last.m.name;
        }
        RecordedAgrees(uses, init, last, at, w);
      }
    } else {
      forall off | off in r.value
        ensures Describes(uses, off, r.value[off])
      {
        if off != last.off { assert Describes(init, off, at[off]); }
      }
    }
  }

  lemma {:induction false} RecordedAgrees(uses: seq<Use>, init: seq<Use>, last: Use, at: map<int, Member>, w: Use)
    requires forall u :: u in uses <==> u in init || u == last
    requires OneName(uses) && Agrees(init, at) && Recorded(at, last).Some?
    requires last.off in at && w in init && w.off == last.off && w.m == at[last.off]
    ensures Agrees(uses, Recorded(at, last).value)
  {
    var r := Recorded(at, last).value;
    assert w.m.name == last.m.name;
    forall off | off in r
      ensures Describes(uses, off, r[off])
    {
      assert Describes(init, off, at[off]);
      if off == last.off {
        forall u | u in uses && u.off == off
          ensures u.m == r[off] || (Mergeable(u.m, r[off]) && r[off].ctype == "unsigned int")
        {
          assert u.m.name == last.m.name;
        }
        assert last.m == r[off] || w.m == r[off];
      }
    }
  }

  ghost predicate SameUses(uses: seq<Use>, others: seq<Use>) {
    forall u :: u in uses <==> u in others
  }

  lemma {:induction false} DescribedOnce(uses: seq<Use>, others: seq<Use>, off: int, a: Member, b: Member)
    requires SameUses(uses, others) && Describes(uses, off, a) && Describes(others, off, b)
    ensures a == b
  {
    var u :| u in uses && u.off == off && u.m == a;
    var w :| w in others && w.off == off && w.m == b;
    assert "int" in {"int", "unsigned int"} && |"int"| != |"unsigned int"|;
  }

  /** What is recorded depends on which uses there are, not on their order or number. */
  lemma {:induction false} OrderDoesNotMatter(uses: seq<Use>, others: seq<Use>)
    requires OneName(uses) && SameUses(uses, others)
    ensures RecordAll(uses) == RecordAll(others)
  {
    RecordAllIs(uses);
    RecordAllIs(others);
    if RecordAll(uses).Some? {
      AgreeAlike(uses, others, RecordAll(uses).value, RecordAll(others).value);
    }
  }

  lemma {:induction false} AgreeAlike(uses: seq<Use>, others: seq<Use>, a: map<int, Member>, b: map<int, Member>)
    requires SameUses(uses, others) && Agrees(uses, a) && Agrees(others, b)
    ensures a == b
  {
    forall off
      ensures off in a <==> off in b
    {
      if off in a {
        var u :| u in uses && u.off == off;
        assert u in others;
      }
      if off in b {
        var u :| u in others && u.off == off;
        assert u in uses;
      }
    }
    forall off | off in a
      ensures a[off] == b[off]
    {
      DescribedOnce(uses, others, off, a[off], b[off]);
    }
  }

  /** With two names at one offset it does: the same three uses are accepted one way and refused another. */
  lemma {:induction false} OrderMatters(a: string, b: string)
    requires a != b
    ensures var x, z := Use(0, Member("int", a, 4)), Use(0, Member("int", b, 4));
            var y := Use(0, Member("unsigned int", b, 4));
            RecordAll([x, y, z]).Some? && RecordAll([x, z, y]).None?
  {
    var x, y, z := Use(0, Member("int", a, 4)), Use(0, Member("unsigned int", b, 4)), Use(0, Member("int", b, 4));
    RecordThree(x, y, z);
    RecordThree(x, z, y);
    assert "int" != "unsigned int" by { assert |"int"| != |"unsigned int"|; }
    assert "unsigned int" !in {"int"};
  }

  lemma {:induction false} RecordThree(x: Use, y: Use, z: Use)
    ensures RecordAll([x, y, z]) ==
              var first := Recorded(map[x.off := x.m], y);
              if first.None? then None else Recorded(first.value, z)
  {
    assert [x, y, z][..2] == [x, y] && [x, y][..1] == [x] && [x][..0] == [];
    assert RecordAll([x]) == Some(map[x.off := x.m]);
  }

  // ----- writing the class -----

  datatype Line = Pad(n: nat, size: nat) | Decl(ctype: string, name: string)

  predicate Least(at: map<int, Member>, off: int) {
    off in at && forall o :: o in at ==> off <= o
  }

  lemma {:induction false} EmptyOrNot(keys: set<int>)
    ensures keys == {} || exists x :: x in keys
  {
    if forall x :: x !in keys { assert keys == {}; }
  }

  lemma {:induction false} HasLeast(at: map<int, Member>)
    requires at.Keys != {}
    ensures exists off :: Least(at, off)
    decreases |at|
  {
    EmptyOrNot(at.Keys);
    var x :| x in at.Keys;
    var rest := at - {x};
    if rest.Keys == {} {
      assert forall o :: o in at ==> o == x || o in rest;
      assert Least(at, x);
    } else {
      HasLeast(rest);
      var y :| Least(rest, y);
      assert forall o :: o in at ==> o == x || o in rest;
      assert Least(at, if x < y then x else y);
    }
  }

  /** The members in the order of their offsets. */
  ghost function Slots(at: map<int, Member>): seq<Use>
    decreases |at|
  {
    if at.Keys == {} then []
    else
      HasLeast(at);
      var off :| Least(at, off);
      [Use(off, at[off])] + Slots(at - {off})
  }

  /** That is what it says: increasing offsets, and what the map holds. */
  lemma {:induction false} SlotsAre(at: map<int, Member>)
    ensures forall u :: u in Slots(at) <==> u.off in at && at[u.off] == u.m
    ensures forall i, j :: 0 <= i < j < |Slots(at)| ==> Slots(at)[i].off < Slots(at)[j].off
    decreases |at|
  {
    if at.Keys != {} {
      HasLeast(at);
      var off :| Least(at, off);
      SlotsAre(at - {off});
      var rest := Slots(at - {off});
      forall j | 0 <= j < |rest|
        ensures off < rest[j].off
      {
        assert rest[j] in rest;
      }
    }
  }

  /** What is written for the members, the class being filled up to `cursor`. */
  function Lines(slots: seq<Use>, cursor: int, n: nat): seq<Line> {
    if slots == [] then []
    else
      var u := slots[0];
      Padding(cursor, u.off, n) + [Decl(u.m.ctype, u.m.name)]
      + Lines(slots[1..], u.off + u.m.size, if u.off > cursor then n + 1 else n)
  }

  function Padding(cursor: int, off: int, n: nat): seq<Line> {
    if off > cursor then [Pad(n, off - cursor)] else []
  }

  /** No member is in front of the class or reaches into another. */
  ghost predicate Fits(at: map<int, Member>) {
    && (forall a :: a in at ==> a >= 0)
    && (forall a, b :: a in at && b in at && a < b ==> a + at[a].size <= b)
  }

  /** Each member begins where the one before it ends, or later. */
  ghost predicate Ascending(slots: seq<Use>, cursor: int) {
    slots == [] || (cursor <= slots[0].off && Ascending(slots[1..], slots[0].off + slots[0].m.size))
  }

  /** The lines written and those still to come are those of the whole class, and so are the refusals. */
  ghost predicate Rendering(slots: seq<Use>, k: nat, lines: seq<Line>, cursor: int, n: nat) {
    && k <= |slots|
    && lines + Lines(slots[k..], cursor, n) == Lines(slots, 0, 0)
    && (Ascending(slots[k..], cursor) <==> Ascending(slots, 0))
  }

  lemma {:induction false} RenderStart(slots: seq<Use>)
    ensures Rendering(slots, 0, [], 0, 0)
  {
    assert slots[0..] == slots;
    assert [] + Lines(slots, 0, 0) == Lines(slots, 0, 0);
  }

  lemma {:induction false} RenderStep(slots: seq<Use>, k: nat, lines: seq<Line>, cursor: int, n: nat)
    requires k < |slots| && Rendering(slots, k, lines, cursor, n) && slots[k].off >= cursor
    ensures var u := slots[k];
            var d := Decl(u.m.ctype, u.m.name);
            if u.off > cursor
            then Rendering(slots, k + 1, lines + [Pad(n, u.off - cursor)] + [d], u.off + u.m.size, n + 1)
            else Rendering(slots, k + 1, lines + [d], u.off + u.m.size, n)
  {
    assert slots[k..] == [slots[k]] + slots[k + 1..];
    LinesCons(lines, slots[k], slots[k + 1..], cursor, n);
    assert slots[k..][0] == slots[k] && slots[k..][1..] == slots[k + 1..];
  }

  lemma {:induction false} RenderStops(slots: seq<Use>, k: nat, lines: seq<Line>, cursor: int, n: nat)
    requires k < |slots| && Rendering(slots, k, lines, cursor, n) && slots[k].off < cursor
    ensures !Ascending(slots, 0)
  {
    assert slots[k..][0] == slots[k];
  }

  lemma {:induction false} RenderEnds(slots: seq<Use>, lines: seq<Line>, cursor: int, n: nat)
    requires Rendering(slots, |slots|, lines, cursor, n)
    ensures Ascending(slots, 0) && lines == Lines(slots, 0, 0)
  {
    assert slots[|slots|..] == [] && lines + [] == lines;
  }

  lemma {:induction false} AscendingApart(slots: seq<Use>, cursor: int)
    requires Ascending(slots, cursor)
    ensures forall i :: 0 <= i < |slots| ==> cursor <= slots[i].off
    ensures forall i, j :: 0 <= i < j < |slots| ==> slots[i].off + slots[i].m.size <= slots[j].off
  {
    if slots != [] { AscendingApart(slots[1..], slots[0].off + slots[0].m.size); }
  }

  lemma {:induction false} FitsAscending(slots: seq<Use>, cursor: int)
    requires forall i, j :: 0 <= i < j < |slots| ==> slots[i].off + slots[i].m.size <= slots[j].off
    requires slots != [] ==> cursor <= slots[0].off
    ensures Ascending(slots, cursor)
  {
    if slots != [] {
      if |slots| > 1 { assert slots[1..][0] == slots[1]; }
      FitsAscending(slots[1..], slots[0].off + slots[0].m.size);
    }
  }

  /** Checking each member against the one before it finds every overlap. */
  lemma {:induction false} FitsExactly(at: map<int, Member>)
    ensures Ascending(Slots(at), 0) <==> Fits(at)
  {
    var slots := Slots(at);
    SlotsAre(at);
    forall i | 0 <= i < |slots|
      ensures slots[i].off in at && at[slots[i].off] == slots[i].m
    {
      assert slots[i] in slots;
    }
    if Ascending(slots, 0) {
      AscendingApart(slots, 0);
      forall a, b | a in at && b in at
        ensures a >= 0 && (a < b ==> a + at[a].size <= b)
      {
        SlotsFit(slots, Use(a, at[a]), Use(b, at[b]));
      }
    } else if Fits(at) {
      FitsAscending(slots, 0);
    }
  }

  lemma {:induction false} SlotsFit(slots: seq<Use>, a: Use, b: Use)
    requires a in slots && b in slots
    requires forall i :: 0 <= i < |slots| ==> 0 <= slots[i].off
    requires forall i, j :: 0 <= i < j < |slots| ==> slots[i].off + slots[i].m.size <= slots[j].off
    ensures a.off >= 0 && (a.off < b.off ==> a.off + a.m.size <= b.off)
  {
    var i :| 0 <= i < |slots| && slots[i] == a;
    var j :| 0 <= j < |slots| && slots[j] == b;
  }

  lemma {:induction false} LinesCons(lines: seq<Line>, u: Use, rest: seq<Use>, cursor: int, n: nat)
    ensures u.off > cursor ==>
              lines + Lines([u] + rest, cursor, n) ==
              lines + [Pad(n, u.off - cursor)] + [Decl(u.m.ctype, u.m.name)] + Lines(rest, u.off + u.m.size, n + 1)
    ensures u.off == cursor ==>
              lines + Lines([u] + rest, cursor, n) ==
              lines + [Decl(u.m.ctype, u.m.name)] + Lines(rest, u.off + u.m.size, n)
  {
    var all := [u] + rest;
    assert all[0] == u && all[1..] == rest;
    var next := if u.off > cursor then n + 1 else n;
    Joined(lines, Padding(cursor, u.off, n), [Decl(u.m.ctype, u.m.name)], Lines(rest, u.off + u.m.size, next));
    if u.off == cursor { assert lines + [] == lines; }
  }

  lemma {:induction false} Joined(a: seq<Line>, b: seq<Line>, c: seq<Line>, d: seq<Line>)
    ensures a + (b + c + d) == a + b + c + d
  {
  }

  // ----- the layout a compiler gives it -----

  function RoundUp(x: int, a: nat): (r: int)
    requires a > 0
    ensures x <= r < x + a
    ensures r == x <==> x % a == 0
  {
    if x % a == 0 then x else x - x % a + a
  }

  function Sizes(slots: seq<Use>): seq<Member> {
    if slots == [] then [] else [slots[0].m] + Sizes(slots[1..])
  }

  /**
   Where a compiler puts the declared members, given what each is: bytes of padding
   in a row, members rounded up to their alignment.
   */
  function Placed(lines: seq<Line>, members: seq<Member>, align: string -> nat, cursor: int): seq<Use>
    requires forall c :: align(c) > 0
  {
    if lines == [] || members == [] then []
    else if lines[0].Pad? then Placed(lines[1..], members, align, cursor + lines[0].size)
    else
      var off := RoundUp(cursor, align(lines[0].ctype));
      [Use(off, members[0])] + Placed(lines[1..], members[1..], align, off + members[0].size)
  }

  ghost predicate Aligned(slots: seq<Use>, align: string -> nat)
    requires forall c :: align(c) > 0
  {
    forall i :: 0 <= i < |slots| ==> slots[i].off % align(slots[i].m.ctype) == 0
  }

  lemma {:induction false} PlacedExactly(slots: seq<Use>, cursor: int, n: nat, align: string -> nat)
    requires (forall c :: align(c) > 0) && Ascending(slots, cursor)
    ensures Placed(Lines(slots, cursor, n), Sizes(slots), align, cursor) == slots <==> Aligned(slots, align)
  {
    if slots != [] {
      var u, rest := slots[0], slots[1..];
      var next := if u.off > cursor then n + 1 else n;
      var later := Lines(rest, u.off + u.m.size, next);
      PlacedExactly(rest, u.off + u.m.size, next, align);
      assert slots == [u] + rest;
      PlacedCons(u, rest, cursor, n, later, align, Lines(slots, cursor, n), Sizes(slots));
    }
  }

  lemma {:induction false} PlacedCons(u: Use, rest: seq<Use>, cursor: int, n: nat, later: seq<Line>,
                                      align: string -> nat, lines: seq<Line>, sizes: seq<Member>)
    requires (forall c :: align(c) > 0) && cursor <= u.off
    requires lines == Padding(cursor, u.off, n) + [Decl(u.m.ctype, u.m.name)] + later && sizes == [u.m] + Sizes(rest)
    requires Placed(later, Sizes(rest), align, u.off + u.m.size) == rest <==> Aligned(rest, align)
    ensures Placed(lines, sizes, align, cursor) == [u] + rest <==> Aligned([u] + rest, align)
  {
    PlacedStep(u, rest, cursor, n, later, align);
    AlignedCons(u, rest, align);
  }

  lemma {:induction false} PlacedStep(u: Use, rest: seq<Use>, cursor: int, n: nat, later: seq<Line>,
                                      align: string -> nat)
    requires (forall c :: align(c) > 0) && cursor <= u.off
    ensures Placed(Padding(cursor, u.off, n) + [Decl(u.m.ctype, u.m.name)] + later, [u.m] + Sizes(rest), align, cursor)
            == [u] + rest
            <==> u.off % align(u.m.ctype) == 0 && Placed(later, Sizes(rest), align, u.off + u.m.size) == rest
  {
    PlacedFirst(u, cursor, n, later, Sizes(rest), align);
    PlacedBoth(u, rest, RoundUp(u.off, align(u.m.ctype)), later, align);
  }

  lemma {:induction false} PlacedBoth(u: Use, rest: seq<Use>, first: int, later: seq<Line>, align: string -> nat)
    requires forall c :: align(c) > 0
    ensures [Use(first, u.m)] + Placed(later, Sizes(rest), align, first + u.m.size) == [u] + rest
            <==> first == u.off && Placed(later, Sizes(rest), align, u.off + u.m.size) == rest
  {
    var p := Placed(later, Sizes(rest), align, first + u.m.size);
    assert ([Use(first, u.m)] + p)[1..] == p && ([u] + rest)[1..] == rest;
    assert ([Use(first, u.m)] + p)[0] == Use(first, u.m) && ([u] + rest)[0] == u;
  }

  lemma {:induction false} AlignedCons(u: Use, rest: seq<Use>, align: string -> nat)
    requires forall c :: align(c) > 0
    ensures Aligned([u] + rest, align) <==> u.off % align(u.m.ctype) == 0 && Aligned(rest, align)
  {
    var all := [u] + rest;
    if Aligned(all, align) {
      forall i | 0 <= i < |rest|
        ensures rest[i].off % align(rest[i].m.ctype) == 0
      {
        assert all[i + 1] == rest[i];
      }
      assert all[0] == u;
    }
  }

  /** After its padding, a member is reached exactly at its offset, and put there if that is aligned. */
  lemma {:induction false} PlacedFirst(u: Use, cursor: int, n: nat, later: seq<Line>, members: seq<Member>,
                                       align: string -> nat)
    requires (forall c :: align(c) > 0) && cursor <= u.off
    ensures var first := RoundUp(u.off, align(u.m.ctype));
            Placed(Padding(cursor, u.off, n) + [Decl(u.m.ctype, u.m.name)] + later, [u.m] + members, align, cursor)
            == [Use(first, u.m)] + Placed(later, members, align, first + u.m.size)
  {
    var d := [Decl(u.m.ctype, u.m.name)] + later;
    PlacedDecl(u, later, members, align);
    if u.off > cursor {
      var p := [Pad(n, u.off - cursor)];
      assert p + [Decl(u.m.ctype, u.m.name)] + later == p + d;
      assert (p + d)[0] == p[0] && (p + d)[1..] == d;
    } else {
      assert [] + [Decl(u.m.ctype, u.m.name)] + later == d;
    }
  }

  lemma {:induction false} PlacedDecl(u: Use, later: seq<Line>, members: seq<Member>, align: string -> nat)
    requires forall c :: align(c) > 0
    ensures var first := RoundUp(u.off, align(u.m.ctype));
            Placed([Decl(u.m.ctype, u.m.name)] + later, [u.m] + members, align, u.off)
            == [Use(first, u.m)] + Placed(later, members, align, first + u.m.size)
  {
    var d, ms := [Decl(u.m.ctype, u.m.name)] + later, [u.m] + members;
    assert d[0] == Decl(u.m.ctype, u.m.name) && d[1..] == later && ms[0] == u.m && ms[1..] == members;
  }

  /**
   A rendered class puts every member exactly where it was recorded, and nothing
   else, if and only if every recorded offset is aligned for its type.
   */
  lemma {:induction false} LayoutFaithful(at: map<int, Member>, align: string -> nat)
    requires (forall c :: align(c) > 0) && Fits(at)
    ensures Placed(Lines(Slots(at), 0, 0), Sizes(Slots(at)), align, 0) == Slots(at)
            <==> forall off :: off in at ==> off % align(at[off].ctype) == 0
  {
    var slots := Slots(at);
    SlotsAre(at);
    FitsExactly(at);
    PlacedExactly(slots, 0, 0, align);
    if Aligned(slots, align) {
      forall off | off in at
        ensures off % align(at[off].ctype) == 0
      {
        assert Use(off, at[off]) in slots;
      }
    }
  }
}
