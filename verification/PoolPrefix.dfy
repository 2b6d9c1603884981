/**
 The string-pool header of `tools/gen_poolprefix.py`: the strings of a pool are
 read out of the image, grouped into C literals so that no two literals are the
 same, spelled with escapes, and compiled back.
 */
module PoolPrefix {
  import opened Wrappers

  type Byte = b: int | 0 <= b < 0x100

  type Bytes = seq<Byte>

  datatype Entry = Entry(off: nat, lit: Bytes)

  /** A literal of the header: the pool strings it carries, and where the first one was. */
  datatype Group = Group(off: nat, parts: seq<Bytes>)

  // ----- reading the pool -----

  /** `data.find(NUL, i)`. */
  function FindNul(data: Bytes, i: nat): (r: Option<nat>)
    requires i <= |data|
    ensures r.Some? ==> i <= r.value < |data| && data[r.value] == 0 && 0 !in data[i..r.value]
    ensures r.None? ==> 0 !in data[i..]
    decreases |data| - i
  {
    if i == |data| then None
    else if data[i] == 0 then Some(i)
    else
      var r := FindNul(data, i + 1);
      assert data[i..] == [data[i]] + data[i + 1..];
      assert r.Some? ==> data[i..r.value] == [data[i]] + data[i + 1..r.value];
      r
  }

  /** The strings from offset i on; a last one without its NUL is dropped. */
  function Strings(data: Bytes, i: nat): seq<Entry>
    requires i <= |data|
    decreases |data| - i
  {
    var j := FindNul(data, i);
    if j.None? then [] else [Entry(i, data[i..j.value])] + Strings(data, j.value + 1)
  }

  method PoolStrings(data: Bytes) returns (out: seq<Entry>)
    ensures out == Strings(data, 0)
  {
    out := [];
    var i := 0;
    while i < |data|
      invariant i <= |data|
      invariant Strings(data, 0) == out + Strings(data, i)
    {
      var j := FindNul(data, i);
      if j.None? {
        assert out + [] == out;
        return;
      }
      var e := Entry(i, data[i..j.value]);
      EntryAppended(out, e, Strings(data, j.value + 1));
      out := out + [e];
      i := j.value + 1;
    }
    assert out + [] == out;
  }

  lemma {:induction false} EntryAppended(out: seq<Entry>, e: Entry, rest: seq<Entry>)
    ensures out + ([e] + rest) == out + [e] + rest
  {
  }

  /** The literals, each with its NUL. */
  function Terminated(lits: seq<Bytes>): Bytes {
    if lits == [] then [] else lits[0] + [0] + Terminated(lits[1..])
  }

  function Lits(entries: seq<Entry>): seq<Bytes> {
    if entries == [] then [] else [entries[0].lit] + Lits(entries[1..])
  }

  /** The entries follow each other from `at`, none with a NUL inside. */
  ghost predicate Consecutive(entries: seq<Entry>, at: nat) {
    entries == [] || (entries[0].off == at && 0 !in entries[0].lit
                      && Consecutive(entries[1..], at + |entries[0].lit| + 1))
  }

  /** From i on, the pool is these strings, each with its NUL, and no NUL after them. */
  ghost predicate PoolFrom(data: Bytes, i: nat, all: seq<Entry>) {
    var t := Terminated(Lits(all));
    && Consecutive(all, i)
    && i + |t| <= |data| && data[i..i + |t|] == t && 0 !in data[i + |t|..]
  }

  /** The strings are the pool, up to its last NUL. */
  lemma {:induction false} StringsAreThePool(data: Bytes, i: nat)
    requires i <= |data|
    ensures PoolFrom(data, i, Strings(data, i))
    decreases |data| - i
  {
    var j := FindNul(data, i);
    if j.Some? {
      StringsAreThePool(data, j.value + 1);
      StringsStep(data, i, j.value, Strings(data, j.value + 1));
    } else {
      PoolRead(data, i);
    }
  }

  lemma {:induction false} PoolRead(data: Bytes, i: nat)
    requires i <= |data| && 0 !in data[i..]
    ensures PoolFrom(data, i, [])
  {
    assert data[i..i] == [];
  }

  lemma {:induction false} StringsStep(data: Bytes, i: nat, j: nat, rest: seq<Entry>)
    requires i <= j < |data| && data[j] == 0 && 0 !in data[i..j]
    requires PoolFrom(data, j + 1, rest)
    ensures PoolFrom(data, i, [Entry(i, data[i..j])] + rest)
  {
    var all := [Entry(i, data[i..j])] + rest;
    assert all[1..] == rest;
    TerminatedCons(Entry(i, data[i..j]), rest);
    SliceCons(data, i, j, Terminated(Lits(rest)));
  }

  lemma {:induction false} TerminatedCons(e: Entry, rest: seq<Entry>)
    ensures Lits([e] + rest) == [e.lit] + Lits(rest)
    ensures Terminated(Lits([e] + rest)) == e.lit + [0] + Terminated(Lits(rest))
  {
    var all := [e] + rest;
    assert all[0] == e && all[1..] == rest;
    var lits := [e.lit] + Lits(rest);
    assert lits[0] == e.lit && lits[1..] == Lits(rest);
  }

  lemma {:induction false} SliceCons(data: Bytes, i: nat, j: nat, t: Bytes)
    requires i <= j < |data| && data[j] == 0
    requires j + 1 + |t| <= |data| && data[j + 1..j + 1 + |t|] == t
    ensures var u := data[i..j] + [0] + t;
            i + |u| == j + 1 + |t| && data[i..i + |u|] == u
  {
    var u := data[i..j] + [0] + t;
    forall k | 0 <= k < |u|
      ensures data[i..i + |u|][k] == u[k]
    {
      if k > j - i { assert t[k - (j - i) - 1] == data[j + 1..j + 1 + |t|][k - (j - i) - 1]; }
    }
  }

  /** The strings in front of the unit's own, or all of them. */
  function Prefix(entries: seq<Entry>, whole: bool, cut: nat): seq<Entry> {
    if entries == [] then []
    else (if whole || entries[0].off < cut then [entries[0]] else []) + Prefix(entries[1..], whole, cut)
  }

  lemma {:induction false} PrefixEmpty(entries: seq<Entry>, at: nat, cut: nat)
    requires Consecutive(entries, at) && cut <= at
    ensures Prefix(entries, false, cut) == []
  {
    if entries != [] { PrefixEmpty(entries[1..], at + |entries[0].lit| + 1, cut); }
  }

  /** What is taken is an initial stretch, so its strings still start where the pool does. */
  lemma {:induction false} PrefixIsPrefix(entries: seq<Entry>, at: nat, whole: bool, cut: nat)
    requires Consecutive(entries, at)
    ensures var p := Prefix(entries, whole, cut);
            && p <= entries && Consecutive(p, at)
            && Terminated(Lits(p)) <= Terminated(Lits(entries))
  {
    if entries != [] {
      var next := at + |entries[0].lit| + 1;
      var p, rest := Prefix(entries, whole, cut), Prefix(entries[1..], whole, cut);
      PrefixIsPrefix(entries[1..], next, whole, cut);
      if whole || at < cut {
        assert p == [entries[0]] + rest;
        PrefixCons(entries[0], rest, entries[1..]);
        assert entries == [entries[0]] + entries[1..];
      } else {
        PrefixEmpty(entries[1..], next, cut);
      }
    }
  }

  lemma {:induction false} PrefixCons(e: Entry, p: seq<Entry>, all: seq<Entry>)
    requires p <= all && Terminated(Lits(p)) <= Terminated(Lits(all))
    ensures [e] + p <= [e] + all
    ensures Terminated(Lits([e] + p)) <= Terminated(Lits([e] + all))
  {
    TerminatedCons(e, p);
    TerminatedCons(e, all);
    ConcatPrefix([e], p, all);
    ConcatPrefix(e.lit + [0], Terminated(Lits(p)), Terminated(Lits(all)));
  }

  lemma {:induction false} ConcatPrefix<T>(a: seq<T>, b: seq<T>, c: seq<T>)
    requires b <= c
    ensures a + b <= a + c
  {
    assert (a + c)[..|a| + |b|] == a + c[..|b|];
  }

  // ----- grouping -----

  function AllParts(groups: seq<Group>): seq<Bytes> {
    if groups == [] then [] else groups[0].parts + AllParts(groups[1..])
  }

  /** Groups carry the strings in order; each begins with a string no earlier one has. */
  ghost predicate Grouped(prefix: seq<Entry>, groups: seq<Group>) {
    && AllParts(groups) == Lits(prefix)
    && HeadsDistinct(groups)
    && RestsRepeat(groups)
    && OffsetsRight(groups, 0)
  }

  ghost predicate HeadsDistinct(groups: seq<Group>) {
    && (forall k :: 0 <= k < |groups| ==> groups[k].parts != [])
    && (forall k, l :: 0 <= k < l < |groups| ==> groups[k].parts[0] != groups[l].parts[0])
  }

  /** Only a string that begins an earlier group, or its own, is appended to one. */
  ghost predicate RestsRepeat(groups: seq<Group>) {
    forall k, j :: 0 <= k < |groups| && 1 <= j < |groups[k].parts| ==> IsHead(groups, k, groups[k].parts[j])
  }

  ghost predicate IsHead(groups: seq<Group>, k: nat, lit: Bytes)
    requires k < |groups|
  {
    exists l :: 0 <= l <= k && groups[l].parts != [] && groups[l].parts[0] == lit
  }

  /** Each group is recorded at the offset its first string has in the pool. */
  ghost predicate OffsetsRight(groups: seq<Group>, at: nat) {
    groups == [] || (groups[0].off == at && OffsetsRight(groups[1..], at + |Terminated(groups[0].parts)|))
  }

  function Heads(groups: seq<Group>): set<Bytes>
    requires forall k :: 0 <= k < |groups| ==> groups[k].parts != []
  {
    set k | 0 <= k < |groups| :: groups[k].parts[0]
  }

  /** The grouping loop. */
  method GroupLiterals(prefix: seq<Entry>) returns (groups: seq<Group>)
    requires Consecutive(prefix, 0)
    ensures Grouped(prefix, groups)
  {
    groups := [];
    var seen: set<Bytes> := {};
    for k := 0 to |prefix|
      invariant HeadsDistinct(groups) && RestsRepeat(groups) && OffsetsRight(groups, 0)
      invariant AllParts(groups) == Lits(prefix[..k])
      invariant seen == Heads(groups)
    {
      var e := prefix[k];
      LitsSnoc(prefix, k);
      OffsetIsLength(prefix, 0, k);
      if e.lit in seen && groups != [] {
        var last := groups[|groups| - 1];
        GroupAppend(groups, e.lit);
        groups := groups[..|groups| - 1] + [last.(parts := last.parts + [e.lit])];
      } else {
        GroupStart(groups, e);
        seen := seen + {e.lit};
        groups := groups + [Group(e.off, [e.lit])];
      }
    }
    assert prefix[..|prefix|] == prefix;
  }

  lemma {:induction false} LitsAppend(a: seq<Entry>, b: seq<Entry>)
    ensures Lits(a + b) == Lits(a) + Lits(b)
  {
    if a == [] {
      assert a + b == b;
    } else {
      assert (a + b)[1..] == a[1..] + b;
      LitsAppend(a[1..], b);
    }
  }

  lemma {:induction false} LitsSnoc(prefix: seq<Entry>, k: nat)
    requires k < |prefix|
    ensures Lits(prefix[..k + 1]) == Lits(prefix[..k]) + [prefix[k].lit]
  {
    assert prefix[..k + 1] == prefix[..k] + [prefix[k]];
    LitsAppend(prefix[..k], [prefix[k]]);
    assert [prefix[k]][1..] == [];
  }

  lemma {:induction false} TerminatedAppend(a: seq<Bytes>, b: seq<Bytes>)
    ensures Terminated(a + b) == Terminated(a) + Terminated(b)
  {
    if a == [] {
      assert a + b == b;
    } else {
      assert (a + b)[1..] == a[1..] + b;
      TerminatedAppend(a[1..], b);
    }
  }

  lemma {:induction false} AllPartsAppend(a: seq<Group>, b: seq<Group>)
    ensures AllParts(a + b) == AllParts(a) + AllParts(b)
  {
    if a == [] {
      assert a + b == b;
    } else {
      assert (a + b)[1..] == a[1..] + b;
      AllPartsAppend(a[1..], b);
    }
  }

  /** A string's offset is the length of what comes before it. */
  lemma {:induction false} OffsetIsLength(prefix: seq<Entry>, at: nat, k: nat)
    requires Consecutive(prefix, at) && k < |prefix|
    ensures prefix[k].off == at + |Terminated(Lits(prefix[..k]))|
  {
    if k == 0 {
      assert prefix[..0] == [];
    } else {
      OffsetIsLength(prefix[1..], at + |prefix[0].lit| + 1, k - 1);
      assert prefix[..k][1..] == prefix[1..][..k - 1];
      assert Lits(prefix[..k])[1..] == Lits(prefix[1..][..k - 1]);
    }
  }

  lemma {:induction false} OffsetsAppend(groups: seq<Group>, at: nat, g: Group)
    requires OffsetsRight(groups, at) && g.off == at + |Terminated(AllParts(groups))|
    ensures OffsetsRight(groups + [g], at)
  {
    if groups != [] {
      assert (groups + [g])[1..] == groups[1..] + [g];
      TerminatedAppend(groups[0].parts, AllParts(groups[1..]));
      OffsetsAppend(groups[1..], at + |Terminated(groups[0].parts)|, g);
    }
  }

  lemma {:induction false} OffsetsLast(groups: seq<Group>, at: nat, g: Group)
    requires groups != [] && OffsetsRight(groups, at) && g.off == groups[|groups| - 1].off
    ensures OffsetsRight(groups[..|groups| - 1] + [g], at)
  {
    if |groups| > 1 {
      var r := groups[..|groups| - 1] + [g];
      assert r[1..] == groups[1..][..|groups| - 2] + [g];
      OffsetsLast(groups[1..], at + |Terminated(groups[0].parts)|, g);
    }
  }

  lemma {:induction false} GroupStart(groups: seq<Group>, e: Entry)
    requires HeadsDistinct(groups) && RestsRepeat(groups) && OffsetsRight(groups, 0)
    requires e.lit !in Heads(groups) && e.off == |Terminated(AllParts(groups))|
    ensures var r := groups + [Group(e.off, [e.lit])];
            && HeadsDistinct(r) && RestsRepeat(r) && OffsetsRight(r, 0)
            && AllParts(r) == AllParts(groups) + [e.lit]
            && Heads(r) == Heads(groups) + {e.lit}
  {
    var g := Group(e.off, [e.lit]);
    var r := groups + [g];
    OffsetsAppend(groups, 0, g);
    AllPartsAppend(groups, [g]);
    assert [g][1..] == [];
    forall k, l | 0 <= k < l < |r|
      ensures r[k].parts[0] != r[l].parts[0]
    {
      if l == |groups| { assert groups[k].parts[0] in Heads(groups); }
    }
    forall k, j | 0 <= k < |r| && 1 <= j < |r[k].parts|
      ensures IsHead(r, k, r[k].parts[j])
    {
      HeadKept(groups, r, k, r[k].parts[j]);
    }
    forall x | x in Heads(groups) + {e.lit}
      ensures x in Heads(r)
    {
      if x in Heads(groups) {
        var k :| 0 <= k < |groups| && groups[k].parts[0] == x;
        assert r[k].parts[0] == x;
      } else {
        assert r[|groups|].parts[0] == x;
      }
    }
  }

  lemma {:induction false} HeadKept(groups: seq<Group>, r: seq<Group>, k: nat, lit: Bytes)
    requires k < |groups| && k < |r| && IsHead(groups, k, lit)
    requires forall l :: 0 <= l <= k && groups[l].parts != [] ==>
               r[l].parts != [] && r[l].parts[0] == groups[l].parts[0]
    ensures IsHead(r, k, lit)
  {
    var l :| 0 <= l <= k && groups[l].parts != [] && groups[l].parts[0] == lit;
    assert r[l].parts[0] == lit;
  }

  lemma {:induction false} GroupAppend(groups: seq<Group>, lit: Bytes)
    requires HeadsDistinct(groups) && RestsRepeat(groups) && OffsetsRight(groups, 0)
    requires groups != [] && lit in Heads(groups)
    ensures var last := groups[|groups| - 1];
            var r := groups[..|groups| - 1] + [last.(parts := last.parts + [lit])];
            && HeadsDistinct(r) && RestsRepeat(r) && OffsetsRight(r, 0)
            && AllParts(r) == AllParts(groups) + [lit]
            && Heads(r) == Heads(groups)
  {
    var init, last := groups[..|groups| - 1], groups[|groups| - 1];
    var g := last.(parts := last.parts + [lit]);
    assert groups == init + [last];
    OffsetsLast(groups, 0, g);
    PartsLast(init, last, g, lit);
    HeadsStay(groups, g, init + [g], lit);
  }

  lemma {:induction false} PartsLast(init: seq<Group>, last: Group, g: Group, lit: Bytes)
    requires g.parts == last.parts + [lit]
    ensures AllParts(init + [g]) == AllParts(init + [last]) + [lit]
  {
    AllPartsAppend(init, [g]);
    AllPartsAppend(init, [last]);
    AllPartsOne(g);
    AllPartsOne(last);
    Associative(AllParts(init), last.parts, [lit]);
  }

  lemma {:induction false} Associative<T>(a: seq<T>, b: seq<T>, c: seq<T>)
    ensures a + (b + c) == a + b + c
  {
  }

  lemma {:induction false} HeadsStay(groups: seq<Group>, g: Group, r: seq<Group>, lit: Bytes)
    requires HeadsDistinct(groups) && RestsRepeat(groups) && groups != [] && lit in Heads(groups)
    requires r == groups[..|groups| - 1] + [g] && g.parts == groups[|groups| - 1].parts + [lit]
    ensures HeadsDistinct(r) && RestsRepeat(r) && Heads(r) == Heads(groups)
  {
    assert g.parts[0] == groups[|groups| - 1].parts[0];
    SameHeads(groups, r);
    RestsKept(groups, r, lit);
  }

  lemma {:induction false} AllPartsOne(g: Group)
    ensures AllParts([g]) == g.parts
  {
    assert [g][1..] == [];
    assert g.parts + [] == g.parts;
  }

  /** Two lists of groups with the same first strings. */
  ghost predicate HeadsAlike(groups: seq<Group>, r: seq<Group>) {
    && |r| == |groups|
    && forall k :: 0 <= k < |groups| ==>
         groups[k].parts != [] && r[k].parts != [] && r[k].parts[0] == groups[k].parts[0]
  }

  lemma {:induction false} SameHeads(groups: seq<Group>, r: seq<Group>)
    requires HeadsDistinct(groups) && HeadsAlike(groups, r)
    ensures HeadsDistinct(r) && Heads(r) == Heads(groups)
  {
    forall x | x in Heads(groups)
      ensures x in Heads(r)
    {
      var k :| 0 <= k < |groups| && groups[k].parts[0] == x;
      assert r[k].parts[0] == x;
    }
    forall x | x in Heads(r)
      ensures x in Heads(groups)
    {
      var k :| 0 <= k < |r| && r[k].parts[0] == x;
      assert groups[k].parts[0] == x;
    }
  }

  lemma {:induction false} RestsKept(groups: seq<Group>, r: seq<Group>, lit: Bytes)
    requires HeadsDistinct(groups) && RestsRepeat(groups) && HeadsAlike(groups, r) && groups != []
    requires lit in Heads(groups)
    requires forall k :: 0 <= k < |groups| - 1 ==> r[k] == groups[k]
    requires r[|r| - 1].parts == groups[|groups| - 1].parts + [lit]
    ensures RestsRepeat(r)
  {
    var n := |groups| - 1;
    var h :| 0 <= h < |groups| && groups[h].parts[0] == lit;
    assert IsHead(groups, n, lit);
    forall k, j | 0 <= k < |r| && 1 <= j < |r[k].parts|
      ensures IsHead(r, k, r[k].parts[j])
    {
      if k == n && j == |groups[n].parts| {
        HeadKept(groups, r, n, lit);
      } else {
        assert r[k].parts[j] == groups[k].parts[j];
        HeadKept(groups, r, k, r[k].parts[j]);
      }
    }
  }

  // ----- spelling a string in C -----

  /** Bytes the spelling writes as themselves, or behind a backslash. */
  predicate NeedsHex(b: Byte) {
    !(32 <= b < 127) && b != 9 && b != 10
  }

  const BACKSLASH: Byte := 92
  const QUOTE: Byte := 34

  function HexChar(v: int): Byte
    requires 0 <= v < 16
  {
    if v < 10 then 48 + v else 55 + v
  }

  predicate IsHexChar(c: Byte) {
    48 <= c <= 57 || 65 <= c <= 70 || 97 <= c <= 102
  }

  function HexValue(c: Byte): int
    requires IsHexChar(c)
  {
    if c <= 57 then c - 48 else if c <= 70 then c - 55 else c - 87
  }

  function Escape(b: Byte): Bytes {
    if b == QUOTE || b == BACKSLASH then [BACKSLASH, b]
    else if b == 9 then [BACKSLASH, 116]
    else if b == 10 then [BACKSLASH, 110]
    else if NeedsHex(b) then [BACKSLASH, 120, HexChar(b / 16), HexChar(b % 16)]
    else [b]
  }

  /** `c_string`, without its quotes. */
  function Spell(lit: Bytes): Bytes {
    if lit == [] then [] else Escape(lit[0]) + Spell(lit[1..])
  }

  /** How many hexadecimal digits a text begins with: an escape takes them all. */
  function HexRun(t: Bytes): (n: nat)
    ensures n <= |t|
  {
    if t == [] || !IsHexChar(t[0]) then 0 else 1 + HexRun(t[1..])
  }

  function HexNumber(t: Bytes, n: nat): nat
    requires n <= HexRun(t)
  {
    if n == 0 then 0 else HexValue(t[0]) * Pow16(n - 1) + HexNumber(t[1..], n - 1)
  }

  function Pow16(n: nat): nat { if n == 0 then 1 else 16 * Pow16(n - 1) }

  /** What a C compiler reads between the quotes; None when it is not the inside of a literal. */
  function Lex(t: Bytes): Option<Bytes>
    decreases |t|
  {
    if t == [] then Some([])
    else if t[0] == QUOTE then None
    else if t[0] != BACKSLASH then Cons(t[0], Lex(t[1..]))
    else if |t| < 2 then None
    else if t[1] == QUOTE || t[1] == BACKSLASH then Cons(t[1], Lex(t[2..]))
    else if t[1] == 116 then Cons(9, Lex(t[2..]))
    else if t[1] == 110 then Cons(10, Lex(t[2..]))
    else if t[1] == 48 && (|t| == 2 || !(48 <= t[2] <= 55)) then Cons(0, Lex(t[2..]))
    else if t[1] == 120 && HexRun(t[2..]) > 0 then
      var n := HexRun(t[2..]);
      Cons(HexNumber(t[2..], n) % 0x100, Lex(t[2 + n..]))
    else None
  }

  function Cons(b: Byte, rest: Option<Bytes>): Option<Bytes> {
    if rest.None? then None else Some([b] + rest.value)
  }

  /** No byte written in hexadecimal is followed by a character that is a hexadecimal digit. */
  predicate Spellable(lit: Bytes) {
    forall i :: 0 <= i < |lit| - 1 ==> !(NeedsHex(lit[i]) && IsHexChar(lit[i + 1]))
  }

  /** What the spelling of `lit` lexes to: a hexadecimal escape swallows the digits behind it. */
  function Lexed(lit: Bytes): Bytes
    decreases |lit|
  {
    if lit == [] then []
    else if !NeedsHex(lit[0]) then [lit[0]] + Lexed(lit[1..])
    else
      var n := HexRun(lit[1..]);
      [if n == 0 then lit[0] else HexNumber(Spell(lit)[2..], HexRun(Spell(lit)[2..])) % 0x100] + Lexed(lit[1 + n..])
  }

  lemma {:induction false} HexOfByte(b: Byte)
    ensures IsHexChar(HexChar(b / 16)) && IsHexChar(HexChar(b % 16))
    ensures HexValue(HexChar(b / 16)) * 16 + HexValue(HexChar(b % 16)) == b
  {
  }

  /** The digits behind an escape are those the next bytes are written as. */
  lemma {:induction false} SpellRun(lit: Bytes)
    ensures HexRun(Spell(lit)) == HexRun(lit)
    ensures Spell(lit)[HexRun(lit)..] == Spell(lit[HexRun(lit)..])
    decreases |lit|
  {
    if lit != [] && IsHexChar(lit[0]) {
      SpellRun(lit[1..]);
      assert Spell(lit) == [lit[0]] + Spell(lit[1..]);
      assert Spell(lit)[1..] == Spell(lit[1..]);
    }
  }

  lemma {:induction false} LexPlain(b: Byte, t: Bytes)
    requires !NeedsHex(b)
    ensures Lex(Escape(b) + t) == Cons(b, Lex(t))
  {
    var e := Escape(b);
    var u := e + t;
    assert u[0] == e[0] && u[|e|..] == t;
    if |e| == 2 { assert u[1] == e[1]; }
  }

  lemma {:induction false} LexEscape(t: Bytes)
    requires HexRun(t) > 0
    ensures Lex([BACKSLASH, 120] + t) == Cons(HexNumber(t, HexRun(t)) % 0x100, Lex(t[HexRun(t)..]))
  {
    var u := [BACKSLASH, 120] + t;
    assert u[0] == BACKSLASH && u[1] == 120 && u[2..] == t;
    assert u[2 + HexRun(t)..] == t[HexRun(t)..];
  }

  /** The two digits of a byte and the run of digits after them make one escape. */
  lemma {:induction false} HexRunOfByte(b: Byte, t: Bytes)
    ensures var u := [HexChar(b / 16), HexChar(b % 16)] + t;
            && HexRun(u) == 2 + HexRun(t)
            && u[2 + HexRun(t)..] == t[HexRun(t)..]
            && HexNumber(u, 2) == b
  {
    HexOfByte(b);
    var u := [HexChar(b / 16), HexChar(b % 16)] + t;
    var u1 := [HexChar(b % 16)] + t;
    assert u[1..] == u1 && u1[1..] == t;
    assert HexNumber(u1, 1) == HexValue(HexChar(b % 16)) * Pow16(0) + HexNumber(t, 0);
    assert Pow16(1) == 16;
  }

  lemma {:induction false} LexSpell(lit: Bytes)
    ensures Lex(Spell(lit)) == Some(Lexed(lit))
    decreases |lit|
  {
    if lit != [] {
      var b, rest := lit[0], lit[1..];
      if !NeedsHex(b) {
        LexSpell(rest);
        LexPlain(b, Spell(rest));
      } else {
        LexSpellHex(lit);
      }
    }
  }

  lemma {:induction false} LexSpellHex(lit: Bytes)
    requires lit != [] && NeedsHex(lit[0])
    ensures Lex(Spell(lit)) == Some(Lexed(lit))
    decreases |lit|, 0
  {
    var n := HexRun(lit[1..]);
    LexSpell(lit[1 + n..]);
    assert lit[1..][n..] == lit[1 + n..];
    HexStep(lit[0], lit[1..], n, Lexed(lit[1 + n..]));
    SpellHex(lit);
  }

  /** An escape takes the digits behind it, and the rest is read as if it stood alone. */
  lemma {:induction false} HexStep(b: Byte, rest: Bytes, n: nat, tail: Bytes)
    requires n == HexRun(rest) && Lex(Spell(rest[n..])) == Some(tail)
    ensures var u := [HexChar(b / 16), HexChar(b % 16)] + Spell(rest);
            Lex([BACKSLASH, 120] + u) == Some([if n == 0 then b else HexNumber(u, HexRun(u)) % 0x100] + tail)
  {
    SpellRun(rest);
    LexEscaped(b, Spell(rest));
  }

  lemma {:induction false} LexEscaped(b: Byte, t: Bytes)
    ensures var u := [HexChar(b / 16), HexChar(b % 16)] + t;
            && HexRun(u) == 2 + HexRun(t)
            && (HexRun(t) == 0 ==> HexNumber(u, HexRun(u)) == b)
            && Lex([BACKSLASH, 120] + u) == Cons(HexNumber(u, HexRun(u)) % 0x100, Lex(t[HexRun(t)..]))
  {
    var u := [HexChar(b / 16), HexChar(b % 16)] + t;
    HexRunOfByte(b, t);
    LexEscape(u);
  }

  lemma {:induction false} SpellHex(lit: Bytes)
    requires lit != [] && NeedsHex(lit[0])
    ensures var u := [HexChar(lit[0] / 16), HexChar(lit[0] % 16)] + Spell(lit[1..]);
            Spell(lit) == [BACKSLASH, 120] + u && Spell(lit)[2..] == u
  {
    SplitEscape(BACKSLASH, 120, HexChar(lit[0] / 16), HexChar(lit[0] % 16), Spell(lit[1..]));
  }

  lemma {:induction false} SplitEscape(a: Byte, b: Byte, c: Byte, d: Byte, t: Bytes)
    ensures [a, b, c, d] + t == [a, b] + ([c, d] + t)
    ensures ([a, b, c, d] + t)[2..] == [c, d] + t
  {
  }

  lemma {:induction false} LexedLength(lit: Bytes)
    ensures |Lexed(lit)| <= |lit|
    ensures |Lexed(lit)| == |lit| <==> Spellable(lit)
    ensures Spellable(lit) ==> Lexed(lit) == lit
    decreases |lit|
  {
    if lit != [] {
      if !NeedsHex(lit[0]) {
        LexedLength(lit[1..]);
        SpellableTail(lit);
      } else {
        var n := HexRun(lit[1..]);
        LexedLength(lit[1 + n..]);
        SpellableTail(lit);
        if n > 0 {
          assert IsHexChar(lit[1..][0]) && lit[1..][0] == lit[1];
        }
      }
    }
  }

  lemma {:induction false} SpellableTail(lit: Bytes)
    requires lit != []
    ensures Spellable(lit) <==>
              Spellable(lit[1..]) && !(|lit| > 1 && NeedsHex(lit[0]) && IsHexChar(lit[1]))
  {
    if Spellable(lit) {
      forall i | 0 <= i < |lit[1..]| - 1
        ensures !(NeedsHex(lit[1..][i]) && IsHexChar(lit[1..][i + 1]))
      {
        assert lit[1..][i] == lit[i + 1] && lit[1..][i + 1] == lit[i + 1 + 1];
      }
    }
    if Spellable(lit[1..]) && !(|lit| > 1 && NeedsHex(lit[0]) && IsHexChar(lit[1])) {
      forall i | 0 <= i < |lit| - 1
        ensures !(NeedsHex(lit[i]) && IsHexChar(lit[i + 1]))
      {
        if i > 0 {
          assert lit[1..][i - 1] == lit[i] && lit[1..][i - 1 + 1] == lit[i + 1];
        }
      }
    }
  }

  /** A string survives being spelled and compiled exactly when no hexadecimal escape runs into a digit. */
  lemma {:induction false} SpelledExactly(lit: Bytes)
    ensures Lex(Spell(lit)) == Some(lit) <==> Spellable(lit)
  {
    LexSpell(lit);
    LexedLength(lit);
  }

  // ----- compiling the header -----

  /** Adjacent C literals concatenate: the parts of a group, with an explicit NUL between each two. */
  function CompileGroup(parts: seq<Bytes>): Option<Bytes> {
    if parts == [] then Some([])
    else
      var first := Lex(Spell(parts[0]));
      if |parts| == 1 then first
      else
        var joiner, rest := Lex([BACKSLASH, 48]), CompileGroup(parts[1..]);
        if first.None? || joiner.None? || rest.None? then None else Some(first.value + joiner.value + rest.value)
  }

  /** The pool a compiler that folds identical literals lays down, a NUL after each. */
  function Pool(lits: seq<Bytes>, placed: set<Bytes>): Bytes {
    if lits == [] then []
    else (if lits[0] in placed then [] else lits[0] + [0]) + Pool(lits[1..], placed + {lits[0]})
  }

  /** The literals of the header as the compiler reads them. */
  function Compiled(groups: seq<Group>): Option<seq<Bytes>> {
    if groups == [] then Some([])
    else
      var first, rest := CompileGroup(groups[0].parts), Compiled(groups[1..]);
      if first.None? || rest.None? then None else Some([first.value] + rest.value)
  }

  function Join(parts: seq<Bytes>): Bytes {
    if parts == [] then [] else if |parts| == 1 then parts[0] else parts[0] + [0] + Join(parts[1..])
  }

  function LexedParts(parts: seq<Bytes>): seq<Bytes> {
    if parts == [] then [] else [Lexed(parts[0])] + LexedParts(parts[1..])
  }

  lemma {:induction false} CompileGroupIs(parts: seq<Bytes>)
    ensures CompileGroup(parts) == Some(Join(LexedParts(parts)))
  {
    if parts != [] {
      LexSpell(parts[0]);
      CompileGroupIs(parts[1..]);
      assert LexedParts(parts)[1..] == LexedParts(parts[1..]);
      LexNul();
      if |parts| == 1 { assert parts[1..] == []; }
    }
  }

  /** The joiner between two parts is one NUL. */
  lemma {:induction false} LexNul()
    ensures Lex([BACKSLASH, 48]) == Some([0])
  {
    var t: Bytes := [BACKSLASH, 48];
    assert |t| == 2 && t[0] == BACKSLASH && t[1] == 48;
    var e: Bytes := [];
    assert t[2..] == e;
    assert Lex(e) == Some(e);
    assert Lex(t) == Cons(0, Lex(e));
    var nul: Bytes := [0];
    assert nul + e == nul;
  }

  function Joined(groups: seq<Group>): seq<Bytes> {
    if groups == [] then [] else [Join(LexedParts(groups[0].parts))] + Joined(groups[1..])
  }

  lemma {:induction false} CompiledIs(groups: seq<Group>)
    ensures Compiled(groups) == Some(Joined(groups))
  {
    if groups != [] {
      CompileGroupIs(groups[0].parts);
      CompiledIs(groups[1..]);
    }
  }

  predicate AllSpellable(lits: seq<Bytes>) {
    forall i :: 0 <= i < |lits| ==> Spellable(lits[i])
  }

  lemma {:induction false} LexedPartsSame(parts: seq<Bytes>)
    requires AllSpellable(parts)
    ensures LexedParts(parts) == parts
  {
    if parts != [] {
      LexedLength(parts[0]);
      LexedPartsSame(parts[1..]);
    }
  }

  lemma {:induction false} LexedPartsShorter(parts: seq<Bytes>)
    ensures |Terminated(LexedParts(parts))| <= |Terminated(parts)|
    ensures !AllSpellable(parts) ==> |Terminated(LexedParts(parts))| < |Terminated(parts)|
  {
    if parts != [] {
      LexedLength(parts[0]);
      LexedPartsShorter(parts[1..]);
      assert LexedParts(parts)[1..] == LexedParts(parts[1..]);
      if Spellable(parts[0]) && AllSpellable(parts[1..]) {
        assert forall i :: 0 <= i < |parts| ==> parts[i] == if i == 0 then parts[0] else parts[1..][i - 1];
      }
    }
  }

  /** Joined with NULs and closed with one, a group is its strings, each closed with one. */
  lemma {:induction false} JoinTerminated(parts: seq<Bytes>)
    requires parts != []
    ensures Join(parts) + [0] == Terminated(parts)
  {
    if |parts| == 1 {
      assert parts[1..] == [];
    } else {
      JoinTerminated(parts[1..]);
      assert parts[0] + [0] + Join(parts[1..]) + [0] == parts[0] + [0] + (Join(parts[1..]) + [0]);
    }
  }

  lemma {:induction false} PoolLength(lits: seq<Bytes>, placed: set<Bytes>)
    ensures |Pool(lits, placed)| <= |Terminated(lits)|
  {
    if lits != [] { PoolLength(lits[1..], placed + {lits[0]}); }
  }

  lemma {:induction false} PoolOfDistinct(lits: seq<Bytes>, placed: set<Bytes>)
    requires forall i, j :: 0 <= i < j < |lits| ==> lits[i] != lits[j]
    requires forall i :: 0 <= i < |lits| ==> lits[i] !in placed
    ensures Pool(lits, placed) == Terminated(lits)
  {
    if lits != [] {
      PoolOfDistinct(lits[1..], placed + {lits[0]});
    }
  }

  lemma {:induction false} JoinedTerminated(groups: seq<Group>)
    requires forall k :: 0 <= k < |groups| ==> groups[k].parts != []
    ensures Terminated(Joined(groups)) == Terminated(LexedParts(AllParts(groups)))
  {
    if groups != [] {
      var first, rest := groups[0].parts, AllParts(groups[1..]);
      JoinedTerminated(groups[1..]);
      JoinTerminated(LexedParts(first));
      LexedPartsAppend(first, rest);
      TerminatedAppend(LexedParts(first), LexedParts(rest));
      assert Joined(groups)[1..] == Joined(groups[1..]);
    }
  }

  lemma {:induction false} LexedPartsAppend(a: seq<Bytes>, b: seq<Bytes>)
    ensures LexedParts(a + b) == LexedParts(a) + LexedParts(b)
  {
    if a == [] {
      assert a + b == b;
    } else {
      assert (a + b)[1..] == a[1..] + b;
      LexedPartsAppend(a[1..], b);
    }
  }

  function UpToNul(t: Bytes): Bytes {
    if t == [] || t[0] == 0 then [] else [t[0]] + UpToNul(t[1..])
  }

  lemma {:induction false} UpToNulOf(a: Bytes, rest: Bytes)
    requires 0 !in a && (rest == [] || rest[0] == 0)
    ensures UpToNul(a + rest) == a
  {
    if a == [] {
      assert a + rest == rest;
    } else {
      assert (a + rest)[1..] == a[1..] + rest;
      UpToNulOf(a[1..], rest);
    }
  }

  /** The first string of a group is what its literal holds up to the first NUL. */
  lemma {:induction false} JoinHead(p: seq<Bytes>)
    requires p != [] && 0 !in p[0]
    ensures UpToNul(Join(p)) == p[0]
  {
    if |p| == 1 {
      UpToNulOf(p[0], []);
      assert p[0] + [] == p[0];
    } else {
      UpToNulOf(p[0], [0] + Join(p[1..]));
      assert p[0] + [0] + Join(p[1..]) == p[0] + ([0] + Join(p[1..]));
    }
  }

  ghost predicate NoNuls(lits: seq<Bytes>) {
    forall i :: 0 <= i < |lits| ==> 0 !in lits[i]
  }

  lemma {:induction false} PartOfGroup(groups: seq<Group>, k: nat, j: nat)
    requires k < |groups| && j < |groups[k].parts|
    ensures groups[k].parts[j] in AllParts(groups)
  {
    if k > 0 { PartOfGroup(groups[1..], k - 1, j); }
  }

  lemma {:induction false} JoinedAt(groups: seq<Group>, k: nat)
    requires k < |groups|
    ensures |Joined(groups)| == |groups| && Joined(groups)[k] == Join(LexedParts(groups[k].parts))
  {
    if k > 0 {
      JoinedAt(groups[1..], k - 1);
    } else if |groups| > 1 {
      JoinedAt(groups[1..], 0);
    }
  }

  lemma {:induction false} JoinedDistinct(prefix: seq<Entry>, groups: seq<Group>)
    requires Grouped(prefix, groups) && NoNuls(Lits(prefix)) && AllSpellable(Lits(prefix))
    ensures forall i, j :: 0 <= i < j < |Joined(groups)| ==> Joined(groups)[i] != Joined(groups)[j]
  {
    if groups != [] { JoinedAt(groups, 0); }
    forall i, j | 0 <= i < j < |Joined(groups)|
      ensures Joined(groups)[i] != Joined(groups)[j]
    {
      JoinedAt(groups, i);
      JoinedAt(groups, j);
      GroupSame(prefix, groups, i);
      GroupSame(prefix, groups, j);
      JoinHead(groups[i].parts);
      JoinHead(groups[j].parts);
    }
  }

  lemma {:induction false} GroupSame(prefix: seq<Entry>, groups: seq<Group>, k: nat)
    requires Grouped(prefix, groups) && NoNuls(Lits(prefix)) && AllSpellable(Lits(prefix)) && k < |groups|
    ensures LexedParts(groups[k].parts) == groups[k].parts && 0 !in groups[k].parts[0]
  {
    var parts := groups[k].parts;
    forall j | 0 <= j < |parts|
      ensures Spellable(parts[j]) && 0 !in parts[j]
    {
      PartOfGroup(groups, k, j);
    }
    LexedPartsSame(parts);
  }

  lemma {:induction false} ConsecutiveNoNuls(prefix: seq<Entry>, at: nat)
    requires Consecutive(prefix, at)
    ensures NoNuls(Lits(prefix))
  {
    if prefix != [] {
      ConsecutiveNoNuls(prefix[1..], at + |prefix[0].lit| + 1);
      assert Lits(prefix) == [prefix[0].lit] + Lits(prefix[1..]);
    }
  }

  /**
   Compiled with identical literals folded, the header lays down exactly the bytes
   of the strings it was made from, if and only if every one of them can be spelled:
   the grouping leaves nothing to fold, and a swallowed digit is never made up for.
   */
  lemma {:induction false} HeaderIsPool(prefix: seq<Entry>, groups: seq<Group>)
    requires Consecutive(prefix, 0) && Grouped(prefix, groups)
    ensures Compiled(groups).Some?
    ensures Pool(Compiled(groups).value, {}) == Terminated(Lits(prefix)) <==> AllSpellable(Lits(prefix))
  {
    CompiledIs(groups);
    ConsecutiveNoNuls(prefix, 0);
    JoinedTerminated(groups);
    if AllSpellable(Lits(prefix)) {
      JoinedDistinct(prefix, groups);
      PoolOfDistinct(Joined(groups), {});
      LexedPartsSame(Lits(prefix));
    } else {
      PoolLength(Joined(groups), {});
      LexedPartsShorter(Lits(prefix));
    }
  }

  /** So every original string stands at its original offset in the compiled pool. */
  lemma {:induction false} StringsWhereTheyWere(data: Bytes, whole: bool, cut: nat, groups: seq<Group>, k: nat)
    requires var prefix := Prefix(Strings(data, 0), whole, cut);
             Grouped(prefix, groups) && AllSpellable(Lits(prefix)) && k < |prefix|
    ensures Compiled(groups).Some?
    ensures Pool(Compiled(groups).value, {}) <= data
    ensures StandsIn(Prefix(Strings(data, 0), whole, cut)[k], 0, Pool(Compiled(groups).value, {}))
  {
    var all := Strings(data, 0);
    var prefix := Prefix(all, whole, cut);
    StringsAreThePool(data, 0);
    PrefixIsPrefix(all, 0, whole, cut);
    assert data[..0 + |Terminated(Lits(all))|] == Terminated(Lits(all));
    HeaderIsPool(prefix, groups);
    EntryAt(prefix, 0, prefix[k]);
  }

  /** The entry's string, with its NUL, at its offset in a pool that starts at `at`. */
  predicate StandsIn(e: Entry, at: int, pool: Bytes) {
    var o := e.off - at;
    && 0 <= o && o + |e.lit| < |pool|
    && pool[o..o + |e.lit|] == e.lit && pool[o + |e.lit|] == 0
  }

  lemma {:induction false} EntryAt(prefix: seq<Entry>, at: nat, e: Entry)
    requires Consecutive(prefix, at) && e in prefix
    ensures StandsIn(e, at, Terminated(Lits(prefix)))
  {
    var first, rest := prefix[0], prefix[1..];
    TerminatedCons(first, rest);
    assert [first] + rest == prefix;
    if e == first {
      StandsFirst(e, at, Terminated(Lits(rest)));
    } else {
      EntryAt(rest, at + |first.lit| + 1, e);
      StandsShifted(e, at, first.lit, Terminated(Lits(rest)));
    }
  }

  lemma {:induction false} StandsFirst(e: Entry, at: int, u: Bytes)
    requires e.off == at
    ensures StandsIn(e, at, e.lit + [0] + u)
  {
    assert (e.lit + [0] + u)[..|e.lit|] == e.lit;
  }

  lemma {:induction false} StandsShifted(e: Entry, at: int, lit: Bytes, u: Bytes)
    requires StandsIn(e, at + |lit| + 1, u)
    ensures StandsIn(e, at, lit + [0] + u)
  {
    var t, step := lit + [0] + u, |lit| + 1;
    var o := e.off - at;
    Later(lit + [0], u, o - step, o - step + |e.lit|);
    assert t[o + |e.lit|] == u[o - step + |e.lit|];
  }

  lemma {:induction false} Later(front: Bytes, u: Bytes, i: nat, j: nat)
    requires i <= j <= |u|
    ensures (front + u)[|front| + i..|front| + j] == u[i..j]
  {
    assert forall k :: 0 <= k < |u| ==> (front + u)[|front| + k] == u[k];
  }
}
