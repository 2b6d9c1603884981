/** When the members recorded in `FieldLayout` do not depend on the order the code is read in. */
module FieldOrder {
  import opened FieldLayout
  import opened Sorting
  import opened Wrappers

  const SIGNED := "int"
  const UNSIGNED := "unsigned int"

  lemma {:induction false} TwoTypes()
    ensures SIGNED != UNSIGNED
  {
    assert |SIGNED| != |UNSIGNED|;
  }

  lemma {:induction false} MergeableIs(a: Member, b: Member)
    ensures Mergeable(a, b) <==>
              && a.size == b.size
              && ((a.ctype == SIGNED && b.ctype == UNSIGNED) || (a.ctype == UNSIGNED && b.ctype == SIGNED))
  {
    TwoTypes();
    if Mergeable(a, b) {
      assert a.ctype in {a.ctype, b.ctype} && b.ctype in {a.ctype, b.ctype};
      assert SIGNED in {SIGNED, UNSIGNED} && UNSIGNED in {SIGNED, UNSIGNED};
    }
  }

  // ----- offsets that refuse whatever the order -----

  predicate Both(uses: seq<Use>, off: int, a: Use, b: Use) {
    a in uses && b in uses && a.off == off && b.off == off
  }

  /** Read only as unsigned under this name. */
  ghost predicate UnsignedOnly(uses: seq<Use>, u: Use) {
    && u in uses && u.m.ctype == UNSIGNED
    && forall v :: v in uses && v.off == u.off && v.m.name == u.m.name ==> v.m.ctype != SIGNED
  }

  /** All uses at an offset have one type. */
  ghost predicate OneType(uses: seq<Use>, off: int) {
    forall a, b :: Both(uses, off, a, b) ==> a.m.ctype == b.m.ctype
  }

  /**
   Two uses that clash in any order: of two sizes; different, and not both int or unsigned int;
   different, and of the one type there is; or under two names that are only unsigned.
   */
  ghost predicate Clash(uses: seq<Use>, off: int, a: Use, b: Use) {
    && Both(uses, off, a, b)
    && (|| a.m.size != b.m.size
        || (a.m != b.m && !({a.m.ctype, b.m.ctype} <= {SIGNED, UNSIGNED}))
        || (a.m != b.m && OneType(uses, off))
        || (a.m.name != b.m.name && UnsignedOnly(uses, a) && UnsignedOnly(uses, b)))
  }

  ghost predicate Doomed(uses: seq<Use>, off: int) {
    exists a, b :: Clash(uses, off, a, b)
  }

  /** What is known of an offset while its uses have been accepted. */
  ghost predicate Accepting(uses: seq<Use>, off: int, m: Member) {
    && (exists u :: u in uses && u.off == off && u.m.name == m.name && (u.m == m || m.ctype == UNSIGNED))
    && (forall u :: u in uses && u.off == off ==>
          u.m.size == m.size && (u.m == m || (m.ctype == UNSIGNED && u.m.ctype in {SIGNED, UNSIGNED})))
    && (OneType(uses, off) ==> forall u :: u in uses && u.off == off ==> u.m == m)
    && OneUnsigned(uses, off)
  }

  /** At most one name is only unsigned. */
  ghost predicate OneUnsigned(uses: seq<Use>, off: int) {
    forall a, b :: Both(uses, off, a, b) && UnsignedOnly(uses, a) && UnsignedOnly(uses, b) ==> a.m.name == b.m.name
  }

  lemma {:induction false} AcceptingNotDoomed(uses: seq<Use>, off: int, m: Member)
    requires Accepting(uses, off, m)
    ensures !Doomed(uses, off)
  {
  }

  /** One more use at its offset. */
  ghost predicate OneMore(uses: seq<Use>, init: seq<Use>, last: Use) {
    forall u :: u in uses <==> u in init || u == last
  }

  lemma {:induction false} StillAccepting(uses: seq<Use>, init: seq<Use>, last: Use, m: Member)
    requires OneMore(uses, init, last) && Accepting(init, last.off, m) && last.m == m
    ensures Accepting(uses, last.off, m)
  {
    var w :| w in init && w.off == last.off && w.m.name == m.name && (w.m == m || m.ctype == UNSIGNED);
    StillOneUnsigned(uses, init, last, w);
    if OneType(uses, last.off) { OneTypeBefore(uses, init, last, last.off); }
  }

  lemma {:induction false} OneTypeBefore(uses: seq<Use>, init: seq<Use>, last: Use, off: int)
    requires OneMore(uses, init, last) && OneType(uses, off)
    ensures OneType(init, off)
  {
    forall a, b | Both(init, off, a, b)
      ensures a.m.ctype == b.m.ctype
    {
      assert Both(uses, off, a, b);
    }
  }

  lemma {:induction false} StillOneUnsigned(uses: seq<Use>, init: seq<Use>, last: Use, w: Use)
    requires OneMore(uses, init, last) && OneUnsigned(init, last.off)
    requires w in init && w.off == last.off && w.m.name == last.m.name && w.m.ctype in {SIGNED, UNSIGNED, last.m.ctype}
    ensures OneUnsigned(uses, last.off)
  {
    forall a, b | Both(uses, last.off, a, b) && UnsignedOnly(uses, a) && UnsignedOnly(uses, b)
      ensures a.m.name == b.m.name
    {
      var c := OnlyBefore(uses, init, last, a, w);
      var d := OnlyBefore(uses, init, last, b, w);
      assert Both(init, last.off, c, d);
    }
  }

  /** A name that is only unsigned was so before, if it was there. */
  lemma {:induction false} OnlyBefore(uses: seq<Use>, init: seq<Use>, last: Use, a: Use, w: Use) returns (c: Use)
    requires OneMore(uses, init, last) && UnsignedOnly(uses, a) && a.off == last.off
    requires w in init && w.off == last.off && w.m.name == last.m.name && w.m.ctype in {SIGNED, UNSIGNED, last.m.ctype}
    ensures c in init && c.off == a.off && c.m.name == a.m.name && UnsignedOnly(init, c)
  {
    TwoTypes();
    c := if a == last then w else a;
  }

  lemma {:induction false} MergedAccepting(uses: seq<Use>, init: seq<Use>, last: Use, m: Member)
    requires OneMore(uses, init, last) && Accepting(init, last.off, m) && Mergeable(m, last.m)
    ensures Accepting(uses, last.off, last.m.(ctype := UNSIGNED))
  {
    TwoTypes();
    MergeableIs(m, last.m);
    var now := last.m.(ctype := UNSIGNED);
    var w :| w in init && w.off == last.off && w.m.name == m.name && (w.m == m || m.ctype == UNSIGNED);
    assert last in uses && w in uses;
    BothTypes(uses, init, last, m);
    forall a, b | Both(uses, last.off, a, b) && UnsignedOnly(uses, a) && UnsignedOnly(uses, b)
      ensures a.m.name == b.m.name
    {
      if m.ctype == UNSIGNED { assert UnsignedOnly(init, a) && UnsignedOnly(init, b); }
    }
  }

  /** After a merge both types have been read. */
  lemma {:induction false} BothTypes(uses: seq<Use>, init: seq<Use>, last: Use, m: Member)
    requires OneMore(uses, init, last) && Accepting(init, last.off, m) && Mergeable(m, last.m)
    ensures !OneType(uses, last.off)
  {
    TwoTypes();
    MergeableIs(m, last.m);
    var w :| w in init && w.off == last.off && w.m.name == m.name && (w.m == m || m.ctype == UNSIGNED);
    if OneType(init, last.off) {
      assert w.m == m;
      assert Both(uses, last.off, w, last);
    } else {
      var a, b :| Both(init, last.off, a, b) && a.m.ctype != b.m.ctype;
      assert Both(uses, last.off, a, b);
    }
  }

  lemma {:induction false} OtherAccepting(uses: seq<Use>, init: seq<Use>, last: Use, off: int, m: Member)
    requires OneMore(uses, init, last) && Accepting(init, off, m) && off != last.off
    ensures Accepting(uses, off, m)
  {
    if OneType(uses, off) { OneTypeBefore(uses, init, last, off); }
    OtherOneUnsigned(uses, init, last, off);
  }

  lemma {:induction false} OtherOneUnsigned(uses: seq<Use>, init: seq<Use>, last: Use, off: int)
    requires OneMore(uses, init, last) && OneUnsigned(init, off) && off != last.off
    ensures OneUnsigned(uses, off)
  {
    forall a, b | Both(uses, off, a, b) && UnsignedOnly(uses, a) && UnsignedOnly(uses, b)
      ensures a.m.name == b.m.name
    {
      assert Both(init, off, a, b) && UnsignedOnly(init, a) && UnsignedOnly(init, b);
    }
  }

  lemma {:induction false} FirstAccepting(uses: seq<Use>, init: seq<Use>, last: Use)
    requires OneMore(uses, init, last) && forall u :: u in init ==> u.off != last.off
    ensures Accepting(uses, last.off, last.m)
  {
    assert last in uses;
  }

  /** Whatever has been accepted has no clash. */
  lemma {:induction false} AcceptedIsAccepting(uses: seq<Use>, off: int)
    requires RecordAll(uses).Some?
    ensures off in RecordAll(uses).value <==> exists u :: u in uses && u.off == off
    ensures off in RecordAll(uses).value ==> Accepting(uses, off, RecordAll(uses).value[off])
  {
    if uses != [] {
      var init, last := uses[..|uses| - 1], uses[|uses| - 1];
      forall u ensures u in uses <==> u in init || u == last { InInit(uses, u); }
      AcceptedIsAccepting(init, off);
      var at := RecordAll(init).value;
      if off != last.off {
        if off in at { OtherAccepting(uses, init, last, off, at[off]); }
      } else if off !in at {
        FirstAccepting(uses, init, last);
      } else if at[off] == last.m {
        StillAccepting(uses, init, last, at[off]);
      } else {
        MergedAccepting(uses, init, last, at[off]);
      }
    }
  }

  /** An offset with a clash refuses in every order. */
  lemma {:induction false} DoomedRefuses(uses: seq<Use>, off: int)
    requires Doomed(uses, off)
    ensures RecordAll(uses).None?
  {
    if RecordAll(uses).Some? {
      var a, b :| Clash(uses, off, a, b);
      AcceptedIsAccepting(uses, off);
      AcceptingNotDoomed(uses, off, RecordAll(uses).value[off]);
    }
  }

  // ----- an order that is accepted -----

  /** Where a name is first read. */
  function NameIndex(uses: seq<Use>, name: string): (i: nat)
    ensures i <= |uses|
    ensures i < |uses| ==> uses[i].m.name == name
    ensures forall k :: 0 <= k < i ==> uses[k].m.name != name
  {
    if uses == [] || uses[0].m.name == name then 0 else 1 + NameIndex(uses[1..], name)
  }

  /** Unsigned, and under the only name that is only unsigned if there is one. */
  ghost predicate Leads(uses: seq<Use>, off: int, f: Use) {
    && f in uses && f.off == off && f.m.ctype == UNSIGNED
    && (UnsignedOnly(uses, f) || forall u: Use :: u.off == off ==> !UnsignedOnly(uses, u))
  }

  /** The name an offset is to be read under first. */
  ghost function Leader(uses: seq<Use>, off: int): Option<string> {
    if exists f :: Leads(uses, off, f) then
      var f :| Leads(uses, off, f);
      Some(f.m.name)
    else None
  }

  /** The leader's uses come first, then name after name. */
  ghost function Rank(uses: seq<Use>, u: Use): nat {
    if Leader(uses, u.off) == Some(u.m.name) then 0 else 1 + NameIndex(uses, u.m.name)
  }

  /** Of the leader's uses the unsigned come first, of the others the signed. */
  ghost function Key(uses: seq<Use>, u: Use): nat {
    2 * Rank(uses, u) + if (u.m.ctype == UNSIGNED) == (Rank(uses, u) == 0) then 0 else 1
  }

  ghost function KeyLe(uses: seq<Use>): (Use, Use) -> bool {
    (a: Use, b: Use) => Key(uses, a) <= Key(uses, b)
  }

  lemma {:induction false} SameRank(uses: seq<Use>, a: Use, b: Use)
    requires a in uses && a.off == b.off && Rank(uses, a) == Rank(uses, b)
    ensures a.m.name == b.m.name
  {
    var k :| 0 <= k < |uses| && uses[k] == a;
  }

  ghost predicate Mixed(uses: seq<Use>, off: int) {
    exists a, b :: Both(uses, off, a, b) && a.m != b.m
  }

  /** Where different uses do not clash, all are int or unsigned int, of one size, and some are unsigned. */
  lemma {:induction false} MixedIs(uses: seq<Use>, off: int)
    requires Mixed(uses, off) && !Doomed(uses, off)
    ensures forall u, v :: Both(uses, off, u, v) ==> u.m.size == v.m.size && u.m.ctype in {SIGNED, UNSIGNED}
    ensures exists u :: u in uses && u.off == off && u.m.ctype == UNSIGNED
  {
    var a, b :| Both(uses, off, a, b) && a.m != b.m;
    forall u, v | Both(uses, off, u, v)
      ensures u.m.size == v.m.size && u.m.ctype in {SIGNED, UNSIGNED}
    {
      assert !Clash(uses, off, u, v) && !Clash(uses, off, u, a) && !Clash(uses, off, u, b);
      assert u.m.ctype in {u.m.ctype, a.m.ctype} && u.m.ctype in {u.m.ctype, b.m.ctype};
    }
    assert !Clash(uses, off, a, b);
    var c, d :| Both(uses, off, c, d) && c.m.ctype != d.m.ctype;
    assert Both(uses, off, d, c);
  }

  lemma {:induction false} HasLeader(uses: seq<Use>, off: int) returns (f: Use)
    requires Mixed(uses, off) && !Doomed(uses, off)
    ensures Leads(uses, off, f) && Leader(uses, off) == Some(f.m.name)
    ensures forall u: Use :: u.off == off && UnsignedOnly(uses, u) ==> u.m.name == f.m.name
  {
    MixedIs(uses, off);
    SomeLeads(uses, off);
    f :| Leads(uses, off, f) && Leader(uses, off) == Some(f.m.name);
    LeaderIsOnly(uses, off, f);
  }

  lemma {:induction false} SomeLeads(uses: seq<Use>, off: int)
    requires exists u :: u in uses && u.off == off && u.m.ctype == UNSIGNED
    ensures exists f :: Leads(uses, off, f)
  {
    if exists v: Use :: v.off == off && UnsignedOnly(uses, v) {
      var v: Use :| v.off == off && UnsignedOnly(uses, v);
      assert Leads(uses, off, v);
    } else {
      var u :| u in uses && u.off == off && u.m.ctype == UNSIGNED;
      assert Leads(uses, off, u);
    }
  }

  lemma {:induction false} LeaderIsOnly(uses: seq<Use>, off: int, f: Use)
    requires Leads(uses, off, f) && !Doomed(uses, off)
    ensures forall u: Use :: u.off == off && UnsignedOnly(uses, u) ==> u.m.name == f.m.name
  {
    forall u: Use | u.off == off && UnsignedOnly(uses, u)
      ensures u.m.name == f.m.name
    {
      assert Both(uses, off, f, u);
      assert !Clash(uses, off, f, u);
    }
  }

  ghost predicate NoneDoomed(uses: seq<Use>) {
    forall off :: !Doomed(uses, off)
  }

  /** The same uses, by their keys. */
  ghost predicate Ordered(uses: seq<Use>, p: seq<Use>) {
    && (forall u :: u in p <==> u in uses)
    && forall i, j :: 0 <= i <= j < |p| ==> Key(uses, p[i]) <= Key(uses, p[j])
  }

  ghost predicate LastAt(p: seq<Use>, n: nat, off: int, i: int)
    requires n <= |p|
  {
    0 <= i < n && p[i].off == off && forall j :: i < j < n ==> p[j].off != off
  }

  /** What is recorded when `w` was the last use of its offset. */
  ghost predicate StateIs(uses: seq<Use>, w: Use, m: Member) {
    m == if Mixed(uses, w.off) then w.m.(ctype := UNSIGNED) else w.m
  }

  ghost predicate StateAt(uses: seq<Use>, p: seq<Use>, n: nat, off: int, at: map<int, Member>)
    requires n <= |p|
  {
    && (off !in at ==> forall i :: 0 <= i < n ==> p[i].off != off)
    && (off in at ==> exists i :: LastAt(p, n, off, i) && StateIs(uses, p[i], at[off]))
  }

  /** The first use of an offset is unsigned if there are different ones. */
  lemma {:induction false} FirstLeads(uses: seq<Use>, p: seq<Use>, n: nat)
    requires NoneDoomed(uses) && Ordered(uses, p) && n < |p| && Mixed(uses, p[n].off)
    requires forall i :: 0 <= i < n ==> p[i].off != p[n].off
    ensures p[n].m.ctype == UNSIGNED
  {
    var f := HasLeader(uses, p[n].off);
    assert f in p;
    var k :| 0 <= k < |p| && p[k] == f;
    assert Key(uses, f) == 0 && n <= k;
  }

  /** An unsigned use keeps the name of the one before it. */
  lemma {:induction false} UnsignedKeepsName(uses: seq<Use>, p: seq<Use>, n: nat, i: nat)
    requires NoneDoomed(uses) && Ordered(uses, p) && n < |p| && Mixed(uses, p[n].off)
    requires LastAt(p, n, p[n].off, i) && p[n].m.ctype == UNSIGNED
    ensures p[n].m.name == p[i].m.name
  {
    var v, w := p[n], p[i];
    assert v in p && w in p;
    assert Key(uses, w) <= Key(uses, v);
    if Rank(uses, v) != 0 {
      var x := SignedUse(uses, v);
      assert x in p;
      var k :| 0 <= k < |p| && p[k] == x;
      assert Key(uses, x) < Key(uses, v) && k < n && k <= i;
      assert Key(uses, x) <= Key(uses, w);
    }
    SameRank(uses, v, w);
  }

  /** A name that does not lead is also read as signed. */
  lemma {:induction false} SignedUse(uses: seq<Use>, v: Use) returns (x: Use)
    requires NoneDoomed(uses) && Mixed(uses, v.off) && v in uses && v.m.ctype == UNSIGNED && Rank(uses, v) != 0
    ensures x in uses && x.off == v.off && x.m.name == v.m.name && x.m.ctype == SIGNED
    ensures Key(uses, x) + 1 == Key(uses, v) && Rank(uses, x) == Rank(uses, v)
  {
    TwoTypes();
    var f := HasLeader(uses, v.off);
    x :| x in uses && x.off == v.off && x.m.name == v.m.name && x.m.ctype == SIGNED;
  }

  lemma {:induction false} NextAccepted(uses: seq<Use>, p: seq<Use>, n: nat, at: map<int, Member>)
    requires NoneDoomed(uses) && Ordered(uses, p) && n < |p| && StateAt(uses, p, n, p[n].off, at)
    ensures Recorded(at, p[n]).Some? && StateAt(uses, p, n + 1, p[n].off, Recorded(at, p[n]).value)
  {
    var v := p[n];
    assert v in p;
    assert LastAt(p, n + 1, v.off, n);
    if v.off !in at {
      if Mixed(uses, v.off) { FirstLeads(uses, p, n); }
    } else {
      var i :| LastAt(p, n, v.off, i) && StateIs(uses, p[i], at[v.off]);
      assert p[i] in p;
      assert Both(uses, v.off, v, p[i]);
      if Mixed(uses, v.off) {
        MixedIs(uses, v.off);
        MergeableIs(at[v.off], v.m);
        if v.m.ctype == UNSIGNED { UnsignedKeepsName(uses, p, n, i); }
      }
    }
  }

  lemma {:induction false} OtherState(uses: seq<Use>, p: seq<Use>, n: nat, off: int, at: map<int, Member>)
    requires n < |p| && StateAt(uses, p, n, off, at) && off != p[n].off && Recorded(at, p[n]).Some?
    ensures StateAt(uses, p, n + 1, off, Recorded(at, p[n]).value)
  {
    if off in at {
      var i :| LastAt(p, n, off, i) && StateIs(uses, p[i], at[off]);
      assert LastAt(p, n + 1, off, i);
    }
  }

  lemma {:induction false} OrderedAccepted(uses: seq<Use>, p: seq<Use>, n: nat)
    requires NoneDoomed(uses) && Ordered(uses, p) && n <= |p|
    ensures RecordAll(p[..n]).Some? && forall off :: StateAt(uses, p, n, off, RecordAll(p[..n]).value)
  {
    if n > 0 {
      OrderedAccepted(uses, p, n - 1);
      assert p[..n][..n - 1] == p[..n - 1];
      var at := RecordAll(p[..n - 1]).value;
      NextAccepted(uses, p, n - 1, at);
      forall off
        ensures StateAt(uses, p, n, off, RecordAll(p[..n]).value)
      {
        if off != p[n - 1].off { OtherState(uses, p, n - 1, off, at); }
      }
    }
  }

  /** Without clashes some order is accepted. */
  lemma {:induction false} SomeOrderAccepted(uses: seq<Use>) returns (p: seq<Use>)
    requires NoneDoomed(uses)
    ensures multiset(p) == multiset(uses) && RecordAll(p).Some?
  {
    p := Sort(uses, KeyLe(uses));
    SortSorts(uses, KeyLe(uses));
    SortedIsOrdered(uses, p);
    OrderedAccepted(uses, p, |p|);
    assert p[..|p|] == p;
  }

  lemma {:induction false} SortedIsOrdered(uses: seq<Use>, p: seq<Use>)
    requires p == Sort(uses, KeyLe(uses))
    ensures Ordered(uses, p)
  {
    SortSorts(uses, KeyLe(uses));
    forall u
      ensures u in p <==> u in uses
    {
      SortMembers(uses, KeyLe(uses), u);
    }
    KeysRise(uses, p);
  }

  lemma {:induction false} KeysRise(uses: seq<Use>, p: seq<Use>)
    requires SortedBy(p, KeyLe(uses))
    ensures forall i, j :: 0 <= i <= j < |p| ==> Key(uses, p[i]) <= Key(uses, p[j])
  {
    forall i, j | 0 <= i <= j < |p|
      ensures Key(uses, p[i]) <= Key(uses, p[j])
    {
      if i < j { assert KeyLe(uses)(p[i], p[j]); }
    }
  }

  // ----- when the order is free -----

  /** Whatever order the same uses come in, the same is recorded, or all orders are refused. */
  ghost predicate OrderFree(uses: seq<Use>) {
    forall p, q :: multiset(p) == multiset(uses) && multiset(q) == multiset(uses) ==> SameRecord(p, q)
  }

  ghost predicate SameRecord(p: seq<Use>, q: seq<Use>) {
    RecordAll(p) == RecordAll(q)
  }

  lemma {:induction false} SameMembers(p: seq<Use>, q: seq<Use>)
    requires multiset(p) == multiset(q)
    ensures SameUses(p, q)
  {
    forall u
      ensures u in p <==> u in q
    {
      assert u in p <==> u in multiset(p);
      assert u in q <==> u in multiset(q);
    }
  }

  lemma {:induction false} DoomedAlike(p: seq<Use>, q: seq<Use>, off: int)
    requires SameUses(p, q) && Doomed(p, off)
    ensures Doomed(q, off)
  {
    var a, b :| Clash(p, off, a, b);
    if OneType(p, off) {
      forall c, d | Both(q, off, c, d)
        ensures c.m.ctype == d.m.ctype
      {
        assert Both(p, off, c, d);
      }
    }
    assert Clash(q, off, a, b);
  }

  /** The last use gives an offset its name. */
  lemma {:induction false} LastNames(init: seq<Use>, u: Use)
    requires RecordAll(init + [u]).Some?
    ensures var at := RecordAll(init + [u]).value; u.off in at && at[u.off].name == u.m.name
  {
    assert (init + [u])[..|init|] == init;
  }

  /** The same uses with one of them last. */
  lemma {:induction false} MovedLast(p: seq<Use>, u: Use) returns (init: seq<Use>)
    requires u in p
    ensures multiset(init + [u]) == multiset(p)
  {
    var k :| 0 <= k < |p| && p[k] == u;
    init := p[..k] + p[k + 1..];
    assert p == p[..k] + [u] + p[k + 1..];
  }

  /** With two names at an offset, and no clash anywhere, the order shows. */
  lemma {:induction false} TwoNamesShow(uses: seq<Use>, a: Use, b: Use)
    requires NoneDoomed(uses) && a in uses && b in uses && a.off == b.off && a.m.name != b.m.name
    ensures !OrderFree(uses)
  {
    var p := SomeOrderAccepted(uses);
    var firsts := MovedLast(uses, a);
    var seconds := MovedLast(uses, b);
    if OrderFree(uses) {
      assert SameRecord(firsts + [a], p) && SameRecord(seconds + [b], p);
      LastNames(firsts, a);
      LastNames(seconds, b);
    }
  }

  /** Recording is free of order exactly when every offset has one name, or some offset refuses in every order. */
  lemma {:induction false} OrderFreeExactly(uses: seq<Use>)
    ensures OrderFree(uses) <==> OneName(uses) || exists off :: Doomed(uses, off)
  {
    if exists off :: Doomed(uses, off) {
      var off :| Doomed(uses, off);
      forall p | multiset(p) == multiset(uses)
        ensures RecordAll(p).None?
      {
        SameMembers(uses, p);
        DoomedAlike(uses, p, off);
        DoomedRefuses(p, off);
      }
    } else if OneName(uses) {
      forall p, q | multiset(p) == multiset(uses) && multiset(q) == multiset(uses)
        ensures SameRecord(p, q)
      {
        SameMembers(uses, p);
        SameMembers(p, q);
        OrderDoesNotMatter(p, q);
      }
    } else {
      var a, b :| a in uses && b in uses && a.off == b.off && a.m.name != b.m.name;
      TwoNamesShow(uses, a, b);
    }
  }
}
