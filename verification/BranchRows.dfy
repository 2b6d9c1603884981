/**
 The branches behind a compare in `tools/gen_wmltypes.py`: where the row of them leads after
 each outcome, which of them `extract` takes for the three edges of its node, and when that is
 the same.
 */
module BranchRows {
  import opened PathConstants
  import opened Wrappers

  datatype Order = Less | Equal | Greater

  function OrderOf(x: int, y: int): Order {
    if x < y then Less else if x == y then Equal else Greater
  }

  /** The branches taken after a compare with this outcome. */
  function TakenOn(o: Order): set<Kind> {
    match o
    case Less => {Bne, Blt, Ble, B}
    case Equal => {Beq, Bge, Ble, B}
    case Greater => {Bne, Bge, Bgt, B}
  }

  predicate IsTaken(kind: Kind, o: Order) {
    kind in TakenOn(o)
  }

  /** Branches in a row; a `b` ends it. */
  predicate IsRow(k: seq<Kind>) {
    forall i :: 0 <= i < |k| ==> k[i] != Call && k[i] != Return && (k[i] == B ==> i == |k| - 1)
  }

  /** The first of these kinds, or the end of the row. */
  function FirstOf(k: seq<Kind>, s: set<Kind>): (i: nat)
    ensures i <= |k|
    ensures i < |k| ==> k[i] in s
    ensures forall j :: 0 <= j < i ==> k[j] !in s
  {
    if k == [] || k[0] in s then 0 else 1 + FirstOf(k[1..], s)
  }

  /** The last of these kinds, or the end of the row. */
  function LastOf(k: seq<Kind>, s: set<Kind>): (i: nat)
    ensures i <= |k|
    ensures i < |k| ==> k[i] in s && forall j :: i < j < |k| ==> k[j] !in s
    ensures i == |k| ==> forall j :: 0 <= j < |k| ==> k[j] !in s
  {
    if k == [] then 0
    else
      var i := LastOf(k[1..], s);
      if i < |k| - 1 then i + 1 else if k[0] in s then 0 else |k|
  }

  const TO_GREATER: set<Kind> := {Bge, Bgt}
  const TO_LESS: set<Kind> := {Blt, Ble}

  /** The branch the words take after an outcome; the end of the row if they take none. */
  function CodeIndex(k: seq<Kind>, o: Order): nat {
    FirstOf(k, TakenOn(o))
  }

  /**
   The branch whose target the node has for an outcome: the first `beq`, the last `bge` or `bgt`, the
   last `blt` or `ble`.  A side without one goes with the `b`, or with the end of the row if there is
   none; but with a `b` and no greater edge the less edge stands for both.
   */
  function NodeIndex(k: seq<Kind>, o: Order): nat {
    var equal, greater, less := FirstOf(k, {Beq}), LastOf(k, TO_GREATER), LastOf(k, TO_LESS);
    var rest := FirstOf(k, {B});
    if o == Equal && equal < |k| then equal
    else if o == Less then (if less < |k| then less else rest)
    else if greater < |k| then greater
    else if less < |k| && rest < |k| then less
    else rest
  }

  // ----- which rows are read right -----

  /** One of these kinds stands before place i. */
  predicate HasBefore(k: seq<Kind>, i: nat, s: set<Kind>)
    requires i <= |k|
  {
    exists j :: 0 <= j < i && k[j] in s
  }

  predicate Has(k: seq<Kind>, s: set<Kind>) {
    HasBefore(k, |k|, s)
  }

  /** No two branches of these kinds. */
  predicate AtMostOne(k: seq<Kind>, s: set<Kind>) {
    forall i, j :: 0 <= i < j < |k| ==> !(k[i] in s && k[j] in s)
  }

  /** Each branch of the kinds s stands behind one of the kinds t. */
  predicate Behind(k: seq<Kind>, s: set<Kind>, t: set<Kind>) {
    forall i :: 0 <= i < |k| && k[i] in s ==> HasBefore(k, i, t)
  }

  /** One branch for the smaller values at most, and no `bne` before it. */
  predicate LessRight(k: seq<Kind>) {
    AtMostOne(k, TO_LESS) && Behind(k, {Bne}, TO_LESS)
  }

  /** The same for the greater values; and no `b` behind a branch for the smaller ones alone. */
  predicate GreaterRight(k: seq<Kind>) {
    && AtMostOne(k, TO_GREATER) && Behind(k, {Bne}, TO_GREATER)
    && (Has(k, {B}) && Has(k, TO_LESS) ==> Has(k, TO_GREATER))
  }

  /** A `bge` or `ble` only behind a `beq`; without a `beq`, no `bgt`, and a `ble` only behind a `bge`. */
  predicate EqualRight(k: seq<Kind>) {
    if Has(k, {Beq}) then Behind(k, {Bge, Ble}, {Beq})
    else !Has(k, {Bgt}) && Behind(k, {Ble}, {Bge})
  }

  /** The rows that are read right. */
  predicate Ordinary(k: seq<Kind>) {
    LessRight(k) && GreaterRight(k) && EqualRight(k)
  }

  /** The branch for one side: the last of its kinds, else what takes the rest. */
  function SideIndex(k: seq<Kind>, s: set<Kind>): nat {
    if LastOf(k, s) < |k| then LastOf(k, s) else FirstOf(k, {B})
  }

  lemma {:induction false} SideExactly(k: seq<Kind>, s: set<Kind>)
    requires IsRow(k) && (s == TO_LESS || s == TO_GREATER)
    ensures FirstOf(k, s + {Bne, B}) == SideIndex(k, s) <==> AtMostOne(k, s) && Behind(k, {Bne}, s)
  {
    if AtMostOne(k, s) && Behind(k, {Bne}, s) { SideRight(k, s); }
    if FirstOf(k, s + {Bne, B}) == SideIndex(k, s) { SideNeeded(k, s); }
  }

  lemma {:induction false} SideRight(k: seq<Kind>, s: set<Kind>)
    requires IsRow(k) && (s == TO_LESS || s == TO_GREATER) && AtMostOne(k, s) && Behind(k, {Bne}, s)
    ensures FirstOf(k, s + {Bne, B}) == SideIndex(k, s)
  {
    var c, last := FirstOf(k, s + {Bne, B}), LastOf(k, s);
    NoneBefore(k, s + {Bne, B}, s);
  }

  lemma {:induction false} NoneBefore(k: seq<Kind>, s: set<Kind>, t: set<Kind>)
    requires t <= s
    ensures !HasBefore(k, FirstOf(k, s), t)
  {
  }

  lemma {:induction false} SideNeeded(k: seq<Kind>, s: set<Kind>)
    requires IsRow(k) && (s == TO_LESS || s == TO_GREATER) && FirstOf(k, s + {Bne, B}) == SideIndex(k, s)
    ensures AtMostOne(k, s) && Behind(k, {Bne}, s)
  {
    var c, last := FirstOf(k, s + {Bne, B}), LastOf(k, s);
    forall i | 0 <= i < |k| && k[i] in s + {Bne, B}
      ensures i >= c
    {
    }
    forall i | 0 <= i < |k| && k[i] in {Bne}
      ensures HasBefore(k, i, s)
    {
      assert k[i] in s + {Bne, B} && i >= c;
    }
  }

  lemma {:induction false} LessExactly(k: seq<Kind>)
    requires IsRow(k)
    ensures CodeIndex(k, Less) == NodeIndex(k, Less) <==> LessRight(k)
  {
    SideExactly(k, TO_LESS);
    assert TakenOn(Less) == TO_LESS + {Bne, B};
  }

  lemma {:induction false} GreaterExactly(k: seq<Kind>)
    requires IsRow(k)
    ensures CodeIndex(k, Greater) == NodeIndex(k, Greater) <==> GreaterRight(k)
  {
    SideExactly(k, TO_GREATER);
    assert TakenOn(Greater) == TO_GREATER + {Bne, B};
    assert Has(k, {B}) <==> FirstOf(k, {B}) < |k|;
    assert Has(k, TO_LESS) <==> LastOf(k, TO_LESS) < |k|;
    assert Has(k, TO_GREATER) <==> LastOf(k, TO_GREATER) < |k|;
  }

  /** Where the words go after an equal compare, if no `beq` stands in the row. */
  lemma {:induction false} EqualWithout(k: seq<Kind>)
    requires IsRow(k) && GreaterRight(k) && !Has(k, {Beq})
    ensures CodeIndex(k, Equal) == NodeIndex(k, Greater) <==> !Has(k, {Bgt}) && Behind(k, {Ble}, {Bge})
  {
    var c, g, rest := CodeIndex(k, Equal), LastOf(k, TO_GREATER), FirstOf(k, {B});
    assert Has(k, {B}) <==> rest < |k|;
    assert Has(k, TO_LESS) <==> LastOf(k, TO_LESS) < |k|;
    assert Has(k, TO_GREATER) <==> g < |k|;
    NoneBefore(k, TakenOn(Equal), {Bge});
    if c == NodeIndex(k, Greater) {
      forall i | 0 <= i < |k| && k[i] in {Ble}
        ensures HasBefore(k, i, {Bge})
      {
        assert k[i] in TakenOn(Equal) && i >= c;
      }
    }
  }

  lemma {:induction false} EqualWith(k: seq<Kind>)
    requires IsRow(k) && Has(k, {Beq})
    ensures CodeIndex(k, Equal) == FirstOf(k, {Beq}) <==> Behind(k, {Bge, Ble}, {Beq})
  {
    var c, e := CodeIndex(k, Equal), FirstOf(k, {Beq});
    NoneBefore(k, TakenOn(Equal), {Beq});
    if c == e {
      forall i | 0 <= i < |k| && k[i] in {Bge, Ble}
        ensures HasBefore(k, i, {Beq})
      {
        assert k[i] in TakenOn(Equal) && i >= c;
      }
    }
  }

  lemma {:induction false} EqualExactly(k: seq<Kind>)
    requires IsRow(k) && GreaterRight(k)
    ensures CodeIndex(k, Equal) == NodeIndex(k, Equal) <==> EqualRight(k)
  {
    if Has(k, {Beq}) {
      EqualWith(k);
      assert FirstOf(k, {Beq}) < |k|;
    } else {
      EqualWithout(k);
      assert FirstOf(k, {Beq}) == |k|;
    }
  }

  ghost predicate SameBranches(k: seq<Kind>) {
    forall o :: CodeIndex(k, o) == NodeIndex(k, o)
  }

  /** Words and node follow the same branch after every outcome exactly when the row is ordinary. */
  lemma {:induction false} OrdinaryExactly(k: seq<Kind>)
    requires IsRow(k)
    ensures SameBranches(k) <==> Ordinary(k)
  {
    LessExactly(k);
    GreaterExactly(k);
    if GreaterRight(k) { EqualExactly(k); }
  }

  // ----- rows with targets -----

  function KindsOf(row: seq<Branching>): seq<Kind> {
    seq(|row|, i requires 0 <= i < |row| => row[i].kind)
  }

  /** The target of branch i, or the address behind the row. */
  function Place(row: seq<Branching>, next: int, i: nat): int {
    if i < |row| then row[i].target else next
  }

  /** Where the words go. */
  function RowExit(row: seq<Branching>, next: int, o: Order): int {
    if row == [] then next
    else if IsTaken(row[0].kind, o) then row[0].target
    else RowExit(row[1..], next, o)
  }

  lemma {:induction false} RowExitIs(row: seq<Branching>, next: int, o: Order)
    ensures RowExit(row, next, o) == Place(row, next, CodeIndex(KindsOf(row), o))
  {
    if row != [] {
      assert KindsOf(row)[1..] == KindsOf(row[1..]);
      RowExitIs(row[1..], next, o);
    }
  }

  /** Where the node goes. */
  function ReadExit(row: seq<Branching>, next: int, o: Order): int {
    Place(row, next, NodeIndex(KindsOf(row), o))
  }

  /** Words and node lead to the same address after every outcome. */
  ghost predicate ReadRight(row: seq<Branching>, next: int) {
    forall o :: RowExit(row, next, o) == ReadExit(row, next, o)
  }

  /** The targets up to a `b`, or up to the address behind the row, are different. */
  predicate TargetsDiffer(row: seq<Branching>, next: int) {
    forall i, j :: 0 <= i < j <= FirstOf(KindsOf(row), {B}) ==> Place(row, next, i) != Place(row, next, j)
  }

  lemma {:induction false} IndexesWithin(k: seq<Kind>, o: Order)
    requires IsRow(k)
    ensures CodeIndex(k, o) <= FirstOf(k, {B}) && NodeIndex(k, o) <= FirstOf(k, {B})
  {
    var rest := FirstOf(k, {B});
    assert rest < |k| ==> k[rest] in TakenOn(o) && rest == |k| - 1;
  }

  /** An ordinary row is read right; if its targets differ, no other row is. */
  lemma {:induction false} ReadRightExactly(row: seq<Branching>, next: int)
    requires IsRow(KindsOf(row))
    ensures Ordinary(KindsOf(row)) ==> ReadRight(row, next)
    ensures TargetsDiffer(row, next) ==> (ReadRight(row, next) <==> Ordinary(KindsOf(row)))
  {
    var k := KindsOf(row);
    OrdinaryExactly(k);
    forall o
      ensures CodeIndex(k, o) == NodeIndex(k, o) ==> RowExit(row, next, o) == ReadExit(row, next, o)
      ensures TargetsDiffer(row, next) && RowExit(row, next, o) == ReadExit(row, next, o) ==>
                CodeIndex(k, o) == NodeIndex(k, o)
    {
      RowExitIs(row, next, o);
      IndexesWithin(k, o);
    }
  }

  // ----- the usual rows -----

  /** A `beq` or none, one other conditional branch or none, a `b` or none. */
  function Usual(equal: bool, side: Option<Kind>, always: bool): seq<Kind> {
    (if equal then [Beq] else []) + (if side.Some? then [side.value] else []) + (if always then [B] else [])
  }

  predicate SideKind(kind: Kind) {
    kind in {Bne, Bge, Blt, Bgt, Ble}
  }

  lemma {:induction false} UsualIs(equal: bool, side: Option<Kind>, always: bool) returns (p: nat)
    requires side.Some? ==> SideKind(side.value)
    ensures var k := Usual(equal, side, always);
            && p == (if equal then 1 else 0)
            && (equal ==> |k| > 0 && k[0] == Beq) && (always ==> |k| > 0 && k[|k| - 1] == B)
            && (side.Some? ==> p < |k| && k[p] == side.value)
            && forall i :: 0 <= i < |k| ==>
                 || (equal && i == 0 && k[i] == Beq)
                 || (side.Some? && i == p && k[i] == side.value)
                 || (always && i == |k| - 1 && k[i] == B)
  {
    p := if equal then 1 else 0;
  }

  lemma {:induction false} UsualLess(equal: bool, side: Option<Kind>, always: bool)
    requires side.Some? ==> SideKind(side.value)
    ensures LessRight(Usual(equal, side, always)) <==> side != Some(Bne)
  {
    var p := UsualIs(equal, side, always);
    var k := Usual(equal, side, always);
    if side == Some(Bne) { assert k[p] in {Bne} && !HasBefore(k, p, TO_LESS); }
  }

  lemma {:induction false} UsualGreater(equal: bool, side: Option<Kind>, always: bool)
    requires side.Some? ==> SideKind(side.value)
    ensures GreaterRight(Usual(equal, side, always)) <==>
              side != Some(Bne) && !(always && (side == Some(Blt) || side == Some(Ble)))
  {
    var p := UsualIs(equal, side, always);
    var k := Usual(equal, side, always);
    if side == Some(Bne) { assert k[p] in {Bne} && !HasBefore(k, p, TO_GREATER); }
    if always { assert k[|k| - 1] in {B}; }
    if side.Some? { assert k[p] == side.value; }
  }

  lemma {:induction false} UsualEqual(equal: bool, side: Option<Kind>, always: bool)
    requires side.Some? ==> SideKind(side.value)
    ensures EqualRight(Usual(equal, side, always)) <==> equal || (side != Some(Bgt) && side != Some(Ble))
  {
    var p := UsualIs(equal, side, always);
    var k := Usual(equal, side, always);
    if equal {
      assert k[0] in {Beq};
    } else {
      assert !Has(k, {Beq});
      if side.Some? { assert k[p] == side.value && !HasBefore(k, p, {Bge}); }
    }
  }

  /**
   Of the usual rows all are ordinary but those with a `bne`, with a `bgt` or `ble` and no `beq`, and
   with a `blt` or `ble` and a `b`.
   */
  lemma {:induction false} UsualRows(equal: bool, side: Option<Kind>, always: bool)
    requires side.Some? ==> SideKind(side.value)
    ensures Ordinary(Usual(equal, side, always)) <==>
              && side != Some(Bne)
              && (equal || (side != Some(Bgt) && side != Some(Ble)))
              && !(always && (side == Some(Blt) || side == Some(Ble)))
  {
    UsualLess(equal, side, always);
    UsualGreater(equal, side, always);
    UsualEqual(equal, side, always);
  }

  /** A `beq`, then a branch for each side in either order, then a `b` or nothing: ordinary. */
  lemma {:induction false} BothSides(first: Kind, second: Kind, always: bool)
    requires (first in TO_GREATER && second in TO_LESS) || (first in TO_LESS && second in TO_GREATER)
    ensures Ordinary([Beq, first, second] + if always then [B] else [])
  {
    var k := [Beq, first, second] + if always then [B] else [];
    assert k[0] in {Beq} && k[1] == first && k[2] == second && forall i :: 3 <= i < |k| ==> k[i] == B;
    forall i | 0 < i <= |k|
      ensures HasBefore(k, i, {Beq})
    {
      assert k[0] in {Beq};
    }
    assert AtMostOne(k, TO_LESS) && Behind(k, {Bne}, TO_LESS);
    assert AtMostOne(k, TO_GREATER) && Behind(k, {Bne}, TO_GREATER);
    assert Has(k, TO_GREATER);
    assert Behind(k, {Bge, Ble}, {Beq});
  }
}
