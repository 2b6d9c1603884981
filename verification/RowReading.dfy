/**
 What the block scan of `PathConstants` makes of a row of branches: the node it records
 leads where `BranchRows` says.
 */
module RowReading {
  import opened BranchRows
  import opened PathConstants
  import opened SearchTree
  import opened Words
  import opened Wrappers

  /** Where a node leads after an outcome. */
  function NodeExit(n: Node, o: Order): Option<Address> {
    if o == Equal && n.equal.Some? then n.equal
    else if o != Less then (if n.greater.Some? then n.greater else n.less)
    else (if n.less.Some? then n.less else n.greater)
  }

  /** Where it sends a value. */
  function Goes(n: Node, x: int): Option<Address> {
    if n.Takes(x) then n.equal else n.Next(x)
  }

  lemma {:induction false} NodeExitIs(n: Node, x: int)
    ensures NodeExit(n, OrderOf(x, Signed(n.value))) == Goes(n, x)
  {
  }

  /** The row of branches at word i; a call or a return is none. */
  function RowAt(words: seq<Word>, base: int, i: nat): seq<Branching>
    decreases |words| - i
  {
    if i >= |words| then []
    else match Branch(words[i], base + 4 * i)
         case None => []
         case Some(b) =>
           if b.kind == Call || b.kind == Return then []
           else if b.kind == B then [b]
           else [b] + RowAt(words, base, i + 1)
  }

  lemma {:induction false} RowAtIsRow(words: seq<Word>, base: int, i: nat)
    ensures IsRow(KindsOf(RowAt(words, base, i)))
    decreases |words| - i
  {
    if i < |words| {
      RowAtIsRow(words, base, i + 1);
      var row, rest := RowAt(words, base, i), RowAt(words, base, i + 1);
      if row != [] && row[0].kind != B {
        assert KindsOf(row) == [row[0].kind] + KindsOf(rest);
      }
    }
  }

  /** The scan's branches, one after the other. */
  function Gathered(b: Block, row: seq<Branching>): Block
    decreases |row|
  {
    if row == [] then b
    else match OnBranch(b, row[0])
         case Done(b') => b'
         case More(b') => Gathered(b', row[1..])
  }

  lemma {:induction false} ScanRow(words: seq<Word>, base: int, b: Block, row: seq<Branching>)
    requires row == RowAt(words, base, b.stop) && (b.branched || row != [])
    ensures Scan(words, base, b) == Gathered(b, row)
    decreases |words| - b.stop
  {
    if row != [] {
      assert ScanStep(words, base, b) == OnBranch(b, row[0]);
      match OnBranch(b, row[0])
      case Done(_) =>
      case More(b') =>
        assert row[1..] == RowAt(words, base, b'.stop);
        ScanRow(words, base, b', row[1..]);
    }
  }

  function TargetAt(row: seq<Branching>, i: nat): Option<int> {
    if i < |row| then Some(row[i].target) else None
  }

  function Else(a: Option<int>, b: Option<int>): Option<int> {
    if a.Some? then a else b
  }

  lemma {:induction false} RowTail(row: seq<Branching>)
    requires IsRow(KindsOf(row)) && row != []
    ensures KindsOf(row)[1..] == KindsOf(row[1..]) && KindsOf(row)[0] == row[0].kind && IsRow(KindsOf(row[1..]))
    ensures row[0].kind != Call && row[0].kind != Return && (row[0].kind == B ==> row[1..] == [])
  {
    var k := KindsOf(row);
    assert k[0] == row[0].kind;
    assert forall i :: 0 <= i < |k[1..]| ==> k[1..][i] == k[i + 1];
  }

  /** What a row adds to what has been gathered before it: the first `beq`, if there was none, */
  lemma {:induction false} GatheredEqual(b: Block, row: seq<Branching>)
    requires IsRow(KindsOf(row)) && !b.unconditional
    ensures Gathered(b, row).equal == Else(b.equal, TargetAt(row, FirstOf(KindsOf(row), {Beq})))
    decreases |row|
  {
    if row != [] {
      RowTail(row);
      if row[0].kind != B { GatheredEqual(OnBranch(b, row[0]).b, row[1..]); }
    }
  }

  /** the last branch for the greater values, */
  lemma {:induction false} GatheredGreater(b: Block, row: seq<Branching>)
    requires IsRow(KindsOf(row)) && !b.unconditional
    ensures Gathered(b, row).greater == Else(TargetAt(row, LastOf(KindsOf(row), TO_GREATER)), b.greater)
    decreases |row|
  {
    if row != [] {
      RowTail(row);
      if row[0].kind != B { GatheredGreater(OnBranch(b, row[0]).b, row[1..]); }
    }
  }

  /** the last one for the smaller, or the `b`. */
  lemma {:induction false} GatheredLess(b: Block, row: seq<Branching>)
    requires IsRow(KindsOf(row)) && !b.unconditional
    ensures Gathered(b, row).less
            == Else(Else(TargetAt(row, LastOf(KindsOf(row), TO_LESS)), b.less),
                    TargetAt(row, FirstOf(KindsOf(row), {B})))
    decreases |row|
  {
    if row != [] {
      RowTail(row);
      if row[0].kind != B { GatheredLess(OnBranch(b, row[0]).b, row[1..]); }
    }
  }

  lemma {:induction false} GatheredRest(b: Block, row: seq<Branching>)
    requires IsRow(KindsOf(row)) && !b.unconditional
    ensures var r := Gathered(b, row);
            && r.unconditional == (FirstOf(KindsOf(row), {B}) < |row|)
            && r.stop == b.stop + |row| && r.branched == (b.branched || row != [])
            && r.value == b.value && r.compared == b.compared
    decreases |row|
  {
    if row != [] {
      RowTail(row);
      if row[0].kind != B { GatheredRest(OnBranch(b, row[0]).b, row[1..]); }
    }
  }

  /** The node of a scan that had no edges before the row leads where the row is read to lead. */
  lemma {:induction false} GatheredExit(base: int, b: Block, row: seq<Branching>, v: Word, o: Order)
    requires IsRow(KindsOf(row)) && row != [] && !b.unconditional
    requires b.equal.None? && b.greater.None? && b.less.None?
    ensures var f := WithFallthrough(base, Gathered(b, row));
            NodeExit(Node(v, f.equal, f.greater, f.less), o) == Some(ReadExit(row, base + 4 * (b.stop + |row|), o))
  {
    GatheredEqual(b, row);
    GatheredGreater(b, row);
    GatheredLess(b, row);
    GatheredRest(b, row);
  }

  predicate NoBranchAt(words: seq<Word>, base: int, k: nat) {
    k < |words| && Branch(words[k], base + 4 * k).None?
  }

  ghost predicate Straight(words: seq<Word>, base: int, i: nat, j: nat) {
    forall k: nat :: i <= k <= j ==> NoBranchAt(words, base, k)
  }

  /** Up to the row the scan finds no edge. */
  lemma {:induction false} ScanToRow(words: seq<Word>, base: int, b: Block, j: nat) returns (r: Block)
    requires b.stop <= j + 1 <= |words| && !b.branched && !b.unconditional
    requires b.equal.None? && b.greater.None? && b.less.None?
    requires Straight(words, base, b.stop, j) && Scan(words, base, b).value.Some?
    ensures r.stop == j + 1 && !r.branched && !r.unconditional
    ensures r.equal.None? && r.greater.None? && r.less.None?
    ensures Scan(words, base, r) == Scan(words, base, b)
    decreases j + 1 - b.stop
  {
    if b.stop == j + 1 {
      r := b;
    } else {
      assert NoBranchAt(words, base, b.stop);
      OneWord(words, base, b);
      r := ScanToRow(words, base, ScanStep(words, base, b).b, j);
    }
  }

  lemma {:induction false} OneWord(words: seq<Word>, base: int, b: Block)
    requires NoBranchAt(words, base, b.stop) && !b.branched && Scan(words, base, b).value.Some?
    ensures var r := ScanStep(words, base, b).b;
            && Scan(words, base, r) == Scan(words, base, b) && r.stop == b.stop + 1
            && !r.branched && r.unconditional == b.unconditional
            && r.equal == b.equal && r.greater == b.greater && r.less == b.less
  {
  }

  /** The node recorded for an entry leads where the row behind its compare is read to lead. */
  lemma {:induction false} NodeReadsRow(words: seq<Word>, base: int, e: Entry, j: nat, row: seq<Branching>,
                                        next: int, o: Order)
    requires Summary(words, base, e).value.Some? && Index(base, e.at) <= j < |words|
    requires Straight(words, base, Index(base, e.at), j)
    requires row == RowAt(words, base, j + 1) && row != [] && next == base + 4 * (j + 1 + |row|)
    ensures NodeExit(NodeOf(words, base, e), o) == Some(ReadExit(row, next, o))
  {
    var r := SummaryIs(words, base, e, j, row);
    NodeReads(words, base, e, r, row, o);
  }

  lemma {:induction false} NodeReads(words: seq<Word>, base: int, e: Entry, r: Block, row: seq<Branching>, o: Order)
    requires Summary(words, base, e).value.Some? && IsRow(KindsOf(row)) && row != []
    requires Summary(words, base, e) == WithFallthrough(base, Gathered(r, row))
    requires !r.unconditional && r.equal.None? && r.greater.None? && r.less.None?
    ensures NodeExit(NodeOf(words, base, e), o) == Some(ReadExit(row, base + 4 * (r.stop + |row|), o))
  {
    NodeOfIs(words, base, e, WithFallthrough(base, Gathered(r, row)));
    GatheredExit(base, r, row, NodeOf(words, base, e).value, o);
  }

  lemma {:induction false} NodeOfIs(words: seq<Word>, base: int, e: Entry, f: Block)
    requires Summary(words, base, e) == f && f.value.Some?
    ensures NodeOf(words, base, e) == Node(f.value.value, f.equal, f.greater, f.less)
  {
  }

  lemma {:induction false} SummaryIs(words: seq<Word>, base: int, e: Entry, j: nat, row: seq<Branching>)
    returns (r: Block)
    requires Summary(words, base, e).value.Some? && Index(base, e.at) <= j < |words|
    requires Straight(words, base, Index(base, e.at), j)
    requires row == RowAt(words, base, j + 1) && row != []
    ensures Summary(words, base, e) == WithFallthrough(base, Gathered(r, row)) && IsRow(KindsOf(row))
    ensures r.stop == j + 1 && !r.unconditional && r.equal.None? && r.greater.None? && r.less.None?
  {
    var b := Start(Index(base, e.at), e.regs);
    FallthroughKeeps(base, Scan(words, base, b));
    r := ScanToRow(words, base, b, j);
    ScanRow(words, base, r, row);
    RowAtIsRow(words, base, j + 1);
  }

  lemma {:induction false} FallthroughKeeps(base: int, b: Block)
    ensures WithFallthrough(base, b).value == b.value
  {
  }
}
