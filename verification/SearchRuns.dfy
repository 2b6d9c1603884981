/**
 The words of the search run on a value, next to the table read out of them: `extract`
 and `case_set` of `tools/gen_wmltypes.py` together.
 */
module SearchRuns {
  import opened BranchRows
  import opened CaseTable
  import opened PathConstants
  import opened RowReading
  import opened SearchTree
  import opened TableSearch
  import opened Words
  import opened Worklist
  import opened Wrappers

  // ----- conditions -----

  /** A compare into condition field 0. */
  predicate ComparesHere(w: Word) {
    IsCompare(w) && FieldD(w) < 4
  }

  /** Its outcome on u and v: `cmplwi` compares them as they are, the others as signed numbers. */
  function CompareOutcome(w: Word, u: Word, v: Word): Order {
    if Opcode(w) == 10 then OrderOf(u, v) else OrderOf(Signed(u), Signed(v))
  }

  /** A step with the condition field: a compare sets it, a branch follows it, other words may leave anything in it. */
  ghost predicate CrStep(words: seq<Word>, base: int, c: Config, o: Order, c': Config, o': Order) {
    InCode(words, base, c.at) ==>
      var w := words[(c.at - base) / 4];
      match Branch(w, c.at)
      case Some(b) => o' == o && c'.at == if IsTaken(b.kind, o) then b.target else c.at + 4
      case None => ComparesHere(w) ==> o' == CompareOutcome(w, c.gpr[FieldA(w)], Comparand(w, c.gpr))
  }

  ghost predicate CrStepAt(words: seq<Word>, base: int, t: seq<Config>, cr: seq<Order>, k: nat)
    requires |cr| == |t| && k + 1 < |t|
  {
    CrStep(words, base, t[k], cr[k], t[k + 1], cr[k + 1])
  }

  ghost predicate Conditioned(words: seq<Word>, base: int, t: seq<Config>, cr: seq<Order>) {
    |cr| == |t| && forall k: nat :: k + 1 < |t| ==> CrStepAt(words, base, t, cr, k)
  }

  // ----- branches in a row -----

  /** The branches of the code, by address; calls and returns end the search. */
  ghost function JumpAt(words: seq<Word>, base: int, a: int): Option<Branching> {
    if InCode(words, base, a) && Branch(words[(a - base) / 4], a).Some?
       && Branch(words[(a - base) / 4], a).value.kind !in {Call, Return}
    then Branch(words[(a - base) / 4], a) else None
  }

  ghost function Jumping(words: seq<Word>, base: int): int -> Option<Branching> {
    (a: int) => JumpAt(words, base, a)
  }

  /** Where the branches from a on lead, in code that ends at `limit`. */
  ghost function ExitOf(jump: int -> Option<Branching>, limit: int, a: int, o: Order): int
    decreases limit - a
  {
    if a >= limit || jump(a).None? then a
    else if IsTaken(jump(a).value.kind, o) then jump(a).value.target
    else ExitOf(jump, limit, a + 4, o)
  }

  lemma {:induction false} ExitHere(jump: int -> Option<Branching>, limit: int, a: int, o: Order)
    requires a >= limit || jump(a).None?
    ensures ExitOf(jump, limit, a, o) == a
  {
  }

  lemma {:induction false} ExitTaken(jump: int -> Option<Branching>, limit: int, a: int, o: Order, b: Branching)
    requires a < limit && jump(a) == Some(b)
    ensures ExitOf(jump, limit, a, o) == if IsTaken(b.kind, o) then b.target else ExitOf(jump, limit, a + 4, o)
  {
  }

  ghost predicate NoneFrom(jump: int -> Option<Branching>, limit: int) {
    forall a :: a >= limit ==> jump(a).None?
  }

  ghost predicate OneJump(jump: int -> Option<Branching>, a: int, o: Order, a': int, o': Order) {
    && jump(a).Some? && o' == o
    && a' == if IsTaken(jump(a).value.kind, o) then jump(a).value.target else a + 4
  }

  /** Branches executed in a row; only the last may be taken, and if it is not, no branch follows. */
  ghost predicate JumpChain(jump: int -> Option<Branching>, at: seq<int>, cr: seq<Order>) {
    JumpsFrom(jump, at, cr, 0) && EndsLeaving(jump, at, cr)
  }

  ghost predicate Stays(jump: int -> Option<Branching>, a: int, o: Order) {
    jump(a).Some? ==> !IsTaken(jump(a).value.kind, o)
  }

  lemma {:induction false} ChainEnds(jump: int -> Option<Branching>, limit: int, at: seq<int>, cr: seq<Order>)
    requires JumpChain(jump, at, cr) && NoneFrom(jump, limit)
    ensures at[|at| - 1] == ExitOf(jump, limit, at[0], cr[0])
    decreases |at|
  {
    assert OneJump(jump, at[0], cr[0], at[1], cr[1]);
    if |at| > 2 {
      assert Stays(jump, at[0], cr[0]);
      ChainTail(jump, at, cr);
      ChainEnds(jump, limit, at[1..], cr[1..]);
    }
  }

  ghost predicate JumpsFrom(jump: int -> Option<Branching>, at: seq<int>, cr: seq<Order>, k: nat) {
    |at| == |cr| && forall m :: k <= m < |at| - 1 ==> OneJump(jump, at[m], cr[m], at[m + 1], cr[m + 1])
  }

  ghost predicate EndsLeaving(jump: int -> Option<Branching>, at: seq<int>, cr: seq<Order>) {
    && |at| == |cr| >= 2
    && (forall m :: 0 <= m < |at| - 2 ==> Stays(jump, at[m], cr[m]))
    && (Stays(jump, at[|at| - 2], cr[|at| - 2]) ==> jump(at[|at| - 1]).None?)
  }

  /** The end of a run, from where it is all branches. */
  lemma {:induction false} ChainFrom(jump: int -> Option<Branching>, at: seq<int>, cr: seq<Order>, k: nat)
    requires JumpsFrom(jump, at, cr, k) && EndsLeaving(jump, at, cr) && k < |at| - 1
    ensures JumpChain(jump, at[k..], cr[k..])
  {
    var u, cu := at[k..], cr[k..];
    forall m | 0 <= m < |u| - 1
      ensures OneJump(jump, u[m], cu[m], u[m + 1], cu[m + 1])
    {
      assert OneJump(jump, at[k + m], cr[k + m], at[k + m + 1], cr[k + m + 1]);
    }
    forall m | 0 <= m < |u| - 2
      ensures Stays(jump, u[m], cu[m])
    {
      assert Stays(jump, at[k + m], cr[k + m]);
    }
  }

  lemma {:induction false} ChainEndsFrom(jump: int -> Option<Branching>, limit: int, at: seq<int>, cr: seq<Order>,
                                         k: nat)
    requires JumpsFrom(jump, at, cr, k) && EndsLeaving(jump, at, cr) && k < |at| - 1
    requires NoneFrom(jump, limit)
    ensures at[|at| - 1] == ExitOf(jump, limit, at[k], cr[k])
  {
    ChainFrom(jump, at, cr, k);
    ChainEnds(jump, limit, at[k..], cr[k..]);
  }

  lemma {:induction false} ChainTail(jump: int -> Option<Branching>, at: seq<int>, cr: seq<Order>)
    requires JumpChain(jump, at, cr) && |at| > 2
    ensures JumpChain(jump, at[1..], cr[1..]) && at[1..][|at| - 2] == at[|at| - 1]
  {
    var u, cu := at[1..], cr[1..];
    forall k | 0 <= k < |u| - 1
      ensures OneJump(jump, u[k], cu[k], u[k + 1], cu[k + 1])
    {
      assert OneJump(jump, at[k + 1], cr[k + 1], at[k + 2], cr[k + 2]);
    }
    forall k | 0 <= k < |u| - 2
      ensures Stays(jump, u[k], cu[k])
    {
      assert Stays(jump, at[k + 1], cr[k + 1]);
    }
  }

  // ----- blocks the reading is right about -----

  /** The words before the branches leave register 4 alone, and the last of them is the recorded compare. */
  ghost predicate Shaped(words: seq<Word>, base: int, e: Entry) {
    var b := Summary(words, base, e);
    && b.value.Some?
    && b.compared == base + 4 * Index(base, b.compared)
    && ShapedWords(words, base, Index(base, e.at), Index(base, b.compared))
  }

  ghost predicate ShapedWords(words: seq<Word>, base: int, i: nat, j: nat) {
    && i <= j < |words|
    && ComparesHere(words[j])
    && LeavesAlone(words, base, i, j)
    && RowAt(words, base, j + 1) != []
  }

  /** And the row of branches behind it is ordinary. */
  ghost predicate Plain(words: seq<Word>, base: int, e: Entry) {
    Shaped(words, base, e) && Ordinary(KindsOf(RowOf(words, base, e)))
  }

  ghost function RowOf(words: seq<Word>, base: int, e: Entry): seq<Branching> {
    RowAt(words, base, Index(base, Summary(words, base, e).compared) + 1)
  }

  /** The address of the first branch. */
  ghost function RowStart(words: seq<Word>, base: int, e: Entry): int {
    base + 4 * (Index(base, Summary(words, base, e).compared) + 1)
  }

  ghost function CodeExit(words: seq<Word>, base: int, a: int, o: Order): int {
    ExitOf(Jumping(words, base), base + 4 * |words|, a, o)
  }

  predicate LeavesWord(words: seq<Word>, base: int, k: nat) {
    NoBranchAt(words, base, k) && PathConstants.Writes(words[k]) != Some(4)
  }

  ghost predicate LeavesAlone(words: seq<Word>, base: int, i: nat, j: nat) {
    forall k: nat :: i <= k <= j ==> LeavesWord(words, base, k)
  }

  lemma {:induction false} AloneIsStraight(words: seq<Word>, base: int, i: nat, j: nat)
    requires LeavesAlone(words, base, i, j)
    ensures Straight(words, base, i, j)
  {
    forall k: nat | i <= k <= j
      ensures NoBranchAt(words, base, k)
    {
      assert LeavesWord(words, base, k);
    }
  }

  /** The branches executed are those of the row. */
  lemma {:induction false} CodeIsRow(words: seq<Word>, base: int, i: nat, row: seq<Branching>, a: int, next: int,
                                     o: Order)
    requires row == RowAt(words, base, i) && a == base + 4 * i && next == a + 4 * |row|
    ensures CodeExit(words, base, a, o) == RowExit(row, next, o)
    decreases |words| - i
  {
    var limit := base + 4 * |words|;
    JumpIsRow(words, base, i, row, a);
    if row == [] {
      ExitHere(Jumping(words, base), limit, a, o);
    } else {
      ExitTaken(Jumping(words, base), limit, a, o, row[0]);
      if !IsTaken(row[0].kind, o) { CodeIsRow(words, base, i + 1, row[1..], a + 4, next, o); }
    }
  }

  lemma {:induction false} JumpIsRow(words: seq<Word>, base: int, i: nat, row: seq<Branching>, a: int)
    requires row == RowAt(words, base, i) && a == base + 4 * i
    ensures Jumping(words, base)(a) == if row == [] then None else Some(row[0])
    ensures row != [] ==> i < |words| && (row[0].kind != B ==> row[1..] == RowAt(words, base, i + 1))
  {
  }

  lemma {:induction false} OrdinaryReads(row: seq<Branching>, next: int, o: Order)
    requires IsRow(KindsOf(row)) && Ordinary(KindsOf(row))
    ensures RowExit(row, next, o) == ReadExit(row, next, o)
  {
    ReadRightExactly(row, next);
  }

  lemma {:induction false} RowOfIsRow(words: seq<Word>, base: int, e: Entry)
    ensures IsRow(KindsOf(RowOf(words, base, e)))
  {
    RowAtIsRow(words, base, Index(base, Summary(words, base, e).compared) + 1);
  }

  /** A plain block's node leads where its branches lead, after every outcome. */
  lemma {:induction false} PlainReads(words: seq<Word>, base: int, e: Entry, o: Order)
    requires Plain(words, base, e)
    ensures NodeExit(NodeOf(words, base, e), o) == Some(CodeExit(words, base, RowStart(words, base, e), o))
  {
    var row, a := RowOf(words, base, e), RowStart(words, base, e);
    RowOfIsRow(words, base, e);
    OrdinaryLeads(words, base, e, row, a, a + 4 * |row|, o);
  }

  lemma {:induction false} OrdinaryLeads(words: seq<Word>, base: int, e: Entry, row: seq<Branching>, a: int, next: int,
                                         o: Order)
    requires Shaped(words, base, e) && IsRow(KindsOf(row)) && Ordinary(KindsOf(row))
    requires row == RowOf(words, base, e) && a == RowStart(words, base, e) && next == a + 4 * |row|
    ensures NodeExit(NodeOf(words, base, e), o) == Some(CodeExit(words, base, a, o))
  {
    ShapedReads(words, base, e, row, a, next, o);
    OrdinaryReads(row, next, o);
  }

  /** Of any block: where its node leads and where its branches do. */
  lemma {:induction false} ShapedReads(words: seq<Word>, base: int, e: Entry, row: seq<Branching>, a: int, next: int,
                                       o: Order)
    requires Shaped(words, base, e)
    requires row == RowOf(words, base, e) && a == RowStart(words, base, e) && next == a + 4 * |row|
    ensures NodeExit(NodeOf(words, base, e), o) == Some(ReadExit(row, next, o))
    ensures CodeExit(words, base, a, o) == RowExit(row, next, o)
  {
    var i, j := ShapedIs(words, base, e, row, a);
    ReadsAt(words, base, e, i, j, row, a, next, o);
  }

  lemma {:induction false} ShapedIs(words: seq<Word>, base: int, e: Entry, row: seq<Branching>, a: int)
    returns (i: nat, j: nat)
    requires Shaped(words, base, e) && row == RowOf(words, base, e) && a == RowStart(words, base, e)
    ensures i == Index(base, e.at) <= j < |words| && ShapedWords(words, base, i, j)
    ensures row == RowAt(words, base, j + 1) && a == base + 4 * (j + 1)
  {
    i, j := Index(base, e.at), Index(base, Summary(words, base, e).compared);
  }

  lemma {:induction false} ReadsAt(words: seq<Word>, base: int, e: Entry, i: nat, j: nat, row: seq<Branching>, a: int,
                                   next: int, o: Order)
    requires Summary(words, base, e).value.Some? && i == Index(base, e.at) <= j < |words|
    requires ShapedWords(words, base, i, j) && row == RowAt(words, base, j + 1)
    requires a == base + 4 * (j + 1) && next == a + 4 * |row|
    ensures NodeExit(NodeOf(words, base, e), o) == Some(ReadExit(row, next, o))
    ensures CodeExit(words, base, a, o) == RowExit(row, next, o)
  {
    AloneIsStraight(words, base, i, j);
    NodeReadsRow(words, base, e, j, row, next, o);
    CodeIsRow(words, base, j + 1, row, a, next, o);
  }

  /** Where the branches lead to different addresses, the node is right after every outcome exactly in a plain block. */
  lemma {:induction false} PlainExactly(words: seq<Word>, base: int, e: Entry)
    requires Shaped(words, base, e)
    requires var row := RowOf(words, base, e); TargetsDiffer(row, RowStart(words, base, e) + 4 * |row|)
    ensures NodeIsCode(words, base, e) <==> Plain(words, base, e)
  {
    var row, a := RowOf(words, base, e), RowStart(words, base, e);
    RowOfIsRow(words, base, e);
    ShapedExactly(words, base, e, row, a, a + 4 * |row|);
  }

  lemma {:induction false} ShapedExactly(words: seq<Word>, base: int, e: Entry, row: seq<Branching>, a: int, next: int)
    requires Shaped(words, base, e) && IsRow(KindsOf(row)) && TargetsDiffer(row, next)
    requires row == RowOf(words, base, e) && a == RowStart(words, base, e) && next == a + 4 * |row|
    ensures NodeIsCode(words, base, e) <==> Ordinary(KindsOf(row))
  {
    ReadRightExactly(row, next);
    ShapedRight(words, base, e, row, a, next);
  }

  lemma {:induction false} ShapedRight(words: seq<Word>, base: int, e: Entry, row: seq<Branching>, a: int, next: int)
    requires Shaped(words, base, e)
    requires row == RowOf(words, base, e) && a == RowStart(words, base, e) && next == a + 4 * |row|
    ensures NodeIsCode(words, base, e) <==> ReadRight(row, next)
  {
    forall o
      ensures RowExit(row, next, o) == ReadExit(row, next, o) <==>
                NodeExit(NodeOf(words, base, e), o) == Some(CodeExit(words, base, a, o))
    {
      ShapedReads(words, base, e, row, a, next, o);
    }
  }

  ghost predicate NodeIsCode(words: seq<Word>, base: int, e: Entry)
    requires Summary(words, base, e).value.Some?
  {
    forall o :: NodeExit(NodeOf(words, base, e), o) == Some(CodeExit(words, base, RowStart(words, base, e), o))
  }

  /** A run of one block, up to the branch that is taken or to where there are no more branches. */
  ghost predicate LeavesBlock(words: seq<Word>, base: int, t: seq<Config>, cr: seq<Order>) {
    && RunsBlock(words, base, t) && Conditioned(words, base, t, cr)
    && EndsLeaving(Jumping(words, base), Places(t), cr)
  }

  lemma {:induction false} StepIsJump(words: seq<Word>, base: int, c: Config, o: Order, c': Config, o': Order)
    requires Steps(words, base, c, c') && CrStep(words, base, c, o, c', o') && IsBranchAt(words, base, c.at)
    ensures OneJump(Jumping(words, base), c.at, o, c'.at, o')
  {
  }

  /** Once it has come to a branch, the run goes on with branches. */
  lemma {:induction false} BranchesOn(words: seq<Word>, base: int, t: seq<Config>, k: nat, m: nat)
    requires RunsBlock(words, base, t) && k <= m < |t| - 1 && IsBranchAt(words, base, t[k].at)
    ensures IsBranchAt(words, base, t[m].at)
  {
    if k < m { BranchesOn(words, base, t, k, m - 1); }
  }

  function Places(t: seq<Config>): seq<int> {
    seq(|t|, i requires 0 <= i < |t| => t[i].at)
  }

  lemma {:induction false} RunStep(words: seq<Word>, base: int, t: seq<Config>, cr: seq<Order>, k: nat, m: nat)
    requires RunsBlock(words, base, t) && Conditioned(words, base, t, cr)
    requires k <= m < |t| - 1 && IsBranchAt(words, base, t[k].at)
    ensures OneJump(Jumping(words, base), t[m].at, cr[m], t[m + 1].at, cr[m + 1])
  {
    BranchesOn(words, base, t, k, m);
    assert StepAt(words, base, t, m) && CrStepAt(words, base, t, cr, m);
    StepIsJump(words, base, t[m], cr[m], t[m + 1], cr[m + 1]);
  }

  /** Behind its last branch the code has none. */
  lemma {:induction false} CodeEnds(words: seq<Word>, base: int)
    ensures NoneFrom(Jumping(words, base), base + 4 * |words|)
  {
  }

  /** From its first branch on, a run ends where the branches lead. */
  lemma {:induction false} AfterCompare(words: seq<Word>, base: int, t: seq<Config>, cr: seq<Order>, k: nat)
    requires JumpsFrom(Jumping(words, base), Places(t), cr, k) && EndsLeaving(Jumping(words, base), Places(t), cr)
    requires k < |t| - 1
    ensures t[|t| - 1].at == CodeExit(words, base, t[k].at, cr[k])
  {
    CodeEnds(words, base);
    ChainEndsFrom(Jumping(words, base), base + 4 * |words|, Places(t), cr, k);
  }

  lemma {:induction false} RunJumps(words: seq<Word>, base: int, t: seq<Config>, cr: seq<Order>, k: nat)
    requires RunsBlock(words, base, t) && Conditioned(words, base, t, cr) && k < |t| - 1
    requires IsBranchAt(words, base, t[k].at)
    ensures JumpsFrom(Jumping(words, base), Places(t), cr, k)
  {
    forall m | k <= m < |t| - 1
      ensures OneJump(Jumping(words, base), Places(t)[m], cr[m], Places(t)[m + 1], cr[m + 1])
    {
      RunStep(words, base, t, cr, k, m);
    }
  }

  lemma {:induction false} BranchesKeep(words: seq<Word>, base: int, t: seq<Config>, k: nat, m: nat)
    requires RunsBlock(words, base, t) && k <= m < |t| && k < |t| - 1 && IsBranchAt(words, base, t[k].at)
    ensures t[m].gpr == t[k].gpr
  {
    if k < m {
      BranchesKeep(words, base, t, k, m - 1);
      BranchesOn(words, base, t, k, m - 1);
      assert StepAt(words, base, t, m - 1);
      BranchKeeps(words, base, t[m - 1], t[m]);
    }
  }

  lemma {:induction false} BranchKeeps(words: seq<Word>, base: int, c: Config, c': Config)
    requires Steps(words, base, c, c') && IsBranchAt(words, base, c.at)
    ensures c'.gpr == c.gpr
  {
  }

  // ----- one block -----

  /** Up to the branches nothing touches register 4, and the run is straight. */
  lemma {:induction false} BeforeBranches(words: seq<Word>, base: int, t: seq<Config>, i: nat, j: nat, k: nat)
    requires RunsBlock(words, base, t) && t[0].at == base + 4 * i && i <= j < |words|
    requires LeavesAlone(words, base, i, j) && k <= j - i + 1
    ensures k < |t| - 1 && t[k].gpr[4] == t[0].gpr[4]
  {
    if k > 0 {
      BeforeBranches(words, base, t, i, j, k - 1);
      assert t[k - 1].at == base + 4 * (i + (k - 1));
      assert LeavesWord(words, base, i + (k - 1));
      WordStep(words, base, t, i + (k - 1), k - 1);
    }
  }

  lemma {:induction false} WordStep(words: seq<Word>, base: int, t: seq<Config>, n: nat, k: nat)
    requires RunsBlock(words, base, t) && k < |t| - 1 && t[k].at == base + 4 * n && n < |words|
    requires Branch(words[n], base + 4 * n).None? && PathConstants.Writes(words[n]) != Some(4)
    ensures k + 1 < |t| - 1 && t[k + 1].gpr[4] == t[k].gpr[4]
  {
    assert StepAt(words, base, t, k);
    assert k != |t| - 2;
  }

  lemma {:induction false} UpToCompare(words: seq<Word>, base: int, t: seq<Config>, i: nat, j: nat)
    requires RunsBlock(words, base, t) && t[0].at == base + 4 * i && i <= j < |words|
    requires LeavesAlone(words, base, i, j) && j - i < |t| - 1
    ensures RunsTo(words, base, t[..j - i + 1], base + 4 * j)
  {
    var u := t[..j - i + 1];
    forall k | 0 <= k < |u|
      ensures u[k].at == u[0].at + 4 * k && !IsBranchAt(words, base, u[k].at)
    {
      assert t[k].at == t[0].at + 4 * k;
      assert LeavesWord(words, base, i + k);
      NoBranch(words, base, i + k);
    }
    forall k: nat | k < |u| - 1
      ensures StepAt(words, base, u, k)
    {
      assert StepAt(words, base, t, k);
    }
  }

  lemma {:induction false} NoBranch(words: seq<Word>, base: int, n: nat)
    requires n < |words| && Branch(words[n], base + 4 * n).None?
    ensures !IsBranchAt(words, base, base + 4 * n)
  {
  }

  /** The run to the compare, and the two configurations around it. */
  lemma {:induction false} AroundCompare(words: seq<Word>, base: int, t: seq<Config>, i: nat, j: nat)
    returns (k: nat, r: seq<Config>)
    requires RunsBlock(words, base, t) && t[0].at == base + 4 * i && i <= j < |words| && LeavesAlone(words, base, i, j)
    ensures k + 1 < |t| - 1 && t[k].at == base + 4 * j && t[k].gpr[4] == t[0].gpr[4] == t[k + 1].gpr[4]
    ensures RunsTo(words, base, r, base + 4 * j) && r[0] == t[0] && r[|r| - 1] == t[k]
  {
    k := j - i;
    BeforeBranches(words, base, t, i, j, k + 1);
    BeforeBranches(words, base, t, i, j, k);
    UpToCompare(words, base, t, i, j);
    r := t[..k + 1];
    assert t[k].at == t[0].at + 4 * k;
  }

  /** The compare of the block is one with the node's number. */
  lemma {:induction false} ComparesNode(words: seq<Word>, base: int, e: Entry, t: seq<Config>, i: nat, j: nat)
    requires RunsTo(words, base, t, base + 4 * j) && t[0].at == e.at && Matches(e.regs, t[0].gpr)
    requires Summary(words, base, e).value.Some? && Summary(words, base, e).compared == base + 4 * j
    ensures Compares(words, base, base + 4 * j, t[|t| - 1].gpr, NodeOf(words, base, e).value)
  {
    EntryCompares(words, base, e, t);
  }

  lemma {:induction false} CompareSets(words: seq<Word>, base: int, c: Config, o: Order, c': Config, o': Order, j: nat,
                                       v: Word)
    requires Steps(words, base, c, c') && CrStep(words, base, c, o, c', o') && j < |words| && c.at == base + 4 * j
    requires ComparesHere(words[j]) && Branch(words[j], base + 4 * j).None?
    requires Compares(words, base, base + 4 * j, c.gpr, v)
    ensures o' == CompareOutcome(words[j], c.gpr[4], v) && c'.at == base + 4 * (j + 1)
  {
  }

  lemma {:induction false} DecidedIn(words: seq<Word>, base: int, t: seq<Config>, cr: seq<Order>, k: nat, j: nat,
                                     v: Word)
    requires LeavesBlock(words, base, t, cr) && k + 1 < |t| && t[k].at == base + 4 * j
    requires j < |words| && ComparesHere(words[j]) && NoBranchAt(words, base, j)
    requires Compares(words, base, base + 4 * j, t[k].gpr, v)
    ensures t[k + 1].at == base + 4 * (j + 1) && cr[k + 1] == CompareOutcome(words[j], t[k].gpr[4], v)
  {
    Decided(words, base, t, cr, k, j, v);
  }

  /** The step after which the outcome is that of a compare with v. */
  lemma {:induction false} Decided(words: seq<Word>, base: int, t: seq<Config>, cr: seq<Order>, k: nat, j: nat, v: Word)
    requires RunsBlock(words, base, t) && Conditioned(words, base, t, cr) && k + 1 < |t| && t[k].at == base + 4 * j
    requires j < |words| && ComparesHere(words[j]) && Branch(words[j], base + 4 * j).None?
    requires Compares(words, base, base + 4 * j, t[k].gpr, v)
    ensures t[k + 1].at == base + 4 * (j + 1) && cr[k + 1] == CompareOutcome(words[j], t[k].gpr[4], v)
  {
    assert StepAt(words, base, t, k) && CrStepAt(words, base, t, cr, k);
    CompareSets(words, base, t[k], cr[k], t[k + 1], cr[k + 1], j, v);
  }

  lemma {:induction false} BranchBehind(words: seq<Word>, base: int, j: nat)
    requires RowAt(words, base, j) != []
    ensures IsBranchAt(words, base, base + 4 * j)
  {
    JumpIsRow(words, base, j, RowAt(words, base, j), base + 4 * j);
  }

  /** From a branch on, the run ends where the branches lead. */
  lemma {:induction false} ExitAt(words: seq<Word>, base: int, t: seq<Config>, cr: seq<Order>, k: nat, a: int, o: Order)
    requires LeavesBlock(words, base, t, cr) && k < |t| - 1 && IsBranchAt(words, base, a)
    requires t[k].at == a && cr[k] == o
    ensures t[|t| - 1].at == CodeExit(words, base, a, o)
  {
    RunJumps(words, base, t, cr, k);
    AfterCompare(words, base, t, cr, k);
  }

  /** After the compare it ends where they lead on its outcome o. */
  lemma {:induction false} CompareExit(words: seq<Word>, base: int, t: seq<Config>, cr: seq<Order>, k: nat, j: nat,
                                       a: int, v: Word, o: Order)
    requires LeavesBlock(words, base, t, cr) && k + 1 < |t| - 1 && t[k].at == base + 4 * j
    requires j < |words| && ComparesHere(words[j]) && NoBranchAt(words, base, j)
    requires a == base + 4 * (j + 1) && IsBranchAt(words, base, a) && Compares(words, base, base + 4 * j, t[k].gpr, v)
    requires o == CompareOutcome(words[j], t[k].gpr[4], v)
    ensures t[|t| - 1].at == CodeExit(words, base, a, o) && t[|t| - 1].gpr == t[k + 1].gpr
  {
    DecidedIn(words, base, t, cr, k, j, v);
    ExitAt(words, base, t, cr, k + 1, a, o);
    BranchesKeep(words, base, t, k + 1, |t| - 1);
  }

  /** The compare of an entry's block. */
  ghost function CompareWord(words: seq<Word>, base: int, e: Entry): Word {
    var j := Index(base, Summary(words, base, e).compared);
    if j < |words| then words[j] else 0
  }

  /** The outcome of that compare with u in register 4. */
  ghost function OutcomeOf(words: seq<Word>, base: int, e: Entry, u: Word): Order
    requires Summary(words, base, e).value.Some?
  {
    CompareOutcome(CompareWord(words, base, e), u, NodeOf(words, base, e).value)
  }

  /** A shaped block runs to its compare, at word j, with the node's number v on the other side. */
  lemma {:induction false} BlockCompares(words: seq<Word>, base: int, e: Entry, t: seq<Config>)
    returns (k: nat, i: nat, j: nat, v: Word)
    requires RunsBlock(words, base, t) && Shaped(words, base, e) && t[0].at == e.at && Matches(e.regs, t[0].gpr)
    ensures ShapedWords(words, base, i, j) && RowStart(words, base, e) == base + 4 * (j + 1)
    ensures CompareWord(words, base, e) == words[j] && NodeOf(words, base, e).value == v
    ensures OutcomeOf(words, base, e, t[0].gpr[4]) == CompareOutcome(words[j], t[0].gpr[4], v)
    ensures k + 1 < |t| - 1 && t[k].at == base + 4 * j && t[k].gpr[4] == t[0].gpr[4] == t[k + 1].gpr[4]
    ensures Compares(words, base, base + 4 * j, t[k].gpr, v)
  {
    i, j := Index(base, e.at), Index(base, Summary(words, base, e).compared);
    v := NodeOf(words, base, e).value;
    BlockStart(words, base, e, t);
    var r;
    k, r := AroundCompare(words, base, t, i, j);
    ComparesNode(words, base, e, r, i, j);
  }

  lemma {:induction false} ShapedCompare(words: seq<Word>, base: int, i: nat, j: nat)
    requires ShapedWords(words, base, i, j)
    ensures ComparesHere(words[j]) && NoBranchAt(words, base, j) && IsBranchAt(words, base, base + 4 * (j + 1))
  {
    assert LeavesWord(words, base, j);
    BranchBehind(words, base, j + 1);
  }

  lemma {:induction false} ComparedEnds(words: seq<Word>, base: int, t: seq<Config>, cr: seq<Order>, k: nat, i: nat,
                                        j: nat, v: Word, a: int, o: Order)
    requires LeavesBlock(words, base, t, cr) && ShapedWords(words, base, i, j) && k + 1 < |t| - 1
    requires t[k].at == base + 4 * j && Compares(words, base, base + 4 * j, t[k].gpr, v)
    requires t[k].gpr[4] == t[0].gpr[4] == t[k + 1].gpr[4]
    requires a == base + 4 * (j + 1) && o == CompareOutcome(words[j], t[0].gpr[4], v)
    ensures t[|t| - 1].at == CodeExit(words, base, a, o)
    ensures t[|t| - 1].gpr[4] == t[0].gpr[4]
    ensures IsCompare(words[j]) && (Opcode(words[j]) == 10 ==> v < 0x1_0000)
  {
    ShapedCompare(words, base, i, j);
    CompareExit(words, base, t, cr, k, j, a, v, o);
    NumberIs(words, base, j, t[k].gpr, v);
  }

  /** Running a block ends where its branches lead on the outcome, and keeps the value searched for. */
  lemma {:induction false} BlockRuns(words: seq<Word>, base: int, e: Entry, t: seq<Config>, cr: seq<Order>)
    requires LeavesBlock(words, base, t, cr) && Shaped(words, base, e)
    requires t[0].at == e.at && Matches(e.regs, t[0].gpr)
    ensures t[|t| - 1].at
            == CodeExit(words, base, RowStart(words, base, e), OutcomeOf(words, base, e, t[0].gpr[4]))
    ensures t[|t| - 1].gpr[4] == t[0].gpr[4]
    ensures IsCompare(CompareWord(words, base, e))
    ensures Opcode(CompareWord(words, base, e)) == 10 ==> NodeOf(words, base, e).value < 0x1_0000
  {
    var k, i, j, v := BlockCompares(words, base, e, t);
    var a, o := RowStart(words, base, e), OutcomeOf(words, base, e, t[0].gpr[4]);
    ComparedEnds(words, base, t, cr, k, i, j, v, a, o);
  }

  lemma {:induction false} NumberIs(words: seq<Word>, base: int, j: nat, g: Gpr, v: Word)
    requires j < |words| && Compares(words, base, base + 4 * j, g, v)
    ensures IsCompare(words[j]) && (Opcode(words[j]) == 10 ==> v < 0x1_0000)
  {
  }

  /**
   The outcome is that of the signed numbers, as the node has it; or the value is not negative; or
   the node makes no difference between smaller and greater.
   */
  ghost predicate SignedFor(words: seq<Word>, base: int, e: Entry, u: Word)
    requires Summary(words, base, e).value.Some?
  {
    var n := NodeOf(words, base, e);
    || Opcode(CompareWord(words, base, e)) != 10 || Signed(u) >= 0
    || NodeExit(n, Less) == NodeExit(n, Greater)
  }

  lemma {:induction false} OutcomeExactly(n: Node, w: Word, u: Word)
    requires Opcode(w) == 10 ==> n.value < 0x1_0000
    ensures NodeExit(n, CompareOutcome(w, u, n.value)) == Goes(n, Signed(u)) <==>
              Opcode(w) != 10 || Signed(u) >= 0 || NodeExit(n, Less) == NodeExit(n, Greater)
  {
    NodeExitIs(n, Signed(u));
  }

  /** Running a plain block ends where its node sends the value exactly when the compare is as good as a signed one. */
  lemma {:induction false} BlockIsNode(words: seq<Word>, base: int, e: Entry, t: seq<Config>, cr: seq<Order>)
    requires LeavesBlock(words, base, t, cr) && Plain(words, base, e)
    requires t[0].at == e.at && Matches(e.regs, t[0].gpr)
    ensures Goes(NodeOf(words, base, e), Signed(t[0].gpr[4])) == Some(t[|t| - 1].at) <==>
              SignedFor(words, base, e, t[0].gpr[4])
    ensures t[|t| - 1].gpr[4] == t[0].gpr[4]
  {
    var u := t[0].gpr[4];
    BlockRuns(words, base, e, t, cr);
    PlainReads(words, base, e, OutcomeOf(words, base, e, u));
    OutcomeExactly(NodeOf(words, base, e), CompareWord(words, base, e), u);
  }

  lemma {:induction false} BlockStart(words: seq<Word>, base: int, e: Entry, t: seq<Config>)
    requires RunsBlock(words, base, t) && t[0].at == e.at
    ensures e.at == base + 4 * Index(base, e.at)
  {
    assert StepAt(words, base, t, 0);
    StartsAt(base, e.at, t, words);
  }

  // ----- the whole search -----

  ghost predicate IsReached(words: seq<Word>, base: int, e: Entry) {
    Reached(Pushes(words, base), Entry(base, NOTHING_KNOWN), e)
  }

  /** Whatever constants an address is reached with, its block is plain and gives this node. */
  ghost predicate Recovered(words: seq<Word>, base: int, nodes: Graph) {
    && base in nodes
    && (forall e :: IsReached(words, base, e) && e.at in nodes ==>
          Plain(words, base, e) && nodes[e.at] == NodeOf(words, base, e))
    && forall a :: a in nodes && nodes[a].equal.Some? ==> nodes[a].equal.value !in nodes
  }

  /** A run from the first word, block by block, to an address that is no node. */
  ghost predicate Searches(words: seq<Word>, base: int, nodes: Graph, runs: seq<seq<Config>>, crs: seq<seq<Order>>) {
    && |runs| == |crs| > 0
    && (forall k :: 0 <= k < |runs| ==> LeavesBlock(words, base, runs[k], crs[k]) && runs[k][0].at in nodes)
    && (forall k :: 0 < k < |runs| ==> EndOf(runs[k - 1]) == runs[k][0])
    && runs[0][0].at == base
    && EndOf(runs[|runs| - 1]).at !in nodes
  }

  function EndOf(t: seq<Config>): Config
    requires t != []
  {
    t[|t| - 1]
  }

  /** No compare on the way of the search for u takes it for another number than the node does. */
  ghost predicate SignedWay(words: seq<Word>, base: int, nodes: Graph, rank: Address -> nat, u: Word)
    requires Tree(nodes, rank)
  {
    forall e :: IsReached(words, base, e) && Summary(words, base, e).value.Some? && e.at in nodes ==>
      Passes(nodes, rank, base, Signed(u), e.at) ==> SignedFor(words, base, e, u)
  }

  /** A value that is not negative is the same number either way. */
  lemma {:induction false} NotNegativeIsSigned(words: seq<Word>, base: int, nodes: Graph, rank: Address -> nat, u: Word)
    requires Tree(nodes, rank) && (Signed(u) >= 0 || forall w :: w in words ==> Opcode(w) != 10)
    ensures SignedWay(words, base, nodes, rank, u)
  {
  }

  /** The edge a run takes on to another node is one that was pushed. */
  lemma {:induction false} NextPushed(words: seq<Word>, base: int, nodes: Graph, d: Entry, x: int, a: int)
    requires Recovered(words, base, nodes) && IsReached(words, base, d) && d.at in nodes && a in nodes
    requires Inside(words, base, a)
    requires Goes(NodeOf(words, base, d), x) == Some(a)
    ensures Entry(a, Summary(words, base, d).regs) in Pushes(words, base)(d)
  {
    var n := NodeOf(words, base, d);
    assert nodes[d.at] == n && !n.Takes(x);
  }

  /** A run through the block of an entry comes to another entry, with what that knows. */
  lemma {:induction false} NextEntry(words: seq<Word>, base: int, nodes: Graph, d: Entry, t: seq<Config>,
                                     cr: seq<Order>) returns (e: Entry)
    requires Recovered(words, base, nodes) && IsReached(words, base, d) && d.at in nodes
    requires t != [] && SignedFor(words, base, d, t[0].gpr[4])
    requires LeavesBlock(words, base, t, cr) && t[0].at == d.at && Matches(d.regs, t[0].gpr)
    requires EndOf(t).at in nodes && Inside(words, base, EndOf(t).at)
    ensures IsReached(words, base, e) && e.at == EndOf(t).at && Matches(e.regs, EndOf(t).gpr)
    ensures EndOf(t).gpr[4] == t[0].gpr[4]
  {
    BlockIsNode(words, base, d, t, cr);
    e := Entry(EndOf(t).at, Summary(words, base, d).regs);
    NextPushed(words, base, nodes, d, Signed(t[0].gpr[4]), e.at);
    ReachedStep(Pushes(words, base), Entry(base, NOTHING_KNOWN), d, e);
    BlockArrives(words, base, d, e, t);
  }

  /** What the worklist knows when the run comes to its k-th block, which lies on the way of the search. */
  lemma {:induction false} EntryAt(words: seq<Word>, base: int, nodes: Graph, rank: Address -> nat,
                                   runs: seq<seq<Config>>, crs: seq<seq<Order>>, k: nat) returns (e: Entry)
    requires Recovered(words, base, nodes) && Searches(words, base, nodes, runs, crs) && k < |runs|
    requires Tree(nodes, rank) && SignedWay(words, base, nodes, rank, runs[0][0].gpr[4])
    ensures IsReached(words, base, e) && e.at == runs[k][0].at && Matches(e.regs, runs[k][0].gpr)
    ensures runs[k][0].gpr[4] == runs[0][0].gpr[4]
    ensures Passes(nodes, rank, base, Signed(runs[0][0].gpr[4]), e.at) && SignedFor(words, base, e, runs[0][0].gpr[4])
  {
    if k == 0 {
      e := Entry(base, NOTHING_KNOWN);
      ReachedFirst(Pushes(words, base), e);
    } else {
      var d := EntryAt(words, base, nodes, rank, runs, crs, k - 1);
      BlockInside(words, base, runs[k], crs[k]);
      e := NextEntry(words, base, nodes, d, runs[k - 1], crs[k - 1]);
      NextPasses(words, base, nodes, rank, d, runs[k - 1], crs[k - 1]);
    }
  }

  lemma {:induction false} NextPasses(words: seq<Word>, base: int, nodes: Graph, rank: Address -> nat, d: Entry,
                                      t: seq<Config>, cr: seq<Order>)
    requires Recovered(words, base, nodes) && Tree(nodes, rank) && IsReached(words, base, d) && d.at in nodes
    requires t != [] && SignedFor(words, base, d, t[0].gpr[4])
    requires LeavesBlock(words, base, t, cr) && t[0].at == d.at && Matches(d.regs, t[0].gpr)
    requires EndOf(t).at in nodes && Passes(nodes, rank, base, Signed(t[0].gpr[4]), d.at)
    ensures Passes(nodes, rank, base, Signed(t[0].gpr[4]), EndOf(t).at)
  {
    BlockIsNode(words, base, d, t, cr);
    assert nodes[d.at] == NodeOf(words, base, d);
    PassesOn(nodes, rank, base, Signed(t[0].gpr[4]), d.at);
  }

  lemma {:induction false} BlockInside(words: seq<Word>, base: int, t: seq<Config>, cr: seq<Order>)
    requires LeavesBlock(words, base, t, cr)
    ensures Inside(words, base, t[0].at)
  {
    assert StepAt(words, base, t, 0);
  }

  lemma {:induction false} RunFollows(words: seq<Word>, base: int, nodes: Graph, rank: Address -> nat,
                                      epilogue: Address,
                                      runs: seq<seq<Config>>, crs: seq<seq<Order>>, k: nat)
    requires Recovered(words, base, nodes) && Searches(words, base, nodes, runs, crs) && Tree(nodes, rank) && k < |runs|
    requires SignedWay(words, base, nodes, rank, runs[0][0].gpr[4])
    ensures Follow(nodes, rank, epilogue, runs[k][0].at, Signed(runs[0][0].gpr[4]))
            == Land(epilogue, EndOf(runs[|runs| - 1]).at)
    decreases |runs| - k
  {
    BlockFollows(words, base, nodes, rank, epilogue, runs, crs, k);
    if k < |runs| - 1 {
      RunFollows(words, base, nodes, rank, epilogue, runs, crs, k + 1);
      assert runs[k + 1][0] == EndOf(runs[k]);
    }
  }

  lemma {:induction false} BlockFollows(words: seq<Word>, base: int, nodes: Graph, rank: Address -> nat,
                                        epilogue: Address,
                                        runs: seq<seq<Config>>, crs: seq<seq<Order>>, k: nat)
    requires Recovered(words, base, nodes) && Searches(words, base, nodes, runs, crs) && Tree(nodes, rank) && k < |runs|
    requires SignedWay(words, base, nodes, rank, runs[0][0].gpr[4])
    ensures var x := Signed(runs[0][0].gpr[4]);
            Follow(nodes, rank, epilogue, runs[k][0].at, x) == Follow(nodes, rank, epilogue, EndOf(runs[k]).at, x)
  {
    var e := EntryAt(words, base, nodes, rank, runs, crs, k);
    EntryFollows(words, base, nodes, rank, epilogue, e, runs[k], crs[k]);
  }

  lemma {:induction false} EntryFollows(words: seq<Word>, base: int, nodes: Graph, rank: Address -> nat,
                                        epilogue: Address, e: Entry, t: seq<Config>, cr: seq<Order>)
    requires Recovered(words, base, nodes) && Tree(nodes, rank) && IsReached(words, base, e) && e.at in nodes
    requires t != [] && SignedFor(words, base, e, t[0].gpr[4])
    requires LeavesBlock(words, base, t, cr) && t[0].at == e.at && Matches(e.regs, t[0].gpr)
    ensures var x := Signed(t[0].gpr[4]);
            Follow(nodes, rank, epilogue, t[0].at, x) == Follow(nodes, rank, epilogue, EndOf(t).at, x)
  {
    BlockIsNode(words, base, e, t, cr);
    FollowStep(nodes, rank, epilogue, e.at, Signed(t[0].gpr[4]), EndOf(t).at);
  }

  lemma {:induction false} FollowStep(nodes: Graph, rank: Address -> nat, epilogue: Address, a: Address, x: int,
                                      b: Address)
    requires Tree(nodes, rank) && a in nodes && Goes(nodes[a], x) == Some(b)
    requires nodes[a].equal.Some? ==> nodes[a].equal.value !in nodes
    ensures Follow(nodes, rank, epilogue, a, x) == Follow(nodes, rank, epilogue, b, x)
  {
    assert Falls(nodes, rank, a, nodes[a].greater) && Falls(nodes, rank, a, nodes[a].less);
  }

  /**
   The table is what the words do: whatever signed value register 4 holds, a run of the search that
   comes to an end ends where looking the value up in the recovered table says.
   */
  lemma {:induction false} TableIsRun(words: seq<Word>, base: int, nodes: Graph, rank: Address -> nat,
                                      epilogue: Address,
                                      runs: seq<seq<Config>>, crs: seq<seq<Order>>)
    requires Recovered(words, base, nodes) && Searches(words, base, nodes, runs, crs) && Tree(nodes, rank)
    requires SignedWay(words, base, nodes, rank, runs[0][0].gpr[4])
    requires Table(nodes, epilogue, base).Some?
    requires TestsHonest(nodes, rank, epilogue, base, Whole(base))
    requires MissingCovered(nodes, rank, epilogue, base, Whole(base))
    ensures Lookup(Table(nodes, epilogue, base).value, epilogue, Signed(runs[0][0].gpr[4]))
            == Land(epilogue, EndOf(runs[|runs| - 1]).at)
  {
    RunFollows(words, base, nodes, rank, epilogue, runs, crs, 0);
    TableIsSearch(nodes, rank, epilogue, base);
    var x := Signed(runs[0][0].gpr[4]);
    assert LOWEST <= x <= HIGHEST;
  }

  /** What `extract` returned, with one set of constants to an address, plain blocks and bodies that are no nodes. */
  ghost predicate ExtractedPlain(words: seq<Word>, base: int, seen: set<Entry>, nodes: Graph) {
    && (forall e :: e in seen <==> IsReached(words, base, e))
    && NodesOf(words, base, seen, nodes) && base in nodes
    && (forall e, f :: e in seen && f in seen && e.at == f.at ==> e == f)
    && (forall e :: e in seen && Summary(words, base, e).value.Some? ==> Plain(words, base, e))
    && forall a :: a in nodes && nodes[a].equal.Some? ==> nodes[a].equal.value !in nodes
  }

  lemma {:induction false} ExtractRecovers(words: seq<Word>, base: int, seen: set<Entry>, nodes: Graph)
    requires ExtractedPlain(words, base, seen, nodes)
    ensures Recovered(words, base, nodes)
  {
    forall e | IsReached(words, base, e) && e.at in nodes
      ensures Plain(words, base, e) && nodes[e.at] == NodeOf(words, base, e)
    {
      assert e in seen;
    }
  }

  /**
   What `extract` and `case_set` return, run: with every test where its value arrives and missing sides
   that go to the default, the table looked up is where the words go.
   */
  lemma {:induction false} ExtractedTableIsRun(words: seq<Word>, base: int, seen: set<Entry>, nodes: Graph,
                                               rank: Address -> nat, epilogue: Address,
                                               runs: seq<seq<Config>>, crs: seq<seq<Order>>)
    requires ExtractedPlain(words, base, seen, nodes) && Searches(words, base, nodes, runs, crs) && Tree(nodes, rank)
    requires SignedWay(words, base, nodes, rank, runs[0][0].gpr[4])
    requires WellPlaced(nodes, rank, Whole(base)) && MissingDefault(nodes, rank, epilogue, Whole(base))
    requires Table(nodes, epilogue, base).Some?
    ensures Lookup(Table(nodes, epilogue, base).value, epilogue, Signed(runs[0][0].gpr[4]))
            == Land(epilogue, EndOf(runs[|runs| - 1]).at)
  {
    ExtractRecovers(words, base, seen, nodes);
    WellPlacedConditions(nodes, rank, epilogue, base);
    TableIsRun(words, base, nodes, rank, epilogue, runs, crs);
  }

  /** `cmpwi r4, 5`, `blt` 32 bytes on, `b` 64 bytes on. */
  const LESS_THEN_ALWAYS: seq<Word> := [0x2C04_0005, 0x4180_0020, 0x4800_0040]

  /** Behind a `blt` the target of a `b` is lost: the node sends everything where only the smaller values go. */
  lemma {:induction false} AlwaysIsLost(o: Order)
    ensures var e := Entry(0, NOTHING_KNOWN);
            && Summary(LESS_THEN_ALWAYS, 0, e).value.Some?
            && NodeOf(LESS_THEN_ALWAYS, 0, e) == Node(5, None, None, Some(36))
            && NodeExit(NodeOf(LESS_THEN_ALWAYS, 0, e), o) == Some(36)
            && CodeExit(LESS_THEN_ALWAYS, 0, 4, o) == if o == Less then 36 else 72
  {
    var ws := LESS_THEN_ALWAYS;
    assert Opcode(ws[0]) == 11 && FieldA(ws[0]) == 4 && Imm(ws[0]) == 5 && Branch(ws[0], 0).None?;
    assert Branch(ws[1], 4) == Some(Branching(Blt, 36));
    assert Branch(ws[2], 8) == Some(Branching(B, 72));
    var b0 := Start(0, NOTHING_KNOWN);
    var b1 := b0.(value := Some(5), stop := 1);
    assert ScanStep(ws, 0, b0) == More(b1);
    var b2 := b1.(branched := true, less := Some(36), stop := 2);
    assert ScanStep(ws, 0, b1) == More(b2);
    var b3 := b2.(unconditional := true, stop := 3);
    assert ScanStep(ws, 0, b2) == Done(b3);
    assert Scan(ws, 0, b2) == b3;
    assert Scan(ws, 0, b0) == b3;
    assert Index(0, 0) == 0 && WithFallthrough(0, b3) == b3;
    assert JumpAt(ws, 0, 4) == Some(Branching(Blt, 36)) && JumpAt(ws, 0, 8) == Some(Branching(B, 72));
    ExitTaken(Jumping(ws, 0), 12, 4, o, Branching(Blt, 36));
    ExitTaken(Jumping(ws, 0), 12, 8, o, Branching(B, 72));
  }

  /** `cmpwi r4, 6`, `bge` to the return, `cmpwi r4, 5`, `bgt` 40 bytes on, and the return. */
  const GREATER_ALONE: seq<Word> := [0x2C04_0006, 0x4080_000C, 0x2C04_0005, 0x4181_0028, 0x4E80_0020]

  const MISREAD: Graph := map[0 := Node(6, None, Some(16), Some(8)), 8 := Node(5, None, Some(52), Some(16))]

  /** The node recorded for an address reached with no constants. */
  ghost predicate Records(words: seq<Word>, a: int, n: Node) {
    var e := Entry(a, NOTHING_KNOWN);
    Summary(words, 0, e).value.Some? && NodeOf(words, 0, e) == n
  }

  /**
   A lone `bgt` is read as a `bge`.  No edge is missing and no test is astray, yet the table has a body
   for 5, which the words send to the epilogue at 16.
   */
  lemma {:induction false} GreaterIsMisread()
    ensures Records(GREATER_ALONE, 0, MISREAD[0]) && Records(GREATER_ALONE, 8, MISREAD[8])
    ensures Table(MISREAD, 16, 0) == Some(map[5 := 52])
    ensures CodeExit(GREATER_ALONE, 0, 4, OrderOf(5, 6)) == 8
    ensures CodeExit(GREATER_ALONE, 0, 12, OrderOf(5, 5)) == 16
  {
    MisreadWords();
    MisreadFirst(GREATER_ALONE);
    MisreadSecond(GREATER_ALONE);
    MisreadTable();
    MisreadExits(GREATER_ALONE);
  }

  /** What the five words are. */
  ghost predicate Misreadable(ws: seq<Word>) {
    && |ws| == 5
    && Opcode(ws[0]) == 11 && FieldA(ws[0]) == 4 && Imm(ws[0]) == 6 && Branch(ws[0], 0).None?
    && Branch(ws[1], 4) == Some(Branching(Bge, 16))
    && Opcode(ws[2]) == 11 && FieldA(ws[2]) == 4 && Imm(ws[2]) == 5 && Branch(ws[2], 8).None?
    && Branch(ws[3], 12) == Some(Branching(Bgt, 52))
    && Branch(ws[4], 16).Some? && Branch(ws[4], 16).value.kind == Return
  }

  lemma {:induction false} MisreadWords()
    ensures Misreadable(GREATER_ALONE)
  {
    assert Branch(GREATER_ALONE[1], 4) == Some(Branching(Bge, 16));
    assert Branch(GREATER_ALONE[3], 12) == Some(Branching(Bgt, 52));
  }

  lemma {:induction false} MisreadFirst(ws: seq<Word>)
    requires Misreadable(ws)
    ensures Records(ws, 0, Node(6, None, Some(16), Some(8)))
  {
    var b0 := Start(0, NOTHING_KNOWN);
    var b1 := b0.(value := Some(6), stop := 1);
    var b2 := b1.(branched := true, greater := Some(16), stop := 2);
    assert ScanStep(ws, 0, b0) == More(b1) && ScanStep(ws, 0, b1) == More(b2) && ScanStep(ws, 0, b2) == Done(b2);
    assert Scan(ws, 0, b2) == b2;
    assert Scan(ws, 0, b1) == b2;
    assert Scan(ws, 0, b0) == b2;
    assert Index(0, 0) == 0 && WithFallthrough(0, b2) == b2.(less := Some(8));
  }

  lemma {:induction false} MisreadSecond(ws: seq<Word>)
    requires Misreadable(ws)
    ensures Records(ws, 8, Node(5, None, Some(52), Some(16)))
  {
    var b0 := Start(2, NOTHING_KNOWN);
    var b1 := b0.(value := Some(5), compared := 8, stop := 3);
    var b2 := b1.(branched := true, greater := Some(52), stop := 4);
    assert ScanStep(ws, 0, b0) == More(b1) && ScanStep(ws, 0, b1) == More(b2) && ScanStep(ws, 0, b2) == Done(b2);
    assert Scan(ws, 0, b2) == b2;
    assert Scan(ws, 0, b1) == b2;
    assert Scan(ws, 0, b0) == b2;
    assert Index(0, 8) == 2 && WithFallthrough(0, b2) == b2.(less := Some(16));
  }

  lemma {:induction false} MisreadTable()
    ensures Table(MISREAD, 16, 0) == Some(map[5 := 52])
  {
    var v0, v8 := Whole(0), Visit(8, LOWEST, 5);
    var st, s0 := State(map[], [], {}), State(map[], [], {v0});
    assert Entered(MISREAD, st, v0) == s0;
    assert v0.Greater(MISREAD[0]) == Visit(16, 6, HIGHEST) && v0.Less(MISREAD[0]) == v8;
    assert Taken(MISREAD, 16, s0, Visit(16, 6, HIGHEST)) == s0;
    MisreadLess(s0, v8);
    assert Taken(MISREAD, 16, s0, v8) == State(map[5 := 52], [], {v0, v8});
  }

  lemma {:induction false} MisreadLess(s0: State, v8: Visit)
    requires v8 == Visit(8, LOWEST, 5) && s0 == State(map[], [], {Whole(0)})
    ensures {LOWEST, 5} <= Bounds(MISREAD) && s0.seen <= CaseTable.Universe(MISREAD)
    ensures Visited(MISREAD, 16, s0, v8) == State(map[5 := 52], [], s0.seen + {v8})
  {
    assert Signed(MISREAD[8].value) == 5;
    var s1, s2 := State(map[], [], s0.seen + {v8}), State(map[5 := 52], [], s0.seen + {v8});
    assert v8.Greater(MISREAD[8]) == Visit(52, 5, 5) && v8.Less(MISREAD[8]) == Visit(16, LOWEST, 4);
    assert Entered(MISREAD, s0, v8) == s1;
    assert Taken(MISREAD, 16, s1, Visit(52, 5, 5)) == s2;
    assert Taken(MISREAD, 16, s2, Visit(16, LOWEST, 4)) == s2;
  }

  lemma {:induction false} MisreadExits(ws: seq<Word>)
    requires Misreadable(ws)
    ensures CodeExit(ws, 0, 4, Less) == 8 && CodeExit(ws, 0, 12, Equal) == 16
  {
    assert JumpAt(ws, 0, 4) == Some(Branching(Bge, 16)) && JumpAt(ws, 0, 8) == None;
    assert JumpAt(ws, 0, 12) == Some(Branching(Bgt, 52)) && JumpAt(ws, 0, 16) == None;
    FallsThrough(ws, 4, Less, Branching(Bge, 16));
    FallsThrough(ws, 12, Equal, Branching(Bgt, 52));
  }

  lemma {:induction false} FallsThrough(words: seq<Word>, a: int, o: Order, b: Branching)
    requires a < 4 * |words| && JumpAt(words, 0, a) == Some(b) && !IsTaken(b.kind, o) && JumpAt(words, 0, a + 4).None?
    ensures CodeExit(words, 0, a, o) == a + 4
  {
    ExitTaken(Jumping(words, 0), 4 * |words|, a, o, b);
    ExitHere(Jumping(words, 0), 4 * |words|, a + 4, o);
  }
}
