/**
 `extract` of `tools/gen_wmltypes.py`: a worklist over the blocks of a search
 tree, each entered with the constants the path to it has put in registers.
 Words are 32-bit patterns as numbers; registers are numbered 0 to 31.
 */
module PathConstants {
  import opened SearchTree
  import opened Words
  import opened Worklist
  import opened Wrappers

  /** `writes(w)`: the register an instruction is taken to write. */
  function Writes(w: Word): Option<Reg> {
    var op := Opcode(w);
    if op in {14, 15, 12, 13, 8, 7} then Some(FieldD(w))
    else if op in {24, 25, 26, 27, 28, 29} then Some(FieldA(w))
    else if op in {32, 33, 34, 35, 40, 41, 42, 43, 46} then Some(FieldD(w))
    else if op == 31 && Extended(w) in {444, 28, 60, 316, 124, 476, 284, 412, 24, 536, 792, 824} then Some(FieldA(w))
    else if op == 31 && Extended(w) in {266, 40, 10, 138, 8, 136, 235, 75, 11, 491, 459, 104,
                                        26, 954, 922, 202, 234, 200, 232, 339, 371, 19,
                                        23, 55, 87, 119, 279, 311, 343, 375} then Some(FieldD(w))
    else if op in {20, 21, 23} then Some(FieldA(w))
    else None
  }

  datatype Kind = Beq | Bne | Bge | Blt | Bgt | Ble | B | Call | Return

  datatype Branching = Branching(kind: Kind, target: int)

  /** `branch(w, a)`; the target of a call or return is not used. */
  function Branch(w: Word, a: int): Option<Branching> {
    var op := Opcode(w);
    if op == 16 then
      var target := a + ShortDistance(w);
      match (FieldD(w), FieldA(w))
      case (12, 2) => Some(Branching(Beq, target))
      case (4, 2) => Some(Branching(Bne, target))
      case (4, 0) => Some(Branching(Bge, target))
      case (12, 0) => Some(Branching(Blt, target))
      case (12, 1) => Some(Branching(Bgt, target))
      case (4, 1) => Some(Branching(Ble, target))
      case _ => None
    else if op == 18 then
      if w % 2 == 1 then Some(Branching(Call, a)) else Some(Branching(B, a + LongDistance(w)))
    else if w == 0x4E800020 then Some(Branching(Return, a))
    else None
  }

  // ----- the machine -----

  /** `lis`, `addis`, `li` and `addi` compute; register 0 as a source is the number 0. */
  function Computed(w: Word, g: Gpr): Option<int> {
    var source := if FieldA(w) == 0 then 0 else g[FieldA(w)];
    if Opcode(w) == 15 then Some(Wrap(source + Imm(w) * 0x1_0000))
    else if Opcode(w) == 14 then Some(Wrap(source + SignedImm(w)))
    else None
  }

  predicate IsCompare(w: Word) {
    Opcode(w) in {10, 11} || (Opcode(w) == 31 && Extended(w) == 0)
  }

  /**
   One instruction that is not a branch: any effect at all, as long as no general
   register changes but the one `Writes` reports.  A compare changes none.
   */
  ghost predicate Executes(w: Word, g: Gpr, g': Gpr) {
    && (forall r :: 0 <= r < 32 && Writes(w) != Some(r) ==> g'[r] == g[r])
    && (Computed(w, g).Some? ==> g'[FieldD(w)] == Computed(w, g).value)
  }

  datatype Config = Config(at: int, gpr: Gpr)

  ghost predicate InCode(words: seq<Word>, base: int, a: int) {
    base <= a < base + 4 * |words| && (a - base) % 4 == 0
  }

  /** One step of the machine; it stops at a call or a return. */
  ghost predicate Steps(words: seq<Word>, base: int, c: Config, c': Config) {
    && InCode(words, base, c.at)
    && var w := words[(c.at - base) / 4];
       match Branch(w, c.at)
       case None => c'.at == c.at + 4 && Executes(w, c.gpr, c'.gpr)
       case Some(b) =>
         && c'.gpr == c.gpr
         && (match b.kind
             case Call => false
             case Return => false
             case B => c'.at == b.target
             case _ => c'.at == b.target || c'.at == c.at + 4)
  }

  ghost predicate StepAt(words: seq<Word>, base: int, t: seq<Config>, k: nat)
    requires k + 1 < |t|
  {
    Steps(words, base, t[k], t[k + 1])
  }

  ghost predicate Trace(words: seq<Word>, base: int, t: seq<Config>) {
    && |t| > 0
    && forall k: nat :: k + 1 < |t| ==> StepAt(words, base, t, k)
  }

  // ----- one block -----

  type Known = map<Reg, Word>

  ghost predicate Matches(regs: Known, g: Gpr) {
    forall r :: r in regs ==> g[r] == regs[r]
  }

  /** What is known after a word that is not a branch. */
  function After(w: Word, regs: Known): Known {
    var op, d, a := Opcode(w), FieldD(w), FieldA(w);
    if op == 15 then
      if a == 0 then regs[d := Imm(w) * 0x1_0000]
      else if a in regs then regs[d := Wrap(regs[a] + Imm(w) * 0x1_0000)]
      else regs - {d}
    else if op == 14 then
      if a == 0 then regs[d := Wrap(SignedImm(w))]
      else if a in regs then regs[d := Wrap(regs[a] + SignedImm(w))]
      else regs - {d}
    else if IsCompare(w) then regs
    else match Writes(w)
         case None => regs
         case Some(r) => regs - {r}
  }

  /** What the block scan has found; `compared` is where the recorded compare stands. */
  datatype Block = Block(value: Option<Word>, compared: int, equal: Option<int>, greater: Option<int>,
                         less: Option<int>, branched: bool, unconditional: bool, stop: nat, regs: Known,
                         unresolved: Option<int>)

  function Start(i: nat, regs: Known): Block {
    Block(None, 0, None, None, None, false, false, i, regs, None)
  }

  datatype Scanned = Done(b: Block) | More(b: Block)

  /** The effect of a branch word on the scan. */
  function OnBranch(b: Block, br: Branching): Scanned {
    match br.kind
    case Call => Done(b)
    case Return => Done(b)
    case Beq =>
      More(b.(branched := true, equal := if b.equal.None? then Some(br.target) else b.equal, stop := b.stop + 1))
    case Bne => More(b.(branched := true, stop := b.stop + 1))
    case Bge => More(b.(branched := true, greater := Some(br.target), stop := b.stop + 1))
    case Bgt => More(b.(branched := true, greater := Some(br.target), stop := b.stop + 1))
    case Blt => More(b.(branched := true, less := Some(br.target), stop := b.stop + 1))
    case Ble => More(b.(branched := true, less := Some(br.target), stop := b.stop + 1))
    case B => Done(b.(branched := true, unconditional := true,
                      less := if b.less.None? then Some(br.target) else b.less, stop := b.stop + 1))
  }

  /** The effect of any other word, at address a. */
  function OnWord(b: Block, w: Word, a: int): Scanned {
    if b.branched then Done(b)
    else if IsCompare(w) && FieldA(w) == 4 && b.value.None? then
      if Opcode(w) == 31 then
        if FieldB(w) in b.regs then More(b.(value := Some(b.regs[FieldB(w)]), compared := a, stop := b.stop + 1))
        else Done(b.(unresolved := Some(a)))
      else
        More(b.(value := Some(Wrap(if Opcode(w) == 11 then SignedImm(w) else Imm(w))), compared := a,
                stop := b.stop + 1))
    else More(b.(regs := After(w, b.regs), stop := b.stop + 1))
  }

  function ScanStep(words: seq<Word>, base: int, b: Block): Scanned
    requires b.stop < |words|
  {
    var a := base + 4 * b.stop;
    match Branch(words[b.stop], a)
    case Some(br) => OnBranch(b, br)
    case None => OnWord(b, words[b.stop], a)
  }

  function Scan(words: seq<Word>, base: int, b: Block): Block
    decreases |words| - b.stop
  {
    if b.stop >= |words| then b
    else match ScanStep(words, base, b)
         case Done(b') => b'
         case More(b') => Scan(words, base, b')
  }

  /** The side without a branch of its own falls through. */
  function WithFallthrough(base: int, b: Block): Block {
    var next := Some(base + 4 * b.stop);
    if !b.branched || b.unconditional then b
    else if b.less.None? && b.greater.Some? then b.(less := next)
    else if b.greater.None? && b.less.Some? then b.(greater := next)
    else if b.less.None? && b.greater.None? then b.(less := next)
    else b
  }

  // ----- the worklist -----

  datatype Entry = Entry(at: int, regs: Known)

  predicate Inside(words: seq<Word>, base: int, a: int) {
    base <= a < base + 4 * |words|
  }

  function Index(base: int, a: int): nat {
    if a < base then 0 else (a - base) / 4
  }

  function Summary(words: seq<Word>, base: int, e: Entry): Block {
    WithFallthrough(base, Scan(words, base, Start(Index(base, e.at), e.regs)))
  }

  /** What the block pushes: the greater edge, then the less edge, with the constants it leaves. */
  function Pushed(words: seq<Word>, base: int, e: Entry): seq<Entry> {
    var b := Summary(words, base, e);
    if b.value.None? then []
    else
      (if b.greater.Some? && Inside(words, base, b.greater.value) then [Entry(b.greater.value, b.regs)] else [])
      + (if b.less.Some? && Inside(words, base, b.less.value) then [Entry(b.less.value, b.regs)] else [])
  }

  function NodeOf(words: seq<Word>, base: int, e: Entry): Node
    requires Summary(words, base, e).value.Some?
  {
    var b := Summary(words, base, e);
    Node(b.value.value, b.equal, b.greater, b.less)
  }

  // ----- soundness of one block -----

  /** What a compare of register 4 compares it with. */
  function Comparand(w: Word, g: Gpr): Word
    requires IsCompare(w)
  {
    if Opcode(w) == 31 then g[FieldB(w)]
    else Wrap(if Opcode(w) == 11 then SignedImm(w) else Imm(w))
  }

  lemma {:induction false} AfterSound(w: Word, regs: Known, g: Gpr, g': Gpr)
    requires Matches(regs, g) && Executes(w, g, g')
    ensures Matches(After(w, regs), g')
  {
    if Opcode(w) == 14 || Opcode(w) == 15 {
      SumSound(w, regs, g, g');
    } else {
      OtherSound(w, regs, g, g');
    }
  }

  lemma {:induction false} SumSound(w: Word, regs: Known, g: Gpr, g': Gpr)
    requires (Opcode(w) == 14 || Opcode(w) == 15) && Matches(regs, g) && Executes(w, g, g')
    ensures Matches(After(w, regs), g')
  {
  }

  lemma {:induction false} OtherSound(w: Word, regs: Known, g: Gpr, g': Gpr)
    requires Opcode(w) != 14 && Opcode(w) != 15 && Matches(regs, g) && Executes(w, g, g')
    ensures Matches(After(w, regs), g')
  {
  }

  ghost predicate IsBranchAt(words: seq<Word>, base: int, a: int) {
    InCode(words, base, a) && Branch(words[(a - base) / 4], a).Some?
  }

  /**
   An execution of one block and of nothing else: it runs straight on until its
   last step, that step is a branch, and after the first branch come only branches.
   */
  ghost predicate RunsBlock(words: seq<Word>, base: int, t: seq<Config>) {
    && Trace(words, base, t)
    && |t| >= 2
    && (forall k :: 0 <= k < |t| - 1 ==> t[k].at == t[0].at + 4 * k)
    && IsBranchAt(words, base, t[|t| - 2].at)
    && (forall k :: 0 <= k < |t| - 2 && IsBranchAt(words, base, t[k].at) ==> IsBranchAt(words, base, t[k + 1].at))
  }

  lemma {:induction false} BranchedKeepsRegs(words: seq<Word>, base: int, b: Block)
    requires b.branched
    ensures Scan(words, base, b).regs == b.regs
    ensures Scan(words, base, b).value == b.value && Scan(words, base, b).compared == b.compared
    decreases |words| - b.stop
  {
    if b.stop < |words| {
      match ScanStep(words, base, b)
      case Done(_) =>
      case More(b') => BranchedKeepsRegs(words, base, b');
    }
  }

  lemma {:induction false} BranchesKeepRegisters(words: seq<Word>, base: int, t: seq<Config>)
    requires RunsBlock(words, base, t) && IsBranchAt(words, base, t[0].at)
    ensures t[|t| - 1].gpr == t[0].gpr
    decreases |t|
  {
    assert StepAt(words, base, t, 0);
    if |t| > 2 {
      RunsBlockTail(words, base, t);
      BranchesKeepRegisters(words, base, t[1..]);
    }
  }

  lemma {:induction false} TraceTail(words: seq<Word>, base: int, t: seq<Config>)
    requires Trace(words, base, t) && |t| > 1
    ensures Trace(words, base, t[1..])
  {
    var u := t[1..];
    forall k: nat | k + 1 < |u|
      ensures StepAt(words, base, u, k)
    {
      assert StepAt(words, base, t, k + 1) && u[k] == t[k + 1] && u[k + 1] == t[k + 2];
    }
  }

  lemma {:induction false} RunsBlockTail(words: seq<Word>, base: int, t: seq<Config>)
    requires RunsBlock(words, base, t) && |t| > 2
    ensures RunsBlock(words, base, t[1..])
    ensures Steps(words, base, t[0], t[1])
    ensures IsBranchAt(words, base, t[0].at) ==> IsBranchAt(words, base, t[1].at)
  {
    var u := t[1..];
    TraceTail(words, base, t);
    assert StepAt(words, base, t, 0);
    forall k | 0 <= k < |u| - 1
      ensures u[k].at == u[0].at + 4 * k
    {
      assert u[k] == t[k + 1];
    }
    forall k | 0 <= k < |u| - 2 && IsBranchAt(words, base, u[k].at)
      ensures IsBranchAt(words, base, u[k + 1].at)
    {
      assert IsBranchAt(words, base, t[k + 1].at);
    }
  }

  lemma {:induction false} WordSound(words: seq<Word>, base: int, b: Block, g: Gpr, g': Gpr)
    requires b.stop < |words| && Branch(words[b.stop], base + 4 * b.stop).None? && !b.branched
    requires Matches(b.regs, g) && Executes(words[b.stop], g, g')
    requires Scan(words, base, b).value.Some?
    ensures ScanStep(words, base, b).More?
    ensures var b' := ScanStep(words, base, b).b;
            && !b'.branched && b'.stop == b.stop + 1
            && Matches(b'.regs, g')
            && Scan(words, base, b) == Scan(words, base, b')
  {
    AfterSound(words[b.stop], b.regs, g, g');
    assert IsCompare(words[b.stop]) ==> After(words[b.stop], b.regs) == b.regs;
  }

  /** Running a block leaves in the registers what the scan says it leaves. */
  lemma {:induction false} ScanSound(words: seq<Word>, base: int, b: Block, t: seq<Config>)
    requires RunsBlock(words, base, t) && t[0].at == base + 4 * b.stop && !b.branched
    requires Matches(b.regs, t[0].gpr)
    requires Scan(words, base, b).value.Some?
    ensures Matches(Scan(words, base, b).regs, t[|t| - 1].gpr)
    decreases |t|
  {
    if IsBranchAt(words, base, t[0].at) {
      BranchCase(words, base, b, t);
    } else {
      WordCase(words, base, b, t);
      ScanSound(words, base, ScanStep(words, base, b).b, t[1..]);
      assert t[1..][|t| - 2] == t[|t| - 1];
    }
  }

  lemma {:induction false} BranchCase(words: seq<Word>, base: int, b: Block, t: seq<Config>)
    requires RunsBlock(words, base, t) && t[0].at == base + 4 * b.stop && IsBranchAt(words, base, t[0].at)
    requires Matches(b.regs, t[0].gpr)
    ensures Matches(Scan(words, base, b).regs, t[|t| - 1].gpr)
  {
    BranchesKeepRegisters(words, base, t);
    BranchStep(words, base, b);
  }

  /** A word that is no branch leaves a shorter run and a scan that agrees with it. */
  lemma {:induction false} WordCase(words: seq<Word>, base: int, b: Block, t: seq<Config>)
    requires RunsBlock(words, base, t) && t[0].at == base + 4 * b.stop && !IsBranchAt(words, base, t[0].at)
    requires Matches(b.regs, t[0].gpr) && !b.branched && Scan(words, base, b).value.Some?
    ensures |t| > 2 && RunsBlock(words, base, t[1..]) && b.stop < |words|
    ensures var b' := ScanStep(words, base, b).b;
            && t[1].at == base + 4 * b'.stop && !b'.branched && Matches(b'.regs, t[1].gpr)
            && Scan(words, base, b) == Scan(words, base, b')
  {
    RunsBlockTail(words, base, t);
    FirstIsWord(words, base, b, t[0], t[1]);
    WordSound(words, base, b, t[0].gpr, t[1].gpr);
  }

  lemma {:induction false} FirstIsWord(words: seq<Word>, base: int, b: Block, c: Config, c': Config)
    requires Steps(words, base, c, c') && c.at == base + 4 * b.stop && !IsBranchAt(words, base, c.at)
    ensures b.stop < |words| && Branch(words[b.stop], base + 4 * b.stop).None?
    ensures c'.at == c.at + 4 && Executes(words[b.stop], c.gpr, c'.gpr)
  {
  }

  lemma {:induction false} BranchStep(words: seq<Word>, base: int, b: Block)
    requires b.stop < |words| && Branch(words[b.stop], base + 4 * b.stop).Some?
    ensures Scan(words, base, b).regs == b.regs
    ensures Scan(words, base, b).value == b.value && Scan(words, base, b).compared == b.compared
  {
    match ScanStep(words, base, b)
    case Done(_) =>
    case More(b') => BranchedKeepsRegs(words, base, b');
  }

  /** A straight execution, no branch in it, from the first word of a block to the compare. */
  ghost predicate RunsTo(words: seq<Word>, base: int, t: seq<Config>, a: int) {
    && Trace(words, base, t)
    && t[|t| - 1].at == a
    && InCode(words, base, a)
    && (forall k :: 0 <= k < |t| ==> t[k].at == t[0].at + 4 * k && !IsBranchAt(words, base, t[k].at))
  }

  /** At address a stands a compare of register 4, and it compares with v. */
  ghost predicate Compares(words: seq<Word>, base: int, a: int, g: Gpr, v: Word) {
    && InCode(words, base, a)
    && var w := words[(a - base) / 4];
       IsCompare(w) && FieldA(w) == 4 && Comparand(w, g) == v
  }

  lemma {:induction false} CompareHere(words: seq<Word>, base: int, b: Block, g: Gpr)
    requires b.stop < |words| && Branch(words[b.stop], base + 4 * b.stop).None?
    requires b.value.None? && ScanStep(words, base, b).b.value.Some? && Matches(b.regs, g)
    ensures var s := ScanStep(words, base, b);
            && s.More? && s.b.compared == base + 4 * b.stop
            && Compares(words, base, base + 4 * b.stop, g, s.b.value.value)
  {
    RecordsOperand(b, words[b.stop], base + 4 * b.stop, g);
  }

  lemma {:induction false} RecordsOperand(b: Block, w: Word, a: int, g: Gpr)
    requires b.value.None? && OnWord(b, w, a).b.value.Some? && Matches(b.regs, g)
    ensures OnWord(b, w, a).More? && OnWord(b, w, a).b.compared == a
    ensures IsCompare(w) && FieldA(w) == 4 && Comparand(w, g) == OnWord(b, w, a).b.value.value
  {
  }

  /** The value the scan records is the one the compare sees. */
  lemma {:induction false} CompareSound(words: seq<Word>, base: int, b: Block, t: seq<Config>)
    requires var r := Scan(words, base, b); r.value.Some? && RunsTo(words, base, t, r.compared)
    requires t[0].at == base + 4 * b.stop && !b.branched && b.value.None?
    requires Matches(b.regs, t[0].gpr)
    ensures var r := Scan(words, base, b);
            Compares(words, base, r.compared, t[|t| - 1].gpr, r.value.value)
    decreases |t|
  {
    var r := Scan(words, base, b);
    RunsToFirst(words, base, t, r.compared, b.stop);
    var b' := ScanStep(words, base, b).b;
    if b'.value.Some? {
      CompareHere(words, base, b, t[0].gpr);
      ValueKept(words, base, b');
      assert t[|t| - 1].at == t[0].at + 4 * (|t| - 1);
      assert |t| == 1;
    } else {
      NotYetCompared(words, base, b, t);
      CompareSound(words, base, b', t[1..]);
      assert t[1..][|t| - 2] == t[|t| - 1];
    }
  }

  /** Short of the compare, one word is executed and the scan has gone one word on. */
  lemma {:induction false} NotYetCompared(words: seq<Word>, base: int, b: Block, t: seq<Config>)
    requires var r := Scan(words, base, b); r.value.Some? && RunsTo(words, base, t, r.compared)
    requires t[0].at == base + 4 * b.stop && !b.branched && Matches(b.regs, t[0].gpr)
    requires b.stop < |words| && Branch(words[b.stop], base + 4 * b.stop).None?
    requires ScanStep(words, base, b).b.value.None?
    ensures |t| > 1 && RunsTo(words, base, t[1..], Scan(words, base, b).compared)
    ensures var b' := ScanStep(words, base, b).b;
            && t[1].at == base + 4 * b'.stop && !b'.branched && Matches(b'.regs, t[1].gpr)
            && Scan(words, base, b) == Scan(words, base, b')
  {
    ComparedLater(words, base, ScanStep(words, base, b).b);
    if |t| == 1 {
      StepGoesOn(words, base, b);
    } else {
      assert !IsBranchAt(words, base, t[0].at) by { assert t[0].at == t[0].at + 4 * 0; }
      assert StepAt(words, base, t, 0);
      FirstIsWord(words, base, b, t[0], t[1]);
      WordSound(words, base, b, t[0].gpr, t[1].gpr);
      RunsToTail(words, base, t, Scan(words, base, b).compared);
    }
  }

  lemma {:induction false} StepGoesOn(words: seq<Word>, base: int, b: Block)
    requires b.stop < |words| && Branch(words[b.stop], base + 4 * b.stop).None?
    requires Scan(words, base, b).value.Some? && ScanStep(words, base, b).b.value.None?
    ensures ScanStep(words, base, b).More? && ScanStep(words, base, b).b.stop == b.stop + 1
  {
  }

  lemma {:induction false} RunsToFirst(words: seq<Word>, base: int, t: seq<Config>, a: int, stop: nat)
    requires RunsTo(words, base, t, a) && t[0].at == base + 4 * stop
    ensures stop < |words| && Branch(words[stop], base + 4 * stop).None?
  {
    assert t[0].at == t[0].at + 4 * 0 && !IsBranchAt(words, base, t[0].at);
    if |t| > 1 { assert StepAt(words, base, t, 0); }
    assert InCode(words, base, t[0].at);
  }

  lemma {:induction false} RunsToTail(words: seq<Word>, base: int, t: seq<Config>, a: int)
    requires RunsTo(words, base, t, a) && |t| > 1
    ensures RunsTo(words, base, t[1..], a)
  {
    var u := t[1..];
    TraceTail(words, base, t);
    forall k: nat | k < |u|
      ensures u[k].at == u[0].at + 4 * k && !IsBranchAt(words, base, u[k].at)
    {
      assert t[k + 1].at == t[0].at + 4 * (k + 1);
    }
  }

  lemma {:induction false} ValueKept(words: seq<Word>, base: int, b: Block)
    requires b.value.Some?
    ensures Scan(words, base, b).value == b.value && Scan(words, base, b).compared == b.compared
    decreases |words| - b.stop
  {
    if b.stop < |words| {
      match ScanStep(words, base, b)
      case Done(_) =>
      case More(b') => ValueKept(words, base, b');
    }
  }

  lemma {:induction false} ComparedLater(words: seq<Word>, base: int, b: Block)
    requires b.value.None?
    ensures Scan(words, base, b).value.Some? ==> Scan(words, base, b).compared >= base + 4 * b.stop
    decreases |words| - b.stop
  {
    if b.stop < |words| {
      match ScanStep(words, base, b)
      case Done(_) =>
      case More(b') =>
        if b'.value.Some? { ValueKept(words, base, b'); } else { ComparedLater(words, base, b'); }
    }
  }

  // ----- the worklist -----

  /** Every assignment of words to some of the first n registers. */
  ghost function AllKnown(n: nat): set<Known>
    requires n <= 32
  {
    if n == 0 then {map[]}
    else AllKnown(n - 1) + ExtendAll(AllKnown(n - 1), n - 1)
  }

  ghost function ExtendAll(ms: set<Known>, r: Reg): set<Known> {
    set m, v | m in ms && v in AllWords() :: m[r := v]
  }

  ghost function AllWords(): set<Word> {
    set v: int | 0 <= v < 0x1_0000_0000 :: Wrap(v)
  }

  lemma {:induction false} AllKnownComplete(m: Known, n: nat)
    requires n <= 32 && forall r :: r in m ==> r < n
    ensures m in AllKnown(n)
  {
    if n == 0 {
      assert m == map[];
    } else if n - 1 in m {
      var m' := m - {n - 1};
      AllKnownComplete(m', n - 1);
      var v := m[n - 1];
      assert v == Wrap(v);
      assert v in AllWords();
      assert m == m'[n - 1 := v];
      assert m in ExtendAll(AllKnown(n - 1), n - 1);
    } else {
      AllKnownComplete(m, n - 1);
    }
  }

  /** The finitely many entries the worklist can ever hold. */
  ghost function Universe(words: seq<Word>, base: int): set<Entry> {
    set a, m | base <= a <= base + 4 * |words| && m in AllKnown(32) :: Entry(a, m)
  }

  method ScanBlock(words: seq<Word>, base: int, e: Entry) returns (b: Block)
    ensures b == Summary(words, base, e)
  {
    b := Start(Index(base, e.at), e.regs);
    while b.stop < |words|
      invariant Scan(words, base, b) == Scan(words, base, Start(Index(base, e.at), e.regs))
      decreases |words| - b.stop
    {
      var step := ScanStep(words, base, b);
      b := step.b;
      if step.Done? { break; }
    }
    b := WithFallthrough(base, b);
  }

  /** What blocks push, as a function of the entry. */
  function Pushes(words: seq<Word>, base: int): Entry -> seq<Entry> {
    e => Pushed(words, base, e)
  }

  const NOTHING_KNOWN: Known := map[]

  /** The worklist's entries are among finitely many. */
  ghost predicate Within(words: seq<Word>, base: int, seen: set<Entry>, stack: seq<Entry>) {
    seen <= Universe(words, base) && forall e :: e in stack ==> e in Universe(words, base)
  }

  /** The nodes are those of the entries: nothing missing, nothing else. */
  ghost predicate NodesOf(words: seq<Word>, base: int, entries: set<Entry>, nodes: map<int, Node>) {
    && (forall e :: e in entries && Summary(words, base, e).value.Some? ==> e.at in nodes)
    && (forall a :: a in nodes ==>
          exists e :: e in entries && e.at == a && Summary(words, base, e).value.Some?
                      && nodes[a] == NodeOf(words, base, e))
  }

  ghost predicate UnresolvedOf(words: seq<Word>, base: int, entries: set<Entry>, unresolved: seq<int>) {
    forall a :: a in unresolved <==> exists e :: e in entries && Summary(words, base, e).unresolved == Some(a)
  }

  /**
   `extract(words, base)`.  What is explored is exactly what chains of blocks reach,
   and it ends because an entry is scanned once and there are finitely many.
   */
  method Extract(words: seq<Word>, base: int)
      returns (nodes: map<int, Node>, unresolved: seq<int>, seen: set<Entry>)
    ensures forall e :: e in seen <==> Reached(Pushes(words, base), Entry(base, NOTHING_KNOWN), e)
    ensures NodesOf(words, base, seen, nodes)
    ensures UnresolvedOf(words, base, seen, unresolved)
  {
    nodes, unresolved, seen := map[], [], {};
    var first := Entry(base, NOTHING_KNOWN);
    var stack := [first];
    ghost var push := Pushes(words, base);
    AllKnownComplete(NOTHING_KNOWN, 32);
    ExploreStart(push, first);
    while stack != []
      invariant Explored(push, first, seen, stack) && Within(words, base, seen, stack)
      invariant NodesOf(words, base, seen, nodes)
      invariant UnresolvedOf(words, base, seen, unresolved)
      decreases Universe(words, base) - seen, |stack|
    {
      var e := stack[|stack| - 1];
      var rest := stack[..|stack| - 1];
      if e in seen {
        ExploreSkip(push, first, seen, stack);
        stack := rest;
        continue;
      }
      var b := ScanBlock(words, base, e);
      NodesStep(words, base, seen, nodes, unresolved, e);
      ExploreStep(push, first, seen, stack);
      PushedWithin(words, base, seen, stack);
      seen := seen + {e};
      if b.unresolved.Some? {
        unresolved := unresolved + [b.unresolved.value];
      }
      if b.value.Some? {
        nodes := nodes[e.at := NodeOf(words, base, e)];
      }
      stack := rest + Pushed(words, base, e);
    }
    NothingMissed(push, first, seen);
  }

  lemma {:induction false} PushedWithin(words: seq<Word>, base: int, seen: set<Entry>, stack: seq<Entry>)
    requires Within(words, base, seen, stack) && stack != []
    ensures var e := stack[|stack| - 1];
            Within(words, base, seen + {e}, stack[..|stack| - 1] + Pushed(words, base, e))
  {
    var e := stack[|stack| - 1];
    forall f | f in Pushed(words, base, e)
      ensures f in Universe(words, base)
    {
      PushedFrom(words, base, e, f);
      AllKnownComplete(f.regs, 32);
    }
  }

  lemma {:induction false} NodesStep(words: seq<Word>, base: int, seen: set<Entry>, nodes: map<int, Node>,
                                     unresolved: seq<int>, e: Entry)
    requires NodesOf(words, base, seen, nodes) && UnresolvedOf(words, base, seen, unresolved)
    ensures var b := Summary(words, base, e);
            && NodesOf(words, base, seen + {e},
                       if b.value.Some? then nodes[e.at := NodeOf(words, base, e)] else nodes)
            && UnresolvedOf(words, base, seen + {e},
                            if b.unresolved.Some? then unresolved + [b.unresolved.value] else unresolved)
  {
    var b := Summary(words, base, e);
    var u := if b.unresolved.Some? then unresolved + [b.unresolved.value] else unresolved;
    forall a
      ensures a in u <==> exists x :: x in seen + {e} && Summary(words, base, x).unresolved == Some(a)
    {
      if a in u {
        if a in unresolved {
          var x :| x in seen && Summary(words, base, x).unresolved == Some(a);
          assert x in seen + {e};
        } else {
          assert e in seen + {e};
        }
      }
    }
  }

  // ----- soundness along a path -----

  /** An execution that goes through the blocks of `path` in turn; runs[k] leaves path[k] for path[k + 1]. */
  ghost predicate Follows(words: seq<Word>, base: int, path: seq<Entry>, runs: seq<seq<Config>>) {
    && |runs| == |path| - 1
    && forall k :: 0 <= k < |runs| ==> Leg(words, base, path, runs, k)
  }

  /** One of them: from path[k] to path[k + 1], and on from where the one before it ended. */
  ghost predicate Leg(words: seq<Word>, base: int, path: seq<Entry>, runs: seq<seq<Config>>, k: nat)
    requires |runs| == |path| - 1 && k < |runs|
  {
    && RunsBlock(words, base, runs[k])
    && runs[k][0].at == path[k].at
    && runs[k][|runs[k]| - 1].at == path[k + 1].at
    && (k > 0 ==> runs[k - 1] != [] && runs[k - 1][|runs[k - 1]| - 1] == runs[k][0])
  }

  /** The registers on arrival at path[k], for k > 0. */
  ghost function Arrival(runs: seq<seq<Config>>, k: nat): Gpr
    requires 0 < k <= |runs| && runs[k - 1] != []
  {
    runs[k - 1][|runs[k - 1]| - 1].gpr
  }

  lemma {:induction false} PushedFrom(words: seq<Word>, base: int, e: Entry, f: Entry)
    requires f in Pushed(words, base, e)
    ensures Summary(words, base, e).value.Some? && f.regs == Summary(words, base, e).regs
    ensures Inside(words, base, f.at)
  {
  }

  lemma {:induction false} StartsAt(base: int, a: int, t: seq<Config>, words: seq<Word>)
    requires t != [] && InCode(words, base, t[0].at) && t[0].at == a
    ensures a == base + 4 * Index(base, a)
  {
  }

  /** Every entry's constants are what the registers hold on arrival, whatever they held at the start. */
  lemma {:induction false} ArrivalSound(words: seq<Word>, base: int, path: seq<Entry>, runs: seq<seq<Config>>, k: nat)
    requires Chain(Pushes(words, base), Entry(base, NOTHING_KNOWN), path) && Follows(words, base, path, runs)
    requires 0 < k < |path|
    ensures runs[k - 1] != [] && Matches(path[k].regs, Arrival(runs, k))
  {
    assert Link(Pushes(words, base), path, k - 1) && Leg(words, base, path, runs, k - 1);
    if k > 1 { ArrivalSound(words, base, path, runs, k - 1); }
    BlockArrives(words, base, path[k - 1], path[k], runs[k - 1]);
  }

  /** Running one block takes true constants to true constants. */
  lemma {:induction false} BlockArrives(words: seq<Word>, base: int, e: Entry, f: Entry, t: seq<Config>)
    requires RunsBlock(words, base, t) && t[0].at == e.at && Matches(e.regs, t[0].gpr)
    requires f in Pushed(words, base, e)
    ensures Matches(f.regs, t[|t| - 1].gpr)
  {
    PushedFrom(words, base, e, f);
    assert StepAt(words, base, t, 0);
    StartsAt(base, e.at, t, words);
    ScanSound(words, base, Start(Index(base, e.at), e.regs), t);
  }

  /**
   The search value a chain gives a node is the value compared: on any execution
   along the chain that then runs to the recorded compare, register 4 is compared
   with exactly that number, however far back the `lis` was hoisted.
   */
  lemma {:induction false} RecordedIsCompared(words: seq<Word>, base: int, path: seq<Entry>, runs: seq<seq<Config>>,
                                              t: seq<Config>)
    requires Chain(Pushes(words, base), Entry(base, NOTHING_KNOWN), path) && Follows(words, base, path, runs)
    requires var b := Summary(words, base, path[|path| - 1]);
             b.value.Some? && RunsTo(words, base, t, b.compared)
    requires t[0].at == path[|path| - 1].at
    requires |runs| > 0 ==> runs[|runs| - 1] != [] && t[0] == runs[|runs| - 1][|runs[|runs| - 1]| - 1]
    ensures var b := Summary(words, base, path[|path| - 1]);
            Compares(words, base, b.compared, t[|t| - 1].gpr, b.value.value)
  {
    var e := path[|path| - 1];
    if |path| > 1 {
      ArrivalSound(words, base, path, runs, |path| - 1);
    }
    EntryCompares(words, base, e, t);
  }

  lemma {:induction false} EntryCompares(words: seq<Word>, base: int, e: Entry, t: seq<Config>)
    requires var b := Summary(words, base, e); b.value.Some? && RunsTo(words, base, t, b.compared)
    requires t[0].at == e.at && Matches(e.regs, t[0].gpr)
    ensures var b := Summary(words, base, e);
            Compares(words, base, b.compared, t[|t| - 1].gpr, b.value.value)
  {
    RunStarts(words, base, t, Summary(words, base, e).compared);
    StartsAt(base, e.at, t, words);
    CompareSound(words, base, Start(Index(base, e.at), e.regs), t);
  }

  lemma {:induction false} RunStarts(words: seq<Word>, base: int, t: seq<Config>, a: int)
    requires RunsTo(words, base, t, a)
    ensures InCode(words, base, t[0].at)
  {
    if |t| > 1 { assert StepAt(words, base, t, 0); }
  }
}
