/**
 What the call-free shapes of `tools/gen_accessors.py` do: the words on a small
 PowerPC against the C++ body `define` writes for the shape.
 */
module ShapeMeaning {
  import opened Words
  import opened Wrappers
  import opened ShapeCodec

  // ----- memory -----

  type Memory = map<int, Byte>

  function At(mem: Memory, a: int): Byte {
    if Wrap(a) in mem then mem[Wrap(a)] else 0
  }

  /** The n bytes from address a, big-endian. */
  function Read(mem: Memory, a: int, n: nat): nat {
    if n == 0 then 0 else Read(mem, a, n - 1) * 0x100 + At(mem, a + n - 1)
  }

  /** The low n bytes of v to address a, big-endian. */
  function Write(mem: Memory, a: int, n: nat, v: nat): Memory {
    if n == 0 then mem else Write(mem, a, n - 1, v / 0x100)[Wrap(a + n - 1) := v % 0x100]
  }

  function Width(t: CType): nat {
    match t
    case Int => 4
    case UShort => 2
    case Short => 2
    case UChar => 1
    case Float => 4
  }

  lemma {:induction false} ReadBound(mem: Memory, a: int)
    ensures Read(mem, a, 1) < 0x100 && Read(mem, a, 2) < 0x1_0000 && Read(mem, a, 4) < 0x1_0000_0000
  {
    assert Read(mem, a, 1) == At(mem, a);
    assert Read(mem, a, 2) == Read(mem, a, 1) * 0x100 + At(mem, a + 1);
    assert Read(mem, a, 3) == Read(mem, a, 2) * 0x100 + At(mem, a + 2);
    assert Read(mem, a, 4) == Read(mem, a, 3) * 0x100 + At(mem, a + 3);
  }

  // ----- the processor -----

  datatype Cpu = Cpu(gpr: Gpr, mem: Memory)

  /** The source of an address or of `addi`: register 0 reads as the number 0. */
  function Base(cpu: Cpu, a: Reg): Word {
    if a == 0 then 0 else cpu.gpr[a]
  }

  function SetReg(cpu: Cpu, r: Reg, v: Word): Cpu {
    cpu.(gpr := cpu.gpr[r := v])
  }

  /** How many of the top bits of an n-bit number are zero. */
  function LeadingZeros(w: nat, n: nat): nat {
    if n == 0 || w >= Pow2(n - 1) then 0 else 1 + LeadingZeros(w, n - 1)
  }

  function Pow2(n: nat): nat {
    if n == 0 then 1 else 2 * Pow2(n - 1)
  }

  datatype Insn =
    | Ld(t: CType, d: Reg, a: Reg, imm: int)
    | St(t: CType, d: Reg, a: Reg, imm: int)
    | Addi(d: Reg, a: Reg, imm: int)
    | Add(d: Reg, a: Reg, b: Reg)
    | CountZeros(d: Reg, a: Reg)
    | ShiftDown(d: Reg, a: Reg, n: nat)

  /** The subset of the instruction set: None for every other word (of the rotates, only right shifts are in it). */
  function InsnOf(w: Word): Option<Insn> {
    var op, d, a := Opcode(w), FieldD(w), FieldA(w);
    if op == 14 then Some(Addi(d, a, SignedImm(w)))
    else if op == 15 then Some(Addi(d, a, Imm(w) * 0x1_0000))
    else if LoadType(op).Some? && !LoadType(op).value.Float? then Some(Ld(LoadType(op).value, d, a, SignedImm(w)))
    else if StoreType(op).Some? && !StoreType(op).value.Float? then Some(St(StoreType(op).value, d, a, SignedImm(w)))
    else if op == 31 && w % 2 == 0 && Extended(w) == 266 then Some(Add(d, a, FieldB(w)))
    else if op == 31 && w % 2 == 0 && Extended(w) == 26 && FieldB(w) == 0 then Some(CountZeros(a, d))
    else if op == 21 && w % 2 == 0 && FieldB(w) + w / 64 % 32 == 32 && w / 2 % 32 == 31 then
      Some(ShiftDown(a, d, w / 64 % 32))
    else None
  }

  function Execute(i: Insn, cpu: Cpu): Cpu {
    match i
    case Ld(t, d, a, imm) => SetReg(cpu, d, Load(cpu.mem, t, Wrap(Base(cpu, a) + imm)))
    case St(t, d, a, imm) => cpu.(mem := Write(cpu.mem, Wrap(Base(cpu, a) + imm), Width(t), cpu.gpr[d]))
    case Addi(d, a, imm) => SetReg(cpu, d, Wrap(Base(cpu, a) + imm))
    case Add(d, a, b) => SetReg(cpu, d, Wrap(cpu.gpr[a] + cpu.gpr[b]))
    case CountZeros(d, a) =>
      LeadingZerosBound(cpu.gpr[a], 32);
      SetReg(cpu, d, LeadingZeros(cpu.gpr[a], 32))
    case ShiftDown(d, a, n) => SetReg(cpu, d, ShiftRight(cpu.gpr[a], n))
  }

  function ShiftRight(w: Word, n: nat): Word {
    if n == 0 then w else ShiftRight(w / 2, n - 1)
  }

  lemma {:induction false} LeadingZerosBound(w: nat, n: nat)
    ensures LeadingZeros(w, n) <= n
    ensures w == 0 ==> LeadingZeros(w, n) == n
    ensures 0 < w < Pow2(n) ==> LeadingZeros(w, n) < n
  {
    if n > 0 {
      LeadingZerosBound(w, n - 1);
      Pow2Positive(n - 1);
    }
  }

  lemma {:induction false} Pow2Positive(n: nat)
    ensures Pow2(n) > 0
  {
    if n > 0 { Pow2Positive(n - 1); }
  }

  /** The instructions of a body, up to its `blr`. */
  function InsnsOf(ws: seq<Word>): Option<seq<Insn>> {
    if ws == [] then None
    else if ws[0] == BLR then Some([])
    else
      var first, rest := InsnOf(ws[0]), InsnsOf(ws[1..]);
      if first.None? || rest.None? then None else Some([first.value] + rest.value)
  }

  function ExecuteAll(prog: seq<Insn>, cpu: Cpu): Cpu {
    if prog == [] then cpu else ExecuteAll(prog[1..], Execute(prog[0], cpu))
  }

  function Run(ws: seq<Word>, cpu: Cpu): Option<Cpu> {
    if InsnsOf(ws).None? then None else Some(ExecuteAll(InsnsOf(ws).value, cpu))
  }

  /** The value of an object of type t as 32 bits; only `short` is signed and narrow. */
  function Load(mem: Memory, t: CType, a: int): Word {
    ReadBound(mem, a);
    match t
    case Int => Read(mem, a, 4)
    case Float => Read(mem, a, 4)
    case UShort => Read(mem, a, 2)
    case Short => Wrap(SignExtend(Read(mem, a, 2)))
    case UChar => Read(mem, a, 1)
  }

  // ----- the C++ -----

  datatype Place = Member(t: CType, off: int) | Variable(t: CType, at: Word)

  datatype Expr =
    | Value(p: Place)
    | AddressOf(p: Place)
    | Number(k: int)
    | Argument
    | Equal(e: Expr, k: int)
    | Sum(a: Expr, b: Expr)

  datatype Stmt = Assign(p: Place, e: Expr)

  /** A member function's body: assignments, then perhaps `return e`. */
  datatype Body = Body(stmts: seq<Stmt>, result: Option<Expr>)

  /** What the function is called with: its object and its one argument. */
  datatype Call = Call(self: Word, argument: Word)

  function Address(p: Place, call: Call): Word {
    match p
    case Member(_, off) => Wrap(call.self + off)
    case Variable(_, at) => at
  }

  function Eval(e: Expr, call: Call, mem: Memory): Word {
    match e
    case Value(p) => Load(mem, p.t, Address(p, call))
    case AddressOf(p) => Address(p, call)
    case Number(k) => Wrap(k)
    case Argument => call.argument
    case Equal(e, k) => if Signed(Eval(e, call, mem)) == k then 1 else 0
    case Sum(a, b) => Wrap(Eval(a, call, mem) + Eval(b, call, mem))
  }

  /** Assignments in order, each cut to the width of its place. */
  function RunStmts(stmts: seq<Stmt>, call: Call, mem: Memory): Memory {
    if stmts == [] then mem
    else
      var Assign(p, e) := stmts[0];
      RunStmts(stmts[1..], call, Write(mem, Address(p, call), Width(p.t), Eval(e, call, mem)))
  }

  function AssignAll(k: int, stores: seq<Store>): seq<Stmt> {
    if stores == [] then [] else [Assign(Member(stores[0].0, stores[0].1), Number(k))] + AssignAll(k, stores[1..])
  }

  /** `define`: the C++ body written for a shape. */
  function Define(shape: Shape): Option<Body> {
    match shape
    case Get(t, off) => Some(Body([], Some(Value(Member(t, off)))))
    case Set(t, off) => Some(Body([Assign(Member(t, off), Argument)], None))
    case Ref(off) => Some(Body([], Some(AddressOf(Member(Int, off)))))
    case ConstSet(k, stores) => Some(Body(AssignAll(k, stores), None))
    case AddMem(off) => Some(Body([Assign(Member(Int, off), Sum(Value(Member(Int, off)), Argument))], None))
    case EqConst(off, k, _) => Some(Body([], Some(Equal(Value(Member(Int, off)), k))))
    case GRef(v) => Some(Body([], Some(AddressOf(Variable(Int, v)))))
    case GGet(t, v, _) => Some(Body([], Some(Value(Variable(t, v)))))
    case GSet(t, v, _, _) => Some(Body([Assign(Variable(t, v), Argument)], None))
    case VTable(v, off, _) => Some(Body([Assign(Member(Int, off), AddressOf(Variable(Int, v)))], None))
    case _ => None
  }

  /**
   Where the calling convention puts the object and the argument of a shape's function.
   An equality test that is not on the object itself is written on the third argument.
   */
  function CallOf(shape: Shape, cpu: Cpu): Call {
    Call(if shape.EqConst? && shape.base != 3 then cpu.gpr[5] else cpu.gpr[3],
         if shape.GSet? then cpu.gpr[shape.from] else cpu.gpr[4])
  }

  /** The registers a function may change: not the stack, the small data areas, or the caller's. */
  predicate Volatile(r: int) {
    r == 0 || 3 <= r <= 12
  }

  /** The same byte at every address; one that was never written reads as 0. */
  ghost predicate SameBytes(m: Memory, n: Memory) {
    forall a: int :: At(m, a) == At(n, a)
  }

  /** `after` is what the C++ makes of the state: the same memory, the same result, no register it must keep changed. */
  ghost predicate Does(shape: Shape, cpu: Cpu, after: Cpu)
    requires Define(shape).Some?
  {
    var body, call := Define(shape).value, CallOf(shape, cpu);
    && SameBytes(after.mem, RunStmts(body.stmts, call, cpu.mem))
    && (body.result.Some? ==> after.gpr[3] == Eval(body.result.value, call, cpu.mem))
    && forall i :: 0 <= i < 32 && !Volatile(i) ==> after.gpr[i] == cpu.gpr[i]
  }

  /** From this state the words do what the C++ says. */
  ghost predicate Means(shape: Shape, ws: seq<Word>, cpu: Cpu)
    requires Define(shape).Some?
  {
    Run(ws, cpu).Some? && Does(shape, cpu, Run(ws, cpu).value)
  }

  /** No floating point, no call. */
  predicate InSubset(shape: Shape) {
    match shape
    case Get(t, _) => !t.Float?
    case Set(t, _) => !t.Float?
    case GGet(t, _, _) => !t.Float?
    case GSet(t, _, _, _) => !t.Float?
    case _ => Define(shape).Some?
  }

  /**
   A register that holds an address must be the function's to change, must not read as
   zero, nor be the value or the object itself; a test is on the object or the third argument.
   */
  predicate UsableRegister(shape: Shape) {
    match shape
    case EqConst(_, _, base) => base == 3 || base == 5
    case GGet(_, v, d) => Volatile(d) && (d != 0 || HighHalf(v) == 0)
    case GSet(_, v, d, from) => Volatile(d) && d != from && (d != 0 || HighHalf(v) == 0)
    case VTable(v, _, d) => Volatile(d) && d != 3 && (d != 0 || HighHalf(v) == 0)
    case _ => true
  }

  // ----- the words of each shape -----

  lemma {:induction false} MakeFields(op: int, d: int, a: int, imm: int)
    requires 0 <= op < 64 && 0 <= d < 32 && 0 <= a < 32 && 0 <= imm < 0x1_0000
    ensures var w := Make(op, d, a, imm);
            && Opcode(w) == op && FieldD(w) == d && FieldA(w) == a
            && Imm(w) == imm && SignedImm(w) == SignExtend(imm)
  {
    OpcodeOf(op, d, a, imm);
  }

  lemma {:induction false} NotReturn(w: Word)
    requires Opcode(w) != 19
    ensures w != BLR
  {
    assert Opcode(BLR) == 19;
  }

  lemma {:induction false} LoadWord(t: CType, d: Reg, a: Reg, off: int)
    requires !t.Float? && 0 <= off < 0x1_0000
    ensures InsnOf(Make(LoadOp(t), d, a, off)) == Some(Ld(t, d, a, SignExtend(off)))
    ensures Make(LoadOp(t), d, a, off) != BLR
  {
    MakeFields(LoadOp(t), d, a, off);
    NotReturn(Make(LoadOp(t), d, a, off));
  }

  lemma {:induction false} StoreWord(t: CType, d: Reg, a: Reg, off: int)
    requires !t.Float? && StoreOp(t).Some? && 0 <= off < 0x1_0000
    ensures InsnOf(Make(StoreOp(t).value, d, a, off)) == Some(St(t, d, a, SignExtend(off)))
    ensures Make(StoreOp(t).value, d, a, off) != BLR
  {
    MakeFields(StoreOp(t).value, d, a, off);
    NotReturn(Make(StoreOp(t).value, d, a, off));
  }

  lemma {:induction false} AddiWord(d: Reg, a: Reg, imm: int)
    requires 0 <= imm < 0x1_0000
    ensures InsnOf(Make(14, d, a, imm)) == Some(Addi(d, a, SignExtend(imm))) && Make(14, d, a, imm) != BLR
  {
    MakeFields(14, d, a, imm);
    NotReturn(Make(14, d, a, imm));
  }

  lemma {:induction false} LisWord(d: Reg, imm: int)
    requires 0 <= imm < 0x1_0000
    ensures InsnOf(Make(15, d, 0, imm)) == Some(Addi(d, 0, imm * 0x1_0000)) && Make(15, d, 0, imm) != BLR
  {
    MakeFields(15, d, 0, imm);
    NotReturn(Make(15, d, 0, imm));
  }

  lemma {:induction false} Cons(w: Word, ws: seq<Word>, i: Insn, prog: seq<Insn>)
    requires w != BLR && InsnOf(w) == Some(i) && InsnsOf(ws) == Some(prog)
    ensures InsnsOf([w] + ws) == Some([i] + prog)
  {
    assert ([w] + ws)[1..] == ws;
  }

  lemma {:induction false} Words1(w: Word, i: Insn)
    requires w != BLR && InsnOf(w) == Some(i)
    ensures InsnsOf([w, BLR]) == Some([i])
  {
    Cons(w, [BLR], i, []);
    assert [w] + [BLR] == [w, BLR] && [i] + [] == [i];
  }

  lemma {:induction false} Words2(w: Word, x: Word, i: Insn, j: Insn)
    requires w != BLR && InsnOf(w) == Some(i) && x != BLR && InsnOf(x) == Some(j)
    ensures InsnsOf([w, x, BLR]) == Some([i, j])
  {
    Words1(x, j);
    Cons(w, [x, BLR], i, [j]);
    assert [w] + [x, BLR] == [w, x, BLR] && [i] + [j] == [i, j];
  }

  lemma {:induction false} Words3(w: Word, x: Word, y: Word, i: Insn, j: Insn, k: Insn)
    requires w != BLR && InsnOf(w) == Some(i) && x != BLR && InsnOf(x) == Some(j) && y != BLR && InsnOf(y) == Some(k)
    ensures InsnsOf([w, x, y, BLR]) == Some([i, j, k])
  {
    Words2(x, y, j, k);
    Cons(w, [x, y, BLR], i, [j, k]);
    assert [w] + [x, y, BLR] == [w, x, y, BLR] && [i] + [j, k] == [i, j, k];
  }

  /** The program of every shape in the subset but the constant setter. */
  function Program(shape: Shape): seq<Insn>
    requires InSubset(shape) && !shape.ConstSet?
  {
    match shape
    case Get(t, off) => [Ld(t, 3, 3, off)]
    case Set(t, off) => [St(t, 4, 3, off)]
    case Ref(off) => [Addi(3, 3, off)]
    case AddMem(off) => [Ld(Int, 0, 3, off), Add(0, 0, 4), St(Int, 0, 3, off)]
    case EqConst(off, k, base) => [Ld(Int, 3, base, off), Addi(0, 3, -k), CountZeros(0, 0), ShiftDown(3, 0, 5)]
    case GRef(v) => [Addi(3, 0, HighHalf(v) * 0x1_0000), Addi(3, 3, SignExtend(LowHalf(v)))]
    case GGet(t, v, d) => [Addi(d, 0, HighHalf(v) * 0x1_0000), Ld(t, 3, d, SignExtend(LowHalf(v)))]
    case GSet(t, v, d, from) => [Addi(d, 0, HighHalf(v) * 0x1_0000), St(t, from, d, SignExtend(LowHalf(v)))]
    case VTable(v, off, d) =>
      [Addi(d, 0, HighHalf(v) * 0x1_0000), Addi(d, d, SignExtend(LowHalf(v))), St(Int, d, 3, off)]
  }

  lemma {:induction false} ProgramOfWords(shape: Shape)
    requires InSubset(shape) && Encodable(shape) && !shape.ConstSet?
    requires shape.EqConst? ==> 0 < shape.k <= 0x8000
    ensures InsnsOf(Reencode(shape)) == Some(Program(shape))
  {
    match shape
    case Get(t, off) =>
      LoadWord(t, 3, 3, off);
      Words1(Make(LoadOp(t), 3, 3, off), Ld(t, 3, 3, off));
    case Set(t, off) =>
      StoreWord(t, 4, 3, off);
      Words1(Make(StoreOp(t).value, 4, 3, off), St(t, 4, 3, off));
    case Ref(off) =>
      AddiWord(3, 3, off);
      Words1(Make(14, 3, 3, off), Addi(3, 3, off));
    case AddMem(off) => AddMemWords(off);
    case EqConst(off, k, base) => EqConstWords(off, k, base);
    case GRef(v) =>
      LisWord(3, HighHalf(v));
      AddiWord(3, 3, LowHalf(v));
      GlobalWords(v, 3, 14, 3, Addi(3, 3, SignExtend(LowHalf(v))));
    case GGet(t, v, d) =>
      LisWord(d, HighHalf(v));
      LoadWord(t, 3, d, LowHalf(v));
      GlobalWords(v, d, LoadOp(t), 3, Ld(t, 3, d, SignExtend(LowHalf(v))));
    case GSet(t, v, d, from) =>
      LisWord(d, HighHalf(v));
      StoreWord(t, from, d, LowHalf(v));
      GlobalWords(v, d, StoreOp(t).value, from, St(t, from, d, SignExtend(LowHalf(v))));
    case VTable(v, off, d) =>
      LisWord(d, HighHalf(v));
      AddiWord(d, d, LowHalf(v));
      StoreWord(Int, d, 3, off);
      Words3(Make(15, d, 0, HighHalf(v)), Make(14, d, d, LowHalf(v)), Make(36, d, 3, off),
             Addi(d, 0, HighHalf(v) * 0x1_0000), Addi(d, d, SignExtend(LowHalf(v))), St(Int, d, 3, off));
  }

  lemma {:induction false} GlobalWords(v: Word, d: Reg, op: int, dd: Reg, i: Insn)
    requires 0 <= op < 64
    requires Make(op, dd, d, LowHalf(v)) != BLR && InsnOf(Make(op, dd, d, LowHalf(v))) == Some(i)
    ensures InsnsOf(Halves(v, d, op, dd) + [BLR]) == Some([Addi(d, 0, HighHalf(v) * 0x1_0000), i])
  {
    var w, x := Make(15, d, 0, HighHalf(v)), Make(op, dd, d, LowHalf(v));
    LisWord(d, HighHalf(v));
    Words2(w, x, Addi(d, 0, HighHalf(v) * 0x1_0000), i);
    assert Halves(v, d, op, dd) + [BLR] == [w, x, BLR];
  }

  /** `add r0,r0,r4`. */
  lemma {:induction false} AddWord()
    ensures InsnOf(0x7C002214) == Some(Add(0, 0, 4)) && 0x7C002214 != BLR
  {
    AddFields();
    AddIs(0x7C002214);
  }

  lemma {:induction false} AddFields()
    ensures var w: Word := 0x7C002214;
            && Opcode(w) == 31 && FieldD(w) == 0 && FieldA(w) == 0 && FieldB(w) == 4
            && Extended(w) == 266 && w % 2 == 0
  {
    assert FieldB(0x7C002214) == 4;
    assert Extended(0x7C002214) == 266;
  }

  lemma {:induction false} AddIs(w: Word)
    requires Opcode(w) == 31 && w % 2 == 0 && Extended(w) == 266
    ensures InsnOf(w) == Some(Add(FieldD(w), FieldA(w), FieldB(w)))
  {
  }

  /** `cntlzw r0,r0` and `rlwinm r3,r0,27,5,31`. */
  lemma {:induction false} TestWords()
    ensures InsnOf(0x7C000034) == Some(CountZeros(0, 0)) && InsnOf(0x5403D97E) == Some(ShiftDown(3, 0, 5))
  {
    CountWord();
    ShiftWord();
  }

  lemma {:induction false} CountWord()
    ensures InsnOf(0x7C000034) == Some(CountZeros(0, 0))
  {
    var y: Word := 0x7C000034;
    assert Opcode(y) == 31 && FieldD(y) == 0 && FieldA(y) == 0 && FieldB(y) == 0;
    assert Extended(y) == 26 && y % 2 == 0;
  }

  lemma {:induction false} ShiftWord()
    ensures InsnOf(0x5403D97E) == Some(ShiftDown(3, 0, 5))
  {
    var z: Word := 0x5403D97E;
    assert Opcode(z) == 21 && FieldD(z) == 0 && FieldA(z) == 3 && FieldB(z) == 27;
    assert z / 64 % 32 == 5 && z / 2 % 32 == 31 && z % 2 == 0;
  }

  lemma {:induction false} AddMemWords(off: int)
    requires IsOffset(off)
    ensures InsnsOf(Reencode(AddMem(off))) == Some(Program(AddMem(off)))
  {
    var w, y := Make(32, 0, 3, off), Make(36, 0, 3, off);
    AddWord();
    LoadWord(Int, 0, 3, off);
    StoreWord(Int, 0, 3, off);
    Words3(w, 0x7C002214, y, Ld(Int, 0, 3, off), Add(0, 0, 4), St(Int, 0, 3, off));
  }

  lemma {:induction false} EqConstWords(off: int, k: int, base: Reg)
    requires IsOffset(off) && 0 < k <= 0x8000
    ensures InsnsOf(Reencode(EqConst(off, k, base))) == Some(Program(EqConst(off, k, base)))
  {
    NegativeImmediate(k);
    EqConstInsns(off, (-k) % 0x1_0000, base);
  }

  lemma {:induction false} NegativeImmediate(k: int)
    requires 0 < k <= 0x8000
    ensures SignExtend((-k) % 0x1_0000) == -k
  {
    assert (-k) % 0x1_0000 == 0x1_0000 - k;
  }

  lemma {:induction false} EqConstInsns(off: int, imm: int, base: Reg)
    requires IsOffset(off) && 0 <= imm < 0x1_0000
    ensures InsnsOf([Make(32, 3, base, off), Make(14, 0, 3, imm), 0x7C000034, 0x5403D97E, BLR])
            == Some([Ld(Int, 3, base, off), Addi(0, 3, SignExtend(imm)), CountZeros(0, 0), ShiftDown(3, 0, 5)])
  {
    LoadWord(Int, 3, base, off);
    AddiWord(0, 3, imm);
    TestWords();
    Words4(Make(32, 3, base, off), Make(14, 0, 3, imm), 0x7C000034, 0x5403D97E,
           Ld(Int, 3, base, off), Addi(0, 3, SignExtend(imm)), CountZeros(0, 0), ShiftDown(3, 0, 5));
  }

  lemma {:induction false} Words4(w: Word, x: Word, y: Word, z: Word, i: Insn, j: Insn, k: Insn, l: Insn)
    requires w != BLR && InsnOf(w) == Some(i) && x != BLR && InsnOf(x) == Some(j)
    requires y != BLR && InsnOf(y) == Some(k) && z != BLR && InsnOf(z) == Some(l)
    ensures InsnsOf([w, x, y, z, BLR]) == Some([i, j, k, l])
  {
    Words3(x, y, z, j, k, l);
    Cons(w, [x, y, z, BLR], i, [j, k, l]);
    assert [w] + [x, y, z, BLR] == [w, x, y, z, BLR] && [i] + [j, k, l] == [i, j, k, l];
  }

  // ----- the constant setter -----

  function StoreProgram(stores: seq<Store>): seq<Insn> {
    if stores == [] then [] else [St(stores[0].0, 0, 3, stores[0].1)] + StoreProgram(stores[1..])
  }

  lemma {:induction false} StoreWords(stores: seq<Store>)
    requires EncodeStores(stores).Some?
    ensures InsnsOf(EncodeStores(stores).value + [BLR]) == Some(StoreProgram(stores))
  {
    if stores == [] {
      assert [] + [BLR] == [BLR];
    } else {
      var (t, off) := stores[0];
      var w, rest := Make(StoreOp(t).value, 0, 3, off), EncodeStores(stores[1..]).value;
      StoreWords(stores[1..]);
      StoreWord(t, 0, 3, off);
      Cons(w, rest + [BLR], St(t, 0, 3, off), StoreProgram(stores[1..]));
      assert [w] + rest + [BLR] == [w] + (rest + [BLR]);
    }
  }

  /** Each store cuts the constant to its own width, in the order of the words. */
  lemma {:induction false} StoresDo(k: int, stores: seq<Store>, cpu: Cpu, call: Call)
    requires EncodeStores(stores).Some? && cpu.gpr[0] == Wrap(k) && call.self == cpu.gpr[3]
    ensures var after := ExecuteAll(StoreProgram(stores), cpu);
            after.gpr == cpu.gpr && after.mem == RunStmts(AssignAll(k, stores), call, cpu.mem)
  {
    if stores != [] {
      var (t, off) := stores[0];
      var next := Execute(St(t, 0, 3, off), cpu);
      StoresDo(k, stores[1..], next, call);
      StoreFirst(k, t, off, StoreProgram(stores[1..]), AssignAll(k, stores[1..]), cpu, next, call);
    }
  }

  lemma {:induction false} StoreFirst(k: int, t: CType, off: int, prog: seq<Insn>, stmts: seq<Stmt>, cpu: Cpu,
                                      next: Cpu, call: Call)
    requires cpu.gpr[0] == Wrap(k) && call.self == cpu.gpr[3] && next == Execute(St(t, 0, 3, off), cpu)
    ensures ExecuteAll([St(t, 0, 3, off)] + prog, cpu) == ExecuteAll(prog, next) && next.gpr == cpu.gpr
    ensures RunStmts([Assign(Member(t, off), Number(k))] + stmts, call, cpu.mem) == RunStmts(stmts, call, next.mem)
  {
    assert ([St(t, 0, 3, off)] + prog)[1..] == prog;
    assert ([Assign(Member(t, off), Number(k))] + stmts)[1..] == stmts;
  }

  lemma {:induction false} SignExtendMod(k: int)
    requires -0x8000 <= k < 0x8000
    ensures SignExtend(k % 0x1_0000) == k
  {
    assert k % 0x1_0000 == if k < 0 then k + 0x1_0000 else k;
  }

  lemma {:induction false} ConstSetWords(k: int, stores: seq<Store>)
    requires EncodeStores(stores).Some? && -0x8000 <= k < 0x8000
    ensures InsnsOf(Reencode(ConstSet(k, stores))) == Some([Addi(0, 0, k)] + StoreProgram(stores))
  {
    var w, rest := Make(14, 0, 0, k % 0x1_0000), EncodeStores(stores).value;
    SignExtendMod(k);
    AddiWord(0, 0, k % 0x1_0000);
    StoreWords(stores);
    Cons(w, rest + [BLR], Addi(0, 0, k), StoreProgram(stores));
    assert [w] + rest + [BLR] == [w] + (rest + [BLR]);
  }

  lemma {:induction false} ConstSetDoes(k: int, stores: seq<Store>, cpu: Cpu)
    requires EncodeStores(stores).Some?
    ensures Does(ConstSet(k, stores), cpu, ExecuteAll([Addi(0, 0, k)] + StoreProgram(stores), cpu))
  {
    var prog := [Addi(0, 0, k)] + StoreProgram(stores);
    assert prog[1..] == StoreProgram(stores);
    StoresDo(k, stores, SetReg(cpu, 0, Wrap(k)), CallOf(ConstSet(k, stores), cpu));
  }

  // ----- the other shapes -----

  lemma {:induction false} Steps1(i: Insn, cpu: Cpu)
    ensures ExecuteAll([i], cpu) == Execute(i, cpu)
  {
    assert [i][1..] == [];
  }

  lemma {:induction false} Steps2(i: Insn, j: Insn, cpu: Cpu, c1: Cpu, c2: Cpu)
    requires Execute(i, cpu) == c1 && Execute(j, c1) == c2
    ensures ExecuteAll([i, j], cpu) == c2
  {
    assert [i, j][1..] == [j];
    Steps1(j, c1);
  }

  lemma {:induction false} Steps3(i: Insn, j: Insn, k: Insn, cpu: Cpu, c1: Cpu, c2: Cpu, c3: Cpu)
    requires Execute(i, cpu) == c1 && Execute(j, c1) == c2 && Execute(k, c2) == c3
    ensures ExecuteAll([i, j, k], cpu) == c3
  {
    assert [i, j, k][1..] == [j, k];
    Steps2(j, k, c1, c2, c3);
  }

  lemma {:induction false} Steps4(i: Insn, j: Insn, k: Insn, l: Insn, cpu: Cpu, c1: Cpu, c2: Cpu, c3: Cpu, c4: Cpu)
    requires Execute(i, cpu) == c1 && Execute(j, c1) == c2 && Execute(k, c2) == c3 && Execute(l, c3) == c4
    ensures ExecuteAll([i, j, k, l], cpu) == c4
  {
    assert [i, j, k, l][1..] == [j, k, l];
    Steps3(j, k, l, c1, c2, c3, c4);
  }

  lemma {:induction false} OneAssignment(p: Place, e: Expr, call: Call, mem: Memory)
    ensures RunStmts([Assign(p, e)], call, mem) == Write(mem, Address(p, call), Width(p.t), Eval(e, call, mem))
  {
    assert [Assign(p, e)][1..] == [];
  }

  /** Counting leading zeros and shifting right by five tells zero from everything else. */
  lemma {:induction false} ZeroTest(w: Word)
    ensures LeadingZeros(w, 32) <= 32
    ensures ShiftRight(LeadingZeros(w, 32), 5) == if w == 0 then 1 else 0
  {
    FullRange();
    LeadingZerosBound(w, 32);
    ShiftByFive(LeadingZeros(w, 32));
  }

  lemma {:induction false} FullRange()
    ensures Pow2(32) == 0x1_0000_0000
  {
    FourMore(0, 1);
    FourMore(4, 0x10);
    FourMore(8, 0x100);
    FourMore(12, 0x1000);
    FourMore(16, 0x1_0000);
    FourMore(20, 0x10_0000);
    FourMore(24, 0x100_0000);
    FourMore(28, 0x1000_0000);
  }

  lemma {:induction false} FourMore(n: nat, p: nat)
    requires Pow2(n) == p
    ensures Pow2(n + 4) == 16 * p
  {
    assert Pow2(n + 1) == 2 * p;
    assert Pow2(n + 2) == 2 * Pow2(n + 1);
    assert Pow2(n + 3) == 2 * Pow2(n + 2);
    assert Pow2(n + 4) == 2 * Pow2(n + 3);
  }

  lemma {:induction false} ShiftByFive(z: Word)
    requires z <= 32
    ensures ShiftRight(z, 5) == if z == 32 then 1 else 0
  {
    assert ShiftRight(z, 5) == ShiftRight(z / 2, 4);
    assert ShiftRight(z / 2, 4) == ShiftRight(z / 2 / 2, 3);
    assert ShiftRight(z / 2 / 2, 3) == ShiftRight(z / 2 / 2 / 2, 2);
    assert ShiftRight(z / 2 / 2 / 2, 2) == z / 2 / 2 / 2 / 2 / 2;
  }

  /** The difference wraps to zero only when the field is the constant. */
  lemma {:induction false} DifferenceZero(field: Word, k: int)
    requires 0 < k <= 0x8000
    ensures Wrap(field - k) == 0 <==> Signed(field) == k
  {
    if field < k { assert Wrap(field - k) == field - k + MODULUS; }
  }

  lemma {:induction false} EqConstDoes(off: int, k: int, base: Reg, cpu: Cpu)
    requires IsOffset(off) && 0 < k <= 0x8000 && UsableRegister(EqConst(off, k, base))
    ensures Does(EqConst(off, k, base), cpu, ExecuteAll(Program(EqConst(off, k, base)), cpu))
  {
    TestRuns(off, k, base, cpu);
    EqConstTest(off, k, base, cpu, ExecuteAll(Program(EqConst(off, k, base)), cpu));
  }

  /** What the five words do, whatever the register: 1 when the word found there is the constant, else 0. */
  lemma {:induction false} TestRuns(off: int, k: int, base: Reg, cpu: Cpu)
    requires IsOffset(off) && 0 < k <= 0x8000
    ensures var after := ExecuteAll(Program(EqConst(off, k, base)), cpu);
            && after.mem == cpu.mem
            && after.gpr[3] == (if Signed(Load(cpu.mem, Int, Wrap(Base(cpu, base) + off))) == k then 1 else 0)
            && forall i :: 0 <= i < 32 && i != 0 && i != 3 ==> after.gpr[i] == cpu.gpr[i]
  {
    var field := Load(cpu.mem, Int, Wrap(Base(cpu, base) + off));
    var difference := Wrap(field - k);
    ZeroTest(difference);
    DifferenceZero(field, k);
    var c1 := SetReg(cpu, 3, field);
    var c2 := SetReg(c1, 0, difference);
    var c3 := SetReg(c2, 0, LeadingZeros(difference, 32));
    var c4 := SetReg(c3, 3, ShiftRight(LeadingZeros(difference, 32), 5));
    Steps4(Ld(Int, 3, base, off), Addi(0, 3, -k), CountZeros(0, 0), ShiftDown(3, 0, 5), cpu, c1, c2, c3, c4);
  }

  lemma {:induction false} EqConstTest(off: int, k: int, base: Reg, cpu: Cpu, after: Cpu)
    requires after.mem == cpu.mem
    requires after.gpr[3] == if Signed(Load(cpu.mem, Int, Wrap(cpu.gpr[base] + off))) == k then 1 else 0
    requires forall i :: 0 <= i < 32 && i != 0 && i != 3 ==> after.gpr[i] == cpu.gpr[i]
    requires base == 3 || base == 5
    ensures Does(EqConst(off, k, base), cpu, after)
  {
  }

  lemma {:induction false} AddMemDoes(off: int, cpu: Cpu)
    requires IsOffset(off)
    ensures Does(AddMem(off), cpu, ExecuteAll(Program(AddMem(off)), cpu))
  {
    var a := Wrap(cpu.gpr[3] + off);
    AddMemRuns(off, cpu, a, Wrap(Load(cpu.mem, Int, a) + cpu.gpr[4]));
    OneAssignment(Member(Int, off), Sum(Value(Member(Int, off)), Argument), CallOf(AddMem(off), cpu), cpu.mem);
  }

  lemma {:induction false} AddMemRuns(off: int, cpu: Cpu, a: Word, sum: Word)
    requires IsOffset(off) && a == Wrap(cpu.gpr[3] + off) && sum == Wrap(Load(cpu.mem, Int, a) + cpu.gpr[4])
    ensures ExecuteAll(Program(AddMem(off)), cpu) == SetReg(cpu, 0, sum).(mem := Write(cpu.mem, a, 4, sum))
  {
    var c1, c2 := SetReg(cpu, 0, Load(cpu.mem, Int, a)), SetReg(cpu, 0, sum);
    assert SetReg(c1, 0, sum).gpr == c2.gpr;
    Steps3(Ld(Int, 0, 3, off), Add(0, 0, 4), St(Int, 0, 3, off), cpu, c1, c2, c2.(mem := Write(cpu.mem, a, 4, sum)));
  }

  /** The address the low half is really added to: zero plus it, through register 0. */
  function Reached(v: Word, d: Reg): Word {
    Wrap((if d == 0 then 0 else HighHalf(v) * 0x1_0000) + SignExtend(LowHalf(v)))
  }

  /** It is the global's address exactly when the register is not 0, or the high half is. */
  lemma {:induction false} ReachedRight(v: Word, d: Reg)
    ensures Reached(v, d) == v <==> d != 0 || HighHalf(v) == 0
  {
    HalvesBijection(v, HighHalf(v), LowHalf(v));
    HalvesBijection(v, 0, LowHalf(v));
  }

  lemma {:induction false} GRefRuns(v: Word, cpu: Cpu)
    ensures ExecuteAll(Program(GRef(v)), cpu) == SetReg(cpu, 3, v)
  {
    LisReaches(v, 3, cpu);
    ReachedRight(v, 3);
    Steps2(Addi(3, 0, HighHalf(v) * 0x1_0000), Addi(3, 3, SignExtend(LowHalf(v))), cpu,
           SetReg(cpu, 3, HighHalf(v) * 0x1_0000), SetReg(cpu, 3, v));
  }

  lemma {:induction false} GGetRuns(t: CType, v: Word, d: Reg, cpu: Cpu)
    requires !t.Float?
    ensures var c1 := SetReg(cpu, d, HighHalf(v) * 0x1_0000);
            ExecuteAll(Program(GGet(t, v, d)), cpu) == SetReg(c1, 3, Load(cpu.mem, t, Reached(v, d)))
  {
    var i, j := Addi(d, 0, HighHalf(v) * 0x1_0000), Ld(t, 3, d, SignExtend(LowHalf(v)));
    var c1 := SetReg(cpu, d, HighHalf(v) * 0x1_0000);
    LisReaches(v, d, cpu);
    Steps2(i, j, cpu, c1, SetReg(c1, 3, Load(cpu.mem, t, Reached(v, d))));
    assert Program(GGet(t, v, d)) == [i, j];
  }

  lemma {:induction false} GSetRuns(t: CType, v: Word, d: Reg, from: Reg, cpu: Cpu)
    requires !t.Float?
    ensures var c1 := SetReg(cpu, d, HighHalf(v) * 0x1_0000);
            ExecuteAll(Program(GSet(t, v, d, from)), cpu)
            == c1.(mem := Write(cpu.mem, Reached(v, d), Width(t), c1.gpr[from]))
  {
    LisReaches(v, d, cpu);
    StoreAfterLis(t, d, from, HighHalf(v) * 0x1_0000, SignExtend(LowHalf(v)), Reached(v, d), cpu);
    assert Program(GSet(t, v, d, from))
           == [Addi(d, 0, HighHalf(v) * 0x1_0000), St(t, from, d, SignExtend(LowHalf(v)))];
  }

  lemma {:induction false} StoreAfterLis(t: CType, d: Reg, from: Reg, h: Word, lo: int, r: Word, cpu: Cpu)
    requires Execute(Addi(d, 0, h), cpu) == SetReg(cpu, d, h)
    requires Wrap(Base(SetReg(cpu, d, h), d) + lo) == r
    ensures var c1 := SetReg(cpu, d, h);
            ExecuteAll([Addi(d, 0, h), St(t, from, d, lo)], cpu)
            == c1.(mem := Write(cpu.mem, r, Width(t), c1.gpr[from]))
  {
    var c1 := SetReg(cpu, d, h);
    Steps2(Addi(d, 0, h), St(t, from, d, lo), cpu, c1, c1.(mem := Write(cpu.mem, r, Width(t), c1.gpr[from])));
  }

  lemma {:induction false} VTableRuns(v: Word, off: int, d: Reg, cpu: Cpu)
    ensures var c2 := SetReg(cpu, d, Reached(v, d));
            ExecuteAll(Program(VTable(v, off, d)), cpu)
            == c2.(mem := Write(cpu.mem, Wrap(c2.gpr[3] + off), 4, Reached(v, d)))
  {
    LisReaches(v, d, cpu);
    StoreAfterAddress(d, HighHalf(v) * 0x1_0000, SignExtend(LowHalf(v)), Reached(v, d), off, cpu);
    assert Program(VTable(v, off, d))
           == [Addi(d, 0, HighHalf(v) * 0x1_0000), Addi(d, d, SignExtend(LowHalf(v))), St(Int, d, 3, off)];
  }

  lemma {:induction false} StoreAfterAddress(d: Reg, h: Word, lo: int, r: Word, off: int, cpu: Cpu)
    requires Execute(Addi(d, 0, h), cpu) == SetReg(cpu, d, h)
    requires Execute(Addi(d, d, lo), SetReg(cpu, d, h)) == SetReg(cpu, d, r)
    ensures var c2 := SetReg(cpu, d, r);
            ExecuteAll([Addi(d, 0, h), Addi(d, d, lo), St(Int, d, 3, off)], cpu)
            == c2.(mem := Write(cpu.mem, Wrap(c2.gpr[3] + off), 4, r))
  {
    var c2 := SetReg(cpu, d, r);
    Steps3(Addi(d, 0, h), Addi(d, d, lo), St(Int, d, 3, off), cpu, SetReg(cpu, d, h), c2,
           c2.(mem := Write(cpu.mem, Wrap(c2.gpr[3] + off), 4, r)));
  }

  lemma {:induction false} LisReaches(v: Word, d: Reg, cpu: Cpu)
    ensures var c1 := SetReg(cpu, d, HighHalf(v) * 0x1_0000);
            && Execute(Addi(d, 0, HighHalf(v) * 0x1_0000), cpu) == c1
            && Wrap(Base(c1, d) + SignExtend(LowHalf(v))) == Reached(v, d)
            && Execute(Addi(d, d, SignExtend(LowHalf(v))), c1) == SetReg(cpu, d, Reached(v, d))
  {
    var c1 := SetReg(cpu, d, HighHalf(v) * 0x1_0000);
    assert SetReg(c1, d, Reached(v, d)).gpr == SetReg(cpu, d, Reached(v, d)).gpr;
  }

  lemma {:induction false} GlobalDoes(shape: Shape, cpu: Cpu)
    requires InSubset(shape) && Encodable(shape) && UsableRegister(shape)
    requires shape.GRef? || shape.GGet? || shape.GSet? || shape.VTable?
    ensures Does(shape, cpu, ExecuteAll(Program(shape), cpu))
  {
    match shape
    case GRef(v) => GRefRuns(v, cpu);
    case GGet(t, v, d) =>
      GGetRuns(t, v, d, cpu);
      ReachedRight(v, d);
    case GSet(t, v, d, from) =>
      GSetRuns(t, v, d, from, cpu);
      ReachedRight(v, d);
      SetRegDoes(shape, d, Variable(t, v), Argument, v, cpu.gpr[from], cpu, SetReg(cpu, d, HighHalf(v) * 0x1_0000));
    case VTable(v, off, d) =>
      VTableRuns(v, off, d, cpu);
      ReachedRight(v, d);
      SetRegDoes(shape, d, Member(Int, off), AddressOf(Variable(Int, v)), Wrap(cpu.gpr[3] + off), v, cpu,
                 SetReg(cpu, d, v));
  }

  /** One register changed and one place assigned is what a body of one assignment does. */
  lemma {:induction false} SetRegDoes(shape: Shape, d: Reg, p: Place, e: Expr, at: Word, value: Word, cpu: Cpu, c1: Cpu)
    requires InSubset(shape) && Define(shape) == Some(Body([Assign(p, e)], None)) && Volatile(d)
    requires forall i :: 0 <= i < 32 && i != d ==> c1.gpr[i] == cpu.gpr[i]
    requires Address(p, CallOf(shape, cpu)) == at && Eval(e, CallOf(shape, cpu), cpu.mem) == value
    ensures Does(shape, cpu, c1.(mem := Write(cpu.mem, at, Width(p.t), value)))
  {
    OneAssignment(p, e, CallOf(shape, cpu), cpu.mem);
  }

  lemma {:induction false} MemberDoes(shape: Shape, cpu: Cpu)
    requires InSubset(shape) && Encodable(shape)
    requires shape.Get? || shape.Set? || shape.Ref?
    ensures Does(shape, cpu, ExecuteAll(Program(shape), cpu))
  {
    match shape
    case Get(t, off) => Steps1(Ld(t, 3, 3, off), cpu);
    case Set(t, off) => SetDoes(t, off, cpu);
    case Ref(off) => Steps1(Addi(3, 3, off), cpu);
  }

  lemma {:induction false} SetDoes(t: CType, off: int, cpu: Cpu)
    requires !t.Float? && Encodable(Set(t, off))
    ensures Does(Set(t, off), cpu, ExecuteAll(Program(Set(t, off)), cpu))
  {
    Steps1(St(t, 4, 3, off), cpu);
    OneAssignment(Member(t, off), Argument, CallOf(Set(t, off), cpu), cpu.mem);
  }

  /** The constants a decoded body can hold. */
  predicate ConstantsFit(shape: Shape) {
    && (shape.EqConst? ==> 0 < shape.k <= 0x8000)
    && (shape.ConstSet? ==> -0x8000 <= shape.k < 0x8000)
  }

  /** A shape with a usable register means what is written for it, from every state. */
  lemma {:induction false} ShapeMeans(shape: Shape, cpu: Cpu)
    requires InSubset(shape) && Encodable(shape) && ConstantsFit(shape) && UsableRegister(shape)
    ensures Means(shape, Reencode(shape), cpu)
  {
    match shape
    case ConstSet(k, stores) =>
      ConstSetWords(k, stores);
      ConstSetDoes(k, stores, cpu);
    case AddMem(off) =>
      ProgramOfWords(shape);
      AddMemDoes(off, cpu);
    case EqConst(off, k, base) =>
      ProgramOfWords(shape);
      EqConstDoes(off, k, base, cpu);
    case _ => OtherMeans(shape, cpu);
  }

  lemma {:induction false} OtherMeans(shape: Shape, cpu: Cpu)
    requires InSubset(shape) && Encodable(shape) && ConstantsFit(shape) && UsableRegister(shape)
    requires !shape.ConstSet? && !shape.AddMem? && !shape.EqConst?
    ensures Means(shape, Reencode(shape), cpu)
  {
    ProgramOfWords(shape);
    if shape.Get? || shape.Set? || shape.Ref? { MemberDoes(shape, cpu); } else { GlobalDoes(shape, cpu); }
  }

  // ----- and only then -----

  function Cell(a: int, i: int): Word { Wrap(a + i) }

  /** A byte outside what is written stays. */
  lemma {:induction false} KeptElsewhere(mem: Memory, a: int, n: nat, v: nat, x: Word)
    requires forall i :: 0 <= i < n ==> x != Cell(a, i)
    ensures At(Write(mem, a, n, v), x) == At(mem, x)
  {
    if n > 0 {
      KeptElsewhere(mem, a, n - 1, v / 0x100, x);
      assert x != Cell(a, n - 1);
    }
  }

  lemma {:induction false} NotWritten(mem: Memory, a: int, n: nat, v: nat, x: int)
    requires x !in mem && forall i :: 0 <= i < n ==> x != Cell(a, i)
    ensures x !in Write(mem, a, n, v)
  {
    if n > 0 {
      NotWritten(mem, a, n - 1, v / 0x100, x);
      assert x != Cell(a, n - 1);
    }
  }

  /** Addresses less than 2^32 - 3 apart, and more than three, share no byte of four. */
  lemma {:induction false} FarApart(a: int, b: int, i: int, j: int)
    requires 3 < a - b < MODULUS - 3 && 0 <= i < 4 && 0 <= j < 4
    ensures Wrap(a + i) != Wrap(b + j)
  {
    var d := a + i - (b + j);
    assert 0 < d < MODULUS;
    var p, q := (a + i) / MODULUS, (b + j) / MODULUS;
    assert a + i == p * MODULUS + Wrap(a + i) && b + j == q * MODULUS + Wrap(b + j);
  }

  /** Through register 0 the access is a multiple of 2^16 away. */
  lemma {:induction false} ReachedFar(v: Word)
    requires HighHalf(v) != 0
    ensures 3 < v - Reached(v, 0) < MODULUS - 3 || 3 < Reached(v, 0) - v < MODULUS - 3
  {
    HalvesBijection(v, HighHalf(v), LowHalf(v));
    var lo, h := SignExtend(LowHalf(v)), HighHalf(v) * 0x1_0000;
    assert v == Wrap(h + lo) == if h + lo < 0 then h + lo + MODULUS else h + lo;
    assert Reached(v, 0) == if lo < 0 then lo + MODULUS else lo;
  }

  /** All registers zero but one. */
  function OneReg(r: Reg, v: Word): Gpr {
    seq(32, _ => 0)[r := v]
  }

  lemma {:induction false} ReadNothing(mem: Memory, a: int, n: nat)
    requires forall i :: 0 <= i < n ==> Cell(a, i) !in mem
    ensures Read(mem, a, n) == 0
  {
    if n > 0 {
      ReadNothing(mem, a, n - 1);
      assert Cell(a, n - 1) !in mem;
    }
  }

  lemma {:induction false} LoadFar(t: CType, v: Word)
    requires HighHalf(v) != 0
    ensures Load(map[v := 1], t, Reached(v, 0)) == 0
  {
    var r := Reached(v, 0);
    ReachedFar(v);
    forall i | 0 <= i < 4
      ensures Cell(r, i) != v
    {
      if r > v { FarApart(r, v, i, 0); } else { FarApart(v, r, 0, i); }
    }
    ReadNothing(map[v := 1], r, Width(t));
  }

  lemma {:induction false} LoadHere(t: CType, v: Word)
    ensures Load(map[v := 1], t, v) != 0
  {
    var mem: Memory := map[v := 1];
    assert At(mem, v) == 1;
    assert Read(mem, v, 1) == 1;
    assert Read(mem, v, 2) >= 0x100;
    assert Read(mem, v, 3) >= 0x1_0000;
    assert Read(mem, v, 4) >= 0x100_0000;
  }

  /** A register the caller keeps comes back changed. */
  lemma {:induction false} Clobbered(shape: Shape, cpu: Cpu, d: Reg)
    requires InSubset(shape) && !shape.ConstSet? && !shape.EqConst? && Encodable(shape) && !Volatile(d)
    requires ExecuteAll(Program(shape), cpu).gpr[d] != cpu.gpr[d]
    ensures !Means(shape, Reencode(shape), cpu)
  {
    ProgramOfWords(shape);
  }

  /** A value that register d does not hold afterwards. */
  function Other(w: Word): Word {
    if w == 0 then 1 else 0
  }

  /** A global read through register 0 reads somewhere else; through a register of the caller's, it loses that. */
  lemma {:induction false} GGetAstray(t: CType, v: Word, d: Reg) returns (cpu: Cpu)
    requires !t.Float? && !UsableRegister(GGet(t, v, d))
    ensures !Means(GGet(t, v, d), Reencode(GGet(t, v, d)), cpu)
  {
    if Volatile(d) {
      cpu := Cpu(OneReg(0, 0), map[v := 1]);
      ProgramOfWords(GGet(t, v, 0));
      GGetRuns(t, v, 0, cpu);
      LoadFar(t, v);
      LoadHere(t, v);
    } else {
      cpu := Cpu(OneReg(d, Other(HighHalf(v) * 0x1_0000)), map[]);
      GGetRuns(t, v, d, cpu);
      Clobbered(GGet(t, v, d), cpu, d);
    }
  }

  /** A store of another value there, or of any value elsewhere, is not a store of 1 at v. */
  lemma {:induction false} WriteAstray(v: Word, n: nat, r: Word, stored: nat)
    requires 0 < n <= 4
    requires r == v ==> stored % 0x100 == 0
    requires r != v ==> 3 < v - r < MODULUS - 3 || 3 < r - v < MODULUS - 3
    ensures !SameBytes(Write(map[], r, n, stored), Write(map[], v, n, 1))
  {
    var x := Wrap(v + n - 1);
    assert At(Write(map[], v, n, 1), x) == 1;
    if r == v {
      assert At(Write(map[], r, n, stored), x) == 0;
    } else {
      forall i | 0 <= i < n
        ensures x != Cell(r, i)
      {
        if r > v { FarApart(r, v, i, n - 1); } else { FarApart(v, r, n - 1, i); }
      }
      KeptElsewhere(map[], r, n, stored, x);
    }
  }

  /** A state whose memory comes out different refutes the meaning. */
  lemma {:induction false} Refuted(shape: Shape, cpu: Cpu, after: Memory, p: Place, e: Expr, at: Word, value: Word)
    requires InSubset(shape) && !shape.ConstSet? && !shape.EqConst? && Encodable(shape)
    requires ExecuteAll(Program(shape), cpu).mem == after
    requires Define(shape).value.stmts == [Assign(p, e)]
    requires Address(p, CallOf(shape, cpu)) == at && Eval(e, CallOf(shape, cpu), cpu.mem) == value
    requires !SameBytes(after, Write(cpu.mem, at, Width(p.t), value))
    ensures !Means(shape, Reencode(shape), cpu)
  {
    ProgramOfWords(shape);
    OneAssignment(p, e, CallOf(shape, cpu), cpu.mem);
  }

  lemma {:induction false} ReachedFrom(v: Word, d: Reg, from: Reg) returns (r: Word)
    requires d == from || (d == 0 && HighHalf(v) != 0)
    ensures r == Reached(v, d) && (r == v ==> d == from)
    ensures r != v ==> 3 < v - r < MODULUS - 3 || 3 < r - v < MODULUS - 3
  {
    r := Reached(v, d);
    ReachedRight(v, d);
    if r != v { ReachedFar(v); }
  }

  lemma {:induction false} GSetDiffers(t: CType, v: Word, d: Reg, from: Reg, stored: Word)
    requires d == from || (d == 0 && HighHalf(v) != 0)
    requires stored == if d == from then HighHalf(v) * 0x1_0000 else 1
    ensures !SameBytes(Write(map[], Reached(v, d), Width(t), stored), Write(map[], v, Width(t), 1))
  {
    var r := ReachedFrom(v, d, from);
    StoredAstray(v, Width(t), r, HighHalf(v), stored, d == from);
  }

  lemma {:induction false} StoredAstray(v: Word, n: nat, r: Word, high: nat, stored: nat, same: bool)
    requires 0 < n <= 4 && (r == v ==> same) && stored == if same then high * 0x1_0000 else 1
    requires r != v ==> 3 < v - r < MODULUS - 3 || 3 < r - v < MODULUS - 3
    ensures !SameBytes(Write(map[], r, n, stored), Write(map[], v, n, 1))
  {
    if same { assert stored == 0x100 * (0x100 * high); }
    WriteAstray(v, n, r, stored);
  }

  /** A global written through register 0, or from the register that holds its address, is not that assignment. */
  lemma {:induction false} GSetAstray(t: CType, v: Word, d: Reg, from: Reg) returns (cpu: Cpu)
    requires !t.Float? && StoreOp(t).Some? && !UsableRegister(GSet(t, v, d, from))
    ensures !Means(GSet(t, v, d, from), Reencode(GSet(t, v, d, from)), cpu)
  {
    if Volatile(d) {
      cpu := Cpu(OneReg(from, 1), map[]);
      var stored := SetReg(cpu, d, HighHalf(v) * 0x1_0000).gpr[from];
      GSetDiffers(t, v, d, from, stored);
      GSetRefuted(t, v, d, from, cpu, stored);
    } else {
      cpu := Cpu(OneReg(d, Other(HighHalf(v) * 0x1_0000)), map[]);
      GSetRuns(t, v, d, from, cpu);
      Clobbered(GSet(t, v, d, from), cpu, d);
    }
  }

  lemma {:induction false} GSetRefuted(t: CType, v: Word, d: Reg, from: Reg, cpu: Cpu, stored: Word)
    requires !t.Float? && StoreOp(t).Some? && stored == SetReg(cpu, d, HighHalf(v) * 0x1_0000).gpr[from]
    requires !SameBytes(Write(cpu.mem, Reached(v, d), Width(t), stored), Write(cpu.mem, v, Width(t), cpu.gpr[from]))
    ensures !Means(GSet(t, v, d, from), Reencode(GSet(t, v, d, from)), cpu)
  {
    GSetRuns(t, v, d, from, cpu);
    Refuted(GSet(t, v, d, from), cpu, Write(cpu.mem, Reached(v, d), Width(t), stored),
            Variable(t, v), Argument, v, cpu.gpr[from]);
  }

  function Pow256(n: nat): nat {
    if n == 0 then 1 else 0x100 * Pow256(n - 1)
  }

  /** A byte elsewhere does not change what is read. */
  lemma {:induction false} ReadPast(mem: Memory, a: int, n: nat, x: int, b: Byte)
    requires forall i :: 0 <= i < n ==> Cell(a, i) != x
    ensures Read(mem[x := b], a, n) == Read(mem, a, n)
  {
    if n > 0 {
      ReadPast(mem, a, n - 1, x, b);
      assert Cell(a, n - 1) != x;
    }
  }

  /** Bytes written read back, up to what they hold. */
  lemma {:induction false} ReadWritten(mem: Memory, a: int, n: nat, v: nat)
    requires n <= 4
    ensures Pow256(n) > 0 && Read(Write(mem, a, n, v), a, n) == v % Pow256(n)
  {
    if n > 0 {
      var before := Write(mem, a, n - 1, v / 0x100);
      ReadWritten(mem, a, n - 1, v / 0x100);
      forall i | 0 <= i < n - 1
        ensures Cell(a, i) != Wrap(a + n - 1)
      {
        Apart(a + i, n - 1 - i);
      }
      ReadPast(before, a, n - 1, Wrap(a + n - 1), v % 0x100);
      assert At(before[Wrap(a + n - 1) := v % 0x100], a + n - 1) == v % 0x100;
      LowByte(v, Pow256(n - 1));
    }
  }

  lemma {:induction false} LowByte(v: nat, p: nat)
    requires p > 0
    ensures (v / 0x100) % p * 0x100 + v % 0x100 == v % (0x100 * p)
  {
    var q, r := v / 0x100 / p, (v / 0x100) % p;
    assert v / 0x100 == q * p + r;
    assert v == (0x100 * p) * q + (r * 0x100 + v % 0x100);
    Remainder(v, 0x100 * p, q, r * 0x100 + v % 0x100);
  }

  lemma {:induction false} Remainder(v: nat, m: nat, q: nat, r: nat)
    requires v == m * q + r && r < m
    ensures v % m == r
  {
    var d := v / m - q;
    assert v == m * (v / m) + v % m;
    assert m * d == r - v % m;
    NoMultiple(m, d);
  }

  lemma {:induction false} NoMultiple(m: int, d: int)
    requires m > 0
    ensures -m < m * d < m ==> d == 0
  {
    if d >= 1 { assert m * (d - 1) >= 0; }
    if d <= -1 { assert m * (-d - 1) >= 0; }
  }

  /** Four bytes written read back. */
  lemma {:induction false} ReadBack(mem: Memory, a: int, v: Word)
    ensures Read(Write(mem, a, 4, v), a, 4) == v
  {
    ReadWritten(mem, a, 4, v);
    assert Pow256(2) == 0x1_0000;
    assert Pow256(4) == 0x100 * (0x100 * Pow256(2));
  }

  /** An address stored through register 0 is not the address; built in the object's register, it loses the object. */
  lemma {:induction false} VTableAstray(v: Word, off: int, d: Reg) returns (cpu: Cpu)
    requires IsOffset(off) && !UsableRegister(VTable(v, off, d))
    ensures !Means(VTable(v, off, d), Reencode(VTable(v, off, d)), cpu)
  {
    cpu := Cpu(OneReg(3, Wrap(v + 0x100)), map[]);
    ReachedRight(v, d);
    if !Volatile(d) {
      cpu := Cpu(OneReg(d, Other(v)), map[]);
      VTableRuns(v, off, d, cpu);
      Clobbered(VTable(v, off, d), cpu, d);
    } else if d == 3 {
      var mem := WrittenElsewhere(v, off);
      cpu := Cpu(cpu.gpr, mem);
      VTableRefuted(v, off, d, cpu, v);
    } else {
      var a := Wrap(cpu.gpr[3] + off);
      DifferentWords(cpu.mem, a, Reached(v, d), v);
      VTableRefuted(v, off, d, cpu, cpu.gpr[3]);
    }
  }

  lemma {:induction false} VTableRefuted(v: Word, off: int, d: Reg, cpu: Cpu, self: Word)
    requires IsOffset(off) && self == SetReg(cpu, d, Reached(v, d)).gpr[3]
    requires !SameBytes(Write(cpu.mem, Wrap(self + off), 4, Reached(v, d)),
                        Write(cpu.mem, Wrap(cpu.gpr[3] + off), 4, v))
    ensures !Means(VTable(v, off, d), Reencode(VTable(v, off, d)), cpu)
  {
    VTableRuns(v, off, d, cpu);
    Refuted(VTable(v, off, d), cpu, Write(cpu.mem, Wrap(self + off), 4, Reached(v, d)),
            Member(Int, off), AddressOf(Variable(Int, v)), Wrap(cpu.gpr[3] + off), v);
  }

  /** Two words at one address are two memories. */
  lemma {:induction false} DifferentWords(mem: Memory, a: int, v: Word, w: Word)
    requires v != w
    ensures !SameBytes(Write(mem, a, 4, v), Write(mem, a, 4, w))
  {
    ReadBack(mem, a, v);
    ReadBack(mem, a, w);
    if SameBytes(Write(mem, a, 4, v), Write(mem, a, 4, w)) {
      SameRead(Write(mem, a, 4, v), Write(mem, a, 4, w), a, 4);
    }
  }

  lemma {:induction false} SameRead(m: Memory, m': Memory, a: int, n: nat)
    requires SameBytes(m, m')
    ensures Read(m, a, n) == Read(m', a, n)
  {
    if n > 0 { SameRead(m, m', a, n - 1); }
  }

  /** With another byte there before, one sees that v was written 256 bytes away. */
  lemma {:induction false} WrittenElsewhere(v: Word, off: int) returns (mem: Memory)
    ensures !SameBytes(Write(mem, Wrap(v + off), 4, v), Write(mem, Wrap(Wrap(v + 0x100) + off), 4, v))
  {
    var b, a := Wrap(v + off), Wrap(Wrap(v + 0x100) + off);
    var x := Cell(b, 3);
    mem := map[x := if v % 0x100 == 0 then 1 else 0];
    assert At(Write(mem, b, 4, v), x) == v % 0x100;
    forall i | 0 <= i < 4
      ensures x != Cell(a, i)
    {
      NotNear(v, off, i);
    }
    KeptElsewhere(mem, a, 4, v, x);
  }

  lemma {:induction false} NotNear(v: Word, off: int, i: int)
    requires 0 <= i < 4
    ensures Cell(Wrap(v + off), 3) != Cell(Wrap(Wrap(v + 0x100) + off), i)
  {
    WrapAdd(v + 0x100, off);
    WrapAdd(v + 0x100 + off, i);
    WrapAdd(v + off, 3);
    Apart(v + off + 3, 0xFD + i);
  }

  lemma {:induction false} WrapAdd(a: int, k: int)
    ensures Wrap(Wrap(a) + k) == Wrap(a + k)
  {
    var q := a / MODULUS;
    assert a == q * MODULUS + Wrap(a);
    var d := (Wrap(a) + k) / MODULUS;
    assert Wrap(a) + k == d * MODULUS + Wrap(Wrap(a) + k);
    assert a + k == (q + d) * MODULUS + Wrap(Wrap(a) + k);
  }

  lemma {:induction false} Apart(n: int, k: int)
    requires 0 < k < MODULUS
    ensures Wrap(n + k) != Wrap(n)
  {
    var p, q := (n + k) / MODULUS, n / MODULUS;
    assert n + k == p * MODULUS + Wrap(n + k) && n == q * MODULUS + Wrap(n);
  }

  /** A test through another register does not read the object the C++ names. */
  lemma {:induction false} EqConstAstray(off: int, k: int, base: Reg) returns (cpu: Cpu)
    requires IsOffset(off) && 0 < k <= 0x8000 && base != 3 && base != 5
    ensures !Means(EqConst(off, k, base), Reencode(EqConst(off, k, base)), cpu)
  {
    var there := 0x1000_0000;
    cpu := Cpu(OneReg(5, there), Write(map[], there + off, 4, k));
    ReadBack(map[], there + off, k);
    NothingHere(off, there, k);
    TestRefuted(off, k, base, cpu);
  }

  /** Where the words find 0 and the C++ finds the constant, they differ. */
  lemma {:induction false} TestRefuted(off: int, k: int, base: Reg, cpu: Cpu)
    requires IsOffset(off) && 0 < k <= 0x8000 && base != 3
    requires Load(cpu.mem, Int, Wrap(Base(cpu, base) + off)) == 0
    requires Load(cpu.mem, Int, Wrap(cpu.gpr[5] + off)) == k
    ensures !Means(EqConst(off, k, base), Reencode(EqConst(off, k, base)), cpu)
  {
    TestRuns(off, k, base, cpu);
    NotTheTest(off, k, base, cpu, ExecuteAll(Program(EqConst(off, k, base)), cpu));
    MeansIsDoes(EqConst(off, k, base), cpu);
  }

  lemma {:induction false} NotTheTest(off: int, k: int, base: Reg, cpu: Cpu, after: Cpu)
    requires base != 3 && 0 < k <= 0x8000 && after.gpr[3] == 0
    requires Load(cpu.mem, Int, Wrap(cpu.gpr[5] + off)) == k
    ensures !Does(EqConst(off, k, base), cpu, after)
  {
    var shape := EqConst(off, k, base);
    assert Eval(Define(shape).value.result.value, CallOf(shape, cpu), cpu.mem) == 1;
  }

  /** The words mean the C++ from a state when what the program does to it is that. */
  lemma {:induction false} MeansIsDoes(shape: Shape, cpu: Cpu)
    requires InSubset(shape) && !shape.ConstSet? && Encodable(shape) && ConstantsFit(shape)
    ensures Means(shape, Reencode(shape), cpu) <==> Does(shape, cpu, ExecuteAll(Program(shape), cpu))
  {
    ProgramOfWords(shape);
  }

  lemma {:induction false} NothingHere(off: int, there: int, k: Word)
    requires IsOffset(off) && there == 0x1000_0000
    ensures Read(Write(map[], there + off, 4, k), off, 4) == 0
  {
    var far := there + off;
    var mem := Write(map[], far, 4, k);
    forall i | 0 <= i < 4
      ensures Cell(off, i) !in mem
    {
      forall j | 0 <= j < 4
        ensures Cell(far, j) != Cell(off, i)
      {
        FarApart(far, off, j, i);
      }
      NotWritten(map[], far, 4, k, Cell(off, i));
    }
    ReadNothing(mem, off, 4);
  }

  /**
   Exactly when: for every body that decodes to an integer shape without a call,
   the words mean the C++ written for them from every state if and only if the
   register is usable.  The generator checks that of equality tests, and of nothing else.
   */
  lemma {:induction false} MeansExactly(ws: seq<Word>, shape: Shape)
    requires DecodeWords(ws) == Some(shape) && InSubset(shape)
    ensures (forall cpu :: Means(shape, ws, cpu)) <==> UsableRegister(shape)
  {
    WordsExact(ws);
    if UsableRegister(shape) {
      forall cpu
        ensures Means(shape, ws, cpu)
      {
        ShapeMeans(shape, cpu);
      }
    } else {
      var cpu := Astray(shape);
      assert !Means(shape, ws, cpu);
    }
  }

  lemma {:induction false} Astray(shape: Shape) returns (cpu: Cpu)
    requires InSubset(shape) && Encodable(shape) && ConstantsFit(shape) && !UsableRegister(shape)
    ensures !Means(shape, Reencode(shape), cpu)
  {
    match shape
    case GGet(t, v, d) => cpu := GGetAstray(t, v, d);
    case GSet(t, v, d, from) => cpu := GSetAstray(t, v, d, from);
    case VTable(v, off, d) => cpu := VTableAstray(v, off, d);
    case EqConst(off, k, base) => cpu := EqConstAstray(off, k, base);
  }
}
