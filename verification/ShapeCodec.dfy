/**
 The instruction-shape codec of `tools/gen_accessors.py` and the constant-return
 codec of `tools/gen_typeids.py`.  A shape names the few fields of a function body
 that vary; re-encoding it has to give the same bytes back.
 */
module ShapeCodec {
  import opened Words
  import opened Wrappers

  type Byte = b: int | 0 <= b < 0x100

  // ----- bytes and words, big-endian -----

  function PackWord(w: Word): seq<Byte> {
    [w / 0x100_0000, w / 0x1_0000 % 0x100, w / 0x100 % 0x100, w % 0x100]
  }

  function Pack(ws: seq<Word>): seq<Byte> {
    if ws == [] then [] else PackWord(ws[0]) + Pack(ws[1..])
  }

  /** The words of a body whose length is a multiple of four. */
  function Unpack(body: seq<Byte>): seq<Word> {
    if |body| < 4 then []
    else [UnpackWord(body[0], body[1], body[2], body[3])] + Unpack(body[4..])
  }

  function UnpackWord(b0: int, b1: int, b2: int, b3: int): Word
    requires 0 <= b0 < 0x100 && 0 <= b1 < 0x100 && 0 <= b2 < 0x100 && 0 <= b3 < 0x100
  {
    b0 * 0x100_0000 + b1 * 0x1_0000 + b2 * 0x100 + b3
  }

  lemma {:induction false} BytesOfWord(b0: int, b1: int, b2: int, b3: int)
    requires 0 <= b0 < 0x100 && 0 <= b1 < 0x100 && 0 <= b2 < 0x100 && 0 <= b3 < 0x100
    ensures PackWord(UnpackWord(b0, b1, b2, b3)) == [b0, b1, b2, b3]
  {
    var p := b0 * 0x100 + b1;
    var q := p * 0x100 + b2;
    LastByte(b0, b1);
    LastByte(p, b2);
    LastByte(q, b3);
    assert UnpackWord(b0, b1, b2, b3) == q * 0x100 + b3;
  }

  lemma {:induction false} LastByte(q: int, r: int)
    requires 0 <= r < 0x100
    ensures (q * 0x100 + r) / 0x100 == q && (q * 0x100 + r) % 0x100 == r
  {
  }

  lemma {:induction false} PackUnpack(body: seq<Byte>)
    requires |body| % 4 == 0
    ensures Pack(Unpack(body)) == body
    decreases |body|
  {
    if |body| >= 4 {
      PackUnpack(body[4..]);
      BytesOfWord(body[0], body[1], body[2], body[3]);
      assert body == [body[0], body[1], body[2], body[3]] + body[4..];
      assert Unpack(body)[1..] == Unpack(body[4..]);
    }
  }

  // ----- building words -----

  function Make(op: int, d: int, a: int, imm: int): Word
    requires 0 <= op < 64 && 0 <= d < 32 && 0 <= a < 32 && 0 <= imm < 0x1_0000
  {
    op * 0x400_0000 + d * 0x20_0000 + a * 0x1_0000 + imm
  }

  /** `mr rA, rS`. */
  function MoveRegister(a: Reg, s: Reg): Word {
    Make(31, s, a, s * 0x800 + 888)
  }

  const BLR: Word := 0x4E800020

  predicate Is(w: Word, op: int, d: int, a: int) {
    Opcode(w) == op && FieldD(w) == d && FieldA(w) == a
  }

  /** An offset a member can have: not negative as a 16-bit number. */
  predicate IsOffset(n: int) { 0 <= n < 0x8000 }

  lemma {:induction false} OpcodeOf(op: int, d: int, a: int, imm: int)
    requires 0 <= op < 64 && 0 <= d < 32 && 0 <= a < 32 && 0 <= imm < 0x1_0000
    ensures var w := Make(op, d, a, imm);
            Opcode(w) == op && FieldD(w) == d && FieldA(w) == a && Imm(w) == imm
  {
    var w := Make(op, d, a, imm);
    assert w / 0x1_0000 == op * 0x400 + d * 32 + a;
    assert w / 0x20_0000 == op * 32 + d;
  }

  lemma {:induction false} FieldsMake(w: Word)
    ensures w == Make(Opcode(w), FieldD(w), FieldA(w), Imm(w))
  {
    var q := w / 0x1_0000;
    assert w == q * 0x1_0000 + Imm(w);
    assert q / 32 == w / 0x20_0000;
    assert q / 32 / 32 == w / 0x400_0000;
  }

  predicate IsBranch(w: Word, link: int) {
    Opcode(w) == 18 && w % 4 == link
  }

  function MakeBranch(rel: int, link: int): Word
    requires 0 <= link < 4
  {
    18 * 0x400_0000 + (rel % 0x400_0000 - rel % 4) + link
  }

  lemma {:induction false} BranchMake(w: Word)
    requires Opcode(w) == 18
    ensures MakeBranch(LongDistance(w), w % 4) == w
  {
  }

  // ----- the two halves of an address -----

  function SignExtend(lo: int): int {
    if lo >= 0x8000 then lo - 0x1_0000 else lo
  }

  /** What `lis` then `addi` builds. */
  function Join(hi: int, lo: int): Word {
    Wrap(hi * 0x1_0000 + SignExtend(lo))
  }

  function LowHalf(v: Word): int { v % 0x1_0000 }

  /** The high half, one more when the low half will be read as negative. */
  function HighHalf(v: Word): int {
    (v / 0x1_0000 + (if v % 0x1_0000 >= 0x8000 then 1 else 0)) % 0x1_0000
  }

  /** The carry split is a bijection between pairs of halves and 32-bit values. */
  lemma {:induction false} HalvesBijection(v: Word, hi: int, lo: int)
    requires 0 <= hi < 0x1_0000 && 0 <= lo < 0x1_0000
    ensures 0 <= HighHalf(v) < 0x1_0000 && 0 <= LowHalf(v) < 0x1_0000
    ensures Join(hi, lo) == v <==> hi == HighHalf(v) && lo == LowHalf(v)
  {
    var q := v / 0x1_0000;
    assert v == q * 0x1_0000 + v % 0x1_0000;
    var n := hi * 0x1_0000 + SignExtend(lo);
    assert Wrap(n) == if n < 0 then n + 0x1_0000_0000 else n;
  }

  // ----- shapes -----

  datatype CType = Int | UShort | Short | UChar | Float

  function LoadType(op: int): Option<CType> {
    match op
    case 32 => Some(Int)
    case 40 => Some(UShort)
    case 42 => Some(Short)
    case 34 => Some(UChar)
    case 48 => Some(Float)
    case _ => None
  }

  function StoreType(op: int): Option<CType> {
    match op
    case 36 => Some(Int)
    case 44 => Some(UShort)
    case 38 => Some(UChar)
    case 52 => Some(Float)
    case _ => None
  }

  function LoadOp(t: CType): int {
    match t
    case Int => 32
    case UShort => 40
    case Short => 42
    case UChar => 34
    case Float => 48
  }

  function StoreOp(t: CType): Option<int> {
    match t
    case Int => Some(36)
    case UShort => Some(44)
    case UChar => Some(38)
    case Float => Some(52)
    case Short => None
  }

  type Store = (CType, int)

  datatype Shape =
    | Get(t: CType, off: int)
    | Set(t: CType, off: int)
    | Ref(off: int)
    | ConstSet(k: int, stores: seq<Store>)
    | AddMem(off: int)
    | EqConst(off: int, k: int, base: Reg)
    | GRef(v: Word)
    | GGet(t: CType, v: Word, d: Reg)
    | GSet(t: CType, v: Word, d: Reg, from: Reg)
    | VTable(v: Word, off: int, d: Reg)
    | BaseCtor(rel: int, v: Word, off: int)
    | VCall(slot: int)
    | VCallMember(off: int, slot: int)
    | BaseForward(rel: int)
    | MemberForward(rel: int, off: int)
    | GlobalCall(v: Word, rel: int)
    | ArgCall(rel: int)
    | AnimCallback(rel: int, holder: int, slot: int)
    | AnimCallbackData(rel: int)

  // ----- decoding -----

  /** `decode`, on the words of a body. */
  function DecodeWords(ws: seq<Word>): Option<Shape> {
    match |ws|
    case 1 => DecodeOne(ws)
    case 2 => DecodeTwo(ws)
    case 3 => DecodeThree(ws)
    case 4 => DecodeFour(ws)
    case 5 => DecodeFive(ws)
    case 6 => DecodeSix(ws)
    case 15 => DecodeCtor(ws)
    case _ => DecodeConstSet(ws)
  }

  function DecodeOne(ws: seq<Word>): Option<Shape>
    requires |ws| == 1
  {
    if IsBranch(ws[0], 0) then Some(BaseForward(LongDistance(ws[0]))) else None
  }

  function DecodeTwo(ws: seq<Word>): Option<Shape>
    requires |ws| == 2
  {
    var w, imm := ws[0], Imm(ws[0]);
    if IsBranch(ws[1], 0) && Is(w, 32, 3, 3) && IsOffset(imm) then Some(MemberForward(LongDistance(ws[1]), imm))
    else if w == MoveRegister(3, 4) && IsBranch(ws[1], 0) then Some(ArgCall(LongDistance(ws[1])))
    else if ws[1] != BLR then None
    else if Is(w, 14, 3, 3) && IsOffset(imm) && imm != 0 then Some(Ref(imm))
    else if !IsOffset(imm) || FieldA(w) != 3 then None
    else if LoadType(Opcode(w)).Some? then
      var t := LoadType(Opcode(w)).value;
      if FieldD(w) != (if t.Float? then 1 else 3) then None else Some(Get(t, imm))
    else if StoreType(Opcode(w)).Some? then
      var t := StoreType(Opcode(w)).value;
      if FieldD(w) != (if t.Float? then 1 else 4) then None else Some(Set(t, imm))
    else None
  }

  function DecodeThree(ws: seq<Word>): Option<Shape>
    requires |ws| == 3
  {
    if Is(ws[0], 15, 3, 0) && Is(ws[1], 14, 3, 3) && IsBranch(ws[2], 0) then
      Some(GlobalCall(Join(Imm(ws[0]), Imm(ws[1])), LongDistance(ws[2])))
    else if ws[2] != BLR then None
    else if DecodeGlobal(ws).Some? then DecodeGlobal(ws)
    else DecodeConstSet(ws)
  }

  /** `lis rD, HI` and one access at LO(rD). */
  function DecodeGlobal(ws: seq<Word>): Option<Shape>
    requires |ws| == 3
  {
    var d, op, dd := FieldD(ws[0]), Opcode(ws[1]), FieldD(ws[1]);
    var v := Join(Imm(ws[0]), Imm(ws[1]));
    if Opcode(ws[0]) != 15 || FieldA(ws[0]) != 0 || FieldA(ws[1]) != d then None
    else if op == 14 && d == 3 && dd == 3 then Some(GRef(v))
    else if LoadType(op).Some? && dd == (if LoadType(op).value.Float? then 1 else 3) then
      Some(GGet(LoadType(op).value, v, d))
    else if StoreType(op).Some? && (if StoreType(op).value.Float? then dd == 1 else dd == 3 || dd == 4) then
      Some(GSet(StoreType(op).value, v, d, dd))
    else None
  }

  function DecodeFour(ws: seq<Word>): Option<Shape>
    requires |ws| == 4
  {
    var d := FieldD(ws[0]);
    if ws[0] == 0x81830000 && ws[2] == 0x7D8903A6 && ws[3] == 0x4E800420
       && Is(ws[1], 32, 12, 12) && IsOffset(Imm(ws[1])) then Some(VCall(Imm(ws[1])))
    else if ws[3] != BLR then None
    else if Is(ws[0], 32, 0, 3) && ws[1] == Make(31, 0, 0, 4 * 0x800 + 532) && Is(ws[2], 36, 0, 3)
            && Imm(ws[0]) == Imm(ws[2]) && IsOffset(Imm(ws[0])) then Some(AddMem(Imm(ws[0])))
    else if Is(ws[0], 15, d, 0) && Is(ws[1], 14, d, d) && Is(ws[2], 36, d, 3) && IsOffset(Imm(ws[2])) then
      Some(VTable(Join(Imm(ws[0]), Imm(ws[1])), Imm(ws[2]), d))
    else DecodeConstSet(ws)
  }

  /** Through a member and its table, tail-called. */
  predicate CallsMember(ws: seq<Word>)
    requires |ws| == 5
  {
    && ws[1] == 0x81830000 && ws[3] == 0x7D8903A6 && ws[4] == 0x4E800420
    && Is(ws[0], 32, 3, 3) && IsOffset(Imm(ws[0])) && Is(ws[2], 32, 12, 12) && IsOffset(Imm(ws[2]))
  }

  /** Load, subtract, count zeros, shift. */
  predicate TestsConst(ws: seq<Word>)
    requires |ws| == 5
  {
    && ws[2] == 0x7C000034 && ws[3] == 0x5403D97E
    && Opcode(ws[0]) == 32 && FieldD(ws[0]) == 3 && IsOffset(Imm(ws[0]))
    && Is(ws[1], 14, 0, 3) && !IsOffset(Imm(ws[1]))
  }

  function DecodeFive(ws: seq<Word>): Option<Shape>
    requires |ws| == 5
  {
    if CallsMember(ws) then Some(VCallMember(Imm(ws[0]), Imm(ws[2])))
    else if ws[4] != BLR then None
    else if TestsConst(ws) then
      Some(EqConst(Imm(ws[0]), 0x1_0000 - Imm(ws[1]), FieldA(ws[0])))
    else DecodeConstSet(ws)
  }

  function DecodeSix(ws: seq<Word>): Option<Shape>
    requires |ws| == 6
  {
    if (forall i :: 0 <= i < 5 ==> Opcode(ws[i]) == 31 && Extended(ws[i]) == 444) && Opcode(ws[5]) == 18 then
      if ws[..5] == [MoveRegister(6, 3), MoveRegister(0, 4), MoveRegister(3, 5), MoveRegister(4, 6), MoveRegister(5, 0)]
         && ws[5] % 4 == 0 then Some(AnimCallbackData(LongDistance(ws[5])))
      else None
    else if ws[1] == 0x7C601B78 && ws[2] == 0x7C852378 && ws[4] == 0x7C040378
            && Is(ws[0], 32, 6, 4) && IsOffset(Imm(ws[0])) && Is(ws[3], 32, 3, 6) && IsOffset(Imm(ws[3]))
            && IsBranch(ws[5], 0) then
      Some(AnimCallback(LongDistance(ws[5]), Imm(ws[0]), Imm(ws[3])))
    else None
  }

  const CtorHead: seq<Word> := [0x9421FFF0, 0x7C0802A6, 0x90010014, 0x93E1000C, 0x7C7F1B78]

  const CtorTail: seq<Word> := [0x83E1000C, 0x80010014, 0x7C0803A6, 0x38210010, BLR]

  function DecodeCtor(ws: seq<Word>): Option<Shape>
    requires |ws| == 15
  {
    if ws[..5] == CtorHead && ws[7] == 0x7FE3FB78 && ws[10..] == CtorTail && IsBranch(ws[5], 1)
       && Is(ws[6], 15, 4, 0) && Is(ws[8], 14, 4, 4) && Is(ws[9], 36, 4, 31) && IsOffset(Imm(ws[9])) then
      Some(BaseCtor(LongDistance(ws[5]), Join(Imm(ws[6]), Imm(ws[8])), Imm(ws[9])))
    else None
  }

  /** `li r0, K`, then stores of r0 into members, then `blr`. */
  function DecodeConstSet(ws: seq<Word>): Option<Shape> {
    if |ws| < 3 || ws[|ws| - 1] != BLR || !Is(ws[0], 14, 0, 0) then None
    else
      var stores := DecodeStores(ws[1..|ws| - 1]);
      if stores.None? then None else Some(ConstSet(SignedImm(ws[0]), stores.value))
  }

  function DecodeStores(ws: seq<Word>): Option<seq<Store>> {
    if ws == [] then Some([])
    else
      var w := ws[0];
      var t := StoreType(Opcode(w));
      if t.None? || t.value.Float? || FieldD(w) != 0 || FieldA(w) != 3 || !IsOffset(Imm(w)) then None
      else
        var rest := DecodeStores(ws[1..]);
        if rest.None? then None else Some([(t.value, Imm(w))] + rest.value)
  }

  function Decode(body: seq<Byte>): Option<Shape> {
    if |body| % 4 != 0 || |body| < 4 then None else DecodeWords(Unpack(body))
  }

  // ----- re-encoding -----

  function Halves(v: Word, d: Reg, op: int, dd: Reg): seq<Word>
    requires 0 <= op < 64
  {
    [Make(15, d, 0, HighHalf(v)), Make(op, dd, d, LowHalf(v))]
  }

  function EncodeStores(stores: seq<Store>): Option<seq<Word>> {
    if stores == [] then Some([])
    else
      var (t, off) := stores[0];
      var rest := EncodeStores(stores[1..]);
      if StoreOp(t).None? || t.Float? || !IsOffset(off) || rest.None? then None
      else Some([Make(StoreOp(t).value, 0, 3, off)] + rest.value)
  }

  /** Does every field fit the word it goes into? */
  predicate Encodable(shape: Shape) {
    match shape
    case Get(_, off) => IsOffset(off)
    case Set(t, off) => IsOffset(off) && StoreOp(t).Some?
    case Ref(off) => IsOffset(off)
    case ConstSet(_, stores) => EncodeStores(stores).Some?
    case AddMem(off) => IsOffset(off)
    case EqConst(off, _, _) => IsOffset(off)
    case GSet(t, _, _, _) => StoreOp(t).Some?
    case VTable(_, off, _) => IsOffset(off)
    case BaseCtor(_, _, off) => IsOffset(off)
    case VCall(slot) => IsOffset(slot)
    case VCallMember(off, slot) => IsOffset(off) && IsOffset(slot)
    case MemberForward(_, off) => IsOffset(off)
    case AnimCallback(_, holder, slot) => IsOffset(holder) && IsOffset(slot)
    case _ => true
  }

  /** `reencode`, as words. */
  function Reencode(shape: Shape): seq<Word>
    requires Encodable(shape)
  {
    match shape
    case AddMem(off) => [Make(32, 0, 3, off), Make(31, 0, 0, 4 * 0x800 + 532), Make(36, 0, 3, off), BLR]
    case ArgCall(rel) => [MoveRegister(3, 4), MakeBranch(rel, 0)]
    case GlobalCall(v, rel) => Halves(v, 3, 14, 3) + [MakeBranch(rel, 0)]
    case BaseForward(rel) => [MakeBranch(rel, 0)]
    case MemberForward(rel, off) => [Make(32, 3, 3, off), MakeBranch(rel, 0)]
    case VCall(slot) => [0x81830000, Make(32, 12, 12, slot), 0x7D8903A6, 0x4E800420]
    case VCallMember(off, slot) => [Make(32, 3, 3, off), 0x81830000, Make(32, 12, 12, slot), 0x7D8903A6, 0x4E800420]
    case EqConst(off, k, base) => [Make(32, 3, base, off), Make(14, 0, 3, (-k) % 0x1_0000), 0x7C000034, 0x5403D97E, BLR]
    case AnimCallbackData(rel) =>
      [MoveRegister(6, 3), MoveRegister(0, 4), MoveRegister(3, 5), MoveRegister(4, 6), MoveRegister(5, 0),
       MakeBranch(rel, 0)]
    case AnimCallback(rel, holder, slot) =>
      [Make(32, 6, 4, holder), 0x7C601B78, 0x7C852378, Make(32, 3, 6, slot), 0x7C040378, MakeBranch(rel, 0)]
    case Ref(off) => [Make(14, 3, 3, off), BLR]
    case Get(t, off) => [Make(LoadOp(t), if t.Float? then 1 else 3, 3, off), BLR]
    case Set(t, off) => [Make(StoreOp(t).value, if t.Float? then 1 else 4, 3, off), BLR]
    case ConstSet(k, stores) => [Make(14, 0, 0, k % 0x1_0000)] + EncodeStores(stores).value + [BLR]
    case GRef(v) => Halves(v, 3, 14, 3) + [BLR]
    case GGet(t, v, d) => Halves(v, d, LoadOp(t), if t.Float? then 1 else 3) + [BLR]
    case GSet(t, v, d, from) => Halves(v, d, StoreOp(t).value, from) + [BLR]
    case BaseCtor(rel, v, off) =>
      CtorHead + [MakeBranch(rel, 1), Make(15, 4, 0, HighHalf(v)), 0x7FE3FB78, Make(14, 4, 4, LowHalf(v)),
                  Make(36, 4, 31, off)] + CtorTail
    case VTable(v, off, d) => [Make(15, d, 0, HighHalf(v)), Make(14, d, d, LowHalf(v)), Make(36, d, 3, off), BLR]
  }

  // ----- exactness -----

  /** Re-encoding what was decoded gives the words back. */
  ghost predicate Exact(ws: seq<Word>, shape: Option<Shape>) {
    shape.Some? ==> Encodable(shape.value) && Reencode(shape.value) == ws
  }

  lemma {:induction false} MakeIs(w: Word, op: int, d: int, a: int)
    requires Is(w, op, d, a)
    ensures w == Make(op, d, a, Imm(w))
  {
    FieldsMake(w);
  }

  lemma {:induction false} HalvesOf(hi: Word, lo: Word)
    ensures HighHalf(Join(Imm(hi), Imm(lo))) == Imm(hi) && LowHalf(Join(Imm(hi), Imm(lo))) == Imm(lo)
  {
    HalvesBijection(Join(Imm(hi), Imm(lo)), Imm(hi), Imm(lo));
  }

  /** A two-word address: both words come back from the value and the fields. */
  lemma {:induction false} HalvesExact(hi: Word, lo: Word, d: Reg, op: int, dd: Reg)
    requires Is(hi, 15, d, 0) && Is(lo, op, dd, d)
    ensures Halves(Join(Imm(hi), Imm(lo)), d, op, dd) == [hi, lo]
  {
    HalvesOf(hi, lo);
    MakeIs(hi, 15, d, 0);
    MakeIs(lo, op, dd, d);
  }

  lemma {:induction false} OneExact(ws: seq<Word>)
    requires |ws| == 1
    ensures Exact(ws, DecodeOne(ws))
  {
    if IsBranch(ws[0], 0) { BranchMake(ws[0]); }
  }

  lemma {:induction false} TwoExact(ws: seq<Word>)
    requires |ws| == 2
    ensures Exact(ws, DecodeTwo(ws))
  {
    assert ws == [ws[0], ws[1]];
    match DecodeTwo(ws)
    case Some(MemberForward(_, _)) =>
      MakeIs(ws[0], 32, 3, 3);
      BranchMake(ws[1]);
    case Some(ArgCall(_)) => BranchMake(ws[1]);
    case Some(Ref(_)) => MakeIs(ws[0], 14, 3, 3);
    case Some(Get(t, _)) => MakeIs(ws[0], LoadOp(t), if t.Float? then 1 else 3, 3);
    case Some(Set(t, _)) => MakeIs(ws[0], StoreOp(t).value, if t.Float? then 1 else 4, 3);
    case _ =>
  }

  lemma {:induction false} GlobalExact(ws: seq<Word>)
    requires |ws| == 3 && ws[2] == BLR
    ensures Exact(ws, DecodeGlobal(ws))
  {
    if DecodeGlobal(ws).Some? {
      var d, op, dd := FieldD(ws[0]), Opcode(ws[1]), FieldD(ws[1]);
      HalvesExact(ws[0], ws[1], d, op, dd);
      assert ws == [ws[0], ws[1]] + [BLR];
      GlobalHalves(ws, DecodeGlobal(ws).value, Join(Imm(ws[0]), Imm(ws[1])), d, op, dd);
    }
  }

  lemma {:induction false} GlobalHalves(ws: seq<Word>, shape: Shape, v: Word, d: Reg, op: int, dd: Reg)
    requires 0 <= op < 64 && ws == Halves(v, d, op, dd) + [BLR]
    requires || (shape == GRef(v) && op == 14 && d == 3 && dd == 3)
             || (LoadType(op).Some? && dd == (if LoadType(op).value.Float? then 1 else 3)
                 && shape == GGet(LoadType(op).value, v, d))
             || (StoreType(op).Some? && (if StoreType(op).value.Float? then dd == 1 else dd == 3 || dd == 4)
                 && shape == GSet(StoreType(op).value, v, d, dd))
    ensures Exact(ws, Some(shape))
  {
  }

  lemma {:induction false} ThreeExact(ws: seq<Word>)
    requires |ws| == 3
    ensures Exact(ws, DecodeThree(ws))
  {
    if Is(ws[0], 15, 3, 0) && Is(ws[1], 14, 3, 3) && IsBranch(ws[2], 0) {
      HalvesExact(ws[0], ws[1], 3, 14, 3);
      BranchMake(ws[2]);
      assert ws == [ws[0], ws[1]] + [ws[2]];
    } else if ws[2] == BLR {
      GlobalExact(ws);
      ConstSetExact(ws);
    }
  }

  lemma {:induction false} FourExact(ws: seq<Word>)
    requires |ws| == 4
    ensures Exact(ws, DecodeFour(ws))
  {
    var four := [ws[0], ws[1], ws[2], ws[3]];
    assert ws == four;
    match DecodeFour(ws)
    case Some(VCall(_)) => MakeIs(ws[1], 32, 12, 12);
    case Some(AddMem(_)) =>
      MakeIs(ws[0], 32, 0, 3);
      MakeIs(ws[2], 36, 0, 3);
    case Some(VTable(_, _, d)) =>
      HalvesExact(ws[0], ws[1], d, 14, d);
      assert Halves(Join(Imm(ws[0]), Imm(ws[1])), d, 14, d)[0] == ws[0];
      MakeIs(ws[2], 36, d, 3);
    case _ => ConstSetExact(ws);
  }

  lemma {:induction false} FiveExact(ws: seq<Word>)
    requires |ws| == 5
    ensures Exact(ws, DecodeFive(ws))
  {
    if CallsMember(ws) {
      VCallMemberExact(ws);
    } else if ws[4] == BLR {
      if TestsConst(ws) { EqConstExact(ws); } else { ConstSetExact(ws); }
    }
  }

  lemma {:induction false} VCallMemberExact(ws: seq<Word>)
    requires |ws| == 5 && CallsMember(ws)
    ensures Exact(ws, Some(VCallMember(Imm(ws[0]), Imm(ws[2]))))
  {
    MakeIs(ws[0], 32, 3, 3);
    MakeIs(ws[2], 32, 12, 12);
    FiveWords(ws);
  }

  lemma {:induction false} EqConstExact(ws: seq<Word>)
    requires |ws| == 5 && TestsConst(ws) && ws[4] == BLR
    ensures Exact(ws, Some(EqConst(Imm(ws[0]), 0x1_0000 - Imm(ws[1]), FieldA(ws[0]))))
  {
    var off, imm, base := Imm(ws[0]), Imm(ws[1]), FieldA(ws[0]);
    assert ws[0] == Make(32, 3, base, off) by { MakeIs(ws[0], 32, 3, base); }
    assert ws[1] == Make(14, 0, 3, imm) by { MakeIs(ws[1], 14, 0, 3); }
    NegatedBack(imm);
    EqConstWords(off, imm, base);
    FiveWords(ws);
  }

  lemma {:induction false} NegatedBack(imm: int)
    requires 0 < imm < 0x1_0000
    ensures (imm - 0x1_0000) % 0x1_0000 == imm
  {
  }

  lemma {:induction false} EqConstWords(off: int, imm: int, base: Reg)
    requires IsOffset(off) && 0 < imm < 0x1_0000 && (imm - 0x1_0000) % 0x1_0000 == imm
    ensures Encodable(EqConst(off, 0x1_0000 - imm, base))
    ensures Reencode(EqConst(off, 0x1_0000 - imm, base))
            == [Make(32, 3, base, off), Make(14, 0, 3, imm), 0x7C000034, 0x5403D97E, BLR]
  {
    assert -(0x1_0000 - imm) == imm - 0x1_0000;
  }

  lemma {:induction false} FiveWords(ws: seq<Word>)
    requires |ws| == 5
    ensures ws == [ws[0], ws[1], ws[2], ws[3], ws[4]]
  {
  }

  lemma {:induction false} SixExact(ws: seq<Word>)
    requires |ws| == 6
    ensures Exact(ws, DecodeSix(ws))
  {
    match DecodeSix(ws)
    case Some(AnimCallbackData(_)) =>
      BranchMake(ws[5]);
      assert ws == ws[..5] + [ws[5]];
    case Some(AnimCallback(_, _, _)) =>
      MakeIs(ws[0], 32, 6, 4);
      MakeIs(ws[3], 32, 3, 6);
      BranchMake(ws[5]);
      assert ws == [ws[0], ws[1], ws[2], ws[3], ws[4], ws[5]];
    case _ =>
  }

  lemma {:induction false} CtorExact(ws: seq<Word>)
    requires |ws| == 15
    ensures Exact(ws, DecodeCtor(ws))
  {
    if DecodeCtor(ws).Some? {
      BranchMake(ws[5]);
      HalvesOf(ws[6], ws[8]);
      MakeIs(ws[6], 15, 4, 0);
      MakeIs(ws[8], 14, 4, 4);
      MakeIs(ws[9], 36, 4, 31);
      assert ws == ws[..5] + [ws[5], ws[6], ws[7], ws[8], ws[9]] + ws[10..];
    }
  }

  lemma {:induction false} StoresExact(ws: seq<Word>)
    ensures var s := DecodeStores(ws);
            s.Some? ==> EncodeStores(s.value) == Some(ws)
  {
    if ws != [] && DecodeStores(ws).Some? {
      StoresExact(ws[1..]);
      FieldsMake(ws[0]);
      assert DecodeStores(ws).value[1..] == DecodeStores(ws[1..]).value;
      assert ws == [ws[0]] + ws[1..];
    }
  }

  lemma {:induction false} SignedImmImm(w: Word)
    ensures SignedImm(w) % 0x1_0000 == Imm(w) == Wrap(SignedImm(w)) % 0x1_0000
  {
    assert Wrap(SignedImm(w)) == if SignedImm(w) < 0 then SignedImm(w) + 0x1_0000_0000 else SignedImm(w);
  }

  lemma {:induction false} ConstSetExact(ws: seq<Word>)
    ensures Exact(ws, DecodeConstSet(ws))
  {
    if DecodeConstSet(ws).Some? {
      MakeIs(ws[0], 14, 0, 0);
      StoresExact(ws[1..|ws| - 1]);
      SignedImmImm(ws[0]);
      assert ws == [ws[0]] + ws[1..|ws| - 1] + [BLR];
    }
  }

  lemma {:induction false} WordsExact(ws: seq<Word>)
    ensures Exact(ws, DecodeWords(ws))
  {
    match |ws|
    case 1 => OneExact(ws);
    case 2 => TwoExact(ws);
    case 3 => ThreeExact(ws);
    case 4 => FourExact(ws);
    case 5 => FiveExact(ws);
    case 6 => SixExact(ws);
    case 15 => CtorExact(ws);
    case _ => ConstSetExact(ws);
  }

  /** The decoder is exact on every body: whatever it names, re-encoding gives the very bytes. */
  lemma {:induction false} DecodeExact(body: seq<Byte>)
    ensures Decode(body).Some? ==>
              Encodable(Decode(body).value) && Pack(Reencode(Decode(body).value)) == body
  {
    if Decode(body).Some? {
      PackUnpack(body);
      WordsExact(Unpack(body));
    }
  }

  /** So a shape names one body: two bodies that decode alike are the same. */
  lemma {:induction false} DecodeInjective(a: seq<Byte>, b: seq<Byte>)
    requires Decode(a).Some? && Decode(a) == Decode(b)
    ensures a == b
  {
    DecodeExact(a);
    DecodeExact(b);
  }

  // ----- constant returns -----

  /** `decode` of the constant-return codec: the value a body returns. */
  function DecodeReturn(ws: seq<Word>): Option<Word> {
    if |ws| == 3 then
      if !Is(ws[0], 15, 3, 0) || ws[2] != BLR then None
      else if Is(ws[1], 14, 3, 3) then Some(Join(Imm(ws[0]), Imm(ws[1])))
      else if Is(ws[1], 24, 3, 3) then Some(Imm(ws[0]) * 0x1_0000 + Imm(ws[1]))
      else None
    else if |ws| == 2 then
      if !Is(ws[0], 14, 3, 0) || ws[1] != BLR then None else Some(Wrap(SignedImm(ws[0])))
    else None
  }

  /** `reencode`: always through `addi`. */
  function ReencodeReturn(v: Word, three: bool): seq<Word> {
    if three then Halves(v, 3, 14, 3) + [BLR]
    else [Make(14, 3, 0, v % 0x1_0000), BLR]
  }

  /** A constant return comes back exactly when its low half was not put in with `ori`. */
  lemma {:induction false} ReturnExact(ws: seq<Word>)
    requires DecodeReturn(ws).Some?
    ensures ReencodeReturn(DecodeReturn(ws).value, |ws| == 3) == ws <==> |ws| == 2 || Opcode(ws[1]) == 14
  {
    if |ws| == 2 {
      MakeIs(ws[0], 14, 3, 0);
      SignedImmImm(ws[0]);
      assert ws == [ws[0], BLR];
    } else if Opcode(ws[1]) == 14 {
      HalvesExact(ws[0], ws[1], 3, 14, 3);
      assert ws == [ws[0], ws[1]] + [BLR];
    } else {
      var v := DecodeReturn(ws).value;
      assert ReencodeReturn(v, true)[1] == Make(14, 3, 3, LowHalf(v));
      OpcodeOf(14, 3, 3, LowHalf(v));
    }
  }
}
