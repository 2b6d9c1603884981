/** Fields of a 32-bit PowerPC instruction word, as numbers. */
module Words {
  const MODULUS := 0x1_0000_0000

  type Word = w: int | 0 <= w < 0x1_0000_0000

  type Reg = r: int | 0 <= r < 32

  // ----- fields of an instruction word -----

  function Opcode(w: Word): int { w / 0x400_0000 }

  function FieldD(w: Word): Reg { w / 0x20_0000 % 32 }

  function FieldA(w: Word): Reg { w / 0x1_0000 % 32 }

  function FieldB(w: Word): Reg { w / 0x800 % 32 }

  function Extended(w: Word): int { w / 2 % 0x400 }

  function Imm(w: Word): int { w % 0x1_0000 }

  function SignedImm(w: Word): int {
    if Imm(w) >= 0x8000 then Imm(w) - 0x1_0000 else Imm(w)
  }

  // ----- branches -----

  /** The distance in an unconditional branch: 26 bits, the two flags left out. */
  function LongDistance(w: Word): int {
    var d := w % 0x400_0000 - w % 4;
    if d >= 0x200_0000 then d - 0x400_0000 else d
  }

  /** The distance in a conditional branch: 16 bits, the two flags left out. */
  function ShortDistance(w: Word): int {
    var d := Imm(w) - w % 4;
    if d >= 0x8000 then d - 0x1_0000 else d
  }

  function Distance(w: Word): int {
    if Opcode(w) == 18 then LongDistance(w) else ShortDistance(w)
  }

  /** A number that fits a field of so many values as a signed one, and has its bits. */
  predicate SignedFieldOf(d: int, w: Word, size: nat)
    requires size > 0
  {
    -(size / 2) <= d < size / 2 && (d - (w - w % 4)) % size == 0
  }

  /** The distance is the field read as a signed number. */
  lemma {:induction false} LongDistanceIs(w: Word, d: int)
    ensures d == LongDistance(w) <==> SignedFieldOf(d, w, 0x400_0000)
  {
  }

  lemma {:induction false} ShortDistanceIs(w: Word, d: int)
    ensures d == ShortDistance(w) <==> SignedFieldOf(d, w, 0x1_0000)
  {
  }

  lemma {:induction false} DistanceInWords(w: Word)
    ensures Distance(w) % 4 == 0
  {
    LongInWords(w);
    ShortInWords(w);
  }

  lemma {:induction false} LongInWords(w: Word)
    ensures LongDistance(w) % 4 == 0
  {
    var q := w / 4;
    assert w == 4 * q + w % 4;
    WholeWords(w, q, 0x100_0000);
  }

  lemma {:induction false} ShortInWords(w: Word)
    ensures ShortDistance(w) % 4 == 0
  {
    var q := w / 4;
    assert w == 4 * q + w % 4;
    WholeWords(w, q, 0x4000);
  }

  lemma {:induction false} WholeWords(w: Word, q: nat, n: nat)
    requires w == 4 * q + w % 4 && (n == 0x100_0000 || n == 0x4000)
    ensures w % (4 * n) - w % 4 == 4 * (q % n)
  {
    var p := q / n;
    assert q == n * p + q % n;
    if n == 0x4000 {
      ShortRemainder(w, p, 4 * (q % 0x4000) + w % 4);
    } else {
      LongRemainder(w, p, 4 * (q % 0x100_0000) + w % 4);
    }
  }

  lemma {:induction false} ShortRemainder(w: nat, p: nat, r: nat)
    requires w == 0x1_0000 * p + r && r < 0x1_0000
    ensures w % 0x1_0000 == r
  {
  }

  lemma {:induction false} LongRemainder(w: nat, p: nat, r: nat)
    requires w == 0x400_0000 * p + r && r < 0x400_0000
    ensures w % 0x400_0000 == r
  {
  }

  function Wrap(n: int): Word { n % MODULUS }

  /** The general registers of the machine. */
  type Gpr = g: seq<int> | |g| == 32 && forall i :: 0 <= i < 32 ==> 0 <= g[i] < 0x1_0000_0000
    witness seq(32, _ => 0)

  /** The 32-bit pattern `u` read as a signed number. */
  function Signed(u: int): int {
    if u >= 0x80000000 then u - 0x100000000 else u
  }
}
