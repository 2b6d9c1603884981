/**
 The structure recovery of `tools/gen_assetfix.py`: `Reader.block`, `guard`,
 `loop`, `idxloop` and `latch_of` turn the flat words of a function body into a
 tree of straight words, guards and loops.

 What one word means to the reader (the symbolic registers of `step` and `call`,
 and the tests on them) is a parameter: it decides what is refused and nothing
 else.  What one word does to the machine is a parameter too.
 */
module ControlFlow {
  import opened Words
  import opened Wrappers

  // ----- branch words -----

  /** What a word is to control flow; a branch goes to an index, when it is relative and inside the function. */
  datatype Kind = Straight | Jump(dest: Option<nat>) | Branch(dest: Option<nat>)

  type Code = seq<Kind>

  /** `Fn.bdest(i)` for a function of n words. */
  function BranchDestination(w: Word, i: nat, n: nat): Option<nat> {
    var j := i + Distance(w) / 4;
    if w / 2 % 2 == 0 && 0 <= j <= n then Some(j) else None
  }

  /**
   A branch at index i resolves to j exactly when it is relative, j is an index of
   the function or its end, and the field of the word, signed, is the way there.
   */
  lemma {:induction false} BranchResolves(w: Word, i: nat, n: nat, j: nat)
    ensures BranchDestination(w, i, n) == Some(j) <==>
              && w / 2 % 2 == 0 && j <= n
              && SignedFieldOf(4 * (j - i), w, if Opcode(w) == 18 then 0x400_0000 else 0x1_0000)
  {
    DistanceInWords(w);
    if Opcode(w) == 18 { LongDistanceIs(w, 4 * (j - i)); } else { ShortDistanceIs(w, 4 * (j - i)); }
  }

  function KindOf(w: Word, i: nat, n: nat): Kind {
    if Opcode(w) == 18 && w % 2 == 0 then Jump(BranchDestination(w, i, n))
    else if Opcode(w) == 16 then Branch(BranchDestination(w, i, n))
    else Straight
  }

  /** The control flow of a function's words. */
  function Decode(words: seq<Word>): (code: Code)
    ensures |code| == |words|
  {
    seq(|words|, i requires 0 <= i < |words| => KindOf(words[i], i, |words|))
  }

  function Destination(code: Code, i: nat): Option<nat>
    requires i < |code|
  {
    match code[i]
    case Straight => None
    case Jump(d) => d
    case Branch(d) => d
  }

  datatype Condition = Lt | Gt | Eq | Ge | Le | Ne

  /** `CONDNAME`: the condition under which a conditional branch is taken. */
  function ConditionOf(w: Word): Option<Condition> {
    match (FieldD(w), FieldA(w) % 4)
    case (12, 0) => Some(Lt)
    case (12, 1) => Some(Gt)
    case (12, 2) => Some(Eq)
    case (4, 0) => Some(Ge)
    case (4, 1) => Some(Le)
    case (4, 2) => Some(Ne)
    case _ => None
  }

  /** The instructions `step` has a case for; every other word is refused by name. */
  predicate InVocabulary(w: Word) {
    || Opcode(w) in {7, 10, 11, 14, 21, 32, 34, 36, 38, 40, 44}
    || (Opcode(w) == 31 && Extended(w) in {0, 32, 266, 444})
    || (Opcode(w) == 18 && w % 2 == 1)
  }

  // ----- the recovered tree -----

  datatype Op =
    | Instr(at: nat)
    | TailCall(at: nat)
    | Guard(at: nat, body: seq<Op>)
    | Loop(at: nat, body: seq<Op>, compare: nat, latch: nat)

  /** What the reader knows, and when it refuses; None is a refusal. */
  datatype Reading<!V> = Reading(
    step: (nat, V) -> Option<(V, bool)>,          // a straight word; the flag says it wrote an operation
    tail: (nat, V) -> Option<V>,                  // a branch out of the body, read as a call
    guard: (nat, V) -> bool,                      // may this test be named?
    enter: (nat, nat, V, V) -> Option<V>,         // the loop's bounds, before and after its compare
    leave: (nat, V, seq<Op>) -> Option<V>)        // does the body advance as a loop must?

  ghost predicate StraightRange(code: Code, lo: nat, hi: nat)
    requires hi <= |code|
  {
    forall j :: lo <= j < hi ==> code[j].Straight?
  }

  /** `op` stands for the words from `lo` to OpEnd, inside a block that ends at `hi`. */
  ghost predicate CoversOp(code: Code, op: Op, lo: nat, hi: nat)
    requires hi <= |code|
    decreases op, 0
  {
    && op.at == lo < hi
    && match op
       case Instr(i) => code[i].Straight?
       case TailCall(i) => code[i].Jump? && i == hi - 1
                           && (Destination(code, i).None? || Destination(code, i).value >= hi)
       case Guard(i, body) =>
         && code[i].Branch?
         && Destination(code, i).Some?
         && i < Destination(code, i).value <= hi
         && Covers(code, body, i + 1, Destination(code, i).value)
       case Loop(i, body, compare, latch) =>
         && code[i].Jump? && Destination(code, i) == Some(compare)
         && i < compare <= latch < hi
         && StraightRange(code, compare, latch)
         && code[latch].Branch? && Destination(code, latch) == Some(i + 1)
         && Covers(code, body, i + 1, compare)
  }

  /** Where the words of `op` end. */
  function OpEnd(code: Code, op: Op): nat
    requires op.at < |code|
  {
    match op
    case Instr(i) => i + 1
    case TailCall(i) => i + 1
    case Guard(i, _) => if Destination(code, i).Some? then Destination(code, i).value else i + 1
    case Loop(_, _, _, latch) => latch + 1
  }

  /** The operations stand for the words lo..hi, one after the other. */
  ghost predicate Covers(code: Code, ops: seq<Op>, lo: nat, hi: nat)
    requires hi <= |code|
    decreases ops, 1
  {
    if ops == [] then lo == hi
    else CoversOp(code, ops[0], lo, hi) && Covers(code, ops[1..], OpEnd(code, ops[0]), hi)
  }

  lemma {:induction false} CoversSnoc(code: Code, ops: seq<Op>, op: Op, lo: nat, mid: nat, hi: nat)
    requires mid <= hi <= |code|
    requires CoversUpTo(code, ops, lo, mid, hi) && CoversOp(code, op, mid, hi)
    ensures CoversUpTo(code, ops + [op], lo, OpEnd(code, op), hi)
  {
    if ops == [] {
      assert ops + [op] == [op];
    } else {
      CoversSnoc(code, ops[1..], op, OpEnd(code, ops[0]), mid, hi);
      assert (ops + [op])[1..] == ops[1..] + [op];
    }
  }

  /** Like `Covers`, with the words after `mid` still to come. */
  ghost predicate CoversUpTo(code: Code, ops: seq<Op>, lo: nat, mid: nat, hi: nat)
    requires mid <= hi <= |code|
  {
    if ops == [] then lo == mid
    else CoversOp(code, ops[0], lo, hi) && CoversUpTo(code, ops[1..], OpEnd(code, ops[0]), mid, hi)
  }

  lemma CoversAll(code: Code, ops: seq<Op>, lo: nat, hi: nat)
    requires hi <= |code| && CoversUpTo(code, ops, lo, hi, hi)
    ensures Covers(code, ops, lo, hi)
  {
  }

  // ----- the reader -----

  class Reader<V(!new)> {
    const words: seq<Word>
    const code: Code := Decode(words)
    const reading: Reading<V>
    var know: V

    constructor (words: seq<Word>, reading: Reading<V>, know: V)
      ensures this.words == words && this.reading == reading
    {
      this.words, this.reading, this.know := words, reading, know;
    }

    /** `step`: refuses what is not in the vocabulary. */
    method Step(i: nat) returns (r: Option<bool>)
      requires i < |code|
      modifies this`know
      ensures r.Some? ==> code[i].Straight?
    {
      if !InVocabulary(words[i]) {
        return None;
      }
      match reading.step(i, know)
      case None => return None;
      case Some(s) =>
        know := s.0;
        return Some(s.1);
    }

    /** `latch_of`: the conditional branch back to the body, within four words of the compare. */
    method LatchOf(bodyLo: nat, compare: nat, hi: nat) returns (r: Option<nat>)
      requires compare <= hi <= |code|
      ensures r.Some? ==> compare <= r.value < hi && r.value < compare + 4 && code[r.value].Branch?
                          && Destination(code, r.value) == Some(bodyLo)
      ensures r.Some? ==> forall j :: compare <= j < r.value ==>
                            !(code[j].Branch? && Destination(code, j) == Some(bodyLo))
      ensures r.None? ==> forall j :: compare <= j < hi && j < compare + 4 ==>
                            !(code[j].Branch? && Destination(code, j) == Some(bodyLo))
    {
      var j := compare;
      while j < hi && j < compare + 4
        invariant compare <= j <= hi
        invariant forall k :: compare <= k < j ==>
                    !(code[k].Branch? && Destination(code, k) == Some(bodyLo))
      {
        if code[j].Branch? && Destination(code, j) == Some(bodyLo) {
          return Some(j);
        }
        j := j + 1;
      }
      return None;
    }

    /** `block`: None is a refusal; anything else stands for exactly the words lo..hi. */
    method Block(lo: nat, hi: nat) returns (r: Option<seq<Op>>)
      requires lo <= hi <= |code|
      modifies this`know
      ensures r.Some? ==> Covers(code, r.value, lo, hi)
      decreases hi - lo, 1
    {
      var ops: seq<Op> := [];
      var i := lo;
      while i < hi
        invariant lo <= i <= hi
        invariant CoversUpTo(code, ops, lo, i, hi)
      {
        var op: Op;
        if code[i].Jump? {
          var jump := ReadJump(i, hi);
          if jump.None? {
            return None;
          }
          op := jump.value;
        } else if code[i].Branch? {
          var dest := Destination(code, i);
          if dest.None? || dest.value <= i || dest.value > hi {
            return None;
          }
          var guard := ReadGuard(i, dest.value);
          if guard.None? {
            return None;
          }
          op := guard.value;
        } else {
          var s := Step(i);
          if s.None? {
            return None;
          }
          op := Instr(i);
        }
        CoversSnoc(code, ops, op, lo, i, hi);
        ops := ops + [op];
        i := OpEnd(code, op);
      }
      CoversAll(code, ops, lo, hi);
      return Some(ops);
    }

    /** An unconditional branch in a block: out of it as its last word, or the entry of a loop. */
    method ReadJump(i: nat, hi: nat) returns (r: Option<Op>)
      requires i < hi <= |code| && code[i].Jump?
      modifies this`know
      ensures r.Some? ==> (r.value.TailCall? || r.value.Loop?) && CoversOp(code, r.value, i, hi)
      decreases hi - i, 0
    {
      var dest := Destination(code, i);
      if dest.None? || dest.value >= hi {
        if i != hi - 1 {
          return None;
        }
        var after := reading.tail(i, know);
        if after.None? {
          return None;
        }
        know := after.value;
        return Some(TailCall(i));
      }
      if dest.value <= i {
        return None;
      }
      var latch := LatchOf(i + 1, dest.value, hi);
      if latch.None? {
        return None;
      }
      r := ReadLoop(i, dest.value, latch.value);
    }

    /** `guard`: the branch skips the block. */
    method ReadGuard(i: nat, dest: nat) returns (r: Option<Op>)
      requires i < dest <= |code| && code[i].Branch? && Destination(code, i) == Some(dest)
      modifies this`know
      ensures r.Some? ==> r.value.Guard? && CoversOp(code, r.value, i, dest)
      decreases dest - i, 0
    {
      if ConditionOf(words[i]).None? || !reading.guard(i, know) {
        return None;
      }
      var body := Block(i + 1, dest);
      if body.None? {
        return None;
      }
      return Some(Guard(i, body.value));
    }

    /**
     `loop` and `idxloop`: the words from the compare to the latch may only compare,
     and the latch closes on less-than or not-equal.
     */
    method ReadLoop(i: nat, compare: nat, latch: nat) returns (r: Option<Op>)
      requires i < compare <= latch < |code|
      requires code[i].Jump? && Destination(code, i) == Some(compare)
      requires code[latch].Branch? && Destination(code, latch) == Some(i + 1)
      modifies this`know
      ensures r.Some? ==> r.value.Loop? && r.value.latch == latch && CoversOp(code, r.value, i, latch + 1)
      decreases compare - i, 0
    {
      var save := know;
      var j := compare;
      while j < latch
        invariant compare <= j <= latch
        invariant StraightRange(code, compare, j)
      {
        var s := Step(j);
        if s.None? || s.value {
          return None;
        }
        j := j + 1;
      }
      if ConditionOf(words[latch]) != Some(Lt) && ConditionOf(words[latch]) != Some(Ne) {
        return None;
      }
      var inside := reading.enter(compare, latch, save, know);
      if inside.None? {
        return None;
      }
      know := inside.value;
      var body := Block(i + 1, compare);
      if body.None? {
        return None;
      }
      var after := reading.leave(latch, know, body.value);
      if after.None? {
        return None;
      }
      know := after.value;
      return Some(Loop(i, body.value, compare, latch));
    }
  }
}
