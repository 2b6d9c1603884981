/**
 The tree that `tools/gen_assetfix.py` recovers against the words it came from:
 both run on the same abstract machine, word by word.
 */
module FlowRuns {
  import opened ControlFlow
  import opened Wrappers

  // ----- running words and running trees -----

  /** What a word does to the machine, and whether the machine takes the branch it is. */
  datatype Machine<!S> = Machine(effect: (nat, S) -> S, taken: (nat, S) -> bool)

  datatype Moment<S> = Moment(s: S, trace: seq<nat>)

  /** How a run comes out: either the end was reached with so many words of allowance left, or the allowance ran out. */
  datatype Halt<S> = Ended(c: Moment<S>, left: nat) | Out(c: Moment<S>)

  function Exec<S>(m: Machine<S>, c: Moment<S>, i: nat): Moment<S> {
    Moment(m.effect(i, c.s), c.trace + [i])
  }

  /** Where a branch goes; out of the body, by a tail branch or to the epilogue, is to `top`. */
  function Target(code: Code, top: nat, i: nat): nat
    requires i < |code|
  {
    var d := Destination(code, i);
    if d.Some? && d.value < top then d.value else top
  }

  /** The next word to execute; a jump in `calls` comes back to the word after it. */
  function Next<S>(code: Code, calls: set<nat>, m: Machine<S>, top: nat, pc: nat, s: S): nat
    requires pc < |code|
  {
    if code[pc].Jump? then (if pc in calls then pc + 1 else Target(code, top, pc))
    else if code[pc].Branch? && m.taken(pc, s) then Target(code, top, pc)
    else pc + 1
  }

  /** The flat words with a program counter, from `pc` until `stop`, for at most `fuel` words. */
  function Flat<S>(code: Code, calls: set<nat>, m: Machine<S>, top: nat, stop: nat,
                   pc: nat, c: Moment<S>, fuel: nat): (r: Halt<S>)
    requires top <= |code|
    ensures r.Ended? ==> r.left <= fuel
    decreases fuel
  {
    if pc == stop || pc >= top then Ended(c, fuel)
    else if fuel == 0 then Out(c)
    else Flat(code, calls, m, top, stop, Next(code, calls, m, top, pc, c.s), Exec(m, c, pc), fuel - 1)
  }

  function RunOp<S>(m: Machine<S>, op: Op, c: Moment<S>, fuel: nat): (r: Halt<S>)
    ensures r.Ended? ==> r.left <= fuel
    decreases fuel, op, 0
  {
    if fuel == 0 then Out(c)
    else
      var c' := Exec(m, c, op.at);
      match op
      case Instr(_) => Ended(c', fuel - 1)
      case TailCall(_) => Ended(c', fuel - 1)
      case Guard(i, body) => if m.taken(i, c.s) then Ended(c', fuel - 1) else RunOps(m, body, c', fuel - 1)
      case Loop(_, body, compare, latch) => RunLoop(m, body, compare, latch, c', fuel - 1)
  }

  function RunOps<S>(m: Machine<S>, ops: seq<Op>, c: Moment<S>, fuel: nat): (r: Halt<S>)
    ensures r.Ended? ==> r.left <= fuel
    decreases fuel, ops, 1
  {
    if ops == [] then Ended(c, fuel)
    else
      var first := RunOp(m, ops[0], c, fuel);
      if first.Out? then first else RunOps(m, ops[1..], first.c, first.left)
  }

  /** A loop tested before its body: run the compare, leave unless the latch is taken, run the body, again. */
  function RunLoop<S>(m: Machine<S>, body: seq<Op>, compare: nat, latch: nat, c: Moment<S>, fuel: nat): (r: Halt<S>)
    ensures r.Ended? ==> r.left <= fuel
    decreases fuel, body, 2
  {
    var test := RunWords(m, compare, latch, c, fuel);
    if test.Out? then test
    else if test.left == 0 then Out(test.c)
    else
      var c' := Exec(m, test.c, latch);
      if !m.taken(latch, test.c.s) then Ended(c', test.left - 1)
      else
        var once := RunOps(m, body, c', test.left - 1);
        if once.Out? then once else RunLoop(m, body, compare, latch, once.c, once.left)
  }

  function RunWords<S>(m: Machine<S>, lo: nat, hi: nat, c: Moment<S>, fuel: nat): (r: Halt<S>)
    ensures r.Ended? ==> r.left <= fuel
    decreases fuel
  {
    if lo >= hi then Ended(c, fuel)
    else if fuel == 0 then Out(c)
    else RunWords(m, lo + 1, hi, Exec(m, c, lo), fuel - 1)
  }

  // ----- the words a tree accounts for -----

  function Upto(lo: nat, hi: nat): seq<nat>
    decreases hi - lo
  {
    if lo >= hi then [] else [lo] + Upto(lo + 1, hi)
  }

  function WordsOf(op: Op): seq<nat>
    decreases op, 0
  {
    match op
    case Instr(i) => [i]
    case TailCall(i) => [i]
    case Guard(i, body) => [i] + AllWordsOf(body)
    case Loop(i, body, compare, latch) => [i] + AllWordsOf(body) + Upto(compare, latch + 1)
  }

  function AllWordsOf(ops: seq<Op>): seq<nat>
    decreases ops, 1
  {
    if ops == [] then [] else WordsOf(ops[0]) + AllWordsOf(ops[1..])
  }

  lemma {:induction false} UptoJoins(lo: nat, mid: nat, hi: nat)
    requires lo <= mid <= hi
    ensures Upto(lo, mid) + Upto(mid, hi) == Upto(lo, hi)
    decreases mid - lo
  {
    if lo < mid {
      UptoJoins(lo + 1, mid, hi);
      assert [lo] + (Upto(lo + 1, mid) + Upto(mid, hi)) == [lo] + Upto(lo + 1, mid) + Upto(mid, hi);
    } else {
      assert [] + Upto(mid, hi) == Upto(mid, hi);
    }
  }

  /** A block accepts nothing it does not account for, exactly once, in order. */
  lemma {:induction false} EveryWordOnce(code: Code, ops: seq<Op>, lo: nat, hi: nat)
    requires hi <= |code| && Covers(code, ops, lo, hi)
    ensures lo <= hi && AllWordsOf(ops) == Upto(lo, hi)
    decreases ops, 1
  {
    if ops != [] {
      var mid := OpEnd(code, ops[0]);
      EveryWordOnce(code, ops[1..], mid, hi);
      OpWordsOnce(code, ops[0], lo, hi);
      UptoJoins(lo, mid, hi);
    }
  }

  lemma {:induction false} OpWordsOnce(code: Code, op: Op, lo: nat, hi: nat)
    requires hi <= |code| && CoversOp(code, op, lo, hi)
    ensures lo < OpEnd(code, op) <= hi && WordsOf(op) == Upto(lo, OpEnd(code, op))
    decreases op, 0
  {
    match op
    case Instr(i) => assert Upto(i + 1, i + 1) == [];
    case TailCall(i) => assert Upto(i + 1, i + 1) == [];
    case Guard(i, body) =>
      EveryWordOnce(code, body, i + 1, Destination(code, i).value);
    case Loop(i, body, compare, latch) =>
      EveryWordOnce(code, body, i + 1, compare);
      UptoJoins(i + 1, compare, latch + 1);
      assert [i] + AllWordsOf(body) + Upto(compare, latch + 1) == [i] + (AllWordsOf(body) + Upto(compare, latch + 1));
  }

  // ----- the tail branches a tree reads as calls -----

  function Tails(op: Op): set<nat>
    decreases op, 0
  {
    match op
    case Instr(_) => {}
    case TailCall(i) => {i}
    case Guard(_, body) => AllTails(body)
    case Loop(_, body, _, _) => AllTails(body)
  }

  function AllTails(ops: seq<Op>): set<nat>
    decreases ops, 1
  {
    if ops == [] then {} else Tails(ops[0]) + AllTails(ops[1..])
  }

  // ----- the tree runs like the words -----

  /** Inside lo..hi, the jumps in `calls` are those the operations read as calls. */
  ghost predicate Reads(calls: set<nat>, tails: set<nat>, lo: nat, hi: nat) {
    forall i :: lo <= i < hi ==> (i in calls <==> i in tails)
  }

  lemma {:induction false} TailsInside(code: Code, ops: seq<Op>, lo: nat, hi: nat)
    requires hi <= |code| && Covers(code, ops, lo, hi)
    ensures lo <= hi && forall i :: i in AllTails(ops) ==> lo <= i < hi
    decreases ops, 1
  {
    if ops != [] {
      OpTailsInside(code, ops[0], lo, hi);
      TailsInside(code, ops[1..], OpEnd(code, ops[0]), hi);
    }
  }

  lemma {:induction false} OpTailsInside(code: Code, op: Op, lo: nat, hi: nat)
    requires hi <= |code| && CoversOp(code, op, lo, hi)
    ensures lo < OpEnd(code, op) <= hi && forall i :: i in Tails(op) ==> lo <= i < OpEnd(code, op)
    decreases op, 0
  {
    match op
    case Instr(i) =>
    case TailCall(i) =>
    case Guard(i, body) => TailsInside(code, body, i + 1, Destination(code, i).value);
    case Loop(i, body, compare, latch) => TailsInside(code, body, i + 1, compare);
  }

  lemma {:induction false} ReadsSplit(code: Code, calls: set<nat>, ops: seq<Op>, lo: nat, hi: nat)
    requires hi <= |code| && ops != [] && Covers(code, ops, lo, hi) && Reads(calls, AllTails(ops), lo, hi)
    ensures CoversOp(code, ops[0], lo, hi)
    ensures var mid := OpEnd(code, ops[0]);
            && lo < mid <= hi
            && Reads(calls, Tails(ops[0]), lo, mid)
            && Reads(calls, AllTails(ops[1..]), mid, hi)
  {
    var mid := OpEnd(code, ops[0]);
    OpTailsInside(code, ops[0], lo, hi);
    TailsInside(code, ops[1..], mid, hi);
    ReadsBoth(calls, AllTails(ops), Tails(ops[0]), AllTails(ops[1..]), lo, mid, hi);
  }

  lemma {:induction false} ReadsBoth(calls: set<nat>, tails: set<nat>, s: set<nat>, t: set<nat>,
                                     lo: nat, mid: nat, hi: nat)
    requires Reads(calls, tails, lo, hi) && tails == s + t && lo <= mid <= hi
    requires forall i :: i in s ==> lo <= i < mid
    requires forall i :: i in t ==> mid <= i < hi
    ensures Reads(calls, s, lo, mid) && Reads(calls, t, mid, hi)
  {
    forall i: nat | lo <= i < mid
      ensures i in calls <==> i in s
    {
      assert i !in t && (i in calls <==> i in tails);
    }
    forall i: nat | mid <= i < hi
      ensures i in calls <==> i in t
    {
      assert i !in s && (i in calls <==> i in tails);
    }
  }

  /** Wherever it branches, control stays between lo and hi. */
  ghost predicate Closed(code: Code, calls: set<nat>, top: nat, lo: nat, hi: nat)
    requires hi <= |code|
  {
    forall pc :: lo <= pc < hi ==>
      && (code[pc].Jump? && pc !in calls ==> lo <= Target(code, top, pc) <= hi)
      && (code[pc].Branch? ==> lo <= Target(code, top, pc) <= hi)
  }

  lemma {:induction false} CoversClosed(code: Code, calls: set<nat>, top: nat, ops: seq<Op>, lo: nat, hi: nat)
    requires hi <= top <= |code| && Covers(code, ops, lo, hi) && Reads(calls, AllTails(ops), lo, hi)
    ensures lo <= hi && Closed(code, calls, top, lo, hi)
    decreases ops, 1
  {
    if ops != [] {
      ReadsSplit(code, calls, ops, lo, hi);
      OpClosed(code, calls, top, ops[0], lo, hi);
      CoversClosed(code, calls, top, ops[1..], OpEnd(code, ops[0]), hi);
    }
  }

  lemma {:induction false} OpClosed(code: Code, calls: set<nat>, top: nat, op: Op, lo: nat, hi: nat)
    requires hi <= top <= |code| && CoversOp(code, op, lo, hi)
    requires lo < OpEnd(code, op) <= hi && Reads(calls, Tails(op), lo, OpEnd(code, op))
    ensures Closed(code, calls, top, lo, OpEnd(code, op))
    decreases op, 0
  {
    match op
    case Instr(i) =>
    case TailCall(i) =>
    case Guard(i, body) =>
      CoversClosed(code, calls, top, body, i + 1, Destination(code, i).value);
    case Loop(i, body, compare, latch) =>
      CoversClosed(code, calls, top, body, i + 1, compare);
  }

  /** A closed stretch runs to its end, and the rest takes over from there. */
  lemma {:induction false} FlatSplit<S>(code: Code, calls: set<nat>, m: Machine<S>, top: nat,
                                        lo: nat, mid: nat, stop: nat, pc: nat, c: Moment<S>, fuel: nat)
    requires lo <= pc <= mid <= stop <= top <= |code| && Closed(code, calls, top, lo, mid)
    ensures var r := Flat(code, calls, m, top, mid, pc, c, fuel);
            Flat(code, calls, m, top, stop, pc, c, fuel)
            == if r.Out? then r else Flat(code, calls, m, top, stop, mid, r.c, r.left)
    decreases fuel
  {
    if pc < mid && fuel > 0 {
      FlatSplit(code, calls, m, top, lo, mid, stop, Next(code, calls, m, top, pc, c.s), Exec(m, c, pc), fuel - 1);
    }
  }

  lemma {:induction false} StraightRunsFlat<S>(code: Code, calls: set<nat>, m: Machine<S>, top: nat,
                                               lo: nat, hi: nat, c: Moment<S>, fuel: nat)
    requires lo <= hi <= top <= |code| && StraightRange(code, lo, hi)
    ensures RunWords(m, lo, hi, c, fuel) == Flat(code, calls, m, top, hi, lo, c, fuel)
    decreases fuel
  {
    if lo < hi && fuel > 0 {
      StraightRunsFlat(code, calls, m, top, lo + 1, hi, Exec(m, c, lo), fuel - 1);
    }
  }

  /**
   The recovered operations run exactly like the flat code, for every machine,
   state and allowance, once each tail branch is read as the call it was taken for.
   Equal at every allowance means: the same words in the same order, and both end
   or neither does.
   */
  lemma {:induction false} OpsRunFlat<S>(code: Code, calls: set<nat>, m: Machine<S>, top: nat,
                                         ops: seq<Op>, lo: nat, hi: nat, c: Moment<S>, fuel: nat)
    requires hi <= top <= |code| && Covers(code, ops, lo, hi) && Reads(calls, AllTails(ops), lo, hi)
    ensures RunOps(m, ops, c, fuel) == Flat(code, calls, m, top, hi, lo, c, fuel)
    decreases fuel, ops, 1
  {
    if ops != [] {
      var mid := OpEnd(code, ops[0]);
      ReadsSplit(code, calls, ops, lo, hi);
      OpRunsFlat(code, calls, m, top, ops[0], lo, hi, c, fuel);
      OpClosed(code, calls, top, ops[0], lo, hi);
      FlatSplit(code, calls, m, top, lo, mid, hi, lo, c, fuel);
      var first := RunOp(m, ops[0], c, fuel);
      if first.Ended? {
        OpsRunFlat(code, calls, m, top, ops[1..], mid, hi, first.c, first.left);
      }
    }
  }

  lemma {:induction false} OpRunsFlat<S>(code: Code, calls: set<nat>, m: Machine<S>, top: nat,
                                         op: Op, lo: nat, hi: nat, c: Moment<S>, fuel: nat)
    requires hi <= top <= |code| && CoversOp(code, op, lo, hi)
    requires lo < OpEnd(code, op) <= hi && Reads(calls, Tails(op), lo, OpEnd(code, op))
    ensures RunOp(m, op, c, fuel) == Flat(code, calls, m, top, OpEnd(code, op), lo, c, fuel)
    decreases fuel, op, 0
  {
    if fuel > 0 {
      var c' := Exec(m, c, lo);
      match op
      case Instr(i) =>
      case TailCall(i) =>
      case Guard(i, body) =>
        OpsRunFlat(code, calls, m, top, body, i + 1, Destination(code, i).value, c', fuel - 1);
      case Loop(i, body, compare, latch) =>
        TailsInside(code, body, i + 1, compare);
        assert Tails(op) == AllTails(body);
        assert i !in AllTails(body);
        LoopRunsFlat(code, calls, m, top, i, body, compare, latch, c', fuel - 1);
    }
  }

  lemma {:induction false} LoopRunsFlat<S>(code: Code, calls: set<nat>, m: Machine<S>, top: nat,
                                           i: nat, body: seq<Op>, compare: nat, latch: nat, c: Moment<S>, fuel: nat)
    requires i < compare <= latch < top <= |code| && StraightRange(code, compare, latch)
    requires code[latch].Branch? && Destination(code, latch) == Some(i + 1)
    requires Covers(code, body, i + 1, compare) && Reads(calls, AllTails(body), i + 1, compare)
    ensures RunLoop(m, body, compare, latch, c, fuel) == Flat(code, calls, m, top, latch + 1, compare, c, fuel)
    decreases fuel, body, 2
  {
    StraightRunsFlat(code, calls, m, top, compare, latch, c, fuel);
    FlatSplit(code, calls, m, top, compare, latch, latch + 1, compare, c, fuel);
    var test := RunWords(m, compare, latch, c, fuel);
    if test.Ended? && test.left > 0 {
    }
    if test.Ended? && test.left > 0 && m.taken(latch, test.c.s) {
      var c' := Exec(m, test.c, latch);
      OpsRunFlat(code, calls, m, top, body, i + 1, compare, c', test.left - 1);
      BodySplits(code, calls, m, top, i, body, compare, latch, c', test.left - 1);
      var once := RunOps(m, body, c', test.left - 1);
      if once.Ended? {
        LoopRunsFlat(code, calls, m, top, i, body, compare, latch, once.c, once.left);
      }
    }
  }

  lemma {:induction false} BodySplits<S>(code: Code, calls: set<nat>, m: Machine<S>, top: nat,
                                         i: nat, body: seq<Op>, compare: nat, latch: nat, c: Moment<S>, fuel: nat)
    requires i < compare <= latch < top <= |code|
    requires Covers(code, body, i + 1, compare) && Reads(calls, AllTails(body), i + 1, compare)
    ensures var r := Flat(code, calls, m, top, compare, i + 1, c, fuel);
            Flat(code, calls, m, top, latch + 1, i + 1, c, fuel)
            == if r.Out? then r else Flat(code, calls, m, top, latch + 1, compare, r.c, r.left)
  {
    CoversClosed(code, calls, top, body, i + 1, compare);
    FlatSplit(code, calls, m, top, i + 1, compare, latch + 1, i + 1, c, fuel);
  }

  // ----- exactly when the tails do not matter -----

  /** A tail branch lands where reading it as a call continues: on the next word, or out of the body at its end. */
  ghost predicate Lands(code: Code, top: nat, i: nat)
    requires i < |code|
  {
    Target(code, top, i) == i + 1
  }

  ghost predicate TailsLand(code: Code, top: nat, tails: set<nat>)
    requires top <= |code|
  {
    forall i :: i in tails && i < top ==> Lands(code, top, i)
  }

  lemma {:induction false} LandingRunsTheSame<S>(code: Code, calls: set<nat>, m: Machine<S>, top: nat,
                                                 stop: nat, pc: nat, c: Moment<S>, fuel: nat)
    requires top <= |code| && TailsLand(code, top, calls)
    ensures Flat(code, calls, m, top, stop, pc, c, fuel) == Flat(code, {}, m, top, stop, pc, c, fuel)
    decreases fuel
  {
    if pc != stop && pc < top && fuel > 0 {
      assert pc in calls ==> Lands(code, top, pc);
      LandingRunsTheSame(code, calls, m, top, stop, Next(code, calls, m, top, pc, c.s), Exec(m, c, pc), fuel - 1);
    }
  }

  /** With its tails landing, the tree is the code: for every machine, state and allowance. */
  lemma {:induction false} TreeIsCode<S>(code: Code, m: Machine<S>, ops: seq<Op>, lo: nat, hi: nat, c: Moment<S>,
                                         fuel: nat)
    requires hi <= |code| && Covers(code, ops, lo, hi) && TailsLand(code, hi, AllTails(ops))
    ensures RunOps(m, ops, c, fuel) == Flat(code, {}, m, hi, hi, lo, c, fuel)
  {
    OpsRunFlat(code, AllTails(ops), m, hi, ops, lo, hi, c, fuel);
    LandingRunsTheSame(code, AllTails(ops), m, hi, hi, lo, c, fuel);
  }

  /** A tail branch that is the last word of the function lands. */
  lemma {:induction false} LastWordLands(code: Code, ops: seq<Op>, lo: nat, hi: nat)
    requires hi <= |code| && Covers(code, ops, lo, hi)
    requires forall i :: i in AllTails(ops) ==> i == hi - 1
    ensures TailsLand(code, hi, AllTails(ops))
  {
    forall i | i in AllTails(ops)
      ensures i < |code| && Target(code, hi, i) == hi
    {
      TailTarget(code, ops, lo, hi, i);
    }
  }

  lemma {:induction false} TailTarget(code: Code, ops: seq<Op>, lo: nat, hi: nat, i: nat)
    requires hi <= |code| && Covers(code, ops, lo, hi) && i in AllTails(ops)
    ensures lo <= i < hi && code[i].Jump?
    ensures i == hi - 1 ==> Target(code, hi, i) == hi
    decreases ops
  {
    TailsInside(code, ops, lo, hi);
    var mid := OpEnd(code, ops[0]);
    OpTailsInside(code, ops[0], lo, hi);
    if i in Tails(ops[0]) {
      match ops[0]
      case TailCall(_) =>
      case Guard(g, body) =>
        TailTarget(code, body, g + 1, Destination(code, g).value, i);
      case Loop(l, body, compare, _) =>
        TailTarget(code, body, l + 1, compare, i);
      case Instr(_) =>
    } else {
      TailTarget(code, ops[1..], mid, hi, i);
    }
  }

  /** The machine that goes into every guard, and into every loop once; its state is the words executed. */
  function EnterAll(code: Code): Machine<set<nat>> {
    Machine((i: nat, s: set<nat>) => s + {i},
            (i: nat, s: set<nat>) =>
              i < |code| && Destination(code, i).Some? && Destination(code, i).value <= i && i !in s)
  }

  ghost function Span(lo: nat, hi: nat): (r: set<nat>)
    ensures forall i :: i in r <==> lo <= i < hi
    decreases hi - lo
  {
    if lo >= hi then {} else {lo} + Span(lo + 1, hi)
  }

  lemma {:induction false} MoreFuel<S>(code: Code, calls: set<nat>, m: Machine<S>, top: nat, stop: nat,
                                       pc: nat, c: Moment<S>, fuel: nat, more: nat)
    requires top <= |code|
    ensures var r := Flat(code, calls, m, top, stop, pc, c, fuel);
            r.Ended? ==> Flat(code, calls, m, top, stop, pc, c, fuel + more) == Ended(r.c, r.left + more)
    decreases fuel
  {
    if pc != stop && pc < top && fuel > 0 {
      MoreFuel(code, calls, m, top, stop, Next(code, calls, m, top, pc, c.s), Exec(m, c, pc), fuel - 1, more);
    }
  }

  /** The run from pc to stop takes `fuel` words and executes exactly `ran`. */
  ghost predicate Runs(code: Code, calls: set<nat>, top: nat, pc: nat, stop: nat,
                       c: Moment<set<nat>>, fuel: nat, c': Moment<set<nat>>, ran: set<nat>)
    requires top <= |code|
  {
    && Flat(code, calls, EnterAll(code), top, stop, pc, c, fuel) == Ended(c', 0)
    && c'.s == c.s + ran
  }

  lemma {:induction false} RunsJoin(code: Code, calls: set<nat>, top: nat, lo: nat, pc: nat, mid: nat, stop: nat,
                                    c: Moment<set<nat>>, f1: nat, c1: Moment<set<nat>>, ran1: set<nat>,
                                    f2: nat, c2: Moment<set<nat>>, ran2: set<nat>)
    requires lo <= pc <= mid <= stop <= top <= |code| && Closed(code, calls, top, lo, mid)
    requires Runs(code, calls, top, pc, mid, c, f1, c1, ran1)
    requires Runs(code, calls, top, mid, stop, c1, f2, c2, ran2)
    ensures Runs(code, calls, top, pc, stop, c, f1 + f2, c2, ran1 + ran2)
  {
    var m := EnterAll(code);
    MoreFuel(code, calls, m, top, mid, pc, c, f1, f2);
    FlatSplit(code, calls, m, top, lo, mid, stop, pc, c, f1 + f2);
  }

  lemma {:induction false} RunsStep(code: Code, calls: set<nat>, top: nat, pc: nat, to: nat, stop: nat,
                                    c: Moment<set<nat>>, f: nat, c': Moment<set<nat>>, ran: set<nat>)
    requires pc < top <= |code| && pc != stop
    requires Next(code, calls, EnterAll(code), top, pc, c.s) == to
    requires Runs(code, calls, top, to, stop, Exec(EnterAll(code), c, pc), f, c', ran)
    ensures Runs(code, calls, top, pc, stop, c, f + 1, c', {pc} + ran)
  {
    assert Exec(EnterAll(code), c, pc).s == c.s + {pc};
    assert c.s + {pc} + ran == c.s + ({pc} + ran);
  }

  lemma {:induction false} StraightRuns(code: Code, calls: set<nat>, top: nat, lo: nat, hi: nat, c: Moment<set<nat>>)
      returns (f: nat, c': Moment<set<nat>>)
    requires lo <= hi <= top <= |code| && StraightRange(code, lo, hi)
    ensures Runs(code, calls, top, lo, hi, c, f, c', Span(lo, hi))
    decreases hi - lo
  {
    if lo == hi {
      f, c' := 0, c;
      assert Span(lo, hi) == {};
    } else {
      f, c' := StraightRuns(code, calls, top, lo + 1, hi, Exec(EnterAll(code), c, lo));
      RunsStep(code, calls, top, lo, lo + 1, hi, c, f, c', Span(lo + 1, hi));
      assert {lo} + Span(lo + 1, hi) == Span(lo, hi);
      f := f + 1;
    }
  }

  /** Under that machine a covered stretch runs to its end and executes every one of its words. */
  lemma {:induction false} AllRuns(code: Code, calls: set<nat>, top: nat, ops: seq<Op>, lo: nat, hi: nat,
                                   c: Moment<set<nat>>)
      returns (f: nat, c': Moment<set<nat>>)
    requires hi <= top <= |code| && Covers(code, ops, lo, hi) && Reads(calls, AllTails(ops), lo, hi)
    requires c.s !! Span(lo, hi)
    ensures lo <= hi && Runs(code, calls, top, lo, hi, c, f, c', Span(lo, hi))
    decreases ops, 1
  {
    if ops == [] {
      f, c' := 0, c;
      assert Span(lo, hi) == {};
    } else {
      var mid := OpEnd(code, ops[0]);
      ReadsSplit(code, calls, ops, lo, hi);
      var f1, c1 := OpAllRuns(code, calls, top, ops[0], lo, hi, c);
      var f2, c2 := AllRuns(code, calls, top, ops[1..], mid, hi, c1);
      OpClosed(code, calls, top, ops[0], lo, hi);
      RunsJoin(code, calls, top, lo, lo, mid, hi, c, f1, c1, Span(lo, mid), f2, c2, Span(mid, hi));
      assert Span(lo, mid) + Span(mid, hi) == Span(lo, hi);
      f, c' := f1 + f2, c2;
    }
  }

  lemma {:induction false} OpAllRuns(code: Code, calls: set<nat>, top: nat, op: Op, lo: nat, hi: nat,
                                     c: Moment<set<nat>>)
      returns (f: nat, c': Moment<set<nat>>)
    requires hi <= top <= |code| && CoversOp(code, op, lo, hi)
    requires lo < OpEnd(code, op) <= hi && Reads(calls, Tails(op), lo, OpEnd(code, op))
    requires c.s !! Span(lo, OpEnd(code, op))
    ensures Runs(code, calls, top, lo, OpEnd(code, op), c, f, c', Span(lo, OpEnd(code, op)))
    decreases op, 0
  {
    var m, end := EnterAll(code), OpEnd(code, op);
    var c1 := Exec(m, c, lo);
    assert {lo} + Span(lo + 1, end) == Span(lo, end);
    match op
    case Instr(i) =>
      f, c' := 1, c1;
      RunsStep(code, calls, top, lo, end, end, c, 0, c1, Span(end, end));
    case TailCall(i) =>
      f, c' := 1, c1;
      RunsStep(code, calls, top, lo, end, end, c, 0, c1, Span(end, end));
    case Guard(i, body) =>
      f, c' := AllRuns(code, calls, top, body, i + 1, end, c1);
      RunsStep(code, calls, top, lo, lo + 1, end, c, f, c', Span(lo + 1, end));
      f := f + 1;
    case Loop(i, body, compare, latch) =>
      TailsInside(code, body, i + 1, compare);
      assert Tails(op) == AllTails(body);
      f, c' := LoopAllRuns(code, calls, top, i, body, compare, latch, c1);
      RunsStep(code, calls, top, lo, compare, end, c, f, c', Span(lo + 1, end));
      f := f + 1;
  }

  lemma {:induction false} LoopAllRuns(code: Code, calls: set<nat>, top: nat, i: nat, body: seq<Op>,
                                       compare: nat, latch: nat, c: Moment<set<nat>>)
      returns (f: nat, c': Moment<set<nat>>)
    requires i < compare <= latch < top <= |code| && StraightRange(code, compare, latch)
    requires code[latch].Branch? && Destination(code, latch) == Some(i + 1)
    requires Covers(code, body, i + 1, compare) && Reads(calls, AllTails(body), i + 1, compare)
    requires c.s !! Span(i + 1, latch + 1)
    ensures Runs(code, calls, top, compare, latch + 1, c, f, c', Span(i + 1, latch + 1))
    decreases body, 3
  {
    var end := latch + 1;
    var f1, c1 := StraightRuns(code, calls, top, compare, latch, c);
    var c2 := Exec(EnterAll(code), c1, latch);
    assert c2.s == c.s + Span(compare, latch) + {latch};
    var f2, c3 := BodyThenOut(code, calls, top, i, body, compare, latch, c2);
    LatchBack(code, calls, top, i, latch, c1, f2, c3);
    RunsJoin(code, calls, top, compare, compare, latch, end, c, f1, c1, Span(compare, latch),
             f2 + 1, c3, Span(i + 1, end));
    assert Span(compare, latch) + Span(i + 1, end) == Span(i + 1, end);
    f, c' := f1 + (f2 + 1), c3;
  }

  lemma {:induction false} BodyThenOut(code: Code, calls: set<nat>, top: nat, i: nat, body: seq<Op>,
                                       compare: nat, latch: nat, c: Moment<set<nat>>)
      returns (f: nat, c': Moment<set<nat>>)
    requires i < compare <= latch < top <= |code| && StraightRange(code, compare, latch) && code[latch].Branch?
    requires Covers(code, body, i + 1, compare) && Reads(calls, AllTails(body), i + 1, compare)
    requires c.s !! Span(i + 1, compare) && latch in c.s
    ensures Runs(code, calls, top, i + 1, latch + 1, c, f, c', Span(i + 1, latch + 1))
    decreases body, 2
  {
    CoversClosed(code, calls, top, body, i + 1, compare);
    var f1, c1 := AllRuns(code, calls, top, body, i + 1, compare, c);
    f, c' := ThenOut(code, calls, top, i, compare, latch, c, f1, c1);
  }

  lemma {:induction false} ThenOut(code: Code, calls: set<nat>, top: nat, i: nat, compare: nat, latch: nat,
                                   c: Moment<set<nat>>, f1: nat, c1: Moment<set<nat>>)
      returns (f: nat, c': Moment<set<nat>>)
    requires i < compare <= latch < top <= |code| && StraightRange(code, compare, latch) && code[latch].Branch?
    requires Closed(code, calls, top, i + 1, compare) && latch in c.s
    requires Runs(code, calls, top, i + 1, compare, c, f1, c1, Span(i + 1, compare))
    ensures Runs(code, calls, top, i + 1, latch + 1, c, f, c', Span(i + 1, latch + 1))
  {
    var end := latch + 1;
    var f2, c2 := CompareThenOut(code, calls, top, compare, latch, c1);
    RunsJoin(code, calls, top, i + 1, i + 1, compare, end, c, f1, c1, Span(i + 1, compare), f2, c2, Span(compare, end));
    f, c' := f1 + f2, c2;
  }

  /** The latch is taken the first time it is met. */
  lemma {:induction false} LatchBack(code: Code, calls: set<nat>, top: nat, i: nat, latch: nat, c: Moment<set<nat>>,
                                     f: nat, c': Moment<set<nat>>)
    requires i < latch < top <= |code| && latch !in c.s
    requires code[latch].Branch? && Destination(code, latch) == Some(i + 1)
    requires Runs(code, calls, top, i + 1, latch + 1, Exec(EnterAll(code), c, latch), f, c', Span(i + 1, latch + 1))
    ensures Runs(code, calls, top, latch, latch + 1, c, f + 1, c', Span(i + 1, latch + 1))
  {
    RunsStep(code, calls, top, latch, i + 1, latch + 1, c, f, c', Span(i + 1, latch + 1));
    assert {latch} + Span(i + 1, latch + 1) == Span(i + 1, latch + 1);
  }

  /** The compare runs again, and the latch, taken before, lets the loop go. */
  lemma {:induction false} CompareThenOut(code: Code, calls: set<nat>, top: nat, compare: nat, latch: nat,
                                          c: Moment<set<nat>>)
      returns (f: nat, c': Moment<set<nat>>)
    requires compare <= latch < top <= |code| && StraightRange(code, compare, latch)
    requires code[latch].Branch? && latch in c.s
    ensures Runs(code, calls, top, compare, latch + 1, c, f, c', Span(compare, latch + 1))
  {
    var f1, c1 := StraightRuns(code, calls, top, compare, latch, c);
    c' := Exec(EnterAll(code), c1, latch);
    RunsStep(code, calls, top, latch, latch + 1, latch + 1, c1, 0, c', {});
    RunsJoin(code, calls, top, compare, compare, latch, latch + 1, c, f1, c1, Span(compare, latch),
             1, c', {latch} + {});
    assert Span(compare, latch) + ({latch} + {}) == Span(compare, latch + 1);
    f := f1 + 1;
  }

  /** A run through a jump that does not land goes differently when the jump is taken. */
  lemma {:induction false} Diverges<S>(code: Code, calls: set<nat>, m: Machine<S>, top: nat,
                                       pc: nat, c: Moment<S>, fuel: nat, i: nat) returns (f: nat)
    requires top <= |code| && i in calls && i < top && code[i].Jump? && !Lands(code, top, i)
    requires var r := Flat(code, calls, m, top, top, pc, c, fuel);
             r.Ended? && i in r.c.trace && i !in c.trace
    ensures Flat(code, calls, m, top, top, pc, c, f) != Flat(code, {}, m, top, top, pc, c, f)
    decreases fuel
  {
    var to, c1 := Next(code, calls, m, top, pc, c.s), Exec(m, c, pc);
    var to' := Next(code, {}, m, top, pc, c.s);
    if to != to' {
      assert to == pc + 1 <= top && to' <= top;
      f := 2;
      assert Flat(code, calls, m, top, top, to, c1, 1).c.trace
             == if to < top then c1.trace + [to] else c1.trace;
      assert Flat(code, {}, m, top, top, to', c1, 1).c.trace
             == if to' < top then c1.trace + [to'] else c1.trace;
      LastDiffers(c1.trace, to, to');
    } else {
      f := Diverges(code, calls, m, top, to, c1, fuel - 1, i);
      f := f + 1;
    }
  }

  lemma {:induction false} LastDiffers(t: seq<nat>, a: nat, b: nat)
    requires a != b
    ensures t + [a] != t + [b] && t + [a] != t && t + [b] != t
  {
    assert (t + [a])[|t|] == a && (t + [b])[|t|] == b;
    assert |t + [a]| == |t| + 1 && |t + [b]| == |t| + 1;
  }

  /** And only then: a tree that runs like the code on the machine above has every tail landing. */
  lemma {:induction false} TreeIsCodeOnlyIfTailsLand(code: Code, ops: seq<Op>, lo: nat, hi: nat)
    requires hi <= |code| && Covers(code, ops, lo, hi)
    requires forall fuel: nat :: RunOps(EnterAll(code), ops, Moment({}, []), fuel)
                                 == Flat(code, {}, EnterAll(code), hi, hi, lo, Moment({}, []), fuel)
    ensures TailsLand(code, hi, AllTails(ops))
  {
    var m, calls, c := EnterAll(code), AllTails(ops), Moment({}, []);
    TailsInside(code, ops, lo, hi);
    forall i | i in calls && i < hi
      ensures Lands(code, hi, i)
    {
      if !Lands(code, hi, i) {
        TailTarget(code, ops, lo, hi, i);
        var n, c' := AllRuns(code, calls, hi, ops, lo, hi, c);
        TraceIsState(code, calls, hi, hi, lo, c, n);
        var f := Diverges(code, calls, m, hi, lo, c, n, i);
        OpsRunFlat(code, calls, m, hi, ops, lo, hi, c, f);
        assert false;
      }
    }
  }

  ghost predicate Mirrors(c: Moment<set<nat>>) {
    forall i: nat :: i in c.s <==> i in c.trace
  }

  lemma {:induction false} TraceIsState(code: Code, calls: set<nat>, top: nat, stop: nat, pc: nat,
                                        c: Moment<set<nat>>, fuel: nat)
    requires top <= |code| && Mirrors(c)
    ensures Mirrors(Flat(code, calls, EnterAll(code), top, stop, pc, c, fuel).c)
    decreases fuel
  {
    if pc != stop && pc < top && fuel > 0 {
      var m := EnterAll(code);
      var c1 := Exec(m, c, pc);
      assert c1.s == c.s + {pc} && c1.trace == c.trace + [pc];
      TraceIsState(code, calls, top, stop, Next(code, calls, m, top, pc, c.s), c1, fuel - 1);
    }
  }
}
