/**
 The data planner of `tools/dwarf_data_carve.py`: for each variable of a section,
 in address order, a declaration type chosen for its size and alignment so that
 the compiler puts it where it was.
 */
module DataCarve {
  import opened Wrappers

  // ----- types and the compiler's layout -----

  datatype Element = Double | Int | Short | Char

  /** A scalar, or an array of so many elements. */
  datatype Decl = Scalar(e: Element) | Array(e: Element, count: nat)

  function Align(e: Element): nat {
    match e
    case Double => 8
    case Int => 4
    case Short => 2
    case Char => 1
  }

  function SizeOf(d: Decl): nat {
    if d.Scalar? then Align(d.e) else Align(d.e) * d.count
  }

  /** The next multiple of the alignment. */
  function RoundUp(x: int, e: Element): int {
    match e
    case Double => (x + 7) / 8 * 8
    case Int => (x + 3) / 4 * 4
    case Short => (x + 1) / 2 * 2
    case Char => x
  }

  /** Where the compiler puts declarations that follow each other from `cur`. */
  function Place(ds: seq<Decl>, cur: int): seq<int> {
    if ds == [] then []
    else
      var at := RoundUp(cur, ds[0].e);
      [at] + Place(ds[1..], at + SizeOf(ds[0]))
  }

  // ----- the recorded variables -----

  /** What the symbol table says of an address. */
  datatype Symbol = Missing | Unnameable | Global | Anonymous(blob: string)

  datatype Variable = Variable(at: int, size: nat, symbol: Symbol)

  /** The declarations put every variable at its address with its size. */
  predicate Reproduces(ds: seq<Decl>, vars: seq<Variable>, cur: int) {
    && |ds| == |vars|
    && Place(ds, cur) == seq(|vars|, i requires 0 <= i < |vars| => vars[i].at)
    && forall i :: 0 <= i < |vars| ==> SizeOf(ds[i]) == vars[i].size
  }

  /** The same, one variable at a time. */
  ghost predicate Fits(ds: seq<Decl>, vars: seq<Variable>, cur: int) {
    if ds == [] || vars == [] then ds == [] && vars == []
    else
      && RoundUp(cur, ds[0].e) == vars[0].at
      && SizeOf(ds[0]) == vars[0].size
      && Fits(ds[1..], vars[1..], vars[0].at + vars[0].size)
  }

  function Addresses(vars: seq<Variable>): seq<int> {
    seq(|vars|, i requires 0 <= i < |vars| => vars[i].at)
  }

  lemma {:induction false} FitsReproduces(ds: seq<Decl>, vars: seq<Variable>, cur: int)
    ensures Fits(ds, vars, cur) <==> Reproduces(ds, vars, cur)
    decreases |ds|
  {
    if ds != [] && vars != [] {
      var at := RoundUp(cur, ds[0].e);
      var rest := Place(ds[1..], at + SizeOf(ds[0]));
      FitsReproduces(ds[1..], vars[1..], vars[0].at + vars[0].size);
      assert Addresses(vars) == [vars[0].at] + Addresses(vars[1..]);
      if Reproduces(ds, vars, cur) {
        assert ([at] + rest)[0] == Addresses(vars)[0];
        assert ([at] + rest)[1..] == rest && Addresses(vars)[1..] == Addresses(vars[1..]);
        assert SizeOf(ds[0]) == vars[0].size;
        forall i | 0 <= i < |vars[1..]|
          ensures SizeOf(ds[1..][i]) == vars[1..][i].size
        {
          assert SizeOf(ds[i + 1]) == vars[i + 1].size;
        }
      }
    }
  }

  /** All symbols can be named, and the anonymous ones by one file. */
  predicate NamesFit(vars: seq<Variable>) {
    && (forall i :: 0 <= i < |vars| ==> vars[i].symbol.Global? || vars[i].symbol.Anonymous?)
    && (forall i, j :: 0 <= i < j < |vars| && vars[i].symbol.Anonymous? && vars[j].symbol.Anonymous?
                       ==> vars[i].symbol == vars[j].symbol)
  }

  predicate Increasing(vars: seq<Variable>) {
    forall i, j :: 0 <= i < j < |vars| ==> vars[i].at < vars[j].at
  }

  // ----- choosing a type -----

  /** `spell`: a declaration of exactly that size and alignment. */
  function Spell(size: nat, e: Element): (r: Option<Decl>)
    ensures r.Some? <==> exists d: Decl :: d.e == e && SizeOf(d) == size
    ensures r.Some? ==> r.value.e == e && SizeOf(r.value) == size
  {
    if size == Align(e) then
      assert SizeOf(Scalar(e)) == size;
      Some(Scalar(e))
    else if size % Align(e) == 0 then
      assert SizeOf(Array(e, size / Align(e))) == size;
      Some(Array(e, size / Align(e)))
    else
      NoMultiple(size, e);
      None
  }

  lemma {:induction false} NoMultiple(size: nat, e: Element)
    requires size != Align(e) && size % Align(e) != 0
    ensures forall d: Decl :: d.e == e ==> SizeOf(d) != size
  {
    forall d: Decl | d.e == e
      ensures SizeOf(d) != size
    {
      match e
      case Double => assert d.Array? ==> (8 * d.count) % 8 == 0;
      case Int => assert d.Array? ==> (4 * d.count) % 4 == 0;
      case Short => assert d.Array? ==> (2 * d.count) % 2 == 0;
      case Char =>
    }
  }

  /** The largest power of two, up to eight, that divides an offset. */
  function Want(off: int): nat {
    if off % 2 != 0 then 1 else if off % 4 != 0 then 2 else if off % 8 != 0 then 4 else 8
  }

  /** Can this element type be reached from `cur` at `off` with this size? */
  predicate Usable(e: Element, cur: int, off: int, size: nat) {
    Align(e) <= Want(off) && RoundUp(cur, e) == off && Spell(size, e).Some?
  }

  /** The loop over 8, 4, 2, 1: the first alignment that works. */
  function Choose(cur: int, off: int, size: nat): Option<Decl> {
    if Usable(Double, cur, off, size) then Spell(size, Double)
    else if Usable(Int, cur, off, size) then Spell(size, Int)
    else if Usable(Short, cur, off, size) then Spell(size, Short)
    else if Usable(Char, cur, off, size) then Spell(size, Char)
    else None
  }

  /** A rounded-up offset is a multiple of the alignment, so the power-of-two test never skips a type that fits. */
  lemma {:induction false} RoundUpWanted(cur: int, e: Element)
    ensures Align(e) <= Want(RoundUp(cur, e))
  {
    match e
    case Double => Multiple((cur + 7) / 8, 8);
    case Int => Multiple((cur + 3) / 4, 4);
    case Short => Multiple((cur + 1) / 2, 2);
    case Char =>
  }

  lemma {:induction false} Multiple(q: int, n: int)
    requires n == 2 || n == 4 || n == 8
    ensures n <= Want(q * n)
  {
    if n == 8 {
      assert q * n == 8 * q && 8 * q == 4 * (2 * q) && 8 * q == 2 * (4 * q);
      assert (8 * q) % 8 == 0 && (4 * (2 * q)) % 4 == 0 && (2 * (4 * q)) % 2 == 0;
    } else if n == 4 {
      assert q * n == 4 * q && 4 * q == 2 * (2 * q);
      assert (4 * q) % 4 == 0 && (2 * (2 * q)) % 2 == 0;
    } else {
      assert q * n == 2 * q && (2 * q) % 2 == 0;
    }
  }

  /** The choice is the best there is, and there is one unless no type at all would do. */
  lemma {:induction false} ChooseBest(cur: int, off: int, size: nat)
    ensures var r := Choose(cur, off, size);
            r.Some? ==> RoundUp(cur, r.value.e) == off && SizeOf(r.value) == size
    ensures forall d: Decl :: RoundUp(cur, d.e) == off && SizeOf(d) == size ==>
              Choose(cur, off, size).Some? && Align(d.e) <= Align(Choose(cur, off, size).value.e)
  {
    forall d: Decl | RoundUp(cur, d.e) == off && SizeOf(d) == size
      ensures Usable(d.e, cur, off, size)
    {
      RoundUpWanted(cur, d.e);
    }
  }

  /** From an 8-aligned start, addresses and offsets round alike. */
  lemma {:induction false} RoundUpFrom(lo: int, x: int, e: Element)
    requires lo % 8 == 0
    ensures RoundUp(lo + x, e) == lo + RoundUp(x, e)
  {
    var q := lo / 8;
    assert lo == 8 * q;
    match e
    case Double => assert (8 * q + x + 7) / 8 == q + (x + 7) / 8;
    case Int => assert (8 * q + x + 3) / 4 == 2 * q + (x + 3) / 4;
    case Short => assert (8 * q + x + 1) / 2 == 4 * q + (x + 1) / 2;
    case Char =>
  }

  // ----- the plan of a section -----

  datatype Reason = StartNotAligned | NoSymbol | NoName | TwoBlobs | NoType

  datatype Plan = Refused(why: Reason) | Planned(lo: int, hi: int, rows: seq<Decl>, blob: Option<string>)

  /** The end of the range: rounded up to four, but not into the next variable. */
  function RangeEnd(hi: int, next: Option<int>): (end: int)
    requires next.Some? ==> hi <= next.value
    ensures hi <= end < hi + 4 && (next.Some? ==> end <= next.value)
    ensures end % 4 == 0 || next == Some(end)
  {
    var end4 := (hi + 3) / 4 * 4;
    if next.Some? && next.value < end4 then next.value else end4
  }

  lemma {:induction false} FitsSnoc(ds: seq<Decl>, vars: seq<Variable>, cur: int, d: Decl, v: Variable, last: int)
    requires Fits(ds, vars, cur)
    requires last == if vars == [] then cur else vars[|vars| - 1].at + vars[|vars| - 1].size
    requires RoundUp(last, d.e) == v.at && SizeOf(d) == v.size
    ensures Fits(ds + [d], vars + [v], cur)
    decreases |ds|
  {
    if ds == [] {
      assert ds + [d] == [d] && vars + [v] == [v];
      assert [d][1..] == [] && [v][1..] == [];
    } else {
      assert (ds + [d])[1..] == ds[1..] + [d] && (vars + [v])[1..] == vars[1..] + [v];
      FitsSnoc(ds[1..], vars[1..], vars[0].at + vars[0].size, d, v, last);
    }
  }

  /** Any choice of types that reproduces the section has, at each variable, one that fits there. */
  lemma {:induction false} FitsAt(ds: seq<Decl>, vars: seq<Variable>, cur: int, k: nat)
    requires Fits(ds, vars, cur) && k < |vars|
    ensures |ds| == |vars|
    ensures RoundUp(if k == 0 then cur else vars[k - 1].at + vars[k - 1].size, ds[k].e) == vars[k].at
    ensures SizeOf(ds[k]) == vars[k].size
    decreases k
  {
    if k > 0 {
      FitsAt(ds[1..], vars[1..], vars[0].at + vars[0].size, k - 1);
    } else {
      FitsReproduces(ds, vars, cur);
    }
  }

  /**
   The body of `plan` for one section: `vars` are its variables in address order,
   `next` the nearest later one of any unit.  It plans exactly when the section
   starts on eight, every symbol can be named, and some choice of types puts every
   variable where it is; then its own choice does, with the largest alignments.
   */
  method PlanSection(vars: seq<Variable>, next: Option<int>) returns (r: Plan)
    requires vars != [] && Increasing(vars)
    requires next.Some? ==> vars[|vars| - 1].at + vars[|vars| - 1].size <= next.value
    ensures r.Planned? <==> Plannable(vars)
    ensures r.Planned? ==> r.lo == vars[0].at && Reproduces(r.rows, vars, r.lo) && Best(r.rows, vars, |vars|)
    ensures r.Planned? ==>
              var last := vars[|vars| - 1];
              && r.hi == RangeEnd(last.at + last.size, next)
              && last.at + last.size <= r.hi && (next.Some? ==> r.hi <= next.value)
    ensures r.Planned? ==> NamesSoFar(vars, |vars|, r.blob)
  {
    var lo := vars[0].at;
    var last := vars[|vars| - 1];
    var hi := RangeEnd(last.at + last.size, next);
    if lo % 8 != 0 {
      return Refused(StartNotAligned);
    }
    var p := PlaceAll(vars);
    r := if p.Laid? then Planned(lo, hi, p.rows, p.blob) else Refused(p.why);
  }

  datatype Placing = Laid(rows: seq<Decl>, blob: Option<string>) | Failed(why: Reason)

  /** Its loop over the variables. */
  method PlaceAll(vars: seq<Variable>) returns (r: Placing)
    requires vars != [] && Increasing(vars) && vars[0].at % 8 == 0
    ensures r.Laid? <==> Plannable(vars)
    ensures r.Laid? ==> Reproduces(r.rows, vars, vars[0].at) && Best(r.rows, vars, |vars|)
    ensures r.Laid? ==> NamesSoFar(vars, |vars|, r.blob)
  {
    var rows, cur, blob := [], 0, None;
    for k := 0 to |vars|
      invariant RowsFit(rows, vars, k, cur)
      invariant NamesSoFar(vars, k, blob)
    {
      var v := vars[k];
      var naming := CheckName(v.symbol, blob);
      NamesStep(vars, k, blob, naming);
      if naming.Bad? {
        return Failed(naming.why);
      }
      blob := naming.blob;
      var off := v.at - vars[0].at;
      var placed := Choose(cur, off, v.size);
      VariableStep(rows, vars, k, cur, placed);
      if placed.None? {
        return Failed(NoType);
      }
      rows := rows + [placed.value];
      cur := off + v.size;
    }
    AllPlaced(rows, vars, cur, blob);
    return Laid(rows, blob);
  }

  /** The first k variables are placed, each with the best type, and `cur` is where the last one ends. */
  ghost predicate RowsFit(rows: seq<Decl>, vars: seq<Variable>, k: nat, cur: int)
    requires vars != []
  {
    && |rows| == k <= |vars|
    && cur == (if k == 0 then 0 else vars[k - 1].at + vars[k - 1].size - vars[0].at)
    && Fits(rows, vars[..k], vars[0].at)
    && Best(rows, vars, k)
  }

  /** No other choice that reproduces the section has a larger alignment at any of the first k variables. */
  ghost predicate Best(rows: seq<Decl>, vars: seq<Variable>, k: nat)
    requires vars != [] && k <= |rows| && k <= |vars|
  {
    forall ds: seq<Decl>, i :: Reproduces(ds, vars, vars[0].at) && 0 <= i < k ==> Align(ds[i].e) <= Align(rows[i].e)
  }

  /** The section starts on eight, its symbols can be named, and some choice of types reproduces it. */
  ghost predicate Plannable(vars: seq<Variable>)
    requires vars != []
  {
    vars[0].at % 8 == 0 && NamesFit(vars) && exists ds: seq<Decl> :: Reproduces(ds, vars, vars[0].at)
  }

  lemma {:induction false} NamesAll(vars: seq<Variable>, blob: Option<string>)
    requires NamesSoFar(vars, |vars|, blob)
    ensures NamesFit(vars)
  {
  }

  lemma {:induction false} AllPlaced(rows: seq<Decl>, vars: seq<Variable>, cur: int, blob: Option<string>)
    requires vars != [] && vars[0].at % 8 == 0
    requires RowsFit(rows, vars, |vars|, cur) && NamesSoFar(vars, |vars|, blob)
    ensures Plannable(vars) && Reproduces(rows, vars, vars[0].at) && Best(rows, vars, |vars|)
  {
    assert vars[..|vars|] == vars;
    FitsReproduces(rows, vars, vars[0].at);
    NamesAll(vars, blob);
  }

  /** One turn of the loop: the type chosen fits and is the best, or no choice reproduces the section. */
  lemma {:induction false} VariableStep(rows: seq<Decl>, vars: seq<Variable>, k: nat, cur: int, placed: Option<Decl>)
    requires vars != [] && k < |vars| && RowsFit(rows, vars, k, cur) && vars[0].at % 8 == 0
    requires placed == Choose(cur, vars[k].at - vars[0].at, vars[k].size)
    ensures placed.None? ==> !Plannable(vars)
    ensures placed.Some? ==> RowsFit(rows + [placed.value], vars, k + 1, vars[k].at - vars[0].at + vars[k].size)
  {
    NoBetter(vars, k, cur, placed);
    if placed.Some? { RowsStep(rows, vars, k, cur, placed.value); }
  }

  lemma {:induction false} RowsStep(rows: seq<Decl>, vars: seq<Variable>, k: nat, cur: int, d: Decl)
    requires vars != [] && k < |vars| && RowsFit(rows, vars, k, cur) && vars[0].at % 8 == 0
    requires RoundUp(cur, d.e) == vars[k].at - vars[0].at && SizeOf(d) == vars[k].size
    requires forall ds: seq<Decl> :: Reproduces(ds, vars, vars[0].at) ==> Align(ds[k].e) <= Align(d.e)
    ensures RowsFit(rows + [d], vars, k + 1, vars[k].at - vars[0].at + vars[k].size)
  {
    RoundUpFrom(vars[0].at, cur, d.e);
    FitsSnoc(rows, vars[..k], vars[0].at, d, vars[k], vars[0].at + cur);
    assert vars[..k] + [vars[k]] == vars[..k + 1];
  }

  /** The first k names fit, and `blob` is the one file they ask for. */
  ghost predicate NamesSoFar(vars: seq<Variable>, k: nat, blob: Option<string>) {
    && k <= |vars|
    && (forall i :: 0 <= i < k ==> vars[i].symbol.Global? || vars[i].symbol.Anonymous?)
    && (forall i :: 0 <= i < k && vars[i].symbol.Anonymous? ==> blob == Some(vars[i].symbol.blob))
    && (blob.Some? ==> exists i :: 0 <= i < k && vars[i].symbol.Anonymous?)
  }

  datatype Naming = Bad(why: Reason) | Good(blob: Option<string>)

  /** One symbol, after others that asked for `blob`. */
  function CheckName(symbol: Symbol, blob: Option<string>): Naming {
    match symbol
    case Missing => Bad(NoSymbol)
    case Unnameable => Bad(NoName)
    case Global => Good(blob)
    case Anonymous(b) => if blob.Some? && blob != Some(b) then Bad(TwoBlobs) else Good(Some(b))
  }

  lemma {:induction false} NamesStep(vars: seq<Variable>, k: nat, blob: Option<string>, naming: Naming)
    requires k < |vars| && NamesSoFar(vars, k, blob) && naming == CheckName(vars[k].symbol, blob)
    ensures if naming.Bad? then !Plannable(vars) else NamesSoFar(vars, k + 1, naming.blob)
  {
    var symbol := vars[k].symbol;
    if blob.Some? {
      var i :| 0 <= i < k && vars[i].symbol.Anonymous?;
      if symbol.Anonymous? && blob != Some(symbol.blob) {
        assert vars[i].symbol != symbol;
        assert !NamesFit(vars);
      } else {
        assert 0 <= i < k + 1;
      }
    }
  }

  /** Every reproducing choice is no better than the chooser's at variable k; none exists if the chooser fails. */
  lemma {:induction false} NoBetter(vars: seq<Variable>, k: nat, cur: int, placed: Option<Decl>)
    requires k < |vars| && vars[0].at % 8 == 0
    requires cur == if k == 0 then 0 else vars[k - 1].at + vars[k - 1].size - vars[0].at
    requires placed == Choose(cur, vars[k].at - vars[0].at, vars[k].size)
    ensures placed.Some? ==>
              RoundUp(cur, placed.value.e) == vars[k].at - vars[0].at && SizeOf(placed.value) == vars[k].size
    ensures forall ds: seq<Decl> :: Reproduces(ds, vars, vars[0].at) ==>
              placed.Some? && Align(ds[k].e) <= Align(placed.value.e)
    ensures placed.None? ==> !Plannable(vars)
  {
    var lo := vars[0].at;
    ChooseBest(cur, vars[k].at - lo, vars[k].size);
    forall ds: seq<Decl> | Reproduces(ds, vars, lo)
      ensures placed.Some? && Align(ds[k].e) <= Align(placed.value.e)
    {
      FitsReproduces(ds, vars, lo);
      OneNoBetter(vars, k, cur, placed, ds);
    }
  }

  lemma {:induction false} OneNoBetter(vars: seq<Variable>, k: nat, cur: int, placed: Option<Decl>, ds: seq<Decl>)
    requires k < |vars| && vars[0].at % 8 == 0 && Fits(ds, vars, vars[0].at)
    requires cur == if k == 0 then 0 else vars[k - 1].at + vars[k - 1].size - vars[0].at
    requires placed == Choose(cur, vars[k].at - vars[0].at, vars[k].size)
    ensures k < |ds| && placed.Some? && Align(ds[k].e) <= Align(placed.value.e)
  {
    FitsAt(ds, vars, vars[0].at, k);
    ChosenOver(vars[0].at, cur, vars[k], ds[k], placed);
  }

  lemma {:induction false} ChosenOver(lo: int, cur: int, v: Variable, d: Decl, placed: Option<Decl>)
    requires lo % 8 == 0 && RoundUp(lo + cur, d.e) == v.at && SizeOf(d) == v.size
    requires placed == Choose(cur, v.at - lo, v.size)
    ensures placed.Some? && Align(d.e) <= Align(placed.value.e)
  {
    RoundUpFrom(lo, cur, d.e);
    ChooseBest(cur, v.at - lo, v.size);
  }

  // ----- cutting the parent -----

  datatype Interval = Interval(lo: int, hi: int)

  predicate Holds(i: Interval, a: int) { i.lo <= a < i.hi }

  /** The pieces are not empty, and every address of the owner is in exactly one of them or in the taken range. */
  ghost predicate Tiles(own: Interval, lower: Option<Interval>, taken: Interval, upper: Option<Interval>) {
    && (lower.Some? ==> lower.value.lo < lower.value.hi)
    && (upper.Some? ==> upper.value.lo < upper.value.hi)
    && forall a ::
         var below, above := lower.Some? && Holds(lower.value, a), upper.Some? && Holds(upper.value, a);
         && (Holds(own, a) <==> below || Holds(taken, a) || above)
         && !(below && above) && !(below && Holds(taken, a)) && !(above && Holds(taken, a))
  }

  /** `render`: what is left of the owner's range on either side of the one taken out of it. */
  function Cut(own: Interval, taken: Interval): (r: (Option<Interval>, Option<Interval>))
    requires own.lo <= taken.lo <= taken.hi <= own.hi
    ensures Tiles(own, r.0, taken, r.1)
  {
    (if own.lo == taken.lo then None else Some(Interval(own.lo, taken.lo)),
     if taken.hi == own.hi then None else Some(Interval(taken.hi, own.hi)))
  }
}
