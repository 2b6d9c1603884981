/**
 The line writer of `tools/ninja_syntax.py`: a logical line is broken at spaces
 and continued with a dollar sign, and a reader puts the pieces together again.
 */
module LineWrap {
  // ----- what a line says -----

  function Flush(word: string): seq<string> {
    if word == "" then [] else [word]
  }

  /** The words of a line: a dollar sign takes the character after it along; other spaces separate. */
  function Words(t: string, word: string): seq<string> {
    if t == "" then Flush(word)
    else if t[0] == '$' && |t| > 1 then Words(t[2..], word + t[..2])
    else if t[0] == ' ' then Flush(word) + Words(t[1..], "")
    else Words(t[1..], word + [t[0]])
  }

  /** The text does not end in a dollar sign that still waits for its character. */
  predicate Closed(t: string) {
    t == "" || (if t[0] == '$' then |t| > 1 && Closed(t[2..]) else Closed(t[1..]))
  }

  function SkipSpaces(t: string): (r: string)
    ensures r == "" || r[0] != ' '
    ensures |r| <= |t|
  {
    if t != "" && t[0] == ' ' then SkipSpaces(t[1..]) else t
  }

  /** The reader: a dollar sign at a line's end joins the next one, whose indentation is skipped. */
  function Unfold(out: string): string
    decreases |out|
  {
    if out == "" || out[0] == '\n' then ""
    else if out[0] == '$' && |out| > 1 then
      if out[1] == '\n' then Unfold(SkipSpaces(out[2..])) else out[..2] + Unfold(out[2..])
    else [out[0]] + Unfold(out[1..])
  }

  // ----- where a line is broken -----

  /** The dollar signs right in front of position i, none taken from position 0. */
  function Dollars(s: string, i: nat): nat
    requires i <= |s|
  {
    if i > 1 && s[i - 1] == '$' then 1 + Dollars(s, i - 1) else 0
  }

  /** All the dollar signs right in front of position i. */
  function Run(s: string, i: nat): nat
    requires i <= |s|
  {
    if i > 0 && s[i - 1] == '$' then 1 + Run(s, i - 1) else 0
  }

  /** `_count_dollars_before_index`. */
  method CountDollarsBeforeIndex(s: string, i: nat) returns (dollarCount: nat)
    requires i <= |s|
    ensures dollarCount == Dollars(s, i)
  {
    dollarCount := 0;
    var dollarIndex := i - 1;
    while dollarIndex > 0 && s[dollarIndex] == '$'
      invariant -1 <= dollarIndex < i || dollarIndex == i - 1
      invariant Dollars(s, i) == dollarCount + Dollars(s, dollarIndex + 1)
      decreases dollarIndex
    {
      dollarCount := dollarCount + 1;
      dollarIndex := dollarIndex - 1;
    }
  }

  predicate Breakable(t: string, i: nat)
    requires i < |t|
  {
    t[i] == ' ' && Dollars(t, i) % 2 == 0
  }

  /** Where a slice bound lands: negative ones count from the end. */
  function Clip(t: string, bound: int): (r: nat)
    ensures r <= |t|
  {
    if bound > |t| then |t| else if bound >= 0 then bound else if bound + |t| >= 0 then bound + |t| else 0
  }

  /** The last space below `end`, or -1. */
  function RFind(t: string, end: nat): (r: int)
    requires end <= |t|
    ensures -1 <= r < end
    ensures r >= 0 ==> t[r] == ' '
    ensures forall k :: r < k < end ==> t[k] != ' '
  {
    if end == 0 then -1 else if t[end - 1] == ' ' then end - 1 else RFind(t, end - 1)
  }

  /** The first space from `start` on, or -1. */
  function Find(t: string, start: nat): (r: int)
    requires start <= |t|
    ensures r == -1 || (start <= r < |t| && t[r] == ' ')
    ensures forall k :: start <= k < (if r < 0 then |t| else r) ==> t[k] != ' '
    decreases |t| - start
  {
    if start == |t| then -1 else if t[start] == ' ' then start else Find(t, start + 1)
  }

  /** The rightmost breakable space that leaves room, else the first one beyond, else none. */
  ghost predicate CutsAt(t: string, room: int, space: int) {
    && -1 <= space < |t|
    && (space >= 0 ==> Breakable(t, space))
    && (if exists k :: 0 <= k < Clip(t, room) && Breakable(t, k)
        then 0 <= space < Clip(t, room) && NoneBetween(t, space + 1, Clip(t, room))
        else NoneBetween(t, Clip(t, room), if space < 0 then |t| else space)
             && (space < 0 || space >= Clip(t, room)))
  }

  ghost predicate NoneBetween(t: string, lo: int, hi: int)
    requires 0 <= lo && hi <= |t|
  {
    forall k :: lo <= k < hi ==> !Breakable(t, k)
  }

  lemma {:induction false} CutsAtOnce(t: string, room: int, a: int, b: int)
    requires CutsAt(t, room, a) && CutsAt(t, room, b)
    ensures a == b
  {
  }

  function LastBreak(t: string, end: nat): (r: int)
    requires end <= |t|
    ensures -1 <= r < end
    ensures r >= 0 ==> Breakable(t, r)
    ensures forall k :: r < k < end ==> !Breakable(t, k)
  {
    if end == 0 then -1 else if Breakable(t, end - 1) then end - 1 else LastBreak(t, end - 1)
  }

  function FirstBreak(t: string, start: nat): (r: int)
    requires start <= |t|
    ensures r == -1 || (start <= r < |t| && Breakable(t, r))
    ensures forall k :: start <= k < (if r < 0 then |t| else r) ==> !Breakable(t, k)
    decreases |t| - start
  {
    if start == |t| then -1 else if Breakable(t, start) then start else FirstBreak(t, start + 1)
  }

  function Cut(t: string, room: int): (space: int)
    ensures CutsAt(t, room, space)
  {
    var last := LastBreak(t, Clip(t, room));
    if last >= 0 then last else FirstBreak(t, Clip(t, room))
  }

  /** The two searching loops. */
  method FindCut(text: string, room: int) returns (space: int)
    ensures CutsAt(text, room, space)
  {
    space := room;
    var first := true;
    while true
      invariant first ==> space == room
      invariant !first ==> 0 <= space < Clip(text, room) && !Breakable(text, space)
      invariant NoneBetween(text, Clip(text, space), Clip(text, room))
      decreases first, space
    {
      ghost var was := Clip(text, space);
      space := RFind(text, Clip(text, space));
      first := false;
      if space < 0 { break; }
      var count := CountDollarsBeforeIndex(text, space);
      if count % 2 == 0 {
        assert Breakable(text, space);
        break;
      }
    }
    if space < 0 {
      space := room - 1;
      first := true;
      while true
        invariant first ==> space == room - 1
        invariant !first ==> Clip(text, room) <= space < |text| && !Breakable(text, space)
        invariant NoneBetween(text, 0, Clip(text, room))
        invariant NoneBetween(text, Clip(text, room), if first then Clip(text, room) else space + 1)
        decreases first, |text| - space
      {
        space := Find(text, Clip(text, space + 1));
        first := false;
        if space < 0 { break; }
        var count := CountDollarsBeforeIndex(text, space);
        if count % 2 == 0 { break; }
      }
    }
  }

  // ----- the line as written -----

  function Spaces(n: int): (r: string)
    ensures forall k :: 0 <= k < |r| ==> r[k] == ' '
    ensures |r| == if n < 0 then 0 else n
  {
    if n <= 0 then "" else " " + Spaces(n - 1)
  }

  /** The pieces of a line: `lead` spaces before the first, `next` before the others. */
  function Wrap(text: string, width: int, lead: nat, next: nat): string
    decreases |text|
  {
    if lead + |text| <= width || Cut(text, width - lead - 2) < 0 then Spaces(lead) + text + "\n"
    else
      var space := Cut(text, width - lead - 2);
      Spaces(lead) + text[..space] + " $\n" + Wrap(text[space + 1..], width, next, next)
  }

  /** What is out already and the pieces still to come make up the whole. */
  ghost predicate Remains(whole: string, output: string, text: string, width: int, leadingSpace: string, next: nat) {
    leadingSpace == Spaces(|leadingSpace|) && whole == output + Wrap(text, width, |leadingSpace|, next)
  }

  lemma {:induction false} WrapStep(whole: string, output: string, text: string, width: int, leadingSpace: string,
                                    next: nat, space: nat, piece: string)
    requires Remains(whole, output, text, width, leadingSpace, next)
    requires |leadingSpace| + |text| > width && space == Cut(text, width - |leadingSpace| - 2)
    requires piece == leadingSpace + text[..space] + " $\n"
    ensures Remains(whole, output + piece, text[space + 1..], width, Spaces(next), next)
  {
    Associative(output, piece, Wrap(text[space + 1..], width, next, next));
  }

  lemma {:induction false} WrapEnd(whole: string, output: string, text: string, width: int, leadingSpace: string,
                                   next: nat)
    requires Remains(whole, output, text, width, leadingSpace, next)
    requires |leadingSpace| + |text| <= width || Cut(text, width - |leadingSpace| - 2) < 0
    ensures whole == output + (leadingSpace + text + "\n")
  {
  }

  function Indent(indent: int): nat {
    if indent < 0 then 0 else 2 * indent
  }

  class Writer {
    var output: string
    const width: int

    constructor (width: int)
      ensures output == "" && this.width == width
    {
      output := "";
      this.width := width;
    }

    /** `_line`. */
    method Line(line: string, indent: int)
      modifies this
      ensures output == old(output) + Wrap(line, width, Indent(indent), Indent(indent + 2))
    {
      var text := line;
      var leadingSpace := Spaces(Indent(indent));
      ghost var whole := output + Wrap(line, width, Indent(indent), Indent(indent + 2));
      while |leadingSpace| + |text| > width
        invariant Remains(whole, output, text, width, leadingSpace, Indent(indent + 2))
        decreases |text|
      {
        var room := width - |leadingSpace| - 2;
        var space := FindCut(text, room);
        CutsAtOnce(text, room, space, Cut(text, room));
        if space < 0 { break; }
        var piece := leadingSpace + text[..space] + " $\n";
        WrapStep(whole, output, text, width, leadingSpace, Indent(indent + 2), space, piece);
        output := output + piece;
        text := text[space + 1..];
        leadingSpace := Spaces(Indent(indent + 2));
      }
      WrapEnd(whole, output, text, width, leadingSpace, Indent(indent + 2));
      output := output + (leadingSpace + text + "\n");
    }
  }

  // ----- dollar signs -----

  lemma {:induction false} ClosedSnoc(a: string, c: char)
    ensures Closed(a + [c]) <==> !Closed(a) || c != '$'
  {
    if a == "" {
      assert a + [c] == [c];
      assert [c][1..] == "";
    } else if a[0] == '$' {
      if |a| > 1 {
        ClosedSnoc(a[2..], c);
        assert (a + [c])[2..] == a[2..] + [c];
      } else {
        assert (a + [c])[2..] == "";
      }
    } else {
      ClosedSnoc(a[1..], c);
      assert (a + [c])[1..] == a[1..] + [c];
    }
  }

  /** A position is behind an open dollar sign exactly when an odd number stand in front of it. */
  lemma {:induction false} ClosedRun(t: string, i: nat)
    requires i <= |t|
    ensures Closed(t[..i]) <==> Run(t, i) % 2 == 0
  {
    if i > 0 {
      ClosedRun(t, i - 1);
      ClosedSnoc(t[..i - 1], t[i - 1]);
      assert t[..i] == t[..i - 1] + [t[i - 1]];
    }
  }

  lemma {:induction false} RunOrDollars(t: string, i: nat)
    requires i <= |t|
    ensures if i > 0 && Run(t, i) == i then Dollars(t, i) == i - 1 else Dollars(t, i) == Run(t, i)
    ensures Run(t, i) <= i
    ensures forall k :: i - Run(t, i) <= k < i ==> t[k] == '$'
  {
    if i > 0 && t[i - 1] == '$' { RunOrDollars(t, i - 1); }
  }

  /** A break is behind an open dollar sign exactly when nothing but an odd run of them is in front. */
  lemma {:induction false} BreakOpen(t: string, i: nat)
    requires i < |t| && Breakable(t, i)
    ensures Closed(t[..i]) <==> !(i % 2 == 1 && Run(t, i) == i)
  {
    ClosedRun(t, i);
    RunOrDollars(t, i);
  }

  // ----- reading back -----

  /** Indentation reads as itself. */
  lemma {:induction false} UnfoldSpaces(n: int, x: string)
    ensures Unfold(Spaces(n) + x) == Spaces(n) + Unfold(x)
  {
    if n <= 0 {
      assert "" + x == x && "" + Unfold(x) == Unfold(x);
    } else {
      UnfoldSpaces(n - 1, x);
      OneSpace(Spaces(n - 1), x);
      OneSpace(Spaces(n - 1), Unfold(x));
    }
  }

  lemma {:induction false} OneSpace(s: string, x: string)
    ensures var u := " " + s + x;
            u[0] == ' ' && u[1..] == s + x && u == " " + (s + x)
  {
  }

  lemma {:induction false} WordsIndented(n: int, x: string)
    ensures Words(Spaces(n) + x, "") == Words(x, "")
  {
    if n <= 0 {
      assert "" + x == x;
    } else {
      WordsIndented(n - 1, x);
      OneSpace(Spaces(n - 1), x);
    }
  }

  /** A last piece reads as itself. */
  lemma {:induction false} UnfoldLast(t: string)
    requires Closed(t) && '\n' !in t
    ensures Unfold(t + "\n") == t
  {
    var u := t + "\n";
    if t != "" {
      assert u[0] == t[0] && t[0] in t;
      if t[0] == '$' {
        UnfoldLast(t[2..]);
        assert t[1] in t;
        assert u[2..] == t[2..] + "\n" && u[..2] == t[..2];
      } else {
        UnfoldLast(t[1..]);
        assert u[1..] == t[1..] + "\n";
      }
    }
  }

  /** A piece before a break reads as itself and the space. */
  lemma {:induction false} UnfoldPiece(t: string, rest: string)
    requires '\n' !in t
    ensures Unfold(t + " $\n" + rest) == t + " " + Unfold(SkipSpaces(rest))
  {
    if |t| <= 1 {
      UnfoldShort(t, rest);
    } else {
      var n := if t[0] == '$' then 2 else 1;
      assert t[0] in t && t[1] in t;
      UnfoldPiece(t[n..], rest);
      Ahead(t, n, " $\n", rest);
      Ahead(t, n, " ", Unfold(SkipSpaces(rest)));
      UnfoldUnit(t[..n], t[n..] + " $\n" + rest);
    }
  }

  /** One character, or a dollar sign with what it escapes, comes out as it is. */
  lemma {:induction false} UnfoldUnit(unit: string, x: string)
    requires '\n' !in unit && (if |unit| == 2 then unit[0] == '$' else |unit| == 1 && unit[0] != '$')
    ensures Unfold(unit + x) == unit + Unfold(x)
  {
    var u := unit + x;
    assert u[..|unit|] == unit && u[|unit|..] == x && unit[0] in unit && unit[|unit| - 1] in unit;
  }

  lemma {:induction false} UnfoldShort(t: string, rest: string)
    requires '\n' !in t && |t| <= 1
    ensures Unfold(t + " $\n" + rest) == t + " " + Unfold(SkipSpaces(rest))
  {
    var broken := "$\n" + rest;
    assert broken[2..] == rest;
    assert t + " $\n" + rest == t + (" " + broken);
    UnfoldSpaced(t, broken, Unfold(SkipSpaces(rest)));
  }

  lemma {:induction false} UnfoldSpaced(t: string, x: string, after: string)
    requires '\n' !in t && |t| <= 1 && Unfold(x) == after
    ensures Unfold(t + (" " + x)) == t + " " + after
  {
    UnfoldUnit(" ", x);
    if t == "$" {
      assert t + (" " + x) == "$ " + x;
      UnfoldUnit("$ ", x);
    } else if t == "" {
      assert t + (" " + x) == " " + x;
    } else {
      UnfoldUnit(t, " " + x);
      assert t + (" " + after) == t + " " + after;
    }
  }

  lemma {:induction false} Ahead(t: string, n: nat, a: string, b: string)
    requires n <= |t|
    ensures var u := t + a + b;
            u[n..] == t[n..] + a + b && u[..n] == t[..n] && u == t[..n] + (t[n..] + a + b)
    ensures forall k :: 0 <= k < n ==> (t + a + b)[k] == t[k]
  {
  }

  lemma {:induction false} UnfoldStart(y: string)
    requires y == "" || y[0] != ' '
    ensures Unfold(y) == "" || Unfold(y)[0] != ' '
    decreases |y|
  {
    if |y| > 1 && y[0] == '$' && y[1] == '\n' { UnfoldStart(SkipSpaces(y[2..])); }
  }

  /** Skipping indentation before or after joining the lines is the same. */
  lemma {:induction false} UnfoldSkip(x: string)
    ensures Unfold(SkipSpaces(x)) == SkipSpaces(Unfold(x))
  {
    if x != "" && x[0] == ' ' {
      UnfoldSkip(x[1..]);
      assert Unfold(x)[1..] == Unfold(x[1..]);
    } else {
      UnfoldStart(x);
    }
  }

  // ----- words -----

  /** What a closed text has put out, and the word it is in the middle of. */
  function Done(t: string, word: string): seq<string> {
    if t == "" then []
    else if t[0] == '$' && |t| > 1 then Done(t[2..], word + t[..2])
    else if t[0] == ' ' then Flush(word) + Done(t[1..], "")
    else Done(t[1..], word + [t[0]])
  }

  function Held(t: string, word: string): string {
    if t == "" then word
    else if t[0] == '$' && |t| > 1 then Held(t[2..], word + t[..2])
    else if t[0] == ' ' then Held(t[1..], "")
    else Held(t[1..], word + [t[0]])
  }

  lemma {:induction false} WordsAppend(t: string, s: string, word: string)
    requires Closed(t)
    ensures Words(t + s, word) == Done(t, word) + Words(s, Held(t, word))
  {
    var u := t + s;
    if t == "" {
      assert u == s;
    } else if t[0] == '$' {
      assert u[2..] == t[2..] + s && u[..2] == t[..2];
      WordsAppend(t[2..], s, word + t[..2]);
    } else {
      assert u[1..] == t[1..] + s;
      WordsAppend(t[1..], s, if t[0] == ' ' then "" else word + [t[0]]);
    }
  }

  /** Behind a piece and its space, a word is held exactly when the space was taken along. */
  lemma {:induction false} HeldAfter(t: string, word: string)
    ensures Closed(t + " ") && (Held(t + " ", word) == "" <==> Closed(t))
  {
    var u := t + " ";
    if t == "" {
      assert u[1..] == "";
    } else if t[0] == '$' && |t| > 1 {
      assert u[2..] == t[2..] + " " && u[..2] == t[..2];
      HeldAfter(t[2..], word + t[..2]);
    } else if t[0] == '$' {
      assert u == "$ " && u[2..] == "" && u[..2] == u;
    } else {
      assert u[1..] == t[1..] + " ";
      HeldAfter(t[1..], if t[0] == ' ' then "" else word + [t[0]]);
    }
  }

  /** A held word and the words of what follows directly. */
  function Merge(word: string, words: seq<string>): seq<string> {
    if words == [] then [word] else [word + words[0]] + words[1..]
  }

  lemma {:induction false} WordsHeld(s: string, word: string, more: string)
    requires more != ""
    ensures Words(s, more) != [] && Words(s, word + more) == Merge(word, Words(s, more))
  {
    if s != "" {
      if s[0] == '$' && |s| > 1 {
        assert word + (more + s[..2]) == word + more + s[..2];
        WordsHeld(s[2..], word, more + s[..2]);
      } else if s[0] != ' ' {
        assert word + (more + [s[0]]) == word + more + [s[0]];
        WordsHeld(s[1..], word, more + [s[0]]);
      }
    }
  }

  lemma {:induction false} WordsDirect(s: string, word: string)
    requires word != "" && (s == "" || s[0] != ' ')
    ensures Words(s, word) == Merge(word, Words(s, ""))
  {
    if s != "" {
      if s[0] == '$' && |s| > 1 {
        assert "" + s[..2] == s[..2];
        WordsHeld(s[2..], word, s[..2]);
      } else {
        assert "" + [s[0]] == [s[0]];
        WordsHeld(s[1..], word, [s[0]]);
      }
    }
  }

  lemma {:induction false} WordsSkip(s: string)
    ensures Words(SkipSpaces(s), "") == Words(s, "")
  {
    if s != "" && s[0] == ' ' {
      WordsSkip(s[1..]);
    }
  }

  // ----- what a break does -----

  /** The break runs two words together: its space belongs to a word, and that word ends there. */
  predicate Harmful(t: string, space: nat)
    requires space < |t|
  {
    && !Closed(t[..space])
    && t[space + 1..] != "" && t[space + 1..][0] == ' '
    && Words(t[space + 1..], "") != []
  }

  /** No break made on the way runs two words together. */
  predicate Harmless(text: string, width: int, lead: nat, next: nat)
    decreases |text|
  {
    lead + |text| <= width || Cut(text, width - lead - 2) < 0
    || (var space := Cut(text, width - lead - 2);
        !Harmful(text, space) && Harmless(text[space + 1..], width, next, next))
  }

  predicate OneLine(text: string) {
    Closed(text) && '\n' !in text
  }

  lemma {:induction false} OneLineRest(text: string, space: nat)
    requires OneLine(text) && space < |text| && text[space] == ' '
    ensures OneLine(text[space + 1..])
  {
    ClosedSnoc(text[..space], ' ');
    assert text[..space + 1] == text[..space] + [' '];
    ClosedRest(text, space + 1);
  }

  lemma {:induction false} ClosedRest(t: string, i: nat)
    requires i <= |t| && Closed(t[..i])
    ensures Closed(t) <==> Closed(t[i..])
  {
    if i > 0 {
      if t[0] == '$' {
        assert t[..i][2..] == t[2..][..i - 2];
        ClosedRest(t[2..], i - 2);
        assert t[2..][i - 2..] == t[i..];
      } else {
        assert t[..i][1..] == t[1..][..i - 1];
        ClosedRest(t[1..], i - 1);
        assert t[1..][i - 1..] == t[i..];
      }
    } else {
      assert t[0..] == t;
    }
  }

  /** How the words read compare with those written. */
  ghost predicate Compares(read: seq<string>, words: seq<string>, same: bool) {
    && (read == [] <==> words == [])
    && (same ==> read == words)
    && (!same ==> |read| < |words|)
  }

  /** One break: what is read behind it is `tail`, with its leading spaces skipped. */
  lemma {:induction false} BreakCompares(text: string, space: nat, tail: string, same: bool)
    requires space < |text| && text[space] == ' '
    requires Compares(Words(tail, ""), Words(text[space + 1..], ""), same)
    ensures Compares(Words(text[..space] + " " + SkipSpaces(tail), ""), Words(text, ""),
                     same && !Harmful(text, space))
  {
    var piece, rest := text[..space] + " ", text[space + 1..];
    assert text == piece + rest;
    HeldAfter(text[..space], "");
    WordsAppend(piece, rest, "");
    WordsAppend(piece, SkipSpaces(tail), "");
    WordsSkip(tail);
    var k := Held(piece, "");
    if k != "" {
      WordsDirect(SkipSpaces(tail), k);
      if rest == "" || rest[0] != ' ' { WordsDirect(rest, k); }
    }
  }

  lemma {:induction false} WrapCompares(text: string, width: int, lead: nat, next: nat)
    requires OneLine(text)
    ensures Compares(Words(Unfold(Wrap(text, width, lead, next)), ""), Words(text, ""),
                     Harmless(text, width, lead, next))
    decreases |text|
  {
    var space := Cut(text, width - lead - 2);
    if lead + |text| <= width || space < 0 {
      LastRead(text, lead);
    } else {
      var rest := text[space + 1..];
      OneLineRest(text, space);
      WrapCompares(rest, width, next, next);
      PieceRead(text[..space], lead, Wrap(rest, width, next, next));
      BreakCompares(text, space, Unfold(Wrap(rest, width, next, next)), Harmless(rest, width, next, next));
    }
  }

  lemma {:induction false} LastRead(text: string, lead: nat)
    requires OneLine(text)
    ensures Words(Unfold(Spaces(lead) + text + "\n"), "") == Words(text, "")
  {
    Associative(Spaces(lead), text, "\n");
    UnfoldSpaces(lead, text + "\n");
    UnfoldLast(text);
    WordsIndented(lead, text);
  }

  lemma {:induction false} PieceRead(piece: string, lead: nat, rest: string)
    requires '\n' !in piece
    ensures Words(Unfold(Spaces(lead) + piece + " $\n" + rest), "")
            == Words(piece + " " + SkipSpaces(Unfold(rest)), "")
  {
    Associative(Spaces(lead), piece, " $\n");
    Associative(Spaces(lead), piece + " $\n", rest);
    UnfoldSpaces(lead, piece + " $\n" + rest);
    UnfoldPiece(piece, rest);
    UnfoldSkip(rest);
    WordsIndented(lead, piece + " " + SkipSpaces(Unfold(rest)));
  }

  lemma {:induction false} Associative(a: string, b: string, c: string)
    ensures a + b + c == a + (b + c)
  {
  }

  /** Wrapping keeps the words of a line exactly when no break runs two of them together. */
  lemma {:induction false} WordsKeptExactly(text: string, width: int, indent: int)
    requires OneLine(text)
    ensures Words(Unfold(Wrap(text, width, Indent(indent), Indent(indent + 2))), "") == Words(text, "")
            <==> Harmless(text, width, Indent(indent), Indent(indent + 2))
  {
    WrapCompares(text, width, Indent(indent), Indent(indent + 2));
  }

  // ----- texts that are safe at any width -----

  /** From p, an odd run of dollar signs and then two spaces: an escaped one and a separator. */
  predicate Awkward(t: string, p: nat, n: nat) {
    && p + n + 1 < |t| && n % 2 == 1
    && (p == 0 || t[p - 1] == ' ')
    && (forall k :: p <= k < p + n ==> t[k] == '$')
    && t[p + n] == ' ' && t[p + n + 1] == ' '
  }

  ghost predicate Tame(t: string) {
    forall p: nat, n: nat :: !Awkward(t, p, n)
  }

  /** What is awkward in the rest of a text is awkward in the text. */
  lemma {:induction false} AwkwardRest(t: string, space: nat, p: nat, n: nat)
    requires space < |t| && t[space] == ' '
    ensures Awkward(t[space + 1..], p, n) ==> Awkward(t, space + 1 + p, n)
  {
    var r := t[space + 1..];
    assert forall k :: 0 <= k < |r| ==> r[k] == t[space + 1 + k];
    if Awkward(r, p, n) {
      forall k | space + 1 + p <= k < space + 1 + p + n
        ensures t[k] == '$'
      {
        assert r[k - space - 1] == '$';
      }
    }
  }

  lemma {:induction false} TameRest(t: string, space: nat)
    requires Tame(t) && space < |t| && t[space] == ' '
    ensures Tame(t[space + 1..])
  {
    var r := t[space + 1..];
    forall p: nat, n: nat
      ensures !Awkward(r, p, n)
    {
      AwkwardRest(t, space, p, n);
    }
  }

  /** A break that does harm is made behind an awkward word. */
  lemma {:induction false} HarmfulIsAwkward(t: string, space: nat)
    requires space < |t| && Breakable(t, space)
    ensures Harmful(t, space) ==> Awkward(t, 0, space)
  {
    if Harmful(t, space) {
      BreakOpen(t, space);
      RunOrDollars(t, space);
      assert t[space + 1] == ' ';
    }
  }

  lemma {:induction false} TameBreak(t: string, space: nat)
    requires Tame(t) && space < |t| && Breakable(t, space)
    ensures !Harmful(t, space)
  {
    HarmfulIsAwkward(t, space);
  }

  lemma {:induction false} TameIsHarmless(text: string, width: int, lead: nat, next: nat)
    requires Tame(text)
    ensures Harmless(text, width, lead, next)
    decreases |text|
  {
    var space := Cut(text, width - lead - 2);
    if lead + |text| > width && space >= 0 {
      TameBreak(text, space);
      TameRest(text, space);
      TameIsHarmless(text[space + 1..], width, next, next);
      HarmlessStep(text, width, lead, next, space);
    }
  }

  lemma {:induction false} HarmlessStep(text: string, width: int, lead: nat, next: nat, space: nat)
    requires space < |text| && space == Cut(text, width - lead - 2) && !Harmful(text, space)
    requires Harmless(text[space + 1..], width, next, next)
    ensures Harmless(text, width, lead, next)
  {
  }

  /** Where no word begins with an odd run of dollar signs and an escaped space, no width changes the words. */
  lemma {:induction false} WordsKept(text: string, width: int, indent: int)
    requires OneLine(text) && Tame(text)
    ensures Words(Unfold(Wrap(text, width, Indent(indent), Indent(indent + 2))), "") == Words(text, "")
  {
    WordsKeptExactly(text, width, indent);
    TameIsHarmless(text, width, Indent(indent), Indent(indent + 2));
  }

  /** And where the line begins so, with another word to follow, some width runs the two together. */
  lemma {:induction false} AwkwardStartBreaks(text: string, n: nat, indent: int)
    requires OneLine(text) && Awkward(text, 0, n) && Words(text[n + 1..], "") != []
    ensures Words(Unfold(Wrap(text, Indent(indent) + 2, Indent(indent), Indent(indent + 2))), "")
            != Words(text, "")
  {
    RunWhole(text, n);
    RunOrDollars(text, n);
    NoEarlierSpace(text, n);
    var space := Cut(text, 0);
    BreakOpen(text, n);
    assert Harmful(text, n);
    WordsKeptExactly(text, Indent(indent) + 2, indent);
  }

  /**
   Behind a separator such a word need not do harm: after an even run at the start of the line the
   separator is taken for an escaped space, and no width breaks the line there.
   */
  lemma {:induction false} AwkwardBehindEven(width: int, lead: nat, next: nat)
    ensures Awkward("$$ $  x", 3, 1) && Harmless("$$ $  x", width, lead, next)
  {
    var t := "$$ $  x";
    OnlyBreak(t);
    CutsOnlyAt(t, width - lead - 2);
    assert t[..5][2..] == " $ " && " $ "[1..] == "$ " && Closed("$ ");
    assert Closed(t[..5]);
    assert t[6..] == "x" && !Breakable("x", 0);
  }

  lemma {:induction false} OnlyBreak(t: string)
    requires t == "$$ $  x"
    ensures forall k :: 0 <= k < |t| ==> (Breakable(t, k) <==> k == 5)
  {
    assert Dollars(t, 2) == 1 + Dollars(t, 1);
    assert Dollars(t, 4) == 1 + Dollars(t, 3);
  }

  lemma {:induction false} CutsOnlyAt(t: string, room: int)
    requires |t| == 7 && forall k :: 0 <= k < |t| ==> (Breakable(t, k) <==> k == 5)
    ensures Cut(t, room) == 5
  {
    assert Breakable(t, 5);
  }

  lemma {:induction false} RunWhole(t: string, n: nat)
    requires n <= |t| && forall k :: 0 <= k < n ==> t[k] == '$'
    ensures Run(t, n) == n
  {
    if n > 0 { RunWhole(t, n - 1); }
  }

  lemma {:induction false} NoEarlierSpace(t: string, n: nat)
    requires n < |t| && Breakable(t, n)
    requires forall k :: 0 <= k < n ==> t[k] == '$'
    ensures Cut(t, 0) == n
  {
    assert CutsAt(t, 0, n);
    CutsAtOnce(t, 0, Cut(t, 0), n);
  }
}
