/**
 The CodeWarrior type grammar of `tools/gen_accessors.py`: `parse_type` reads a
 mangled type off the front of a string, `mangle_type` writes one, and
 `parse_params` reads the list of parameter types at the end of a symbol.
 */
module Mangler {
  import opened Decimal
  import opened Wrappers

  datatype Basic =
    | Void | Char | Short | Int | Long | Float | Double | Bool | LongLong
    | UChar | UShort | UInt | ULong | ULongLong | SChar

  datatype Node =
    | Plain(b: Basic)
    | Name(parts: seq<string>)
    | Ptr(inner: Node)
    | Reference(inner: Node)
    | Const(inner: Node)

  // ----- the tables -----

  /** `BASIC`, `UNSIGNED` and `SIGNED`. */
  function BasicOf(c: char): Option<Basic> {
    match c
    case 'v' => Some(Void)
    case 'c' => Some(Char)
    case 's' => Some(Short)
    case 'i' => Some(Int)
    case 'l' => Some(Long)
    case 'f' => Some(Float)
    case 'd' => Some(Double)
    case 'b' => Some(Bool)
    case 'x' => Some(LongLong)
    case _ => None
  }

  function UnsignedOf(c: char): Option<Basic> {
    match c
    case 'c' => Some(UChar)
    case 's' => Some(UShort)
    case 'i' => Some(UInt)
    case 'l' => Some(ULong)
    case 'x' => Some(ULongLong)
    case _ => None
  }

  function SignedOf(c: char): Option<Basic> {
    if c == 'c' then Some(SChar) else None
  }

  /** `REV`. */
  function CodeOf(b: Basic): string {
    match b
    case Void => "v"
    case Char => "c"
    case Short => "s"
    case Int => "i"
    case Long => "l"
    case Float => "f"
    case Double => "d"
    case Bool => "b"
    case LongLong => "x"
    case UChar => "Uc"
    case UShort => "Us"
    case UInt => "Ui"
    case ULong => "Ul"
    case ULongLong => "Ux"
    case SChar => "Sc"
  }

  // ----- reading -----

  /** A length in decimal and that many characters: the part and what follows. */
  function ParsePart(s: string): (r: Option<(string, string)>)
    ensures r.Some? ==> |r.value.1| < |s|
  {
    var n := DigitRun(s);
    if n == 0 then None
    else
      var length, tail := Value(s[..n]), s[n..];
      if |tail| < length then None else Some((tail[..length], tail[length..]))
  }

  function ParseParts(count: nat, s: string): (r: Option<(seq<string>, string)>)
    ensures r.Some? ==> |r.value.1| <= |s|
  {
    if count == 0 then Some(([], s))
    else
      var first := ParsePart(s);
      if first.None? then None
      else
        var rest := ParseParts(count - 1, first.value.1);
        Prepend([first.value.0], rest)
  }

  /** What has been read so far in front of what is still to come. */
  function Prepend(parts: seq<string>, more: Option<(seq<string>, string)>): Option<(seq<string>, string)> {
    if more.None? then None else Some((parts + more.value.0, more.value.1))
  }

  lemma {:induction false} PrependNothing(more: Option<(seq<string>, string)>)
    ensures Prepend([], more) == more
  {
    if more.Some? { assert [] + more.value.0 == more.value.0; }
  }

  lemma {:induction false} PrependOne(parts: seq<string>, part: string, more: Option<(seq<string>, string)>)
    ensures Prepend(parts, Prepend([part], more)) == Prepend(parts + [part], more)
  {
    if more.Some? { assert parts + ([part] + more.value.0) == parts + [part] + more.value.0; }
  }

  /** The loop over the parts of a qualified name. */
  method ReadParts(count: nat, s: string) returns (r: Option<(seq<string>, string)>)
    ensures r == ParseParts(count, s)
  {
    var parts, rest := [], s;
    PrependNothing(ParseParts(count, s));
    for k := 0 to count
      invariant ParseParts(count, s) == Prepend(parts, ParseParts(count - k, rest))
    {
      var got := ParsePart(rest);
      if got.None? {
        return None;
      }
      PrependOne(parts, got.value.0, ParseParts(count - k - 1, got.value.1));
      parts := parts + [got.value.0];
      rest := got.value.1;
    }
    assert parts + [] == parts;
    return Some((parts, rest));
  }

  /** A qualified name, or one part by itself. */
  function ParseName(s: string): (r: Option<(Node, string)>)
    requires s != ""
    ensures r.Some? ==> |r.value.1| < |s|
  {
    if s[0] == 'Q' then
      if |s| < 2 || !IsDigit(s[1]) then None
      else
        var named := ParseParts(DigitValue(s[1]), s[2..]);
        if named.None? then None else Some((Name(named.value.0), named.value.1))
    else
      var part := ParsePart(s);
      if part.None? then None else Some((Name([part.value.0]), part.value.1))
  }

  /** `parse_type`: a type and the rest of the string. */
  function ParseType(s: string): (r: Option<(Node, string)>)
    ensures r.Some? ==> |r.value.1| < |s|
    decreases |s|
  {
    if s == "" then None
    else
      var c := s[0];
      if c == 'P' || c == 'R' || c == 'C' then
        var inner := ParseType(s[1..]);
        if inner.None? then None
        else
          var (node, rest) := inner.value;
          Some((if c == 'P' then Ptr(node) else if c == 'R' then Reference(node) else Const(node), rest))
      else if c == 'U' then
        if |s| < 2 || UnsignedOf(s[1]).None? then None else Some((Plain(UnsignedOf(s[1]).value), s[2..]))
      else if c == 'S' then
        if |s| < 2 || SignedOf(s[1]).None? then None else Some((Plain(SignedOf(s[1]).value), s[2..]))
      else if c == 'Q' || IsDigit(c) then ParseName(s)
      else if BasicOf(c).Some? then Some((Plain(BasicOf(c).value), s[1..]))
      else None
  }

  // ----- writing -----

  function MangleParts(parts: seq<string>): string {
    if parts == [] then "" else Format(|parts[0]|) + parts[0] + MangleParts(parts[1..])
  }

  /** `mangle_type`. */
  function Mangle(t: Node): string {
    match t
    case Plain(b) => CodeOf(b)
    case Name(parts) => if |parts| == 1 then MangleParts(parts) else "Q" + Format(|parts|) + MangleParts(parts)
    case Ptr(inner) => "P" + Mangle(inner)
    case Reference(inner) => "R" + Mangle(inner)
    case Const(inner) => "C" + Mangle(inner)
  }

  function MangleAll(ts: seq<Node>): string {
    if ts == [] then "" else Mangle(ts[0]) + MangleAll(ts[1..])
  }

  // ----- names -----

  predicate IsLetter(c: char) { 'a' <= c <= 'z' || 'A' <= c <= 'Z' || c == '_' }

  /** `IDENT`. */
  predicate IsIdentifier(s: string) {
    s != "" && IsLetter(s[0]) && forall i :: 0 <= i < |s| ==> IsLetter(s[i]) || IsDigit(s[i])
  }

  /** `usable` over `type_names`: every part that is not empty is an identifier. */
  predicate Usable(t: Node) {
    match t
    case Plain(_) => true
    case Name(parts) => forall i :: 0 <= i < |parts| ==> parts[i] == "" || IsIdentifier(parts[i])
    case Ptr(inner) => Usable(inner)
    case Reference(inner) => Usable(inner)
    case Const(inner) => Usable(inner)
  }

  predicate IdentifierParts(parts: seq<string>) {
    forall i :: 0 <= i < |parts| ==> IsIdentifier(parts[i])
  }

  /** A type whose names have identifier parts, and at most nine of them. */
  predicate WellNamed(t: Node) {
    match t
    case Plain(_) => true
    case Name(parts) => |parts| <= 9 && IdentifierParts(parts)
    case Ptr(inner) => WellNamed(inner)
    case Reference(inner) => WellNamed(inner)
    case Const(inner) => WellNamed(inner)
  }

  predicate AllWellNamed(ts: seq<Node>) {
    forall i :: 0 <= i < |ts| ==> WellNamed(ts[i])
  }

  // ----- unique decoding -----

  lemma {:induction false} PartRoundTrip(part: string, rest: string)
    requires IsIdentifier(part)
    ensures ParsePart(Format(|part|) + part + rest) == Some((part, rest))
  {
    var digits := Format(|part|);
    var s := digits + part + rest;
    assert s == digits + (part + rest);
    assert (part + rest)[0] == part[0];
    DigitRunOf(digits, part + rest);
    assert s[..|digits|] == digits && s[|digits|..] == part + rest;
    ValueFormat(|part|);
  }

  lemma {:induction false} Regroup(a: string, b: string, c: string, d: string)
    ensures a + b + c + d == a + b + (c + d)
  {
  }

  lemma {:induction false} PartsRoundTrip(parts: seq<string>, rest: string)
    requires IdentifierParts(parts)
    ensures ParseParts(|parts|, MangleParts(parts) + rest) == Some((parts, rest))
  {
    if parts == [] {
      assert MangleParts(parts) + rest == rest;
    } else {
      var tail := MangleParts(parts[1..]);
      PartRoundTrip(parts[0], tail + rest);
      Regroup(Format(|parts[0]|), parts[0], tail, rest);
      PartsRoundTrip(parts[1..], rest);
      assert [parts[0]] + parts[1..] == parts;
    }
  }

  lemma {:induction false} PlainRoundTrip(b: Basic, rest: string)
    ensures ParseType(CodeOf(b) + rest) == Some((Plain(b), rest))
  {
    var code := CodeOf(b);
    var s := code + rest;
    assert s[0] == code[0] && s[|code|..] == rest;
    if |code| == 2 { assert s[1] == code[1]; }
  }

  lemma {:induction false} OnePartRoundTrip(part: string, rest: string)
    requires IsIdentifier(part)
    ensures ParseType(Mangle(Name([part])) + rest) == Some((Name([part]), rest))
  {
    var digits := Format(|part|);
    var s := digits + part + rest;
    PartRoundTrip(part, rest);
    assert MangleParts([part][1..]) == "";
    assert Mangle(Name([part])) == digits + part + "" == digits + part;
    assert s[0] == digits[0];
    assert ParseType(s) == ParseName(s);
  }

  lemma {:induction false} QualifiedRoundTrip(parts: seq<string>, rest: string)
    requires |parts| <= 9 && |parts| != 1 && IdentifierParts(parts)
    ensures ParseType(Mangle(Name(parts)) + rest) == Some((Name(parts), rest))
  {
    var d, body := DigitChar(|parts|), MangleParts(parts);
    PartsRoundTrip(parts, rest);
    QualifiedMangle(parts);
    QualifiedParse(d, body + rest);
    Regroup(['Q'], [d], body, rest);
    assert ['Q'] + [d] == ['Q', d];
  }

  lemma {:induction false} QualifiedMangle(parts: seq<string>)
    requires |parts| <= 9 && |parts| != 1
    ensures Mangle(Name(parts)) == ['Q', DigitChar(|parts|)] + MangleParts(parts)
    ensures DigitValue(DigitChar(|parts|)) == |parts|
  {
    assert Format(|parts|) == [DigitChar(|parts|)];
    assert "Q" + [DigitChar(|parts|)] == ['Q', DigitChar(|parts|)];
  }

  lemma {:induction false} QualifiedParse(d: char, tail: string)
    requires IsDigit(d)
    ensures var named := ParseParts(DigitValue(d), tail);
            ParseType(['Q', d] + tail) == if named.None? then None else Some((Name(named.value.0), named.value.1))
  {
    var s := ['Q', d] + tail;
    assert s[0] == 'Q' && s[1] == d && s[2..] == tail;
  }

  /** Whatever follows it, a mangled type reads back as itself and leaves what follows. */
  lemma {:induction false} TypeRoundTrip(t: Node, rest: string)
    requires WellNamed(t)
    ensures ParseType(Mangle(t) + rest) == Some((t, rest))
  {
    match t
    case Plain(b) => PlainRoundTrip(b, rest);
    case Name(parts) =>
      if |parts| == 1 {
        assert parts == [parts[0]];
        OnePartRoundTrip(parts[0], rest);
      } else {
        QualifiedRoundTrip(parts, rest);
      }
    case Ptr(inner) => PrefixRoundTrip('P', t, inner, rest);
    case Reference(inner) => PrefixRoundTrip('R', t, inner, rest);
    case Const(inner) => PrefixRoundTrip('C', t, inner, rest);
  }

  lemma {:induction false} PrefixRoundTrip(c: char, t: Node, inner: Node, rest: string)
    requires WellNamed(inner)
    requires (c == 'P' && t == Ptr(inner)) || (c == 'R' && t == Reference(inner)) || (c == 'C' && t == Const(inner))
    ensures ParseType(Mangle(t) + rest) == Some((t, rest))
    decreases inner
  {
    TypeRoundTrip(inner, rest);
    PrefixMangle(c, t, inner, rest);
    PrefixParse(c, Mangle(inner) + rest);
  }

  lemma {:induction false} PrefixMangle(c: char, t: Node, inner: Node, rest: string)
    requires (c == 'P' && t == Ptr(inner)) || (c == 'R' && t == Reference(inner)) || (c == 'C' && t == Const(inner))
    ensures Mangle(t) + rest == [c] + (Mangle(inner) + rest)
  {
    assert [c] + Mangle(inner) + rest == [c] + (Mangle(inner) + rest);
  }

  lemma {:induction false} PrefixParse(c: char, tail: string)
    requires (c == 'P' || c == 'R' || c == 'C') && ParseType(tail).Some?
    ensures var (node, rest) := ParseType(tail).value;
            ParseType([c] + tail)
            == Some((if c == 'P' then Ptr(node) else if c == 'R' then Reference(node) else Const(node), rest))
  {
    assert ([c] + tail)[1..] == tail;
  }

  // ----- parameter lists -----

  /** The loop of `parse_params`: types until the string is used up. */
  function ParseAll(args: string): Option<seq<Node>>
    decreases |args|
  {
    if args == "" then Some([])
    else
      var first := ParseType(args);
      if first.None? then None
      else
        Append([first.value.0], ParseAll(first.value.1))
  }

  function Append(out: seq<Node>, more: Option<seq<Node>>): Option<seq<Node>> {
    if more.None? then None else Some(out + more.value)
  }

  lemma {:induction false} AppendNothing(more: Option<seq<Node>>)
    ensures Append([], more) == more
  {
    if more.Some? { assert [] + more.value == more.value; }
  }

  lemma {:induction false} AppendOne(out: seq<Node>, t: Node, more: Option<seq<Node>>)
    ensures Append(out, Append([t], more)) == Append(out + [t], more)
  {
    if more.Some? { assert out + ([t] + more.value) == out + [t] + more.value; }
  }

  /** `parse_params`: the list must mangle back to the string it was read from, with usable names. */
  function Params(args: string): Option<seq<Node>> {
    if args == "v" then Some([])
    else
      var ts := ParseAll(args);
      if ts.None? || MangleAll(ts.value) != args then None
      else if AllUsable(ts.value) then ts
      else None
  }

  predicate AllUsable(ts: seq<Node>) {
    ts == [] || (Usable(ts[0]) && AllUsable(ts[1..]))
  }

  method ParseParams(args: string) returns (r: Option<seq<Node>>)
    ensures r == Params(args)
  {
    if args == "v" {
      return Some([]);
    }
    var out, rest := [], args;
    AppendNothing(ParseAll(args));
    while rest != ""
      invariant ParseAll(args) == Append(out, ParseAll(rest))
      decreases |rest|
    {
      var got := ParseType(rest);
      if got.None? {
        return None;
      }
      AppendOne(out, got.value.0, ParseAll(got.value.1));
      out := out + [got.value.0];
      rest := got.value.1;
    }
    assert out + [] == out;
    if MangleAll(out) != args {
      return None;
    }
    var left := out;
    while left != []
      invariant AllUsable(out) == AllUsable(left)
    {
      if !Usable(left[0]) {
        return None;
      }
      left := left[1..];
    }
    return Some(out);
  }

  lemma {:induction false} WellNamedUsable(t: Node)
    requires WellNamed(t)
    ensures Usable(t)
  {
    match t
    case Plain(_) =>
    case Name(_) =>
    case Ptr(inner) => WellNamedUsable(inner);
    case Reference(inner) => WellNamedUsable(inner);
    case Const(inner) => WellNamedUsable(inner);
  }

  lemma {:induction false} AllWellNamedUsable(ts: seq<Node>)
    requires AllWellNamed(ts)
    ensures AllUsable(ts)
  {
    if ts != [] {
      WellNamedUsable(ts[0]);
      AllWellNamedUsable(ts[1..]);
    }
  }

  lemma {:induction false} ListRoundTrip(ts: seq<Node>)
    requires AllWellNamed(ts)
    ensures ParseAll(MangleAll(ts)) == Some(ts)
  {
    if ts != [] {
      TypeRoundTrip(ts[0], MangleAll(ts[1..]));
      ListRoundTrip(ts[1..]);
      assert ParseType("").None?;
      assert ts == [ts[0]] + ts[1..];
    }
  }

  /** A list of types comes back from its mangled form exactly when it is not the single type void. */
  lemma {:induction false} ParamsRoundTrip(ts: seq<Node>)
    requires AllWellNamed(ts)
    ensures Params(MangleAll(ts)) == Some(ts) <==> ts != [Plain(Void)]
  {
    ListRoundTrip(ts);
    AllWellNamedUsable(ts);
    assert MangleAll([Plain(Void)]) == "v" + MangleAll([]);
    if MangleAll(ts) == "v" {
      ListRoundTrip([Plain(Void)]);
    }
  }

  /** No two lists of types mangle alike. */
  lemma {:induction false} MangleInjective(a: seq<Node>, b: seq<Node>)
    requires AllWellNamed(a) && AllWellNamed(b) && MangleAll(a) == MangleAll(b)
    ensures a == b
  {
    ListRoundTrip(a);
    ListRoundTrip(b);
  }
}
