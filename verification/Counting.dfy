/** How many elements of a sequence pass a test. */
module Counting {
  import opened Sorting

  function Tally<T>(s: seq<T>, pick: T -> bool): nat {
    if s == [] then 0 else (if pick(s[0]) then 1 else 0) + Tally(s[1..], pick)
  }

  lemma {:induction false} TallyAppend<T>(a: seq<T>, b: seq<T>, pick: T -> bool)
    ensures Tally(a + b, pick) == Tally(a, pick) + Tally(b, pick)
  {
    if a == [] {
      assert a + b == b;
    } else {
      assert (a + b)[1..] == a[1..] + b;
      TallyAppend(a[1..], b, pick);
    }
  }

  lemma {:induction false} TallyFirst<T>(s: seq<T>, pick: T -> bool, n: nat)
    requires n < |s|
    ensures Tally(s[..n + 1], pick) == Tally(s[..n], pick) + if pick(s[n]) then 1 else 0
  {
    assert s[..n + 1] == s[..n] + [s[n]];
    TallyAppend(s[..n], [s[n]], pick);
  }

  lemma {:induction false} InsertTally<T>(x: T, s: seq<T>, le: (T, T) -> bool, pick: T -> bool)
    ensures Tally(Insert(x, s, le), pick) == (if pick(x) then 1 else 0) + Tally(s, pick)
  {
    if !(s == [] || le(x, s[0])) {
      InsertTally(x, s[1..], le, pick);
    }
  }

  /** Sorting leaves every count as it is. */
  lemma {:induction false} SortTally<T>(s: seq<T>, le: (T, T) -> bool, pick: T -> bool)
    ensures Tally(Sort(s, le), pick) == Tally(s, pick)
  {
    if s != [] {
      SortTally(s[1..], le, pick);
      InsertTally(s[0], Sort(s[1..], le), le, pick);
    }
  }

  /** Two tests that agree on the sequence count alike. */
  lemma {:induction false} TallySame<T(!new)>(s: seq<T>, p: T -> bool, q: T -> bool)
    requires forall x :: x in s ==> p(x) == q(x)
    ensures Tally(s, p) == Tally(s, q)
  {
    if s != [] { TallySame(s[1..], p, q); }
  }

  lemma {:induction false} TallyOne<T>(s: seq<T>, pick: T -> bool, i: nat)
    requires i < |s| && pick(s[i])
    ensures Tally(s, pick) >= 1
  {
    if i > 0 { TallyOne(s[1..], pick, i - 1); }
  }

  lemma {:induction false} TallyFound<T>(s: seq<T>, pick: T -> bool) returns (i: nat)
    requires Tally(s, pick) >= 1
    ensures i < |s| && pick(s[i])
  {
    if pick(s[0]) {
      i := 0;
    } else {
      i := TallyFound(s[1..], pick);
      i := i + 1;
    }
  }

  lemma {:induction false} TallyTwo<T>(s: seq<T>, pick: T -> bool, i: nat, j: nat)
    requires i < j < |s| && pick(s[i]) && pick(s[j])
    ensures Tally(s, pick) >= 2
  {
    if i == 0 { TallyOne(s[1..], pick, j - 1); } else { TallyTwo(s[1..], pick, i - 1, j - 1); }
  }

  lemma {:induction false} TallyFoundTwo<T>(s: seq<T>, pick: T -> bool) returns (i: nat, j: nat)
    requires Tally(s, pick) >= 2
    ensures i < j < |s| && pick(s[i]) && pick(s[j])
  {
    if pick(s[0]) {
      i := 0;
      j := TallyFound(s[1..], pick);
      j := j + 1;
    } else {
      i, j := TallyFoundTwo(s[1..], pick);
      i, j := i + 1, j + 1;
    }
  }
}
