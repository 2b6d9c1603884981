/**
 The order in which units would have to be linked, read off the stretches of text they
 own: a unit comes before another when some of its text lies below some of the other's.
 */
module LinkOrder {
  /** A `.text` line of splits.txt, and the unit it stands under. */
  datatype Text = Text(name: string, lo: int, hi: int)

  predicate Below(a: Text, b: Text) {
    a.hi <= b.lo
  }

  /** No unit owns two stretches of text. */
  ghost predicate OneStretchEach(texts: seq<Text>) {
    forall i, j :: 0 <= i < j < |texts| ==> texts[i].name != texts[j].name
  }

  ghost predicate NonEmpty(texts: seq<Text>) {
    forall i :: 0 <= i < |texts| ==> texts[i].lo < texts[i].hi
  }

  ghost predicate Disjoint(texts: seq<Text>) {
    forall i, j :: 0 <= i < j < |texts| ==> Below(texts[i], texts[j]) || Below(texts[j], texts[i])
  }

  ghost predicate HasText(texts: seq<Text>, u: string) {
    exists i :: 0 <= i < |texts| && texts[i].name == u
  }

  ghost predicate Before(texts: seq<Text>, u: string, v: string) {
    u != v && exists i, j :: PutsBefore(texts, u, v, i, j)
  }

  predicate PutsBefore(texts: seq<Text>, u: string, v: string, i: int, j: int) {
    && 0 <= i < |texts| && 0 <= j < |texts|
    && texts[i].name == u && texts[j].name == v && Below(texts[i], texts[j])
  }

  /** Each unit of the walk comes before the next. */
  ghost predicate Walk(texts: seq<Text>, path: seq<string>) {
    forall k :: 0 <= k < |path| - 1 ==> Before(texts, path[k], path[k + 1])
  }

  ghost predicate Acyclic(texts: seq<Text>) {
    forall path :: |path| > 1 && Walk(texts, path) ==> path[0] != path[|path| - 1]
  }

  /** The units with text stand in one line. */
  ghost predicate Linear(texts: seq<Text>) {
    && (forall u, v :: Before(texts, u, v) ==> !Before(texts, v, u))
    && (forall u, v, w :: Before(texts, u, v) && Before(texts, v, w) ==> Before(texts, u, w))
    && (forall u, v :: HasText(texts, u) && HasText(texts, v) && u != v ==>
          Before(texts, u, v) || Before(texts, v, u))
  }

  /** Some unit has text on both sides of another unit's. */
  ghost predicate Surrounds(texts: seq<Text>) {
    exists i, j, k :: Around(texts, i, j, k)
  }

  predicate Around(texts: seq<Text>, i: int, j: int, k: int) {
    && 0 <= i < |texts| && 0 <= j < |texts| && 0 <= k < |texts|
    && texts[i].name == texts[k].name != texts[j].name
    && Below(texts[i], texts[j]) && Below(texts[j], texts[k])
  }

  /** Two stretches around another unit put each of the two units before the other. */
  lemma {:induction false} AroundIsCycle(texts: seq<Text>, i: nat, j: nat, k: nat)
    requires Around(texts, i, j, k)
    ensures !Acyclic(texts) && !Linear(texts)
  {
    var u, v := texts[i].name, texts[j].name;
    assert PutsBefore(texts, u, v, i, j) && PutsBefore(texts, v, u, j, k);
    var path := [u, v, u];
    assert Before(texts, path[0], path[1]) && Before(texts, path[1], path[2]);
    assert Walk(texts, path);
  }

  /** Where nothing is surrounded, one piece below another puts all of the one unit below all of the other. */
  lemma {:induction false} AllBelow(texts: seq<Text>, u: string, v: string, i: nat, j: nat)
    requires NonEmpty(texts) && Disjoint(texts) && !Surrounds(texts) && Before(texts, u, v)
    requires i < |texts| && j < |texts| && texts[i].name == u && texts[j].name == v
    ensures Below(texts[i], texts[j])
  {
    var a, b :| PutsBefore(texts, u, v, a, b);
    assert !Around(texts, a, j, i) && !Around(texts, j, a, b);
  }

  lemma {:induction false} WalkBelow(texts: seq<Text>, path: seq<string>, i: nat, k: nat, j: nat)
    requires NonEmpty(texts) && Disjoint(texts) && !Surrounds(texts) && Walk(texts, path)
    requires 0 < k < |path| && i < |texts| && j < |texts| && texts[i].name == path[0] && texts[j].name == path[k]
    ensures Below(texts[i], texts[j])
    decreases k
  {
    assert Before(texts, path[k - 1], path[k]);
    if k == 1 {
      AllBelow(texts, path[0], path[1], i, j);
    } else {
      var a, b :| PutsBefore(texts, path[k - 1], path[k], a, b);
      WalkBelow(texts, path, i, k - 1, a);
      AllBelow(texts, path[k - 1], path[k], a, j);
    }
  }

  lemma {:induction false} NothingSurrounded(texts: seq<Text>, path: seq<string>)
    requires NonEmpty(texts) && Disjoint(texts) && !Surrounds(texts) && Walk(texts, path) && |path| > 1
    ensures path[0] != path[|path| - 1]
  {
    if path[0] == path[|path| - 1] {
      assert Before(texts, path[0], path[1]);
      var i, j :| PutsBefore(texts, path[0], path[1], i, j);
      WalkBelow(texts, path, i, |path| - 1, i);
    }
  }

  lemma {:induction false} InOneLine(texts: seq<Text>)
    requires NonEmpty(texts) && Disjoint(texts) && !Surrounds(texts)
    ensures Linear(texts)
  {
    forall u, v | Before(texts, u, v)
      ensures !Before(texts, v, u)
    {
      NotBack(texts, u, v);
    }
    forall u, v, w | Before(texts, u, v) && Before(texts, v, w)
      ensures Before(texts, u, w)
    {
      Onwards(texts, u, v, w);
    }
    forall u, v | HasText(texts, u) && HasText(texts, v) && u != v
      ensures Before(texts, u, v) || Before(texts, v, u)
    {
      var i :| 0 <= i < |texts| && texts[i].name == u;
      var j :| 0 <= j < |texts| && texts[j].name == v;
      assert PutsBefore(texts, u, v, i, j) || PutsBefore(texts, v, u, j, i);
    }
  }

  lemma {:induction false} NotBack(texts: seq<Text>, u: string, v: string)
    requires NonEmpty(texts) && Disjoint(texts) && !Surrounds(texts) && Before(texts, u, v)
    ensures !Before(texts, v, u)
  {
    var i, j :| PutsBefore(texts, u, v, i, j);
    if Before(texts, v, u) { AllBelow(texts, v, u, j, i); }
  }

  lemma {:induction false} Onwards(texts: seq<Text>, u: string, v: string, w: string)
    requires NonEmpty(texts) && Disjoint(texts) && !Surrounds(texts)
    requires Before(texts, u, v) && Before(texts, v, w)
    ensures Before(texts, u, w)
  {
    if u == w { NotBack(texts, u, v); }
    var i, j :| PutsBefore(texts, u, v, i, j);
    var a, k :| PutsBefore(texts, v, w, a, k);
    AllBelow(texts, v, w, j, k);
    assert PutsBefore(texts, u, w, i, k);
  }

  /** The link order has no cycle exactly when no unit surrounds another, and then it is one line. */
  lemma {:induction false} AcyclicExactly(texts: seq<Text>)
    requires NonEmpty(texts) && Disjoint(texts)
    ensures Acyclic(texts) <==> !Surrounds(texts)
    ensures Acyclic(texts) <==> Linear(texts)
  {
    if Surrounds(texts) {
      var i, j, k :| Around(texts, i, j, k);
      AroundIsCycle(texts, i, j, k);
    } else {
      InOneLine(texts);
      forall path | |path| > 1 && Walk(texts, path)
        ensures path[0] != path[|path| - 1]
      {
        NothingSurrounded(texts, path);
      }
    }
  }

  /** One stretch of text to a unit is enough. */
  lemma {:induction false} OneStretchIsLinear(texts: seq<Text>)
    requires NonEmpty(texts) && Disjoint(texts) && OneStretchEach(texts)
    ensures Acyclic(texts) && Linear(texts)
  {
    forall i, j, k
      ensures !Around(texts, i, j, k)
    {
      if 0 <= i < k < |texts| {
        assert texts[i].name != texts[k].name;
      } else if 0 <= k < i < |texts| {
        assert texts[k].name != texts[i].name;
      }
    }
    AcyclicExactly(texts);
  }
}
