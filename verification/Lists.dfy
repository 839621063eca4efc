/** Linked lists as sequences, with repetitions (adlist.c). */
module Lists {
  function Count<T(==)>(xs: seq<T>, x: T): nat {
    if xs == [] then 0 else (if xs[0] == x then 1 else 0) + Count(xs[1..], x)
  }

  function RemoveFirst<T(==)>(xs: seq<T>, x: T): (r: seq<T>)
    ensures |r| <= |xs|
  {
    if xs == [] then [] else if xs[0] == x then xs[1..] else [xs[0]] + RemoveFirst(xs[1..], x)
  }

  lemma {:induction false} CountAppend<T>(xs: seq<T>, ys: seq<T>, x: T)
    ensures Count(xs + ys, x) == Count(xs, x) + Count(ys, x)
  {
    if xs == [] {
      assert xs + ys == ys;
    } else {
      assert (xs + ys)[1..] == xs[1..] + ys;
      CountAppend(xs[1..], ys, x);
    }
  }

  lemma {:induction false} CountIn<T>(xs: seq<T>, x: T)
    ensures Count(xs, x) > 0 <==> x in xs
  {
    if xs != [] {
      CountIn(xs[1..], x);
    }
  }

  lemma {:induction false} CountRemove<T>(xs: seq<T>, x: T, y: T)
    requires x in xs
    ensures Count(RemoveFirst(xs, x), y) == Count(xs, y) - if y == x then 1 else 0
  {
    if xs[0] != x {
      CountRemove(xs[1..], x, y);
      assert RemoveFirst(xs, x)[1..] == RemoveFirst(xs[1..], x);
    }
  }

  /** Every element left was there, and the order stays. */
  lemma {:induction false} RemoveKeepsOrder<T>(xs: seq<T>, x: T, i: nat, j: nat) returns (i': nat, j': nat)
    requires i < j < |RemoveFirst(xs, x)|
    ensures i' < j' < |xs| && xs[i'] == RemoveFirst(xs, x)[i] && xs[j'] == RemoveFirst(xs, x)[j]
  {
    if xs[0] == x {
      i', j' := i + 1, j + 1;
    } else if i == 0 {
      i' := 0;
      j' := RemoveHas(xs[1..], x, j - 1);
      j' := j' + 1;
    } else {
      i', j' := RemoveKeepsOrder(xs[1..], x, i - 1, j - 1);
      i', j' := i' + 1, j' + 1;
    }
  }

  lemma {:induction false} RemoveHas<T>(xs: seq<T>, x: T, j: nat) returns (j': nat)
    requires j < |RemoveFirst(xs, x)|
    ensures j' < |xs| && xs[j'] == RemoveFirst(xs, x)[j]
  {
    if xs[0] == x {
      j' := j + 1;
    } else if j == 0 {
      j' := 0;
    } else {
      j' := RemoveHas(xs[1..], x, j - 1);
      j' := j' + 1;
    }
  }

  predicate NoRepeats<T(==)>(xs: seq<T>) {
    forall i, j :: 0 <= i < j < |xs| ==> xs[i] != xs[j]
  }

  lemma {:induction false} RemoveMembers<T>(xs: seq<T>, x: T)
    requires NoRepeats(xs)
    ensures NoRepeats(RemoveFirst(xs, x))
    ensures forall y :: y in RemoveFirst(xs, x) <==> y in xs && y != x
  {
    if xs != [] && xs[0] != x {
      RemoveMembers(xs[1..], x);
      assert xs == [xs[0]] + xs[1..];
      var r := RemoveFirst(xs[1..], x);
      assert xs[0] !in r;
      assert forall j :: 1 <= j < |r| + 1 ==> ([xs[0]] + r)[j] in r;
    } else if xs != [] {
      assert xs == [xs[0]] + xs[1..];
    }
  }
}
