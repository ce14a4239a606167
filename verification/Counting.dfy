/** How often a number occurs in a sequence, and the pigeonhole facts that follow from it. */
module Counting {

  function Occurrences(xs: seq<int>, x: int): nat {
    if xs == [] then 0 else (if xs[0] == x then 1 else 0) + Occurrences(xs[1..], x)
  }

  // How many elements lie in [lo, hi).
  function Within(xs: seq<int>, lo: int, hi: int): nat {
    if xs == [] then 0 else (if lo <= xs[0] < hi then 1 else 0) + Within(xs[1..], lo, hi)
  }

  lemma {:induction false} OccurrencesAppend(xs: seq<int>, y: int, x: int)
    ensures Occurrences(xs + [y], x) == Occurrences(xs, x) + if x == y then 1 else 0
  {
    if xs == [] {
    } else {
      assert (xs + [y])[1..] == xs[1..] + [y];
      OccurrencesAppend(xs[1..], y, x);
    }
  }

  lemma {:induction false} OccurrencesUpdate(xs: seq<int>, i: nat, y: int, x: int)
    requires i < |xs|
    ensures Occurrences(xs[i := y], x) + (if xs[i] == x then 1 else 0)
         == Occurrences(xs, x) + (if y == x then 1 else 0)
  {
    if i == 0 {
      assert xs[i := y][1..] == xs[1..];
    } else {
      assert xs[i := y][1..] == xs[1..][i - 1 := y];
      OccurrencesUpdate(xs[1..], i - 1, y, x);
    }
  }

  lemma {:induction false} OccursAt(xs: seq<int>, i: nat)
    requires i < |xs|
    ensures Occurrences(xs, xs[i]) >= 1
  {
    if i > 0 {
      OccursAt(xs[1..], i - 1);
    }
  }

  lemma {:induction false} Occurs(xs: seq<int>, x: int)
    requires Occurrences(xs, x) >= 1
    ensures x in xs
  {
    if xs[0] != x {
      Occurs(xs[1..], x);
    }
  }

  lemma {:induction false} Absent(xs: seq<int>, x: int)
    requires x !in xs
    ensures Occurrences(xs, x) == 0
  {
    if xs != [] {
      Absent(xs[1..], x);
    }
  }

  lemma {:induction false} WithinSize(xs: seq<int>, lo: int, hi: int)
    ensures Within(xs, lo, hi) <= |xs|
    ensures Within(xs, lo, hi) == |xs| <==> forall i :: 0 <= i < |xs| ==> lo <= xs[i] < hi
  {
    if xs != [] {
      WithinSize(xs[1..], lo, hi);
      assert forall i :: 0 < i < |xs| ==> xs[i] == xs[1..][i - 1];
      assert forall i :: 0 <= i < |xs[1..]| ==> xs[1..][i] == xs[i + 1];
    }
  }

  lemma {:induction false} WithinGrow(xs: seq<int>, lo: int, hi: int)
    requires lo <= hi
    ensures Within(xs, lo, hi + 1) == Within(xs, lo, hi) + Occurrences(xs, hi)
  {
    if xs != [] {
      WithinGrow(xs[1..], lo, hi);
    }
  }

  lemma {:induction false} WithinEmpty(xs: seq<int>, lo: int)
    ensures Within(xs, lo, lo) == 0
  {
    if xs != [] {
      WithinEmpty(xs[1..], lo);
    }
  }

  // If every number of [lo, hi) occurs, that many places are taken.
  lemma {:induction false} CoveredRange(xs: seq<int>, lo: int, hi: int)
    requires lo <= hi
    requires forall x :: lo <= x < hi ==> Occurrences(xs, x) >= 1
    ensures Within(xs, lo, hi) >= hi - lo
    decreases hi - lo
  {
    if lo == hi {
    } else {
      CoveredRange(xs, lo, hi - 1);
      WithinGrow(xs, lo, hi - 1);
    }
  }

  // If no number of [lo, hi) occurs twice, at most that many places are taken; and if so
  // many are, every number of the range occurs.
  lemma {:induction false} DistinctRange(xs: seq<int>, lo: int, hi: int)
    requires lo <= hi
    requires forall x :: lo <= x < hi ==> Occurrences(xs, x) <= 1
    ensures Within(xs, lo, hi) <= hi - lo
    ensures Within(xs, lo, hi) == hi - lo ==> forall x :: lo <= x < hi ==> Occurrences(xs, x) == 1
    decreases hi - lo
  {
    if lo == hi {
      WithinEmpty(xs, lo);
    } else {
      DistinctRange(xs, lo, hi - 1);
      WithinGrow(xs, lo, hi - 1);
    }
  }

  lemma {:induction false} NoneWithin(xs: seq<int>, lo: int, hi: int)
    requires lo <= hi
    requires forall x :: lo <= x < hi ==> Occurrences(xs, x) == 0
    ensures Within(xs, lo, hi) == 0
    decreases hi - lo
  {
    if lo == hi {
      WithinEmpty(xs, lo);
    } else {
      NoneWithin(xs, lo, hi - 1);
      WithinGrow(xs, lo, hi - 1);
    }
  }
}
