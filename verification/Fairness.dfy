/**
The fairness index that `examples/tcp/dctcp-example.cc` prints: sums and sums of squares
in 64-bit arithmetic, and the quotient of Jain's index.
*/
module Fairness {

  const WORD: int := 0x1_0000_0000_0000_0000

  type Word = x: int | 0 <= x < WORD

  function Wrap(x: int): Word {
    x % WORD
  }

  // ----- the exact sums -----

  function Square(x: int): int {
    x * x
  }

  function Sum(xs: seq<Word>): nat {
    if xs == [] then 0 else Sum(xs[..|xs| - 1]) + xs[|xs| - 1]
  }

  function SumSquares(xs: seq<Word>): int {
    if xs == [] then 0 else SumSquares(xs[..|xs| - 1]) + Square(xs[|xs| - 1])
  }

  ghost predicate AllZero(xs: seq<Word>) {
    forall i :: 0 <= i < |xs| ==> xs[i] == 0
  }

  ghost predicate AllEqual(xs: seq<Word>) {
    forall i, j :: 0 <= i < |xs| && 0 <= j < |xs| ==> xs[i] == xs[j]
  }

  // The sum of the squared distances from `x`.
  function Distances(xs: seq<Word>, x: int): int {
    if xs == [] then 0 else Distances(xs[..|xs| - 1], x) + Square(xs[|xs| - 1] - x)
  }

  // Twice n times the squares minus the squared sum: the distances of all pairs.
  function PairDistances(xs: seq<Word>): int {
    if xs == [] then 0 else PairDistances(xs[..|xs| - 1]) + Distances(xs[..|xs| - 1], xs[|xs| - 1])
  }

  lemma DistanceNext(q: int, s: int, n: int, y: int, x: int)
    ensures (q - 2 * (x * s) + n * (x * x)) + (y - x) * (y - x) == (q + y * y) - 2 * (x * (s + y)) + (n + 1) * (x * x)
  {
  }

  lemma {:induction false} DistancesExpand(xs: seq<Word>, x: int)
    ensures Distances(xs, x) == SumSquares(xs) - 2 * (x * Sum(xs)) + |xs| * (x * x)
  {
    if xs != [] {
      var n := |xs| - 1;
      DistancesExpand(xs[..n], x);
      DistanceNext(SumSquares(xs[..n]), Sum(xs[..n]), n, xs[n], x);
    }
  }

  lemma LagrangeNext(q: int, s: int, n: int, y: int)
    ensures (n * q - s * s) + (q - 2 * (y * s) + n * (y * y)) == (n + 1) * (q + y * y) - (s + y) * (s + y)
  {
  }

  // The identity behind the index: what the squares exceed the squared sum by is the sum of
  // the squared differences of all pairs.
  lemma {:induction false} Lagrange(xs: seq<Word>)
    ensures |xs| * SumSquares(xs) - Sum(xs) * Sum(xs) == PairDistances(xs)
  {
    if xs != [] {
      var n := |xs| - 1;
      Lagrange(xs[..n]);
      DistancesExpand(xs[..n], xs[n]);
      LagrangeNext(SumSquares(xs[..n]), Sum(xs[..n]), n, xs[n]);
    }
  }

  lemma SquareSign(d: int)
    ensures d * d >= 0
    ensures d * d == 0 <==> d == 0
  {
  }

  lemma {:induction false} DistancesSign(xs: seq<Word>, x: int)
    ensures Distances(xs, x) >= 0
    ensures Distances(xs, x) == 0 <==> forall i :: 0 <= i < |xs| ==> xs[i] == x
  {
    if xs != [] {
      var n := |xs| - 1;
      DistancesSign(xs[..n], x);
      SquareSign(xs[n] - x);
      assert forall i :: 0 <= i < n ==> xs[..n][i] == xs[i];
    }
  }

  lemma {:induction false} PairDistancesSign(xs: seq<Word>)
    ensures PairDistances(xs) >= 0
    ensures PairDistances(xs) == 0 <==> AllEqual(xs)
  {
    if xs != [] {
      var n := |xs| - 1;
      PairDistancesSign(xs[..n]);
      DistancesSign(xs[..n], xs[n]);
      assert forall i :: 0 <= i < n ==> xs[..n][i] == xs[i];
      if AllEqual(xs) {
        assert forall i :: 0 <= i < n ==> xs[i] == xs[n];
      }
    }
  }

  lemma {:induction false} SquaresNotNegative(xs: seq<Word>)
    ensures SumSquares(xs) >= 0
    ensures SumSquares(xs) == 0 <==> AllZero(xs)
  {
    if xs != [] {
      var n := |xs| - 1;
      SquaresNotNegative(xs[..n]);
      SquareSign(xs[n]);
      assert forall i :: 0 <= i < n ==> xs[..n][i] == xs[i];
    }
  }

  lemma SquareOfSum(s: nat, x: nat, q: int)
    requires q <= s * s
    ensures q + x * x <= (s + x) * (s + x)
  {
    assert (s + x) * (s + x) == s * s + 2 * (s * x) + x * x;
    assert s * x >= 0;
  }

  lemma {:induction false} SquaresBelowSquare(xs: seq<Word>)
    ensures SumSquares(xs) <= Sum(xs) * Sum(xs)
  {
    if xs != [] {
      var n := |xs| - 1;
      SquaresBelowSquare(xs[..n]);
      SquareOfSum(Sum(xs[..n]), xs[n], SumSquares(xs[..n]));
    }
  }

  // ----- wrapping -----

  // Every value the computation forms fits into a word.
  ghost predicate NothingWraps(xs: seq<Word>) {
    && Sum(xs) < WORD && SumSquares(xs) < WORD
    && Sum(xs) * Sum(xs) < WORD && |xs| * SumSquares(xs) < WORD
  }

  lemma Smaller(n: int, s: nat, q: int)
    requires n >= 1 && q >= 0 && s * s <= n * q
    ensures q <= n * q && s <= n * q
  {
    assert n * q == q + (n - 1) * q && (n - 1) * q >= 0;
    assert s <= s * s;
  }

  // The last product decides: nothing wraps if and only if it does not.
  lemma {:induction false} NothingWrapsIff(xs: seq<Word>)
    requires xs != []
    ensures NothingWraps(xs) <==> |xs| * SumSquares(xs) < WORD
  {
    Lagrange(xs);
    PairDistancesSign(xs);
    SquaresNotNegative(xs);
    Smaller(|xs|, Sum(xs), SumSquares(xs));
  }

  lemma MonotoneSquare(x: nat, max: nat)
    requires x <= max
    ensures x * x <= max * max
  {
    assert x * x <= x * max && x * max <= max * max;
  }

  lemma {:induction false} SquaresBelowMax(xs: seq<Word>, max: nat)
    requires forall i :: 0 <= i < |xs| ==> xs[i] <= max
    ensures SumSquares(xs) <= |xs| * (max * max)
  {
    if xs != [] {
      var n := |xs| - 1;
      SquaresBelowMax(xs[..n], max);
      MonotoneSquare(xs[n], max);
      assert (n + 1) * (max * max) == n * (max * max) + max * max;
    }
  }

  lemma ProductBelowWord(n: nat, max: nat, q: int)
    requires n * max < 0x1_0000_0000 && q <= n * (max * max)
    ensures n * q < WORD
  {
    var m := n * max;
    assert n * q <= n * (n * (max * max));
    assert n * (n * (max * max)) == m * m;
    MonotoneSquare(m, 0xFFFF_FFFF);
  }

  // A bound a caller can check: n times the largest count below 2^32.
  lemma {:induction false} SmallCountsDoNotWrap(xs: seq<Word>, max: nat)
    requires xs != [] && (forall i :: 0 <= i < |xs| ==> xs[i] <= max) && |xs| * max < 0x1_0000_0000
    ensures NothingWraps(xs)
  {
    SquaresBelowMax(xs, max);
    ProductBelowWord(|xs|, max, SumSquares(xs));
    NothingWrapsIff(xs);
  }

  // ----- the index -----

  // A division by zero gives no number, or infinity.
  datatype Quotient = NotANumber | Infinite | Number(value: real)

  function Divide(a: Word, b: Word): Quotient {
    if b != 0 then Number(a as real / b as real) else if a == 0 then NotANumber else Infinite
  }

  // What the program prints for a group of flows.
  function Index(xs: seq<Word>): Quotient {
    var sum, sumSquares := Wrap(Sum(xs)), Wrap(SumSquares(xs));
    Divide(Wrap(sum * sum), Wrap(|xs| * sumSquares))
  }

  lemma CancelFactor(x: real, y: real, b: real)
    requires b > 0.0
    ensures x * b <= y * b <==> x <= y
  {
    assert y * b - x * b == (y - x) * b;
  }

  lemma OneOver(q: real, a: real, b: real, n: real)
    requires b > 0.0 && n > 0.0 && q * b == a && a <= b && b <= n * a
    ensures 1.0 / n <= q <= 1.0
    ensures q == 1.0 <==> a == b
  {
    CancelFactor(q, 1.0, b);
    CancelFactor(1.0, q, b);
    assert (1.0 / n) * n == 1.0;
    assert (1.0 / n) * (n * b) == b && q * (n * b) == n * a;
    ProductPositive(n, b);
    CancelFactor(1.0 / n, q, n * b);
  }

  lemma ProductPositive(n: real, b: real)
    requires n > 0.0 && b > 0.0
    ensures n * b > 0.0
  {
  }

  lemma RatioBounds(a: int, b: int, n: int)
    requires 0 < b && a <= b <= n * a && n > 0
    ensures 1.0 / n as real <= a as real / b as real <= 1.0
    ensures a as real / b as real == 1.0 <==> a == b
  {
    var q := a as real / b as real;
    assert q * b as real == a as real;
    assert (n * a) as real == n as real * a as real;
    OneOver(q, a as real, b as real, n as real);
  }

  // Where nothing wraps and not all counts are zero, the program prints Jain's index: it lies
  // between 1/n and 1, and is 1 if and only if all flows got the same.
  lemma {:induction false} IndexIsJain(xs: seq<Word>)
    requires xs != [] && NothingWraps(xs) && !AllZero(xs)
    ensures Index(xs).Number? && |xs| * SumSquares(xs) > 0
    ensures Index(xs).value == (Sum(xs) * Sum(xs)) as real / (|xs| * SumSquares(xs)) as real
    ensures 1.0 / |xs| as real <= Index(xs).value <= 1.0
    ensures Index(xs).value == 1.0 <==> AllEqual(xs)
  {
    Lagrange(xs);
    PairDistancesSign(xs);
    SquaresNotNegative(xs);
    SquaresBelowSquare(xs);
    IndexBounds(|xs|, Sum(xs), SumSquares(xs));
  }

  lemma IndexBounds(n: nat, s: nat, q: int)
    requires n >= 1 && 0 < q <= s * s <= n * q
    requires s < WORD && q < WORD && s * s < WORD && n * q < WORD
    ensures Divide(Wrap(Wrap(s) * Wrap(s)), Wrap(n * Wrap(q))) == Number((s * s) as real / (n * q) as real)
    ensures 1.0 / n as real <= (s * s) as real / (n * q) as real <= 1.0
    ensures (s * s) as real / (n * q) as real == 1.0 <==> s * s == n * q
  {
    ScaledUp(n, q, s * s);
    WrapSmall(s);
    WrapSmall(q);
    DivideSmall(s * s, n * q);
    RatioBounds(s * s, n * q, n);
  }

  lemma WrapSmall(x: int)
    requires 0 <= x < WORD
    ensures Wrap(x) == x
  {
  }

  lemma DivideSmall(a: int, b: int)
    requires 0 <= a < WORD && 0 < b < WORD
    ensures Divide(Wrap(a), Wrap(b)) == Number(a as real / b as real)
  {
  }

  lemma ScaledUp(n: nat, q: int, t: int)
    requires n >= 1 && 0 < q <= t
    ensures 0 < n * q <= n * t
  {
  }

  lemma WrapProduct(a: int, b: int)
    ensures Wrap(a * Wrap(b)) == Wrap(a * b)
  {
    var k := b / WORD;
    assert b == k * WORD + Wrap(b);
    assert a * b == (a * k) * WORD + a * Wrap(b);
    WrapMultiple(a * Wrap(b), a * k);
  }

  lemma WrapMultiple(x: int, k: int)
    ensures Wrap(k * WORD + x) == Wrap(x)
  {
  }

  // Wrapping on the way changes nothing: the index is the wrapped squared sum over the
  // wrapped product.
  lemma {:induction false} IndexWraps(xs: seq<Word>)
    ensures Index(xs) == Divide(Wrap(Sum(xs) * Sum(xs)), Wrap(|xs| * SumSquares(xs)))
  {
    var sum := Wrap(Sum(xs));
    WrapProduct(sum, Sum(xs));
    assert sum * Sum(xs) == Sum(xs) * sum;
    WrapProduct(Sum(xs), Sum(xs));
    WrapProduct(|xs|, SumSquares(xs));
  }

  // The index is a number if and only if n times the sum of squares is no multiple of 2^64.
  // Else it is infinite, or not even that if the squared sum is such a multiple as well.
  lemma {:induction false} NumberIff(xs: seq<Word>)
    ensures Index(xs).Number? <==> |xs| * SumSquares(xs) % WORD != 0
    ensures Index(xs) == NotANumber <==> |xs| * SumSquares(xs) % WORD == 0 && Sum(xs) * Sum(xs) % WORD == 0
  {
    IndexWraps(xs);
  }

  // All-zero counts give no number, and neither do these equal ones, whose squares wrap.
  lemma {:induction false} NoNumber(xs: seq<Word>)
    requires |xs| == 10 && ((forall i :: 0 <= i < 10 ==> xs[i] == 0) || (forall i :: 0 <= i < 10 ==> xs[i] == 0x1_0000_0000))
    ensures Index(xs) == NotANumber
  {
    var x: int := xs[0];
    SquaresOfConstant(xs, x);
    SumOfConstant(xs, x);
    NumberIff(xs);
    assert x * x == if x == 0 then 0 else WORD;
    WordMultiple(if x == 0 then 0 else 100);
    assert |xs| * SumSquares(xs) == 100 * (x * x) && Sum(xs) * Sum(xs) == 100 * (x * x);
  }

  lemma WordMultiple(k: int)
    ensures k * WORD % WORD == 0
  {
  }

  lemma {:induction false} SumOfConstant(xs: seq<Word>, x: int)
    requires forall i :: 0 <= i < |xs| ==> xs[i] == x
    ensures Sum(xs) == |xs| * x
  {
    if xs != [] {
      var n := |xs| - 1;
      SumOfConstant(xs[..n], x);
      assert (n + 1) * x == n * x + x;
    }
  }

  // Ten counts of which only the first two are not zero.
  function Two(a: Word, b: Word): (xs: seq<Word>)
    ensures |xs| == 10 && xs[0] == a && xs[1] == b && forall i :: 2 <= i < 10 ==> xs[i] == 0
  {
    [a, b] + seq(8, _ => 0)
  }

  lemma {:induction false} SumsOfTwo(a: Word, b: Word, n: nat)
    requires 2 <= n <= 10
    ensures Sum(Two(a, b)[..n]) == a + b && SumSquares(Two(a, b)[..n]) == a * a + b * b
  {
    var xs := Two(a, b);
    if n == 2 {
      var first := [xs[0]];
      assert xs[..2][..1] == first && first[..0] == [];
      assert Sum(first) == a && SumSquares(first) == a * a;
      assert Sum(xs[..2]) == Sum(first) + b && SumSquares(xs[..2]) == SumSquares(first) + Square(b);
    } else {
      SumsOfTwo(a, b, n - 1);
      assert xs[..n][..n - 1] == xs[..n - 1];
    }
  }

  lemma {:induction false} IndexOfTwo(a: Word, b: Word)
    ensures Index(Two(a, b)) == Divide(Wrap((a + b) * (a + b)), Wrap(10 * (a * a + b * b)))
  {
    SumsOfTwo(a, b, 10);
    assert Two(a, b)[..10] == Two(a, b);
    IndexWraps(Two(a, b));
  }

  lemma CrossMultiply(a: int, b: int, s: int, q: int)
    requires b > 0 && q > 0
    ensures a as real / b as real == s as real / q as real <==> a * q == s * b
  {
    var x, y, e, f := a as real / b as real, s as real / q as real, b as real, q as real;
    DivideBack(a as real, e);
    DivideBack(s as real, f);
    ProductAsReal(a, q);
    ProductAsReal(s, b);
    ProductPositive(e, f);
    assert x * (e * f) == a as real * f && y * (e * f) == s as real * e;
    CancelEqual(x, y, e * f);
  }

  lemma DivideBack(a: real, b: real)
    requires b > 0.0
    ensures (a / b) * b == a
  {
  }

  lemma ProductAsReal(a: int, b: int)
    ensures (a * b) as real == a as real * b as real
  {
  }

  lemma CancelEqual(x: real, y: real, m: real)
    requires m > 0.0
    ensures x * m == y * m <==> x == y
  {
    CancelFactor(x, y, m);
    CancelFactor(y, x, m);
  }

  // Wrapping the dividend and the divisor keeps the quotient if and only if what they lose
  // is in the ratio of what they keep.
  lemma {:induction false} WrappedRatio(s: int, q: int, a: int, b: int, k: int, l: int)
    requires s == k * WORD + a && q == l * WORD + b
    ensures a * q == s * b <==> k * b == l * a
  {
    assert a * q == (l * a) * WORD + a * b;
    assert s * b == (k * b) * WORD + a * b;
  }

  // For all counts: the index is the exact quotient if and only if wrapping leaves a divisor
  // and takes from both products in proportion.
  lemma {:induction false} ExactIff(xs: seq<Word>)
    requires xs != [] && !AllZero(xs)
    ensures |xs| * SumSquares(xs) > 0
    ensures var s, q := Sum(xs) * Sum(xs), |xs| * SumSquares(xs);
            Index(xs) == Number(s as real / q as real)
            <==> q % WORD != 0 && (s / WORD) * (q % WORD) == (q / WORD) * (s % WORD)
  {
    var s, q := Sum(xs) * Sum(xs), |xs| * SumSquares(xs);
    SquaresNotNegative(xs);
    ScaledUp(|xs|, SumSquares(xs), SumSquares(xs));
    IndexWraps(xs);
    var a: int, b: int := Wrap(s), Wrap(q);
    Parts(s);
    Parts(q);
    if b != 0 {
      CrossMultiply(a, b, s, q);
      WrappedRatio(s, q, a, b, s / WORD, q / WORD);
    }
  }

  lemma Parts(x: int)
    ensures x == (x / WORD) * WORD + x % WORD
  {
  }

  ghost predicate InRange(xs: seq<Word>)
    requires xs != []
  {
    Index(xs).Number? && 1.0 / |xs| as real <= Index(xs).value <= 1.0
  }

  // For all counts: the index lies between 1/n and 1 if and only if the wrapped products do
  // as the products would.
  lemma {:induction false} InRangeIff(xs: seq<Word>)
    requires xs != []
    ensures var a, b := Wrap(Sum(xs) * Sum(xs)), Wrap(|xs| * SumSquares(xs));
            InRange(xs) <==> 0 < b && a <= b <= |xs| * a
  {
    IndexWraps(xs);
    var a: int, b: int := Wrap(Sum(xs) * Sum(xs)), Wrap(|xs| * SumSquares(xs));
    if b > 0 {
      QuotientInRange(a, b, |xs|);
    }
  }

  lemma {:induction false} QuotientInRange(a: nat, b: nat, n: nat)
    requires b > 0 && n > 0
    ensures 1.0 / n as real <= a as real / b as real <= 1.0 <==> a <= b <= n * a
  {
    AtMostOne(a as real, b as real);
    AtLeast(a as real, b as real, n as real);
    ProductAsReal(n, a);
  }

  lemma AtMostOne(a: real, b: real)
    requires b > 0.0
    ensures a / b <= 1.0 <==> a <= b
  {
    DivideBack(a, b);
    CancelFactor(a / b, 1.0, b);
  }

  lemma AtLeast(a: real, b: real, n: real)
    requires b > 0.0 && n > 0.0
    ensures 1.0 / n <= a / b <==> b <= n * a
  {
    var q, r, p := a / b, 1.0 / n, n * b;
    DivideBack(a, b);
    DivideBack(1.0, n);
    ProductPositive(n, b);
    Regroup(r, n, b, 1.0);
    Regroup(q, b, n, a);
    assert b * n == p && a * n == n * a;
    CancelFactor(r, q, p);
  }

  lemma Regroup(x: real, y: real, z: real, v: real)
    requires x * y == v
    ensures x * (y * z) == v * z
  {
    assert x * (y * z) == (x * y) * z;
  }

  // Equal counts have the exact index 1 even where they wrap, unless it is no number.
  lemma {:induction false} EqualCounts(xs: seq<Word>)
    requires xs != [] && AllEqual(xs)
    ensures Index(xs) == if |xs| * SumSquares(xs) % WORD == 0 then NotANumber else Number(1.0)
  {
    Lagrange(xs);
    PairDistancesSign(xs);
    IndexWraps(xs);
    DivideSelf(Wrap(|xs| * SumSquares(xs)));
  }

  lemma DivideSelf(w: Word)
    ensures Divide(w, w) == if w == 0 then NotANumber else Number(1.0)
  {
    if w != 0 {
      var x := w as real;
      DivideBack(x, x);
      CancelEqual(x / x, 1.0, x);
    }
  }

  // Where something wraps the index can leave that range: these are counts of ten flows for
  // which it is 3.3, and for which it is zero.
  lemma {:induction false} IndexLeavesRange()
    ensures var xs := Two(17 * 0x2000_0000, 0); !InRange(xs) && Index(xs) == Number(3.3)
    ensures var xs := Two(0xFFFF_FFFF, 1); !InRange(xs) && Index(xs) == Number(0.0)
  {
    TwoOutOfRange(17 * 0x2000_0000, 0);
    TwoOutOfRange(0xFFFF_FFFF, 1);
    IndexOfTwo(17 * 0x2000_0000, 0);
    IndexOfTwo(0xFFFF_FFFF, 1);
    WrappedNumbers();
  }

  lemma {:induction false} TwoOutOfRange(a: Word, b: Word)
    requires (a == 17 * 0x2000_0000 && b == 0) || (a == 0xFFFF_FFFF && b == 1)
    ensures !InRange(Two(a, b))
  {
    var xs := Two(a, b);
    SumsOfTwo(a, b, 10);
    assert xs[..10] == xs;
    InRangeIff(xs);
    WrappedValues();
  }

  lemma WrapsTo(x: int, k: int)
    requires 0 <= x < WORD
    ensures Wrap(k * WORD + x) == x
  {
    WrapMultiple(x, k);
    WrapSmall(x);
  }

  lemma WrappedValues()
    ensures var a: int := 17 * 0x2000_0000;
            Wrap(a * a) == 33 * 0x400_0000_0000_0000 && Wrap(10 * (a * a)) == 10 * 0x400_0000_0000_0000
    ensures var a: int := 0xFFFF_FFFF;
            Wrap((a + 1) * (a + 1)) == 0 && Wrap(10 * (a * a + 1)) == 18446743987810205716
  {
    var unit := 0x400_0000_0000_0000;
    WrapsTo(33 * unit, 4);
    WrapsTo(10 * unit, 45);
    WrapsTo(0, 1);
    WrapsTo(18446743987810205716, 9);
  }

  lemma WrappedNumbers()
    ensures var a := 17 * 0x2000_0000;
            Divide(Wrap(a * a), Wrap(10 * (a * a))) == Number(3.3)
    ensures var a := 0xFFFF_FFFF;
            Divide(Wrap((a + 1) * (a + 1)), Wrap(10 * (a * a + 1))) == Number(0.0)
  {
    var unit := 0x400_0000_0000_0000;
    WrapsTo(33 * unit, 4);
    WrapsTo(10 * unit, 45);
    WrapsTo(0, 1);
    WrapsTo(18446743987810205716, 9);
  }

  lemma {:induction false} SquaresOfConstant(xs: seq<Word>, x: int)
    requires forall i :: 0 <= i < |xs| ==> xs[i] == x
    ensures SumSquares(xs) == |xs| * (x * x)
  {
    if xs != [] {
      var n := |xs| - 1;
      SquaresOfConstant(xs[..n], x);
      assert (n + 1) * (x * x) == n * (x * x) + x * x;
    }
  }

  // ----- the program -----

  lemma WrapAdd(a: int, b: int)
    ensures Wrap(Wrap(a) + b) == Wrap(a + b) && Wrap(Wrap(a) + Wrap(b)) == Wrap(a + b)
  {
    var k, l := a / WORD, b / WORD;
    assert a == k * WORD + a % WORD && b == l * WORD + b % WORD;
  }

  // The loop over the counters of one group, and the quotient.
  method GroupFairness(counters: seq<Word>) returns (sum: Word, fairness: Quotient)
    ensures sum == Wrap(Sum(counters))
    ensures fairness == Index(counters)
  {
    sum := 0;
    var sumSquares: Word := 0;
    for i := 0 to |counters|
      invariant sum == Wrap(Sum(counters[..i])) && sumSquares == Wrap(SumSquares(counters[..i]))
    {
      assert counters[..i + 1][..i] == counters[..i];
      WrapAdd(Sum(counters[..i]), counters[i]);
      WrapAdd(SumSquares(counters[..i]), Square(counters[i]));
      sum := Wrap(sum + counters[i]);
      sumSquares := Wrap(sumSquares + Wrap(Square(counters[i])));
    }
    assert counters[..|counters|] == counters;
    fairness := Divide(Wrap(sum * sum), Wrap(|counters| * sumSquares));
  }

  // Adding the counters of a group to a running sum.
  method AddCounters(start: Word, counters: seq<Word>) returns (sum: Word)
    ensures sum == Wrap(start + Sum(counters))
  {
    sum := start;
    for i := 0 to |counters|
      invariant sum == Wrap(start + Sum(counters[..i]))
    {
      assert counters[..i + 1][..i] == counters[..i];
      WrapAdd(start + Sum(counters[..i]), counters[i]);
      sum := Wrap(sum + counters[i]);
    }
    assert counters[..|counters|] == counters;
  }

  // The bits that one flow of a group got on average, by a division of words.
  function AverageBits(sum: Word, n: nat): Word
    requires n > 0
  {
    Wrap(sum / n * 8)
  }

  // The average is a multiple of eight bits. Where it does not wrap it is short of the true
  // one by less than eight bits a flow.
  lemma {:induction false} AverageIsClose(sum: Word, n: nat)
    requires n > 0
    ensures AverageBits(sum, n) % 8 == 0
    ensures sum / n < WORD / 8 ==> n * AverageBits(sum, n) <= 8 * sum < n * (AverageBits(sum, n) + 8)
  {
    var total: int := sum;
    var q, r := total / n, total % n;
    QuotientBounds(n, q, r);
    assert total == n * q + r;
    EightWraps(q);
    if q < WORD / 8 {
      WrapSmall(q * 8);
    }
  }

  lemma EightWraps(q: int)
    ensures Wrap(q * 8) % 8 == 0
  {
    var k := q * 8 / WORD;
    assert q * 8 == k * WORD + Wrap(q * 8);
  }

  lemma QuotientBounds(n: nat, q: nat, r: nat)
    requires r < n
    ensures q <= n * q + r
    ensures n * (q * 8) <= 8 * (n * q + r) < n * (q * 8 + 8)
  {
    assert q <= n * q;
    assert n * (q * 8) == 8 * (n * q);
  }

  // What is printed for a group, and the whole report, in bits.
  datatype Group = Group(averageBits: Word, fairness: Quotient)

  datatype Report = Report(s1r1: Group, s2r2: Group, s3r1: Group, throughT1: Word, toR1: Word)

  method PrintGroup(counters: seq<Word>) returns (group: Group)
    requires counters != []
    ensures group == Group(AverageBits(Wrap(Sum(counters)), |counters|), Index(counters))
  {
    var sum, fairness := GroupFairness(counters);
    return Group(AverageBits(sum, |counters|), fairness);
  }

  // The bits that two groups got together.
  method PrintTotal(first: seq<Word>, second: seq<Word>) returns (bits: Word)
    ensures bits == Wrap(8 * (Sum(first) + Sum(second)))
  {
    var sum := AddCounters(0, first);
    sum := AddCounters(sum, second);
    WrapAdd(Sum(first), Sum(second));
    assert sum == Wrap(Sum(first) + Sum(second));
    WrapProduct(8, Sum(first) + Sum(second));
    var total: int := sum;
    return Wrap(8 * total);
  }

  // The three groups and the two aggregates of the report.
  method PrintFairness(rxS1R1: seq<Word>, rxS2R2: seq<Word>, rxS3R1: seq<Word>) returns (report: Report)
    requires |rxS1R1| == 10 && |rxS2R2| == 20 && |rxS3R1| == 10
    ensures report.s1r1 == Group(AverageBits(Wrap(Sum(rxS1R1)), 10), Index(rxS1R1))
    ensures report.s2r2 == Group(AverageBits(Wrap(Sum(rxS2R2)), 20), Index(rxS2R2))
    ensures report.s3r1 == Group(AverageBits(Wrap(Sum(rxS3R1)), 10), Index(rxS3R1))
    ensures report.throughT1 == Wrap(8 * (Sum(rxS1R1) + Sum(rxS2R2)))
    ensures report.toR1 == Wrap(8 * (Sum(rxS3R1) + Sum(rxS1R1)))
  {
    var g1 := PrintGroup(rxS1R1);
    var g2 := PrintGroup(rxS2R2);
    var g3 := PrintGroup(rxS3R1);
    var throughT1 := PrintTotal(rxS1R1, rxS2R2);
    var toR1 := PrintTotal(rxS3R1, rxS1R1);
    return Report(g1, g2, g3, throughT1, toR1);
  }
}
