/**
The integers of `src/internet/model/spline-cc.cc`, which wrap, and the facts about products,
quotients and powers of two that its arithmetic needs, in integers and reals.
*/
module SplineNumbers {

  // ----- wrapping -----

  const TWO32: int := 0x1_0000_0000
  const TWO64: int := 0x1_0000_0000_0000_0000

  function W32(x: int): (r: nat)
    ensures r < TWO32
  {
    x % TWO32
  }

  function W64(x: int): (r: nat)
    ensures r < TWO64
  {
    x % TWO64
  }

  function Max(a: nat, b: nat): nat {
    if a < b then b else a
  }

  function Min(a: nat, b: nat): nat {
    if a < b then a else b
  }

  // Wrapping only makes a number smaller.
  lemma WrappedIsLess(x: nat)
    ensures W32(x) <= x && W64(x) <= x
  {
  }

  lemma NoWrap(x: int)
    requires 0 <= x < TWO64
    ensures W64(x) == x
  {
  }

  // ----- integers -----

  function Div(a: nat, b: nat): nat
    requires b > 0
  {
    a / b
  }

  lemma QuotientBetween(a: nat, b: nat, q: nat)
    requires b > 0 && q == a / b
    ensures b * q <= a < b * (q + 1)
  {
    assert a == b * q + a % b;
    assert b * (q + 1) == b * q + b;
  }

  lemma ScaleNat(x: nat, a: nat, b: nat)
    requires a <= b
    ensures x * a <= x * b
  {
  }

  lemma ScaleLess(x: nat, a: nat, b: nat)
    requires a < b && x > 0
    ensures x * a < x * b
  {
  }

  lemma LastTwoSwap(a: nat, b: nat, c: nat)
    ensures a * b * c == a * c * b
  {
  }

  // An eighth of `b`, rounded up, of `x`.
  lemma {:induction false} EighthBounds(x: nat, share: nat, b: nat)
    requires b > 0 && b <= 8 * share <= b + 7
    ensures var q := Div(x * share, b);
            q >= x / 8 && 8 * b * q <= x * (b + 7) && (8 * share == b ==> q == x / 8)
  {
    var q := Div(x * share, b);
    QuotientBetween(x * share, b, q);
    ScaleNat(x, b, 8 * share);
    ScaleNat(x, 8 * share, b + 7);
    EighthTimes(x, share, b, q);
    EighthAtLeast(x, b, q);
    if 8 * share == b {
      EighthAtMost(x, b, q);
    }
  }

  lemma EighthTimes(x: nat, share: nat, b: nat, q: nat)
    ensures 8 * (x * share) == x * (8 * share) && 8 * b * q == 8 * (b * q) && 8 * (b * (q + 1)) == b * (8 * q + 8)
  {
    assert b * (8 * q + 8) == 8 * (b * q) + 8 * b;
  }

  lemma EighthAtLeast(x: nat, b: nat, q: nat)
    requires b > 0 && x * b < b * (8 * q + 8)
    ensures q >= x / 8
  {
    if x >= 8 * q + 8 {
      ScaleNat(b, 8 * q + 8, x);
    }
  }

  lemma EighthAtMost(x: nat, b: nat, q: nat)
    requires b > 0 && 8 * b * q <= x * b
    ensures q <= x / 8
  {
    assert 8 * b * q == b * (8 * q);
    if x < 8 * q {
      ScaleLess(b, x, 8 * q);
    }
  }

  lemma {:induction false} EighthOf(f: nat, share: nat, c: nat, b: nat)
    requires b > 0 && b <= 8 * share <= b + 7
    ensures var q, x := Div(f * share * c, b), f * c;
            q >= x / 8 && 8 * b * q <= x * (b + 7) && (8 * share == b ==> q == x / 8)
  {
    LastTwoSwap(f, share, c);
    EighthBounds(f * c, share, b);
  }

  // ----- powers of two -----

  ghost predicate PowerOfTwo(m: nat) {
    m == 1 || (m > 0 && m % 2 == 0 && PowerOfTwo(m / 2))
  }

  // What remains of a power of two after dividing it by those that divide `s`.
  function Unit(m: nat, s: nat): (unit: nat)
    requires m > 0 && s > 0
    ensures 0 < unit <= m
  {
    if m % 2 == 1 || s % 2 == 1 then m else Unit(m / 2, s / 2)
  }

  lemma ModuloIs(a: nat, b: nat, q: nat, r: nat)
    requires a == b * q + r && r < b
    ensures a % b == r
  {
    var q' := a / b;
    assert a == b * q' + a % b;
    assert b * (q' + 1) == b * q' + b && b * (q + 1) == b * q + b;
    if q' < q {
      ScaleNat(b, q' + 1, q);
    } else if q < q' {
      ScaleNat(b, q + 1, q');
    }
  }

  lemma DoubleModulo(x: nat, h: nat)
    requires h > 0
    ensures 2 * x % (2 * h) == 2 * (x % h)
  {
    var q, r := x / h, x % h;
    assert x == h * q + r;
    assert 2 * x == (2 * h) * q + 2 * r;
    ModuloIs(2 * x, 2 * h, q, 2 * r);
  }

  lemma OddTimes(c: nat, s: nat)
    requires s % 2 == 1
    ensures c * s % 2 == c % 2
  {
    var h := s / 2;
    assert s == 2 * h + 1;
    assert c * s == 2 * (c * h) + c;
  }

  lemma EvenIfMultiple(x: nat, h: nat)
    requires h > 0 && x % (2 * h) == 0
    ensures x % 2 == 0
  {
    var q := x / (2 * h);
    assert x == (2 * h) * q;
    assert x == 2 * (h * q);
  }

  lemma {:induction false} OddCancels(m: nat, c: nat, s: nat)
    requires PowerOfTwo(m) && s % 2 == 1
    ensures c * s % m == 0 <==> c % m == 0
    decreases m
  {
    if m > 1 {
      var h := m / 2;
      OddTimes(c, s);
      if c % 2 == 0 {
        var d := c / 2;
        OddCancels(h, d, s);
        EvenCancels(c, d, s, h);
      } else {
        OddIsNoMultiple(c * s, h);
        OddIsNoMultiple(c, h);
      }
    }
  }

  lemma OddIsNoMultiple(x: nat, h: nat)
    requires h > 0 && x % 2 == 1
    ensures x % (2 * h) != 0
  {
    if x % (2 * h) == 0 {
      EvenIfMultiple(x, h);
    }
  }

  lemma EvenCancels(c: nat, d: nat, s: nat, h: nat)
    requires c == 2 * d && h > 0
    ensures c * s % (2 * h) == 2 * (d * s % h) && c % (2 * h) == 2 * (d % h)
  {
    assert c * s == 2 * (d * s);
    DoubleModulo(d * s, h);
    DoubleModulo(d, h);
  }

  // A multiple of `s` is one of a power of two `m` if and only if its factor is one of what
  // remains of `m`.
  lemma {:induction false} UnitMeaning(m: nat, c: nat, s: nat)
    requires PowerOfTwo(m) && s > 0
    ensures c * s % m == 0 <==> c % Unit(m, s) == 0
    decreases m
  {
    if m % 2 == 1 {
      assert m == 1;
    } else if s % 2 == 1 {
      OddCancels(m, c, s);
    } else {
      UnitMeaning(m / 2, c, s / 2);
      EvenCancels(s, s / 2, c, m / 2);
      Commutes(c, s);
      Commutes(c, s / 2);
    }
  }

  lemma Commutes(a: nat, b: nat)
    ensures a * b == b * a
  {
  }

  lemma {:induction false} PowersMultiply(a: nat, b: nat)
    requires PowerOfTwo(a) && PowerOfTwo(b)
    ensures PowerOfTwo(a * b)
  {
    if a > 1 {
      var h := a / 2;
      PowersMultiply(h, b);
      assert a == 2 * h;
      assert 2 * h * b == 2 * (h * b);
      PowerDoubles(h * b);
    }
  }

  lemma PowerDoubles(p: nat)
    requires PowerOfTwo(p)
    ensures PowerOfTwo(2 * p)
  {
    assert 2 * p / 2 == p;
  }

  // A window of `c` segments of `s` bytes comes out as zero bytes if and only if `c` is a
  // multiple of 2^32 divided by the largest power of two in `s`; for odd sizes only if it is
  // zero itself.
  lemma {:induction false} WrapsToZeroIff(c: nat, s: nat)
    requires s > 0
    ensures W32(c * s) == 0 <==> c % Unit(TWO32, s) == 0
    ensures s % 2 == 1 && c < TWO32 ==> (W32(c * s) == 0 <==> c == 0)
  {
    assert PowerOfTwo(2) && PowerOfTwo(4);
    PowersMultiply(4, 4);
    PowersMultiply(16, 16);
    PowersMultiply(256, 256);
    PowersMultiply(65536, 65536);
    UnitMeaning(TWO32, c, s);
  }

  // ----- reals -----

  function Times(n: nat, x: real): real {
    n as real * x
  }

  function Product(x: real, y: real): real {
    x * y
  }

  function Quotient(x: real, y: real): real
    requires y != 0.0
  {
    x / y
  }

  lemma ProductPositive(a: real, b: real)
    requires a > 0.0 && b > 0.0
    ensures a * b > 0.0
  {
  }

  lemma ProductNotNegative(a: real, b: real)
    requires a >= 0.0 && b >= 0.0
    ensures a * b >= 0.0
  {
  }

  lemma QuotientTimes(a: real, b: real)
    requires b > 0.0
    ensures (a / b) * b == a
  {
  }

  lemma QuotientIs(x: real, y: real, b: real)
    requires b > 0.0 && x * b == y
    ensures x == y / b
  {
  }

  lemma CancelLess(x: real, y: real, m: real)
    requires m > 0.0 && x * m < y * m
    ensures x < y
  {
  }

  lemma ProductIs(x: real, m: real, a: real)
    requires m > 0.0 && x == Quotient(a, m)
    ensures x * m == a
  {
    QuotientTimes(a, m);
  }

  lemma QuotientNotNegative(a: real, b: real)
    requires a >= 0.0 && b > 0.0
    ensures a / b >= 0.0
  {
  }

  lemma FloorTimes(n: nat, x: real, m: real, p: real)
    requires m > 0.0 && p == x * m && n as real <= x < n as real + 1.0
    ensures p - m < Times(n, m) <= p
  {
    var d := x - n as real;
    var e := d * m;
    ProductNotNegative(d, m);
    Fraction(d, m, e);
    assert Times(n, m) == p - e;
    Between(p, m, e, Times(n, m));
  }

  lemma Fraction(d: real, m: real, e: real)
    requires d < 1.0 && m > 0.0 && e == d * m
    ensures e < m
  {
  }

  lemma Between(p: real, m: real, e: real, t: real)
    requires t == p - e && 0.0 <= e < m
    ensures p - m < t <= p
  {
  }

  // From three sixteenths, rounded up, of a quotient to those of the dividend.
  lemma ShareTimes(share: real, b: real, m: real, p: real, s: real)
    requires m > 0.0 && p == b * m && s == share * m && 3.0 * b <= 16.0 * share <= 3.0 * b + 15.0
    ensures 3.0 * p <= 16.0 * s <= 3.0 * p + 15.0 * m
  {
    ProductNotNegative(16.0 * share - 3.0 * b, m);
    ProductNotNegative(3.0 * b + 15.0 - 16.0 * share, m);
    assert (16.0 * share - 3.0 * b) * m == 16.0 * s - 3.0 * p;
    assert (3.0 * b + 15.0 - 16.0 * share) * m == 3.0 * p + 15.0 * m - 16.0 * s;
  }

  lemma ScaleBounds(f: real, x: real, low: real, high: real)
    requires f >= 0.0 && low <= 16.0 * x <= high
    ensures f * low <= 16.0 * (f * x) <= f * high
  {
    ProductNotNegative(f, 16.0 * x - low);
    ProductNotNegative(f, high - 16.0 * x);
    assert f * (16.0 * x - low) == 16.0 * (f * x) - f * low;
    assert f * (high - 16.0 * x) == f * high - 16.0 * (f * x);
  }

  lemma TimesAssociates(f: nat, share: nat, m: real)
    ensures Times(f * share, m) == f as real * Times(share, m)
  {
    assert (f * share) as real == f as real * share as real;
  }

  // The gain multiplied out again: `b` and `m` cancel.
  lemma {:induction false} GainCancels(n: nat, m: real, c: nat, b: nat)
    requires m > 0.0 && b > 0 && Times(b, m) > 0.0
    ensures Product(Times(n, m), Quotient(c as real, Times(b, m))) == Quotient((n * c) as real, b as real)
  {
    var gain := Quotient(c as real, Times(b, m));
    QuotientTimes(c as real, Times(b, m));
    Regroup(n as real, m, gain, b as real, c as real);
    ProductAsReal(n, c);
    QuotientIs(Product(Times(n, m), gain), (n * c) as real, b as real);
  }

  lemma ProductAsReal(a: nat, b: nat)
    ensures (a * b) as real == a as real * b as real
  {
  }

  lemma Regroup(n: real, m: real, gain: real, b: real, c: real)
    requires gain * (b * m) == c
    ensures n * m * gain * b == n * c
  {
    assert n * m * gain * b == n * (gain * (b * m));
  }

  // The same for the gain times `b`.
  lemma {:induction false} GainTimes(m: real, c: nat, b: nat, s: nat)
    requires m > 0.0 && b > 0 && s > 0 && Times(b, m) > 0.0
    ensures Product(Product(Quotient(c as real, Times(b, m)), b as real), m) == c as real
  {
    var gain := Quotient(c as real, Times(b, m));
    QuotientTimes(c as real, Times(b, m));
    assert gain * b as real * m == gain * (b as real * m);
  }

  // The quotient of naturals, in reals and cut off, is the whole one.
  lemma {:induction false} RealQuotient(a: nat, b: nat, limit: nat)
    requires b > 0 && a < limit * b
    ensures Quotient(a as real, b as real).Floor == Div(a, b)
    ensures 0.0 <= Quotient(a as real, b as real) < limit as real
  {
    var q, r := Div(a, b), a % b;
    assert a == q * b + r;
    var x := Quotient(a as real, b as real);
    QuotientTimes(a as real, b as real);
    ProductAsReal(q, b);
    QuotientFits(a, b, q, limit);
    FloorBetween(x, q, r as real, b as real);
  }

  lemma QuotientFits(a: nat, b: nat, q: nat, limit: nat)
    requires q * b <= a < limit * b
    ensures q < limit
  {
    if q >= limit {
      ScaleNat(b, limit, q);
    }
  }

  lemma FloorBetween(x: real, q: nat, r: real, b: real)
    requires b >= 1.0 && 0.0 <= r < b && x * b == q as real * b + r
    ensures x.Floor == q
  {
    var d := x - q as real;
    assert d * b == r;
    BetweenZeroAndOne(d, b, r);
    assert q as real <= x < q as real + 1.0;
  }

  lemma BetweenZeroAndOne(d: real, b: real, r: real)
    requires b >= 1.0 && 0.0 <= r < b && d * b == r
    ensures 0.0 <= d < 1.0
  {
  }
}
