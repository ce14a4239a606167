/**
The arithmetic of `src/internet/model/spline-cc.cc`: its estimates of bandwidth and fairness,
and the window and the limit of each mode. Doubles are real numbers here; integers wrap as
in the program.
*/
module SplineWindows {
  import opened SplineNumbers

  // The conversions from doubles to integers. They cut off the fraction of what fits; on the
  // rest the language leaves them undefined, so that all that follows holds for any choice.
  // The last two are what the window and its limit become after a division by zero.
  datatype Casts = Casts(to32: real -> nat, to64: real -> nat, undefinedWindow: nat, undefinedLimit: nat) {
    ghost predicate Proper() {
      && undefinedWindow < TWO32 && undefinedLimit < TWO32
      && (forall x: real {:trigger to32(x)} :: to32(x) < TWO32 && (0.0 <= x < TWO32 as real ==> to32(x) == x.Floor))
      && (forall x: real {:trigger to64(x)} :: to64(x) < TWO64 && (0.0 <= x < TWO64 as real ==> to64(x) == x.Floor))
    }
  }

  // What the algorithm reads of the socket when an acknowledgement has arrived.
  datatype Ack = Ack(
    segmentSize: nat,
    initialCWnd: nat,
    bytesInFlight: nat,
    lastAckedSackedBytes: nat,
    minRtt: real,         // in seconds
    lastRtt: real,
    inLoss: bool)
  {
    predicate Valid() {
      && segmentSize < TWO32 && initialCWnd < TWO32 && bytesInFlight < TWO32 && lastAckedSackedBytes < TWO32
      && minRtt >= 0.0 && lastRtt >= 0.0
    }
  }

  // ----- bandwidth and fairness -----

  function FairnessRatio(currCwnd: nat, ack: Ack): nat {
    if ack.bytesInFlight == 0 then 2
    else
      var numerator := W64(currCwnd * currCwnd * ack.segmentSize);
      var denominator := W64(2 * ack.bytesInFlight * ack.bytesInFlight);
      if denominator == 0 then 0 else W32(Div(numerator, denominator) + 1)
  }

  // The denominator wraps, but never to zero.
  lemma {:induction false} NoZeroDenominator(b: nat)
    requires 0 < b < TWO32
    ensures W64(2 * b * b) != 0
  {
    var s := b * b;
    SquareRange(b);
    assert 2 * b * b == 2 * s;
    assert 0 < 2 * s < 2 * TWO64;
    assert s != 0x8000_0000_0000_0000;
  }

  // The fairness ratio is one more than the whole part of the square of the window over twice
  // that of the flight, in bytes and segments: it lies between that quotient and the next.
  ghost predicate IsFairness(f: nat, cwnd: nat, ack: Ack) {
    if ack.bytesInFlight == 0 then f == 2
    else
      var n, d := cwnd * cwnd * ack.segmentSize % TWO64, 2 * ack.bytesInFlight * ack.bytesInFlight % TWO64;
      d > 0 && (n < d * (TWO32 - 1) ==> d * (f - 1) <= n < d * f)
  }

  lemma {:induction false} FairnessIs(cwnd: nat, ack: Ack)
    requires ack.bytesInFlight < TWO32
    ensures IsFairness(FairnessRatio(cwnd, ack), cwnd, ack)
  {
    if ack.bytesInFlight > 0 {
      NoZeroDenominator(ack.bytesInFlight);
      OneMore(W64(cwnd * cwnd * ack.segmentSize), W64(2 * ack.bytesInFlight * ack.bytesInFlight));
    }
  }

  lemma OneMore(n: nat, d: nat)
    requires d > 0
    ensures var f := W32(Div(n, d) + 1); n < d * (TWO32 - 1) ==> d * (f - 1) <= n < d * f
  {
    if n < d * (TWO32 - 1) {
      QuotientBetween(n, d, Div(n, d));
      SmallQuotient(n, d, TWO32 - 1);
    }
  }

  lemma SmallQuotient(n: nat, d: nat, limit: nat)
    requires d > 0 && n < d * limit
    ensures n / d < limit
  {
    QuotientBetween(n, d, n / d);
    if n / d >= limit {
      ScaleNat(d, limit, n / d);
    }
  }

  // Where nothing wraps: the ratio is one at least, and two at least exactly if the square of
  // the window in segments times the segment size is twice the square of the flight or more.
  lemma {:induction false} FairnessIsTwo(f: nat, cwnd: nat, ack: Ack)
    requires IsFairness(f, cwnd, ack) && 0 < ack.bytesInFlight
    requires cwnd * cwnd * ack.segmentSize < TWO64 && 2 * ack.bytesInFlight * ack.bytesInFlight < TWO64
    requires cwnd * cwnd * ack.segmentSize < 2 * ack.bytesInFlight * ack.bytesInFlight * (TWO32 - 1)
    ensures f >= 1
    ensures f >= 2 <==> cwnd * cwnd * ack.segmentSize >= 2 * ack.bytesInFlight * ack.bytesInFlight
  {
    var n, d := cwnd * cwnd * ack.segmentSize, 2 * ack.bytesInFlight * ack.bytesInFlight;
    NoWrap(n);
    NoWrap(d);
    OneOrMore(n, d, f);
  }

  lemma OneOrMore(n: nat, d: nat, f: nat)
    requires d > 0 && d * (f - 1) <= n < d * f
    ensures f >= 1 && (f >= 2 <==> n >= d)
  {
    if f >= 2 {
      ScaleNat(d, 1, f - 1);
    }
  }

  lemma SquareRange(b: nat)
    requires 0 < b < TWO32
    ensures 0 < b * b < TWO64 && b * b != 0x8000_0000_0000_0000
  {
    var root := 3037000499;
    if b <= root {
      SquareMonotone(b, root);
      assert root * root == 9223372030926249001;
    } else {
      SquareMonotone(root + 1, b);
      assert (root + 1) * (root + 1) == 9223372037000250000;
      SquareMonotone(b, TWO32 - 1);
      assert (TWO32 - 1) * (TWO32 - 1) == 18446744065119617025;
    }
  }

  lemma SquareMonotone(a: nat, b: nat)
    requires a <= b
    ensures a * a <= b * b
  {
    assert a * a <= a * b && a * b <= b * b;
  }

  function RawBandwidth(casts: Casts, currAck: nat, ack: Ack): nat {
    if ack.minRtt == 0.0 then W32(ack.initialCWnd * ack.segmentSize)
    else casts.to64(Quotient(W32(currAck * ack.segmentSize) as real, ack.minRtt))
  }

  // The bandwidth is the whole part of what was acknowledged over the round-trip time, or the
  // initial window if that is more; without a round-trip time it is the initial window.
  ghost predicate IsBandwidth(bw: nat, currAck: nat, ack: Ack) {
    var acked := (currAck * ack.segmentSize % TWO32) as real;
    && bw >= ack.initialCWnd
    && if ack.minRtt == 0.0 then
         var start := ack.initialCWnd * ack.segmentSize % TWO32;
         bw == if start < ack.initialCWnd then ack.initialCWnd else start
       else
         acked < TWO64 as real * ack.minRtt ==>
           (Times(bw, ack.minRtt) <= acked || bw == ack.initialCWnd) && acked < Times(bw + 1, ack.minRtt)
  }

  lemma {:induction false} BandwidthIs(casts: Casts, currAck: nat, ack: Ack)
    requires casts.Proper() && ack.minRtt >= 0.0
    ensures IsBandwidth(Max(RawBandwidth(casts, currAck, ack), ack.initialCWnd), currAck, ack)
  {
    var acked, m, raw := W32(currAck * ack.segmentSize) as real, ack.minRtt, RawBandwidth(casts, currAck, ack);
    if m != 0.0 && acked < TWO64 as real * m {
      EstimateTimesRtt(casts, acked, m);
      TimesNext(raw, m);
      TimesGrow(raw + 1, Max(raw, ack.initialCWnd) + 1, m);
    }
  }

  lemma TimesNext(n: nat, m: real)
    ensures Times(n + 1, m) == Times(n, m) + m
  {
  }

  lemma TimesGrow(a: nat, b: nat, m: real)
    requires a <= b && m >= 0.0
    ensures Times(a, m) <= Times(b, m)
  {
    ProductNotNegative((b - a) as real, m);
    assert Times(b, m) - Times(a, m) == (b - a) as real * m;
  }

  // The bandwidth filter, which compares with the bandwidth before.
  function Filtered(bw: nat, lastBw: nat, currRtt: nat, lastMinRtt: nat, initialCWnd: nat): nat {
    if lastBw == 0 then Max(bw, initialCWnd)
    else
      var low, high := W64(lastBw * 3) / 4, W64(lastBw * 6) / 4;
      var raised := if bw < low then low else bw;
      var clamped := if raised > high then high else raised;
      if currRtt > W32(lastMinRtt * 2) then lastBw else clamped
  }

  // If a bandwidth were remembered, the filter would keep the estimate within three quarters
  // and three halves of it, leave it alone if it is there, and fall back to what is
  // remembered on a long round trip.
  lemma FilterWouldClamp(bw: nat, lastBw: nat, currRtt: nat, lastMinRtt: nat, initialCWnd: nat)
    requires 0 < lastBw && 6 * lastBw < TWO64
    ensures var filtered, long := Filtered(bw, lastBw, currRtt, lastMinRtt, initialCWnd), currRtt > W32(lastMinRtt * 2);
            && lastBw * 3 / 4 <= filtered <= lastBw * 6 / 4
            && (long ==> filtered == lastBw)
            && (!long && lastBw * 3 / 4 <= bw <= lastBw * 6 / 4 ==> filtered == bw)
  {
    assert W64(lastBw * 3) == lastBw * 3 && W64(lastBw * 6) == lastBw * 6;
  }

  // ----- the start mode -----

  function Seconds(ack: Ack): real {
    if ack.minRtt != 0.0 then ack.minRtt else 1.0
  }

  function Rounded(x: nat, minCwnd: nat): nat {
    if x != 0 then x else minCwnd
  }

  // The limit of the start mode.
  function StartCap(casts: Casts, fairness: nat, bw: nat, minCwnd: nat, ack: Ack): nat {
    Rounded(RawStartCap(casts, fairness, bw, ack), minCwnd)
  }

  function RawStartCap(casts: Casts, fairness: nat, bw: nat, ack: Ack): nat {
    casts.to32(Times(W64(fairness * StartShare(bw)), Seconds(ack)))
  }

  function StartShare(bw: nat): nat {
    W64(bw - W64(bw * 13) / 16)
  }

  // Three sixteenths, rounded up.
  lemma StartShareIs(bw: nat)
    requires 13 * bw < TWO64
    ensures StartShare(bw) == (3 * bw + 15) / 16
  {
    NoWrap(bw * 13);
    NoWrap(bw - bw * 13 / 16);
  }

  // Where the bandwidth is the raw estimate the round-trip time cancels, up to what is cut
  // off: the limit is three sixteenths of the bytes acknowledged, times the fairness, and is
  // used as a number of segments.
  lemma {:induction false} StartCapIsAcked(casts: Casts, fairness: nat, currAck: nat, ack: Ack)
    requires casts.Proper() && ack.minRtt > 0.0
    requires W32(currAck * ack.segmentSize) as real < TWO64 as real * ack.minRtt
    requires var bw, acked := RawBandwidth(casts, currAck, ack), W32(currAck * ack.segmentSize) as real;
             && 13 * bw < TWO64 && fairness * StartShare(bw) < TWO64
             && Times(fairness, 3.0 * acked + 15.0 * ack.minRtt) < 16.0 * TWO32 as real
    ensures var limit := RawStartCap(casts, fairness, RawBandwidth(casts, currAck, ack), ack);
            var acked, m := W32(currAck * ack.segmentSize) as real, ack.minRtt;
            && 16.0 * limit as real <= Times(fairness, 3.0 * acked + 15.0 * m)
            && Times(fairness, 3.0 * acked - 3.0 * m) < 16.0 * (limit as real + 1.0)
  {
    LimitIsAcked(casts, fairness, RawBandwidth(casts, currAck, ack), W32(currAck * ack.segmentSize) as real, ack.minRtt);
  }

  lemma {:induction false} LimitIsAcked(casts: Casts, fairness: nat, bw: nat, acked: real, m: real)
    requires casts.Proper() && m > 0.0 && 0.0 <= acked < TWO64 as real * m && bw == casts.to64(Quotient(acked, m))
    requires 13 * bw < TWO64 && fairness * StartShare(bw) < TWO64
    requires Times(fairness, 3.0 * acked + 15.0 * m) < 16.0 * TWO32 as real
    ensures var limit := casts.to32(Times(W64(fairness * StartShare(bw)), m)) as real;
            16.0 * limit <= Times(fairness, 3.0 * acked + 15.0 * m) && Times(fairness, 3.0 * acked - 3.0 * m) < 16.0 * (limit + 1.0)
  {
    var share := StartShare(bw);
    NoWrap(fairness * share);
    EstimateTimesRtt(casts, acked, m);
    StartShareIs(bw);
    LimitBounds(fairness, share, bw, acked, m);
    FloorOfTimes(casts, fairness * share, m, Times(fairness, 3.0 * acked - 3.0 * m), Times(fairness, 3.0 * acked + 15.0 * m));
  }

  lemma EstimateTimesRtt(casts: Casts, acked: real, m: real)
    requires casts.Proper() && m > 0.0 && 0.0 <= acked < TWO64 as real * m
    ensures acked - m < Times(casts.to64(Quotient(acked, m)), m) <= acked
  {
    var x := Quotient(acked, m);
    ProductIs(x, m, acked);
    QuotientNotNegative(acked, m);
    CancelLess(x, TWO64 as real, m);
    assert casts.to64(x) == x.Floor;
    FloorTimes(x.Floor, x, m, acked);
  }

  lemma {:induction false} LimitBounds(fairness: nat, share: nat, bw: nat, acked: real, m: real)
    requires m > 0.0 && share == (3 * bw + 15) / 16 && acked - m < Times(bw, m) <= acked
    ensures Times(fairness, 3.0 * acked - 3.0 * m) <= 16.0 * Times(fairness * share, m) <= Times(fairness, 3.0 * acked + 15.0 * m)
  {
    var p, s := Times(bw, m), Times(share, m);
    ShareTimes(share as real, bw as real, m, p, s);
    ScaleBounds(fairness as real, s, 3.0 * acked - 3.0 * m, 3.0 * acked + 15.0 * m);
    TimesAssociates(fairness, share, m);
  }

  lemma FloorOfTimes(casts: Casts, n: nat, m: real, low: real, high: real)
    requires casts.Proper() && m > 0.0 && low <= 16.0 * Times(n, m) <= high && high < 16.0 * TWO32 as real
    ensures var limit := casts.to32(Times(n, m)) as real;
            16.0 * limit <= high && low < 16.0 * (limit + 1.0)
  {
    ProductNotNegative(n as real, m);
    var x := Times(n, m);
    assert casts.to32(x) == x.Floor;
  }

  // The window of the start mode: grown by what was acknowledged, and then moved to the limit,
  // down under a shrinking loss or with more than is in flight, up otherwise.
  function StartWindow(cwnd: nat, cap: nat, shrinking: bool, ack: Ack): nat
    requires ack.segmentSize > 0
  {
    var grown := W32(cwnd + ack.lastAckedSackedBytes / ack.segmentSize);
    if (ack.inLoss && shrinking) || grown > ack.bytesInFlight / ack.segmentSize then Min(grown, cap) else Max(grown, cap)
  }

  // Where the window opens it is at least its limit and at least the grown window, elsewhere
  // at most either. It is zero only if the grown window is, and that under a shrinking loss.
  lemma StartWindowBounds(cwnd: nat, cap: nat, shrinking: bool, ack: Ack)
    requires ack.segmentSize > 0
    ensures var grown, window := W32(cwnd + ack.lastAckedSackedBytes / ack.segmentSize), StartWindow(cwnd, cap, shrinking, ack);
            && (Opens(cwnd, shrinking, ack) <==> !(ack.inLoss && shrinking) && grown <= ack.bytesInFlight / ack.segmentSize)
            && (if Opens(cwnd, shrinking, ack) then window >= cap && window >= grown else window <= cap && window <= grown)
            && (window == cap || window == grown)
            && (cap > 0 ==> (window == 0 <==> grown == 0 && ack.inLoss && shrinking))
    ensures cap > 0 && 0 < cwnd + ack.lastAckedSackedBytes / ack.segmentSize < TWO32 ==> StartWindow(cwnd, cap, shrinking, ack) > 0
  {
  }

  // Nothing shrinks, and the grown window is not more than what is in flight.
  predicate Opens(cwnd: nat, shrinking: bool, ack: Ack)
    requires ack.segmentSize > 0
  {
    && !(ack.inLoss && shrinking)
    && W32(cwnd + ack.lastAckedSackedBytes / ack.segmentSize) <= ack.bytesInFlight / ack.segmentSize
  }

  // ----- the drain mode -----

  // The window of the drain mode.
  function DrainWindow(cwnd: nat, bw: nat, minCwnd: nat): nat {
    Max(W32(Min(cwnd, bw) * 10) / 16, minCwnd)
  }

  // Draining takes the window to five eighths of itself or of the bandwidth, or to the minimal
  // window if that is more; it always takes a window that is larger than the minimum down.
  lemma DrainShrinks(cwnd: nat, bw: nat, minCwnd: nat)
    ensures DrainWindow(cwnd, bw, minCwnd) >= minCwnd
    ensures cwnd > minCwnd ==> DrainWindow(cwnd, bw, minCwnd) < cwnd
    ensures DrainWindow(cwnd, bw, minCwnd) > minCwnd ==>
      8 * DrainWindow(cwnd, bw, minCwnd) <= 5 * cwnd && 8 * DrainWindow(cwnd, bw, minCwnd) <= 5 * bw
  {
    WrappedIsLess(Min(cwnd, bw) * 10);
  }

  // Without a wrap it is the whole part of these five eighths, unless that is below the
  // minimal window.
  lemma {:induction false} DrainWindowIs(cwnd: nat, bw: nat, minCwnd: nat)
    requires 10 * cwnd < TWO32 || 10 * bw < TWO32
    ensures var window, base := DrainWindow(cwnd, bw, minCwnd), if cwnd < bw then cwnd else bw;
            && (8 * window <= 5 * base || window == minCwnd)
            && window >= minCwnd && 5 * base < 8 * (window + 1)
  {
    assert W32(Min(cwnd, bw) * 10) == Min(cwnd, bw) * 10;
  }

  // ----- the round-trip mode -----

  // The limit of the round-trip mode for a window of `cWnd` bytes.
  function GainCap(casts: Casts, cWnd: nat, fairness: nat, bw: nat, minCwnd: nat, ack: Ack): nat {
    var product := Times(bw, ack.minRtt);
    if product == 0.0 then Rounded(casts.undefinedLimit, minCwnd)
    else Rounded(casts.to32(Product(Times(W64(fairness * GainShare(bw)), Seconds(ack)), Quotient(cWnd as real, product))), minCwnd)
  }

  function GainShare(bw: nat): nat {
    W64(bw - W64(bw * 14) / 16)
  }

  // An eighth, rounded up.
  lemma GainShareIs(bw: nat)
    requires 14 * bw < TWO64
    ensures GainShare(bw) == (bw + 7) / 8 && bw <= 8 * GainShare(bw) <= bw + 7
    ensures bw % 8 == 0 ==> 8 * GainShare(bw) == bw
  {
    NoWrap(bw * 14);
    NoWrap(bw - bw * 14 / 16);
  }

  // What the limit comes to: the bandwidth and the round-trip time cancel, and what remains
  // is about an eighth of the window in bytes, times the fairness, as a number of segments.
  function RttLimit(cWnd: nat, fairness: nat, bw: nat): nat
    requires bw > 0
  {
    Div(W64(fairness * GainShare(bw)) * cWnd, bw)
  }

  // The limit is defined: no division by zero, and it fits its integer.
  predicate LimitFits(cWnd: nat, fairness: nat, bw: nat, ack: Ack) {
    bw > 0 && ack.minRtt > 0.0 && W64(fairness * GainShare(bw)) * cWnd < TWO32 * bw
  }

  lemma {:induction false} GainCapIs(casts: Casts, cWnd: nat, fairness: nat, bw: nat, minCwnd: nat, ack: Ack)
    requires casts.Proper() && LimitFits(cWnd, fairness, bw, ack)
    ensures GainCap(casts, cWnd, fairness, bw, minCwnd, ack) == Rounded(RttLimit(cWnd, fairness, bw), minCwnd)
    ensures GainCap(casts, cWnd, fairness, bw, minCwnd, ack)
         == if RttLimit(cWnd, fairness, bw) > 0 then RttLimit(cWnd, fairness, bw) else minCwnd
  {
    var n := W64(fairness * GainShare(bw));
    ProductPositive(bw as real, ack.minRtt);
    GainCancels(n, ack.minRtt, cWnd, bw);
    CastOfQuotient(casts, n * cWnd, bw);
  }

  lemma CastOfQuotient(casts: Casts, a: nat, b: nat)
    requires casts.Proper() && b > 0 && a < TWO32 * b
    ensures casts.to32(Quotient(a as real, b as real)) == Div(a, b)
  {
    RealQuotient(a, b, TWO32);
  }

  // Without a wrap the limit is an eighth of the window times the fairness, exactly if the
  // bandwidth is a multiple of eight, and never less.
  lemma {:induction false} RttLimitIsEighth(cWnd: nat, fairness: nat, bw: nat)
    requires 0 < 14 * bw < TWO64 && fairness * GainShare(bw) < TWO64
    ensures var limit, bytes := RttLimit(cWnd, fairness, bw), fairness * cWnd;
            limit >= bytes / 8 && 8 * bw * limit <= bytes * (bw + 7) && (bw % 8 == 0 ==> limit == bytes / 8)
  {
    GainShareIs(bw);
    RttLimitUnwrapped(cWnd, fairness, bw);
    EighthOf(fairness, GainShare(bw), cWnd, bw);
  }

  lemma RttLimitUnwrapped(cWnd: nat, fairness: nat, bw: nat)
    requires bw > 0 && fairness * GainShare(bw) < TWO64
    ensures RttLimit(cWnd, fairness, bw) == Div(fairness * GainShare(bw) * cWnd, bw)
  {
    NoWrap(fairness * GainShare(bw));
  }

  // The window in segments, by way of the gain.
  function Estimate(casts: Casts, cWnd: nat, bw: nat, ack: Ack): nat
    requires ack.segmentSize > 0
  {
    var product := Times(bw, ack.minRtt);
    if product == 0.0 then casts.undefinedWindow
    else
      var gain := Quotient(cWnd as real, product);
      casts.to32(Quotient(Product(Product(gain, bw as real), ack.minRtt), ack.segmentSize as real))
  }

  // The window of the round-trip mode, from the window in bytes alone.
  function GainWindow(whole: nat, cap: nat, shrinking: bool, inLoss: bool): nat {
    if inLoss && shrinking then Min(whole, cap) else Max(whole, cap)
  }

  // Multiplying the gain out again gives the window back: over the reals the estimate is the
  // window in bytes, divided and cut off, wherever it is defined.
  lemma {:induction false} EstimateIsWindow(casts: Casts, cWnd: nat, bw: nat, ack: Ack)
    requires casts.Proper() && cWnd < TWO32 && bw > 0 && ack.minRtt > 0.0 && ack.segmentSize > 0
    ensures Estimate(casts, cWnd, bw, ack) == cWnd / ack.segmentSize
  {
    ProductPositive(bw as real, ack.minRtt);
    GainTimes(ack.minRtt, cWnd, bw, ack.segmentSize);
    ScaleNat(TWO32, 1, ack.segmentSize);
    CastOfQuotient(casts, cWnd, ack.segmentSize);
  }

  // Where the estimate is defined, the round-trip mode takes the window in whole segments
  // against its limit. Without a shrinking loss it never makes the window smaller, and takes
  // it to an eighth of its bytes or more, times the fairness, in segments.
  lemma {:induction false} GainWindowIsWhole(casts: Casts, cWnd: nat, fairness: nat, bw: nat, minCwnd: nat, shrinking: bool, ack: Ack)
    requires casts.Proper() && cWnd < TWO32 && bw > 0 && ack.minRtt > 0.0 && ack.segmentSize > 0
    ensures var whole, cap := cWnd / ack.segmentSize, GainCap(casts, cWnd, fairness, bw, minCwnd, ack);
            var window := GainWindow(Min(Estimate(casts, cWnd, bw, ack), whole), cap, shrinking, ack.inLoss);
            && window == (if ack.inLoss && shrinking then Min(whole, cap) else Max(whole, cap))
            && (!(ack.inLoss && shrinking) ==> window >= whole)
            && (LimitFits(cWnd, fairness, bw, ack) ==> window == RttWindow(cWnd, fairness, bw, minCwnd, shrinking, ack))
            && (Multiplies(cWnd, fairness, bw, ack) && !(ack.inLoss && shrinking) ==> window >= fairness * cWnd / 8)
  {
    EstimateIsWindow(casts, cWnd, bw, ack);
    if LimitFits(cWnd, fairness, bw, ack) {
      GainCapIs(casts, cWnd, fairness, bw, minCwnd, ack);
      if Multiplies(cWnd, fairness, bw, ack) {
        RttLimitIsEighth(cWnd, fairness, bw);
      }
    }
  }

  // The limit is defined, and nothing wraps on the way to it.
  predicate Multiplies(cWnd: nat, fairness: nat, bw: nat, ack: Ack) {
    LimitFits(cWnd, fairness, bw, ack) && 14 * bw < TWO64 && fairness * GainShare(bw) < TWO64
  }

  // The window of the round-trip mode in integers.
  function RttWindow(cWnd: nat, fairness: nat, bw: nat, minCwnd: nat, shrinking: bool, ack: Ack): nat
    requires bw > 0 && ack.segmentSize > 0
  {
    GainWindow(cWnd / ack.segmentSize, Rounded(RttLimit(cWnd, fairness, bw), minCwnd), shrinking, ack.inLoss)
  }

  // There is not one segment to keep, or the estimate is undefined and came out as zero.
  predicate NoSegment(casts: Casts, cWnd: nat, bw: nat, ack: Ack) {
    cWnd < ack.segmentSize || (Times(bw, ack.minRtt) == 0.0 && casts.undefinedWindow == 0)
  }

  // The window of the round-trip mode becomes zero exactly under a shrinking loss with less
  // than one segment, whatever its limit is.
  lemma {:induction false} GainWindowZero(casts: Casts, cWnd: nat, fairness: nat, bw: nat, minCwnd: nat, shrinking: bool, ack: Ack)
    requires casts.Proper() && cWnd < TWO32 && minCwnd > 0 && ack.segmentSize > 0 && ack.minRtt >= 0.0
    ensures var estimate, cap := Estimate(casts, cWnd, bw, ack), GainCap(casts, cWnd, fairness, bw, minCwnd, ack);
            GainWindow(Min(estimate, cWnd / ack.segmentSize), cap, shrinking, ack.inLoss) == 0
            <==> ack.inLoss && shrinking && NoSegment(casts, cWnd, bw, ack)
  {
    var product := Times(bw, ack.minRtt);
    if product != 0.0 {
      assert bw > 0 && ack.minRtt > 0.0;
      EstimateIsWindow(casts, cWnd, bw, ack);
    }
    WholeIsZero(cWnd, ack.segmentSize);
    assert GainCap(casts, cWnd, fairness, bw, minCwnd, ack) > 0;
  }

  lemma WholeIsZero(cWnd: nat, segmentSize: nat)
    requires segmentSize > 0
    ensures cWnd / segmentSize == 0 <==> cWnd < segmentSize
  {
  }

  function MinimalWindow(ack: Ack): (w: nat)
    ensures w > 0
  {
    if ack.initialCWnd / 8 != 0 then ack.initialCWnd / 8 else 10
  }

  lemma MinimalWindowIs(ack: Ack)
    ensures var w := MinimalWindow(ack);
            if ack.initialCWnd < 8 then w == 10 else 8 * w <= ack.initialCWnd < 8 * w + 8
  {
  }

  // The pacing rate is the whole part of bandwidth, fairness and round-trip time multiplied,
  // or one segment if that is more.
  ghost predicate IsPacing(rate: nat, bw: nat, fairness: nat, ack: Ack) {
    var product := Times(bw * fairness % TWO64, ack.minRtt);
    && rate >= ack.segmentSize
    && (product < TWO64 as real ==>
          (rate as real <= product || rate == ack.segmentSize) && product < rate as real + 1.0)
  }

  lemma {:induction false} PacingIs(casts: Casts, bw: nat, fairness: nat, ack: Ack)
    requires casts.Proper() && ack.minRtt >= 0.0
    ensures IsPacing(Paced(casts, bw, fairness, ack), bw, fairness, ack)
  {
    var product := Times(W64(bw * fairness), ack.minRtt);
    ProductNotNegative(W64(bw * fairness) as real, ack.minRtt);
    assert product < TWO64 as real ==> casts.to64(product) == product.Floor;
  }

  // The pacing rate, at least one segment a second.
  function Paced(casts: Casts, bw: nat, fairness: nat, ack: Ack): nat {
    Max(RawPacing(casts, bw, fairness, ack), ack.segmentSize)
  }

  function RawPacing(casts: Casts, bw: nat, fairness: nat, ack: Ack): nat {
    casts.to64(Times(W64(bw * fairness), ack.minRtt))
  }
}
