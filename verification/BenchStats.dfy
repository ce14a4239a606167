/**
The summary statistics of `utils/bench-scheduler.cc`: one pass over the results of
a benchmark that keeps a running mean and a running sum of squared deviations.
*/
module BenchStats {

  datatype PhaseResult = PhaseResult(time: real, rate: real, period: real)

  datatype Result = Result(init: PhaseResult, run: PhaseResult)

  // The six quantities that are summarised.
  datatype Field = InitTime | InitRate | InitPeriod | RunTime | RunRate | RunPeriod

  function Get(r: Result, f: Field): real {
    match f
    case InitTime => r.init.time
    case InitRate => r.init.rate
    case InitPeriod => r.init.period
    case RunTime => r.run.time
    case RunRate => r.run.rate
    case RunPeriod => r.run.period
  }

  function Column(results: seq<Result>, f: Field): (xs: seq<real>)
    ensures |xs| == |results|
  {
    seq(|results|, i requires 0 <= i < |results| => Get(results[i], f))
  }

  // ----- the textbook definitions -----

  function Sum(xs: seq<real>): real {
    if xs == [] then 0.0 else Sum(xs[..|xs| - 1]) + xs[|xs| - 1]
  }

  function Mean(xs: seq<real>): real
    requires xs != []
  {
    Sum(xs) / |xs| as real
  }

  function Square(d: real): real {
    d * d
  }

  // The sum of the squared deviations from a centre.
  function Deviations(xs: seq<real>, centre: real): real {
    if xs == [] then 0.0
    else Deviations(xs[..|xs| - 1], centre) + Square(xs[|xs| - 1] - centre)
  }

  lemma {:induction false} SumsAre(xs: seq<real>, x: real, c: real)
    ensures Sum([]) == 0.0 && Sum(xs + [x]) == Sum(xs) + x
    ensures Deviations([], c) == 0.0 && Deviations(xs + [x], c) == Deviations(xs, c) + Square(x - c)
  {
    assert (xs + [x])[..|xs|] == xs;
  }

  function Variance(xs: seq<real>): real
    requires xs != []
  {
    Deviations(xs, Mean(xs)) / |xs| as real
  }

  // ----- moving the centre -----

  function SumSquares(xs: seq<real>): real {
    if xs == [] then 0.0 else SumSquares(xs[..|xs| - 1]) + Square(xs[|xs| - 1])
  }

  function Spread(q: real, s: real, n: real, c: real): real {
    q - 2.0 * (c * s) + n * (c * c)
  }

  lemma SpreadNext(q: real, s: real, n: real, x: real, c: real)
    ensures Spread(q, s, n, c) + Square(x - c) == Spread(q + Square(x), s + x, n + 1.0, c)
  {
  }

  lemma {:induction false} DeviationsExpand(xs: seq<real>, c: real)
    ensures Deviations(xs, c) == Spread(SumSquares(xs), Sum(xs), |xs| as real, c)
  {
    if xs != [] {
      var n := |xs| - 1;
      var q, s, k := SumSquares(xs[..n]), Sum(xs[..n]), n as real;
      DeviationsExpand(xs[..n], c);
      SpreadNext(q, s, k, xs[n], c);
      assert |xs| as real == k + 1.0;
    }
  }

  lemma DivideMultiply(s: real, n: real)
    requires n != 0.0
    ensures n * (s / n) == s
  {
  }

  lemma MultiplyDivide(m: real, n: real)
    requires n != 0.0
    ensures (n * m) / n == m
  {
  }

  // Around the mean the spread is least, by the square of the distance.
  lemma SpreadMoves(q: real, s: real, n: real, m: real, c: real)
    requires n * m == s
    ensures Spread(q, s, n, c) == Spread(q, s, n, m) + n * Square(m - c)
  {
    assert c * s == n * (m * c);
    assert m * s == n * (m * m);
    assert (m - c) * (m - c) == m * m - 2.0 * (m * c) + c * c;
  }

  lemma {:induction false} DeviationsAround(xs: seq<real>, m: real, c: real)
    requires |xs| as real * m == Sum(xs)
    ensures Deviations(xs, c) == Deviations(xs, m) + |xs| as real * Square(m - c)
  {
    DeviationsExpand(xs, c);
    DeviationsExpand(xs, m);
    SpreadMoves(SumSquares(xs), Sum(xs), |xs| as real, m, c);
  }

  lemma ScaledSquare(n: real, d: real)
    requires n >= 0.0
    ensures Square(d) >= 0.0 && n * Square(d) >= 0.0
  {
  }

  lemma {:induction false} DeviationsNotNegative(xs: seq<real>, c: real)
    ensures Deviations(xs, c) >= 0.0
  {
    if xs != [] {
      DeviationsNotNegative(xs[..|xs| - 1], c);
      ScaledSquare(1.0, xs[|xs| - 1] - c);
    }
  }

  lemma {:induction false} GapToCentre(xs: seq<real>, m: real, c: real) returns (gap: real)
    requires |xs| as real * m == Sum(xs)
    ensures gap >= 0.0 && Deviations(xs, c) == Deviations(xs, m) + gap
  {
    DeviationsAround(xs, m, c);
    gap := |xs| as real * Square(m - c);
    ScaledSquare(|xs| as real, m - c);
  }

  // The mean is where the deviations are least, so that the variance says how far the
  // samples are from any single value.
  lemma {:induction false} MeanIsCentre(xs: seq<real>, c: real)
    requires xs != []
    ensures 0.0 <= Deviations(xs, Mean(xs)) <= Deviations(xs, c)
  {
    DivideMultiply(Sum(xs), |xs| as real);
    var gap := GapToCentre(xs, Mean(xs), c);
    DeviationsNotNegative(xs, Mean(xs));
  }

  // ----- one step of the one-pass form -----

  // `average` and `moment2` are what the samples so far call for; before the first sample
  // the average may be anything.
  ghost predicate Summarises(xs: seq<real>, average: real, moment2: real) {
    if xs == [] then moment2 == 0.0 else average == Mean(xs) && moment2 == Deviations(xs, average)
  }

  lemma {:induction false} OneSample(x: real)
    ensures Mean([x]) == x && Deviations([x], x) == 0.0
  {
    assert [x][..0] == [];
    assert Sum([]) == 0.0 && Deviations([], x) == 0.0;
    assert Sum([x]) == x;
  }

  lemma {:induction false} NextStep(xs: seq<real>, x: real, average: real, step: real, next: real)
    requires xs != [] && average == Mean(xs)
    requires step == (x - average) / (|xs| as real + 1.0) && next == average + step
    ensures Mean(xs + [x]) == next
    ensures Deviations(xs + [x], next) == Deviations(xs, average) + (x - average) * (x - next)
  {
    DivideMultiply(Sum(xs), |xs| as real);
    StepTimes(x - average, |xs| as real + 1.0, step);
    MeanFollows(xs, x, average, step);
    MomentSteps(|xs| as real, average, x, step, next);
    MomentFollows(xs, x, average, next, (x - average) * (x - next));
  }

  lemma {:induction false} MomentFollows(xs: seq<real>, x: real, average: real, next: real, growth: real)
    requires |xs| as real * average == Sum(xs)
    requires |xs| as real * Square(average - next) + Square(x - next) == growth
    ensures Deviations(xs + [x], next) == Deviations(xs, average) + growth
  {
    SumsAre(xs, x, next);
    DeviationsAround(xs, average, next);
  }

  lemma {:induction false} MeanFollows(xs: seq<real>, x: real, average: real, step: real)
    requires xs != [] && |xs| as real * average == Sum(xs) && (|xs| as real + 1.0) * step == x - average
    ensures Mean(xs + [x]) == average + step
  {
    SumsAre(xs, x, average);
    MeanNext(Sum(xs), |xs| as real, x, average, step);
  }

  lemma StepTimes(d: real, n: real, step: real)
    requires n != 0.0 && step == d / n
    ensures n * step == d
  {
    DivideMultiply(d, n);
  }

  lemma MeanNext(s: real, n: real, x: real, average: real, step: real)
    requires n > 0.0 && n * average == s && (n + 1.0) * step == x - average
    ensures (s + x) / (n + 1.0) == average + step
  {
    MeanSteps(n, average, x, step);
    MultiplyDivide(average + step, n + 1.0);
  }

  lemma MeanSteps(n: real, average: real, x: real, step: real)
    requires (n + 1.0) * step == x - average
    ensures (n + 1.0) * (average + step) == n * average + x
  {
  }

  lemma MomentSteps(n: real, average: real, x: real, step: real, c: real)
    requires (n + 1.0) * step == x - average && c == average + step
    ensures n * Square(average - c) + Square(x - c) == (x - average) * (x - c)
  {
    var rest := x - c;
    assert rest == n * step;
    assert Square(average - c) == step * step;
    assert n * (step * step) == rest * step;
    assert rest * step + rest * rest == (step + rest) * rest;
  }

  // The accumulation for one field and one sample, with the statements in its order.
  method Accumulate(ghost xs: seq<real>, x: real, average: real, moment2: real, count: nat)
    returns (newAverage: real, newMoment2: real)
    requires count == |xs| + 1 && Summarises(xs, average, moment2) && (xs == [] ==> average == x)
    ensures Summarises(xs + [x], newAverage, newMoment2)
  {
    var deltaPre := x - average;
    newAverage := average + deltaPre / count as real;
    var deltaPost := x - newAverage;
    newMoment2 := moment2 + deltaPre * deltaPost;
    if xs == [] {
      assert xs + [x] == [x];
      OneSample(x);
    } else {
      NextStep(xs, x, average, deltaPre / count as real, newAverage);
    }
  }

  // What is logged about the runs, if there are at least two: the averages, and what is
  // under the root of the standard deviations.
  datatype Summary = NoSummary | Summary(average: Result, variance: Result)

  ghost predicate SummarisesAll(results: seq<Result>, average: Result, moment2: Result) {
    forall f: Field :: Summarises(Column(results, f), Get(average, f), Get(moment2, f))
  }

  lemma {:induction false} ColumnNext(results: seq<Result>, n: nat, f: Field)
    requires n < |results|
    ensures Column(results[..n + 1], f) == Column(results[..n], f) + [Get(results[n], f)]
    ensures n == 0 ==> Column(results[..n], f) == []
  {
  }

  lemma {:induction false} MomentIsVariance(xs: seq<real>, average: real, moment2: real)
    requires xs != [] && Summarises(xs, average, moment2)
    ensures Describes(xs, average, moment2 / |xs| as real)
  {
    DivideMultiply(Sum(xs), |xs| as real);
    DivideMultiply(moment2, |xs| as real);
    DeviationsNotNegative(xs, Mean(xs));
    QuotientNotNegative(moment2, |xs| as real);
  }

  lemma QuotientNotNegative(a: real, n: real)
    requires a >= 0.0 && n > 0.0
    ensures a / n >= 0.0
  {
  }

  // The average is the sum over the number, the variance the squared deviations from the
  // average over the number.
  ghost predicate Describes(xs: seq<real>, average: real, variance: real) {
    && xs != [] && average == Mean(xs) && variance == Variance(xs) && variance >= 0.0
    && |xs| as real * average == Sum(xs) && |xs| as real * variance == Deviations(xs, average)
  }

  // One pass over the results: with fewer than two there is no summary; otherwise each field
  // of the summary is the mean and the variance of that field over all runs.
  method Log(results: seq<Result>) returns (summary: Summary)
    ensures summary.NoSummary? <==> |results| < 2
    ensures summary.Summary? ==>
      forall f: Field :: Describes(Column(results, f), Get(summary.average, f), Get(summary.variance, f))
  {
    if |results| < 2 {
      return NoSummary;
    }
    var n := 0;
    var average := results[0];
    var zero := PhaseResult(0.0, 0.0, 0.0);
    var moment2 := Result(zero, zero);
    while n < |results|
      invariant 0 <= n <= |results|
      invariant SummarisesAll(results[..n], average, moment2)
      invariant n == 0 ==> average == results[0]
    {
      average, moment2 := AccumulateAll(results, n, average, moment2);
      n := n + 1;
    }
    assert results[..n] == results;
    var k := n as real;
    var variance := Result(
      PhaseResult(moment2.init.time / k, moment2.init.rate / k, moment2.init.period / k),
      PhaseResult(moment2.run.time / k, moment2.run.rate / k, moment2.run.period / k));
    forall f: Field
      ensures Describes(Column(results, f), Get(average, f), Get(variance, f))
    {
      assert Summarises(Column(results, f), Get(average, f), Get(moment2, f));
      MomentIsVariance(Column(results, f), Get(average, f), Get(moment2, f));
      assert Get(variance, f) == Get(moment2, f) / k;
    }
    return Summary(average, variance);
  }

  // The six accumulations of one iteration.
  method AccumulateAll(results: seq<Result>, n: nat, average: Result, moment2: Result)
    returns (newAverage: Result, newMoment2: Result)
    requires n < |results| && SummarisesAll(results[..n], average, moment2)
    requires n == 0 ==> average == results[0]
    ensures SummarisesAll(results[..n + 1], newAverage, newMoment2)
  {
    var run := results[n];
    forall f: Field
      ensures Column(results[..n + 1], f) == Column(results[..n], f) + [Get(run, f)]
      ensures Summarises(Column(results[..n], f), Get(average, f), Get(moment2, f))
    {
      ColumnNext(results, n, f);
    }
    ghost var before := results[..n];
    var a1, m1 := Accumulate(Column(before, InitTime), run.init.time, average.init.time, moment2.init.time, n + 1);
    var a2, m2 := Accumulate(Column(before, InitRate), run.init.rate, average.init.rate, moment2.init.rate, n + 1);
    var a3, m3 := Accumulate(Column(before, InitPeriod), run.init.period, average.init.period, moment2.init.period, n + 1);
    var a4, m4 := Accumulate(Column(before, RunTime), run.run.time, average.run.time, moment2.run.time, n + 1);
    var a5, m5 := Accumulate(Column(before, RunRate), run.run.rate, average.run.rate, moment2.run.rate, n + 1);
    var a6, m6 := Accumulate(Column(before, RunPeriod), run.run.period, average.run.period, moment2.run.period, n + 1);
    newAverage := Result(PhaseResult(a1, a2, a3), PhaseResult(a4, a5, a6));
    newMoment2 := Result(PhaseResult(m1, m2, m3), PhaseResult(m4, m5, m6));
    forall f: Field
      ensures Summarises(Column(results[..n + 1], f), Get(newAverage, f), Get(newMoment2, f))
    {
      match f
      case InitTime =>
      case InitRate =>
      case InitPeriod =>
      case RunTime =>
      case RunRate =>
      case RunPeriod =>
    }
  }
}
