/**
 The averages that `BenchSuite::Log` of utils/bench-scheduler.cc prints, in exact arithmetic: Welford's
 one-pass accumulation of the mean and of the sum of squared deviations.
 */
module RunStatistics {
  import opened Sequences

  datatype PhaseResult = PhaseResult(time: real, rate: real, period: real)

  datatype Result = Result(init: PhaseResult, run: PhaseResult)

  datatype Phase = Init | Run

  datatype Field = Time | Rate | Period

  function Get(r: Result, phase: Phase, field: Field): real {
    var p := if phase.Init? then r.init else r.run;
    match field
    case Time => p.time
    case Rate => p.rate
    case Period => p.period
  }

  function Series(results: seq<Result>, phase: Phase, field: Field): (xs: seq<real>)
    ensures |xs| == |results|
    ensures forall i :: 0 <= i < |xs| ==> xs[i] == Get(results[i], phase, field)
  {
    seq(|results|, i requires 0 <= i < |results| => Get(results[i], phase, field))
  }

  // ----- Mean and squared deviations -----

  ghost function Sum(xs: seq<real>): real {
    if xs == [] then 0.0 else Sum(xs[..|xs| - 1]) + xs[|xs| - 1]
  }

  ghost function SumOfSquares(xs: seq<real>): real {
    if xs == [] then 0.0 else SumOfSquares(xs[..|xs| - 1]) + xs[|xs| - 1] * xs[|xs| - 1]
  }

  ghost function Mean(xs: seq<real>): real
    requires xs != []
  {
    Sum(xs) / (|xs| as real)
  }

  /** The sum of the squared distances from c. */
  ghost function SquaredDeviations(xs: seq<real>, c: real): real {
    if xs == [] then 0.0
    else SquaredDeviations(xs[..|xs| - 1], c) + (xs[|xs| - 1] - c) * (xs[|xs| - 1] - c)
  }

  /** `average` times the number of values is their sum, and `moment2` is their squared deviation from `average`. */
  ghost predicate IsStatistic(average: real, moment2: real, xs: seq<real>) {
    (|xs| as real) * average == Sum(xs) && moment2 == SquaredDeviations(xs, average)
  }

  lemma SquareNotNegative(d: real)
    ensures d * d >= 0.0
  {
  }

  /** So that its square root exists. */
  lemma {:induction false} DeviationsNotNegative(xs: seq<real>, c: real)
    ensures SquaredDeviations(xs, c) >= 0.0
  {
    if xs != [] {
      DeviationsNotNegative(xs[..|xs| - 1], c);
      SquareNotNegative(xs[|xs| - 1] - c);
    }
  }

  /** The squared deviations of n values from c, by their sum and their sum of squares. */
  ghost function Expanded(n: real, s: real, q: real, c: real): real {
    q - 2.0 * (c * s) + n * (c * c)
  }

  lemma ExpandedStep(n: real, s: real, q: real, c: real, x: real)
    ensures Expanded(n + 1.0, s + x, q + x * x, c) == Expanded(n, s, q, c) + (x - c) * (x - c)
  {
    assert (x - c) * (x - c) == x * x - 2.0 * (c * x) + c * c;
    assert c * (s + x) == c * s + c * x;
    assert (n + 1.0) * (c * c) == n * (c * c) + c * c;
  }

  lemma {:induction false} DeviationsFromSums(xs: seq<real>, c: real)
    ensures SquaredDeviations(xs, c) == Expanded(|xs| as real, Sum(xs), SumOfSquares(xs), c)
  {
    if xs != [] {
      var n := |xs| - 1;
      var front, x := xs[..n], xs[n];
      DeviationsFromSums(front, c);
      assert |xs| as real == n as real + 1.0;
      hide Expanded;
      ExpandedStep(n as real, Sum(front), SumOfSquares(front), c, x);
    }
  }

  /** The algebra of one step: n and m are the count and mean so far, m' the mean with x. */
  lemma WelfordAlgebra(n: real, m: real, x: real, m': real)
    requires (n + 1.0) * m' == n * m + x
    ensures (x - m) * (x - m') - n * (m * m) == x * x - (n + 1.0) * (m' * m')
  {
    var p := n * (m * m');
    assert m' * ((n + 1.0) * m') == m' * (n * m + x);
    assert m' * ((n + 1.0) * m') == (n + 1.0) * (m' * m');
    assert m' * (n * m + x) == p + x * m';
    assert m * ((n + 1.0) * m') == m * (n * m + x);
    assert m * ((n + 1.0) * m') == p + m * m';
    assert m * (n * m + x) == n * (m * m) + m * x;
    assert (x - m) * (x - m') == x * x - x * m' - m * x + m * m';
  }

  /** The change of the deviations when the mean moves from m to m' with x. */
  function Increment(x: real, m: real, m': real): real {
    (x - m) * (x - m')
  }

  lemma WelfordSums(n: real, m: real, x: real, m': real, s: real, q: real)
    requires n * m == s && (n + 1.0) * m' == s + x
    ensures Expanded(n + 1.0, s + x, q + x * x, m') == Expanded(n, s, q, m) + Increment(x, m, m')
  {
    WelfordAlgebra(n, m, x, m');
    SubstituteSum(n, m, s);
    SubstituteSum(n + 1.0, m', s + x);
  }

  /** One accumulation step turns the statistics of `xs` into those of `xs` and one more value. */
  lemma WelfordStep(xs: seq<real>, x: real, m: real, moment2: real, m': real)
    requires IsStatistic(m, moment2, xs)
    requires m' == m + (x - m) / ((|xs| + 1) as real)
    ensures IsStatistic(m', moment2 + Increment(x, m, m'), xs + [x])
  {
    hide Sum, SumOfSquares, SquaredDeviations, Increment;
    var n := |xs| as real;
    var n' := (|xs| + 1) as real;
    MeanStep(n, m, x, n', m');
    SumsStep(xs, x);
    DeviationsStep(xs, x, m, m');
  }

  lemma DeviationsStep(xs: seq<real>, x: real, m: real, m': real)
    requires (|xs| as real) * m == Sum(xs)
    requires ((|xs| + 1) as real) * m' == Sum(xs) + x
    ensures SquaredDeviations(xs + [x], m') == SquaredDeviations(xs, m) + Increment(x, m, m')
  {
    hide *;
    assert |xs + [x]| as real == (|xs| as real) + 1.0;
    SumsStep(xs, x);
    DeviationsFromSums(xs, m);
    DeviationsFromSums(xs + [x], m');
    WelfordSums(|xs| as real, m, x, m', Sum(xs), SumOfSquares(xs));
  }

  lemma SumsStep(xs: seq<real>, x: real)
    ensures Sum(xs + [x]) == Sum(xs) + x && SumOfSquares(xs + [x]) == SumOfSquares(xs) + x * x
  {
    assert (xs + [x])[..|xs|] == xs;
  }

  lemma MeanStep(n: real, m: real, x: real, count: real, m': real)
    requires n >= 0.0 && count == n + 1.0 && m' == m + (x - m) / count
    ensures count * m' == n * m + x
  {
    assert count * ((x - m) / count) == x - m;
    assert count * m' == count * m + count * ((x - m) / count);
    assert count * m == n * m + m;
  }

  lemma SubstituteSum(n: real, m: real, s: real)
    requires n * m == s
    ensures m * s == n * (m * m)
  {
  }

  // ----- The program -----

  method Accumulate(average: real, moment2: real, x: real, count: nat, ghost xs: seq<real>)
    returns (average': real, moment2': real)
    requires count == |xs| + 1 && IsStatistic(average, moment2, xs)
    ensures IsStatistic(average', moment2', xs + [x])
  {
    hide IsStatistic;
    var deltaPre := x - average;
    average' := average + deltaPre / (count as real);
    var deltaPost := x - average';
    moment2' := moment2 + deltaPre * deltaPost;
    WelfordStep(xs, x, average, moment2, average');
  }

  ghost predicate Tracks(average: Result, moment2: Result, results: seq<Result>, phase: Phase, field: Field) {
    IsStatistic(Get(average, phase, field), Get(moment2, phase, field), Series(results, phase, field))
  }

  lemma SeriesStep(results: seq<Result>, n: nat, phase: Phase, field: Field)
    requires n < |results|
    ensures Series(results[..n + 1], phase, field)
         == Series(results[..n], phase, field) + [Get(results[n], phase, field)]
  {
  }

  /**
   With fewer than two results nothing is computed. Otherwise the average of every figure is its mean and
   the second moment its sum of squared deviations from the mean, whatever the average starts from.
   */
  method Log(results: seq<Result>) returns (statistics: Option<(Result, Result)>)
    ensures statistics.None? <==> |results| < 2
    ensures statistics.Some? ==> forall phase: Phase, field: Field ::
      var xs := Series(results, phase, field);
      && Get(statistics.value.0, phase, field) == Mean(xs)
      && Get(statistics.value.1, phase, field) == SquaredDeviations(xs, Mean(xs))
  {
    if |results| < 2 {
      return None;
    }
    var average := results[0];
    var moment2 := Result(PhaseResult(0.0, 0.0, 0.0), PhaseResult(0.0, 0.0, 0.0));
    forall phase: Phase, field: Field ensures Tracks(average, moment2, results[..0], phase, field) {
    }
    hide IsStatistic, Mean, SquaredDeviations;
    for n := 0 to |results|
      invariant forall phase: Phase, field: Field :: Tracks(average, moment2, results[..n], phase, field)
    {
      var run := results[n];
      ghost var before := results[..n];
      assert Tracks(average, moment2, before, Init, Time) && Tracks(average, moment2, before, Init, Rate)
        && Tracks(average, moment2, before, Init, Period) && Tracks(average, moment2, before, Run, Time)
        && Tracks(average, moment2, before, Run, Rate) && Tracks(average, moment2, before, Run, Period);
      hide Series;
      var a0, m0 := Accumulate(average.init.time, moment2.init.time, run.init.time, n + 1, Series(before, Init, Time));
      var a1, m1 := Accumulate(average.init.rate, moment2.init.rate, run.init.rate, n + 1, Series(before, Init, Rate));
      var a2, m2 := Accumulate(average.init.period, moment2.init.period, run.init.period, n + 1,
                               Series(before, Init, Period));
      var a3, m3 := Accumulate(average.run.time, moment2.run.time, run.run.time, n + 1, Series(before, Run, Time));
      var a4, m4 := Accumulate(average.run.rate, moment2.run.rate, run.run.rate, n + 1, Series(before, Run, Rate));
      var a5, m5 := Accumulate(average.run.period, moment2.run.period, run.run.period, n + 1,
                               Series(before, Run, Period));
      average := Result(PhaseResult(a0, a1, a2), PhaseResult(a3, a4, a5));
      moment2 := Result(PhaseResult(m0, m1, m2), PhaseResult(m3, m4, m5));
      ghost var after := results[..n + 1];
      forall phase: Phase, field: Field ensures Tracks(average, moment2, after, phase, field) {
        SeriesStep(results, n, phase, field);
        if phase == Init {
          match field { case Time => case Rate => case Period => }
        } else {
          match field { case Time => case Rate => case Period => }
        }
      }
    }
    assert results[..|results|] == results;
    forall phase: Phase, field: Field
      ensures Get(average, phase, field) == Mean(Series(results, phase, field))
      ensures Get(moment2, phase, field)
           == SquaredDeviations(Series(results, phase, field), Mean(Series(results, phase, field)))
    {
      assert Tracks(average, moment2, results, phase, field);
      MeanFromSum(Series(results, phase, field), Get(average, phase, field), Get(moment2, phase, field));
    }
    statistics := Some((average, moment2));
  }

  lemma MeanFromSum(xs: seq<real>, m: real, moment2: real)
    requires xs != [] && IsStatistic(m, moment2, xs)
    ensures m == Mean(xs) && moment2 == SquaredDeviations(xs, Mean(xs))
  {
    var n := |xs| as real;
    assert (n * m) / n == m;
  }
}
