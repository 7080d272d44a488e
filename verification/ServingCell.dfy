/**
 The serving cell of a snapshot terminal and its signal quality: the computation in
 `WriteAllUeSinrSnapshotCsv` of scratch/nr-x2-conditional-handover-test.cc, in exact arithmetic.
 The received powers in dBm and the conversion to watts are given.
 */
module ServingCell {
  import opened Reals
  import opened Sequences

  /** The least denominator of a ratio of powers. */
  const FLOOR: real := 0.000000000000000000000000000001

  function Sinr(signal: real, interference: real, noise: real): real {
    signal / Max(FLOOR, interference + noise)
  }

  datatype Interferer = Interferer(gnbIndex: nat, rxDbm: real)

  datatype Quality = Quality(
    bestGnbIndex: nat,
    signal: real,
    interference: real,
    sinr: real,
    bestInterferer: Option<Interferer>,
    nominalSignal: real,
    nominalInterference: real,
    nominalSinr: real)

  // ----- Powers -----

  ghost function Total(powers: seq<real>): real {
    if powers == [] then 0.0 else Total(powers[..|powers| - 1]) + powers[|powers| - 1]
  }

  /** All the power that is not received from cell k. */
  ghost function Others(powers: seq<real>, k: nat): real {
    if powers == [] then 0.0
    else Others(powers[..|powers| - 1], k) + if k == |powers| - 1 then 0.0 else powers[|powers| - 1]
  }

  lemma {:induction false} OthersAreTheRest(powers: seq<real>, k: nat)
    ensures Others(powers, k) == Total(powers) - if k < |powers| then powers[k] else 0.0
  {
    if powers != [] {
      OthersAreTheRest(powers[..|powers| - 1], k);
    }
  }

  lemma {:induction false} OneOfTheOthers(powers: seq<real>, k: nat, i: nat)
    requires forall j :: 0 <= j < |powers| ==> powers[j] >= 0.0
    requires i < |powers| && i != k
    ensures powers[i] <= Others(powers, k)
  {
    var n := |powers| - 1;
    if i < n {
      OneOfTheOthers(powers[..n], k, i);
    } else {
      OthersNonNegative(powers[..n], k);
    }
  }

  lemma {:induction false} OthersNonNegative(powers: seq<real>, k: nat)
    requires forall j :: 0 <= j < |powers| ==> powers[j] >= 0.0
    ensures Others(powers, k) >= 0.0
  {
    if powers != [] {
      OthersNonNegative(powers[..|powers| - 1], k);
    }
  }

  lemma OthersStep(powers: seq<real>, k: nat, i: nat)
    requires i < |powers|
    ensures Others(powers[..i + 1], k) == Others(powers[..i], k) + if i == k then 0.0 else powers[i]
    ensures Others(powers[..0], k) == 0.0
  {
    assert powers[..i + 1][..i] == powers[..i];
  }

  /** The first of the strongest entries, cell `except` left out. */
  ghost predicate FirstStrongest(rxDbm: seq<real>, n: nat, except: int, k: nat)
    requires n <= |rxDbm|
  {
    && k < n && k != except
    && (forall i :: 0 <= i < n && i != except ==> rxDbm[i] <= rxDbm[k])
    && (forall i :: 0 <= i < k && i != except ==> rxDbm[i] < rxDbm[k])
  }

  // ----- The program -----

  ghost function Watts(rxDbm: seq<real>, toWatts: real -> real): (powers: seq<real>)
    ensures |powers| == |rxDbm|
    ensures forall i :: 0 <= i < |powers| ==> powers[i] == toWatts(rxDbm[i])
  {
    seq(|rxDbm|, i requires 0 <= i < |rxDbm| => toWatts(rxDbm[i]))
  }

  /** The first of the loops over the cells: their powers, and the first of the strongest. */
  method FindServingCell(rxDbm: seq<real>, toWatts: real -> real)
    returns (perCellRxPowerW: seq<real>, bestGnbIndex: nat)
    requires rxDbm != []
    ensures perCellRxPowerW == Watts(rxDbm, toWatts)
    ensures FirstStrongest(rxDbm, |rxDbm|, -1, bestGnbIndex)
  {
    var bestRxDbm: Option<real> := None;  // None is the source's minus infinity
    bestGnbIndex, perCellRxPowerW := 0, [];
    for gnbIndex := 0 to |rxDbm|
      invariant perCellRxPowerW == Watts(rxDbm, toWatts)[..gnbIndex]
      invariant bestRxDbm.None? <==> gnbIndex == 0
      invariant bestRxDbm.Some? ==>
        FirstStrongest(rxDbm, gnbIndex, -1, bestGnbIndex) && bestRxDbm.value == rxDbm[bestGnbIndex]
    {
      var rxPowerDbm := rxDbm[gnbIndex];
      perCellRxPowerW := perCellRxPowerW + [toWatts(rxPowerDbm)];
      if bestRxDbm.None? || rxPowerDbm > bestRxDbm.value {
        bestRxDbm := Some(rxPowerDbm);
        bestGnbIndex := gnbIndex;
      }
    }
  }

  /** The second loop: signal, interference and the strongest interferer of the serving cell. */
  method SumAroundServingCell(rxDbm: seq<real>, powers: seq<real>, bestGnbIndex: nat)
    returns (signal: real, interference: real, bestInterferer: Option<Interferer>)
    requires |powers| == |rxDbm| && bestGnbIndex < |rxDbm|
    ensures signal == powers[bestGnbIndex] && interference == Others(powers, bestGnbIndex)
    ensures bestInterferer.None? <==> |rxDbm| == 1
    ensures bestInterferer.Some? ==>
      && FirstStrongest(rxDbm, |rxDbm|, bestGnbIndex, bestInterferer.value.gnbIndex)
      && bestInterferer.value.rxDbm == rxDbm[bestInterferer.value.gnbIndex]
  {
    hide Others;
    signal, interference, bestInterferer := 0.0, 0.0, None;
    OthersStep(powers, bestGnbIndex, 0);
    for gnbIndex := 0 to |powers|
      invariant signal == if bestGnbIndex < gnbIndex then powers[bestGnbIndex] else 0.0
      invariant interference == Others(powers[..gnbIndex], bestGnbIndex)
      invariant bestInterferer.None? <==> gnbIndex == 0 || (gnbIndex == 1 && bestGnbIndex == 0)
      invariant bestInterferer.Some? ==>
        && FirstStrongest(rxDbm, gnbIndex, bestGnbIndex, bestInterferer.value.gnbIndex)
        && bestInterferer.value.rxDbm == rxDbm[bestInterferer.value.gnbIndex]
    {
      OthersStep(powers, bestGnbIndex, gnbIndex);
      if gnbIndex == bestGnbIndex {
        signal := signal + powers[gnbIndex];
      } else {
        interference := interference + powers[gnbIndex];
        if bestInterferer.None? || rxDbm[gnbIndex] > bestInterferer.value.rxDbm {
          bestInterferer := Some(Interferer(gnbIndex, rxDbm[gnbIndex]));
        }
      }
    }
    assert powers[..|powers|] == powers;
  }

  /** The third loop: signal and interference if the nominal cell served. */
  method SumAroundNominalCell(powers: seq<real>, nominalGnbIndex: nat)
    returns (nominalSignal: real, nominalInterference: real)
    requires nominalGnbIndex < |powers|
    ensures nominalSignal == powers[nominalGnbIndex] && nominalInterference == Others(powers, nominalGnbIndex)
  {
    hide Others;
    nominalSignal, nominalInterference := 0.0, 0.0;
    OthersStep(powers, nominalGnbIndex, 0);
    for gnbIndex := 0 to |powers|
      invariant nominalSignal == if nominalGnbIndex < gnbIndex then powers[nominalGnbIndex] else 0.0
      invariant nominalInterference == Others(powers[..gnbIndex], nominalGnbIndex)
    {
      OthersStep(powers, nominalGnbIndex, gnbIndex);
      if gnbIndex == nominalGnbIndex {
        nominalSignal := nominalSignal + powers[gnbIndex];
      } else {
        nominalInterference := nominalInterference + powers[gnbIndex];
      }
    }
    assert powers[..|powers|] == powers;
  }

  /** The ratio times interference and noise, or their least value, is the signal. */
  lemma RatioIsRatio(signal: real, interference: real, noise: real)
    ensures var d := interference + noise;
      Sinr(signal, interference, noise)
        * (if d < 0.000000000000000000000000000001 then 0.000000000000000000000000000001 else d) == signal
  {
  }

  /** An index out of range ends the source with an exception, so the nominal cell must exist. */
  method Evaluate(rxDbm: seq<real>, nominalGnbIndex: nat, noise: real, toWatts: real -> real) returns (q: Quality)
    requires nominalGnbIndex < |rxDbm|
    ensures FirstStrongest(rxDbm, |rxDbm|, -1, q.bestGnbIndex)
    ensures var powers := Watts(rxDbm, toWatts);
      && q.signal == powers[q.bestGnbIndex] && q.interference == Others(powers, q.bestGnbIndex)
      && q.nominalSignal == powers[nominalGnbIndex] && q.nominalInterference == Others(powers, nominalGnbIndex)
    ensures q.sinr == Sinr(q.signal, q.interference, noise)
    ensures q.nominalSinr == Sinr(q.nominalSignal, q.nominalInterference, noise)
    ensures var d := q.interference + noise;
      q.sinr * (if d < 0.000000000000000000000000000001 then 0.000000000000000000000000000001 else d) == q.signal
    ensures var d := q.nominalInterference + noise;
      q.nominalSinr * (if d < 0.000000000000000000000000000001 then 0.000000000000000000000000000001 else d)
        == q.nominalSignal
    ensures q.bestInterferer.None? <==> |rxDbm| == 1
    ensures q.bestInterferer.Some? ==>
      && FirstStrongest(rxDbm, |rxDbm|, q.bestGnbIndex, q.bestInterferer.value.gnbIndex)
      && q.bestInterferer.value.rxDbm == rxDbm[q.bestInterferer.value.gnbIndex]
  {
    hide Others, FirstStrongest, Sinr;
    var powers, bestGnbIndex := FindServingCell(rxDbm, toWatts);
    var signal, interference, bestInterferer := SumAroundServingCell(rxDbm, powers, bestGnbIndex);
    var nominalSignal, nominalInterference := SumAroundNominalCell(powers, nominalGnbIndex);
    RatioIsRatio(signal, interference, noise);
    RatioIsRatio(nominalSignal, nominalInterference, noise);
    q := Quality(bestGnbIndex, signal, interference, Sinr(signal, interference, noise), bestInterferer,
                 nominalSignal, nominalInterference, Sinr(nominalSignal, nominalInterference, noise));
  }

  // ----- What the serving cell is good for -----

  /** A conversion from dBm to watts is positive and does not reverse the order. */
  ghost predicate Conversion(toWatts: real -> real) {
    && (forall x :: toWatts(x) > 0.0)
    && forall x, y :: x <= y ==> toWatts(x) <= toWatts(y)
  }

  /** Signal and interference together are all the power received, whichever cell serves. */
  lemma PowerIsConserved(powers: seq<real>, k: nat)
    requires k < |powers|
    ensures powers[k] + Others(powers, k) == Total(powers)
  {
    OthersAreTheRest(powers, k);
  }

  lemma RatioOrder(s: real, d: real, s': real, d': real)
    requires 0.0 < s' <= s && 0.0 < d <= d'
    ensures s' / d' <= s / d
  {
    assert s' / d' <= s / d' by {
      QuotientOrder(s', s, d');
    }
    assert s / d' <= s / d by {
      var q, q' := s / d, s / d';
      assert q > 0.0 && q * d == s && q' * d' == s;
      if q < q' {
        ProductOrder(q, d, q', d');
      }
    }
  }

  lemma QuotientOrder(a: real, b: real, d: real)
    requires a <= b && d > 0.0
    ensures a / d <= b / d
  {
    assert (b - a) / d >= 0.0;
    assert b / d - a / d == (b - a) / d;
  }

  lemma ProductOrder(q: real, d: real, q': real, d': real)
    requires 0.0 < q < q' && 0.0 < d <= d'
    ensures q * d < q' * d'
  {
    assert (q' - q) * d' > 0.0;
    assert q * (d' - d) >= 0.0;
    assert q' * d' - q * d == (q' - q) * d' + q * (d' - d);
  }

  /** No other choice of serving cell gives a better signal quality; in particular the nominal cell does not. */
  lemma ServingCellIsBest(rxDbm: seq<real>, toWatts: real -> real, noise: real, best: nat, k: nat)
    requires Conversion(toWatts) && k < |rxDbm|
    requires FirstStrongest(rxDbm, |rxDbm|, -1, best)
    ensures var powers := Watts(rxDbm, toWatts);
      Sinr(powers[k], Others(powers, k), noise) <= Sinr(powers[best], Others(powers, best), noise)
  {
    var powers := Watts(rxDbm, toWatts);
    PowerIsConserved(powers, k);
    PowerIsConserved(powers, best);
    assert rxDbm[k] <= rxDbm[best];
    RatioOrder(powers[best], Max(FLOOR, Others(powers, best) + noise),
               powers[k], Max(FLOOR, Others(powers, k) + noise));
  }

  /** The strongest interferer is no stronger than the serving cell, and no stronger than all interference. */
  lemma InterfererIsBounded(rxDbm: seq<real>, toWatts: real -> real, best: nat, interferer: nat)
    requires Conversion(toWatts)
    requires FirstStrongest(rxDbm, |rxDbm|, -1, best) && FirstStrongest(rxDbm, |rxDbm|, best, interferer)
    ensures var powers := Watts(rxDbm, toWatts);
      && rxDbm[interferer] <= rxDbm[best]
      && powers[interferer] <= powers[best]
      && powers[interferer] <= Others(powers, best)
  {
    OneOfTheOthers(Watts(rxDbm, toWatts), best, interferer);
  }
}
