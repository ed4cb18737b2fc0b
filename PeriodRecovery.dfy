/** The classical post-processing of period_fibonacci.py: each measured
    bitstring s of the counting register gives the phase s / 2^t, the phase a
    period r (1 for phase 0, otherwise the denominator of
    Fraction(phase).limit_denominator(2^(t - 1))), the counts are grouped by
    period, and all_periods adds up each group.
 */
module PeriodRecovery {
  import opened Bits
  import opened Fractions
  import opened PeriodFibonacci

  // ---------------------------------------------------------------- int(bits, 2)

  predicate IsBitString(bits: string)
  {
    |bits| >= 1 && forall i :: 0 <= i < |bits| ==> bits[i] == '0' || bits[i] == '1'
  }

  /** int(bits, 2): the digits read most significant first. */
  function BinaryValue(bits: string): (v: nat)
    ensures v < Pow2(|bits|)
  {
    if |bits| == 0 then 0
    else 2 * BinaryValue(bits[..|bits| - 1]) + (if bits[|bits| - 1] == '1' then 1 else 0)
  }

  /** int(bin(N)[2:], 2) == N: reading the digits back gives the number. */
  lemma {:induction false} BinaryRoundTrip(N: nat)
    ensures IsBitString(Binary(N)) && BinaryValue(Binary(N)) == N
  {
    if N >= 2 {
      BinaryRoundTrip(N / 2);
      var b := Binary(N);
      assert b[..|b| - 1] == Binary(N / 2);
    }
  }

  /** A bitstring reads as 0 exactly when all its digits are '0'. */
  lemma {:induction false} ZeroValue(bits: string)
    requires IsBitString(bits) || |bits| == 0
    ensures BinaryValue(bits) == 0 <==> forall i :: 0 <= i < |bits| ==> bits[i] == '0'
  {
    if |bits| > 0 {
      var init := bits[..|bits| - 1];
      if |init| > 0 {
        assert IsBitString(init);
      }
      ZeroValue(init);
      if forall i :: 0 <= i < |init| ==> init[i] == '0' {
        if bits[|bits| - 1] == '0' {
          assert forall i :: 0 <= i < |bits| ==> bits[i] == '0' by {
            forall i | 0 <= i < |bits|
              ensures bits[i] == '0'
            {
              if i < |init| {
                assert bits[i] == init[i];
              }
            }
          }
        }
      } else {
        var i :| 0 <= i < |init| && init[i] != '0';
        assert bits[i] == init[i];
      }
    }
  }

  // ---------------------------------------------------------------- the period of one result

  /** Fraction(phase).limit_denominator(2^(t - 1)) for a nonzero phase
      s / 2^t: the phase in lowest terms, then its closest fraction with
      denominator at most 2^(t - 1). */
  function PhaseFraction(bits: string, numQubits: nat): (f: (nat, nat))
    requires IsBitString(bits) && numQubits >= 1 && BinaryValue(bits) != 0
    ensures 1 <= f.1 <= Pow2(numQubits - 1) && Coprime(f.0, f.1)
  {
    var g := DyadicRatio(BinaryValue(bits), numQubits);
    DyadicLowest(BinaryValue(bits), numQubits);
    LimitDenominator(g.0, Pow2(g.1), Pow2(numQubits - 1))
  }

  /** The period read off one result: 1 when the phase is 0, otherwise the
      denominator of PhaseFraction. */
  function Period(bits: string, numQubits: nat): (r: nat)
    requires IsBitString(bits) && numQubits >= 1
    ensures 1 <= r <= Pow2(numQubits - 1)
  {
    if BinaryValue(bits) == 0 then 1 else PhaseFraction(bits, numQubits).1
  }

  /** The all-zero result has phase 0 and period 1. */
  lemma {:induction false} ZeroPeriod(bits: string, numQubits: nat)
    requires IsBitString(bits) && numQubits >= 1
    requires forall i :: 0 <= i < |bits| ==> bits[i] == '0'
    ensures Period(bits, numQubits) == 1
  {
    ZeroValue(bits);
  }

  lemma {:induction false} CancelFactor(x: int, y: int, c: int)
    requires c >= 1 && x * c == y * c
    ensures x == y
  {
    ProductSign(c, x - y);
  }

  /** N / D = s / P and s / P = k / r give N / D = k / r, cross-multiplied. */
  lemma {:induction false} SameRatio(N: int, D: int, s: int, P: int, k: int, r: int)
    requires P >= 1 && N * P == s * D && s * r == k * P
    ensures N * r == k * D
  {
    calc {
      (N * r) * P;
      (N * P) * r;
      (s * D) * r;
      D * (s * r);
      D * (k * P);
      (k * D) * P;
    }
    CancelFactor(N * r, k * D, P);
  }

  /** A fraction k / r in lowest terms equal to N / 2^j, where N is odd or j
      is 0, has r = 2^j. */
  lemma {:induction false} DyadicDenominator(N: int, j: nat, k: int, r: int)
    requires j == 0 || N % 2 == 1
    requires r >= 1 && Coprime(k, r) && N * r == k * Pow2(j)
    ensures r == Pow2(j)
  {
    var D := Pow2(j);
    MultipleDivides(r, 1);
    if j == 0 {
      assert k == r * N;
      MultipleDivides(r, N);
    } else {
      assert N * r == D * k;
      Pow2DividesProduct(N, r, j, k);
      DividesWitness(D, r);
      var c := r / D;
      ProductSign(D, c);
      assert (N * c) * D == k * D;
      CancelFactor(N * c, k, D);
      assert k == c * N && r == c * D;
      MultipleDivides(c, N);
      MultipleDivides(c, D);
    }
  }

  /** When the measured phase is exactly k / r in lowest terms with
      r <= 2^(t - 1), the period found is r. */
  lemma {:induction false} ExactPhase(bits: string, numQubits: nat, k: nat, r: nat)
    requires IsBitString(bits) && numQubits >= 1
    requires 1 <= r <= Pow2(numQubits - 1) && Coprime(k, r)
    requires BinaryValue(bits) * r == k * Pow2(numQubits)
    ensures Period(bits, numQubits) == r
  {
    var s, t := BinaryValue(bits), numQubits;
    MultipleDivides(r, 1);
    if s == 0 {
      ProductSign(Pow2(t), k);
      assert k == 0;
      assert Divides(r, k);
    } else {
      var f := DyadicRatio(s, t);
      var N, D := f.0, Pow2(f.1);
      SameRatio(N, D, s, Pow2(t), k, r);
      DyadicDenominator(N, f.1, k, r);
      DyadicLowest(s, t);
    }
  }

  lemma {:induction false} AbsScale(z: int, c: int)
    requires c >= 1
    ensures Abs(z) * c == Abs(z * c)
  {
    ProductSign(c, z);
  }

  /** Dist against N / D and against an equal ratio s / P differ by the
      factor the two denominators differ by. */
  lemma {:induction false} ScaledDist(x: int, y: int, N: int, D: int, s: int, P: int)
    requires D >= 1 && P >= 1 && N * P == s * D
    ensures Dist(x, y, N, D) * P == Dist(x, y, s, P) * D
  {
    assert (x * D - N * y) * P == (x * P - s * y) * D by {
      assert (N * P) * y == (s * D) * y;
    }
    AbsScale(x * D - N * y, P);
    AbsScale(x * P - s * y, D);
  }

  lemma {:induction false} CrossScale(x1: nat, x2: nat, y1: nat, y2: nat, a1: nat, q: nat, P: int, D: int)
    requires P >= 1 && D >= 1 && x1 * P == y1 * D && x2 * P == y2 * D && x1 * q <= x2 * a1
    ensures y1 * q <= y2 * a1
  {
    ProductSign(P, x2 * a1 - x1 * q);
    assert (x1 * q) * P == (x1 * P) * q == (y1 * D) * q;
    assert (x2 * a1) * P == (x2 * P) * a1 == (y2 * D) * a1;
    ProductSign(D, y1 * q - y2 * a1);
  }

  /** Comparing closeness to N / D and to an equal ratio s / P gives the same
      answer. */
  lemma {:induction false} ScaledCloser(a0: int, a1: nat, p: int, q: nat, N: int, D: int, s: int, P: int)
    requires D >= 1 && P >= 1 && N * P == s * D
    requires Dist(a0, a1, N, D) * q <= Dist(p, q, N, D) * a1
    ensures Dist(a0, a1, s, P) * q <= Dist(p, q, s, P) * a1
  {
    ScaledDist(a0, a1, N, D, s, P);
    ScaledDist(p, q, N, D, s, P);
    CrossScale(Dist(a0, a1, N, D), Dist(p, q, N, D), Dist(a0, a1, s, P), Dist(p, q, s, P), a1, q, P, D);
  }

  /** The cross-multiplied comparison as exact rationals:
      |a0 / a1 - s / P| <= |p / q - s / P|. */
  lemma {:induction false} CloserReal(a0: int, a1: int, p: int, q: int, s: int, P: int)
    requires a1 >= 1 && q >= 1 && P >= 1
    requires Dist(a0, a1, s, P) * q <= Dist(p, q, s, P) * a1
    ensures RealAbs(a0 as real / a1 as real - s as real / P as real) <= RealAbs(p as real / q as real - s as real / P as real)
  {
    var x, y := Dist(a0, a1, s, P), Dist(p, q, s, P);
    DistReal(a0, a1, s, P);
    DistReal(p, q, s, P);
    RealCross(x, y, a1, q, P);
  }

  lemma {:induction false} RealCross(x: int, y: int, a1: int, q: int, P: int)
    requires a1 >= 1 && q >= 1 && P >= 1 && x * q <= y * a1
    ensures x as real / (a1 as real * P as real) <= y as real / (q as real * P as real)
  {
    CastProduct(x, q);
    CastProduct(y, a1);
    CrossCompare(x as real, y as real, a1 as real, q as real, P as real);
  }

  /** PhaseFraction is at least as close to the measured phase s / 2^t as any
      fraction p / q with 1 <= q <= 2^(t - 1), compared cross-multiplied. */
  lemma {:induction false} PhaseFractionClosest(bits: string, numQubits: nat, p: int, q: nat)
    requires IsBitString(bits) && numQubits >= 1 && BinaryValue(bits) != 0 && 1 <= q <= Pow2(numQubits - 1)
    ensures var f := PhaseFraction(bits, numQubits);
      Dist(f.0, f.1, BinaryValue(bits), Pow2(numQubits)) * q <= Dist(p, q, BinaryValue(bits), Pow2(numQubits)) * f.1
  {
    var s := BinaryValue(bits);
    var g := DyadicRatio(s, numQubits);
    DyadicLowest(s, numQubits);
    var f := PhaseFraction(bits, numQubits);
    LimitDenominatorClosest(g.0, Pow2(g.1), Pow2(numQubits - 1), p, q);
    ScaledCloser(f.0, f.1, p, q, g.0, Pow2(g.1), s, Pow2(numQubits));
  }

  /** The same as exact rationals: |f - s / 2^t| <= |p / q - s / 2^t|. */
  lemma {:induction false} PeriodClosest(bits: string, numQubits: nat, p: int, q: nat)
    requires IsBitString(bits) && numQubits >= 1 && BinaryValue(bits) != 0 && 1 <= q <= Pow2(numQubits - 1)
    ensures var f := PhaseFraction(bits, numQubits);
      var phase := BinaryValue(bits) as real / Pow2(numQubits) as real;
      RealAbs(f.0 as real / f.1 as real - phase) <= RealAbs(p as real / q as real - phase)
  {
    var f := PhaseFraction(bits, numQubits);
    PhaseFractionClosest(bits, numQubits, p, q);
    CloserReal(f.0, f.1, p, q, BinaryValue(bits), Pow2(numQubits));
  }

  // ---------------------------------------------------------------- grouping by period

  /** periods[r].append(c) on a defaultdict(list). */
  function AddCount(periods: map<nat, seq<nat>>, r: nat, c: nat): map<nat, seq<nat>>
  {
    periods[r := (if r in periods then periods[r] else []) + [c]]
  }

  predicate AllBitStrings(counts: seq<(string, nat)>)
  {
    forall i :: 0 <= i < |counts| ==> IsBitString(counts[i].0)
  }

  /** The periods dictionary after the loop has seen the given results, in order. */
  function PeriodsOf(counts: seq<(string, nat)>, numQubits: nat): map<nat, seq<nat>>
    requires numQubits >= 1 && AllBitStrings(counts)
  {
    if |counts| == 0 then map[]
    else
      var last := counts[|counts| - 1];
      AddCount(PeriodsOf(counts[..|counts| - 1], numQubits), Period(last.0, numQubits), last.1)
  }

  /** The loop that fills the periods dictionary, over the (bitstring, count)
      items of the counts dictionary, in its order. */
  method Periods(counts: seq<(string, nat)>, numQubits: nat) returns (periods: map<nat, seq<nat>>)
    requires numQubits >= 1 && AllBitStrings(counts)
    ensures periods == PeriodsOf(counts, numQubits)
  {
    periods := map[];
    for i := 0 to |counts|
      invariant periods == PeriodsOf(counts[..i], numQubits)
    {
      var r := Period(counts[i].0, numQubits);
      assert counts[..i + 1][..i] == counts[..i];
      periods := AddCount(periods, r, counts[i].1);
    }
    assert counts[..|counts|] == counts;
  }

  /** The counts, in order, of the results whose period is r. */
  function Selected(counts: seq<(string, nat)>, numQubits: nat, r: nat): seq<nat>
    requires numQubits >= 1 && AllBitStrings(counts)
  {
    if |counts| == 0 then []
    else
      var last := counts[|counts| - 1];
      Selected(counts[..|counts| - 1], numQubits, r) + (if Period(last.0, numQubits) == r then [last.1] else [])
  }

  /** periods has a key for each period found and no other. */
  lemma {:induction false} PeriodKeys(counts: seq<(string, nat)>, numQubits: nat)
    requires numQubits >= 1 && AllBitStrings(counts)
    ensures forall r :: r in PeriodsOf(counts, numQubits) <==>
      exists i :: 0 <= i < |counts| && Period(counts[i].0, numQubits) == r
  {
    if |counts| > 0 {
      var init := counts[..|counts| - 1];
      PeriodKeys(init, numQubits);
      forall r
        ensures r in PeriodsOf(counts, numQubits) <==>
          exists i :: 0 <= i < |counts| && Period(counts[i].0, numQubits) == r
      {
        FoundLast(counts, numQubits, r);
      }
    }
  }

  /** A period occurs among the results exactly when it occurs among all but
      the last of them or is the last one's. */
  lemma {:induction false} FoundLast(counts: seq<(string, nat)>, numQubits: nat, r: nat)
    requires numQubits >= 1 && AllBitStrings(counts) && |counts| > 0
    ensures var init := counts[..|counts| - 1];
      AllBitStrings(init) &&
      ((exists i :: 0 <= i < |counts| && Period(counts[i].0, numQubits) == r) <==>
       (exists i :: 0 <= i < |init| && Period(init[i].0, numQubits) == r) || Period(counts[|counts| - 1].0, numQubits) == r)
  {
    var init := counts[..|counts| - 1];
    assert AllBitStrings(init) by {
      forall i | 0 <= i < |init|
        ensures IsBitString(init[i].0)
      {
        assert init[i] == counts[i];
      }
    }
    if exists i :: 0 <= i < |init| && Period(init[i].0, numQubits) == r {
      var i :| 0 <= i < |init| && Period(init[i].0, numQubits) == r;
      assert counts[i] == init[i];
    }
    if exists i :: 0 <= i < |counts| && Period(counts[i].0, numQubits) == r {
      var i :| 0 <= i < |counts| && Period(counts[i].0, numQubits) == r;
      if i < |init| {
        assert counts[i] == init[i];
      }
    }
  }

  /** Under each key, periods lists the counts of exactly the results with
      that period, in their order. */
  lemma {:induction false} PeriodLists(counts: seq<(string, nat)>, numQubits: nat)
    requires numQubits >= 1 && AllBitStrings(counts)
    ensures forall r :: r in PeriodsOf(counts, numQubits) ==>
      PeriodsOf(counts, numQubits)[r] == Selected(counts, numQubits, r)
  {
    if |counts| > 0 {
      var init := counts[..|counts| - 1];
      PeriodLists(init, numQubits);
      PeriodKeys(init, numQubits);
      forall r | r !in PeriodsOf(init, numQubits)
        ensures Selected(init, numQubits, r) == []
      {
        NotFound(init, numQubits, r);
      }
    }
  }

  /** A period no result in the list has selects nothing. */
  lemma {:induction false} NotFound(counts: seq<(string, nat)>, numQubits: nat, r: nat)
    requires numQubits >= 1 && AllBitStrings(counts)
    requires forall i :: 0 <= i < |counts| ==> Period(counts[i].0, numQubits) != r
    ensures Selected(counts, numQubits, r) == []
  {
    if |counts| > 0 {
      var init := counts[..|counts| - 1];
      assert forall i :: 0 <= i < |init| ==> init[i] == counts[i];
      NotFound(init, numQubits, r);
    }
  }

  // ---------------------------------------------------------------- all_periods

  function Sum(xs: seq<nat>): nat
  {
    if |xs| == 0 then 0 else Sum(xs[..|xs| - 1]) + xs[|xs| - 1]
  }

  /** all_periods: each period's list of counts added up. */
  function AllPeriods(periods: map<nat, seq<nat>>): map<nat, nat>
  {
    map r | r in periods :: Sum(periods[r])
  }

  /** The number of shots: the sum of all counts. */
  function Total(counts: seq<(string, nat)>): nat
  {
    if |counts| == 0 then 0 else Total(counts[..|counts| - 1]) + counts[|counts| - 1].1
  }

  ghost function MapSum(m: map<nat, nat>): nat
    decreases |m.Keys|
  {
    if m == map[] then 0
    else
      var k :| k in m;
      assert (m - {k}).Keys < m.Keys;
      m[k] + MapSum(m - {k})
  }

  /** The sum of a map's values does not depend on which key is taken first. */
  lemma {:induction false} MapSumRemove(m: map<nat, nat>, r: nat)
    requires r in m
    ensures MapSum(m) == m[r] + MapSum(m - {r})
    decreases |m.Keys|
  {
    var k :| k in m && MapSum(m) == m[k] + MapSum(m - {k});
    if k != r {
      assert (m - {k}).Keys < m.Keys && (m - {r}).Keys < m.Keys;
      MapSumRemove(m - {k}, r);
      MapSumRemove(m - {r}, k);
      assert (m - {k}) - {r} == (m - {r}) - {k};
    }
  }

  lemma {:induction false} MapSumUpdate(m: map<nat, nat>, r: nat, v: nat)
    ensures MapSum(m[r := v]) + (if r in m then m[r] else 0) == MapSum(m) + v
  {
    MapSumRemove(m[r := v], r);
    assert m[r := v] - {r} == m - {r};
    if r in m {
      MapSumRemove(m, r);
    } else {
      assert m - {r} == m;
    }
  }

  /** all_periods[r] is the total count of the results whose period is r, and
      every period it lists lies between 1 and 2^(t - 1). */
  lemma {:induction false} AllPeriodsCounts(counts: seq<(string, nat)>, numQubits: nat)
    requires numQubits >= 1 && AllBitStrings(counts)
    ensures forall r :: r in AllPeriods(PeriodsOf(counts, numQubits)) ==>
      AllPeriods(PeriodsOf(counts, numQubits))[r] == Sum(Selected(counts, numQubits, r)) &&
      1 <= r <= Pow2(numQubits - 1)
  {
    PeriodKeys(counts, numQubits);
    PeriodLists(counts, numQubits);
  }

  /** Appending a count c under r adds c to the sum of all_periods' values. */
  lemma {:induction false} AddCountTotal(periods: map<nat, seq<nat>>, r: nat, c: nat)
    ensures MapSum(AllPeriods(AddCount(periods, r, c))) == MapSum(AllPeriods(periods)) + c
  {
    var before := if r in periods then periods[r] else [];
    AllPeriodsAdd(periods, r, c);
    MapSumAdd(AllPeriods(periods), AllPeriods(AddCount(periods, r, c)), r, Sum(before), c);
  }

  /** Adding c to one entry of a map of counts adds c to their sum. */
  lemma {:induction false} MapSumAdd(m: map<nat, nat>, m': map<nat, nat>, r: nat, v: nat, c: nat)
    requires (if r in m then m[r] else 0) == v && m' == m[r := v + c]
    ensures MapSum(m') == MapSum(m) + c
  {
    MapSumUpdate(m, r, v + c);
  }

  /** Appending c under r adds c to all_periods[r] and changes no other entry. */
  lemma {:induction false} AllPeriodsAdd(periods: map<nat, seq<nat>>, r: nat, c: nat)
    ensures var before := if r in periods then periods[r] else [];
      AllPeriods(AddCount(periods, r, c)) == AllPeriods(periods)[r := Sum(before) + c]
  {
    var before := if r in periods then periods[r] else [];
    var added := AddCount(periods, r, c);
    SumAppend(before, c);
    var m1, m2 := AllPeriods(added), AllPeriods(periods)[r := Sum(before) + c];
    AllPeriodsKeys(added);
    AllPeriodsKeys(periods);
    assert added.Keys == periods.Keys + {r};
    assert m1.Keys == m2.Keys;
    forall k | k in m1
      ensures m1[k] == m2[k]
    {
      AllPeriodsAt(added, k);
      if k == r {
        assert added[k] == before + [c];
      } else {
        AllPeriodsAt(periods, k);
        assert added[k] == periods[k];
      }
    }
    MapEqual(m1, m2);
  }

  lemma {:induction false} MapEqual(m1: map<nat, nat>, m2: map<nat, nat>)
    requires m1.Keys == m2.Keys && forall k :: k in m1 ==> m1[k] == m2[k]
    ensures m1 == m2
  {
  }

  lemma {:induction false} AllPeriodsKeys(periods: map<nat, seq<nat>>)
    ensures AllPeriods(periods).Keys == periods.Keys
  {
  }

  lemma {:induction false} AllPeriodsAt(periods: map<nat, seq<nat>>, k: nat)
    requires k in periods
    ensures AllPeriods(periods)[k] == Sum(periods[k])
  {
  }


  lemma {:induction false} SumAppend(xs: seq<nat>, c: nat)
    ensures Sum(xs + [c]) == Sum(xs) + c
  {
    assert (xs + [c])[..|xs|] == xs;
  }

  /** The values of all_periods add up to the number of shots. */
  lemma {:induction false} AllPeriodsTotal(counts: seq<(string, nat)>, numQubits: nat)
    requires numQubits >= 1 && AllBitStrings(counts)
    ensures MapSum(AllPeriods(PeriodsOf(counts, numQubits))) == Total(counts)
  {
    if |counts| > 0 {
      var init, last := counts[..|counts| - 1], counts[|counts| - 1];
      AllPeriodsTotal(init, numQubits);
      AddCountTotal(PeriodsOf(init, numQubits), Period(last.0, numQubits), last.1);
      assert Total(counts) == Total(init) + last.1;
    }
  }
}
