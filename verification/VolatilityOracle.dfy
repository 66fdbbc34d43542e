/** The price ring buffer and the volume-weighted mean and price change computed from it. */
module VolatilityOracle {
  import opened Common
  import opened RealSums

  const PRICE_HISTORY_SIZE: nat := 100
  const MIN_DATA_POINTS: nat := 12

  datatype PricePoint = PricePoint(priceUsd: real, timestamp: real, volumeUsd: real)

  const EMPTY_SLOT: PricePoint := PricePoint(0.0, 0.0, 0.0)

  // ----- The list specification -----

  /** The points a scan counts: those with a positive timestamp. */
  function ValidPoints(s: seq<PricePoint>): seq<PricePoint> {
    if s == [] then []
    else
      var n := |s| - 1;
      ValidPoints(s[..n]) + if s[n].timestamp > 0.0 then [s[n]] else []
  }

  function Weight(p: PricePoint): real {
    if p.volumeUsd > 0.0 then p.volumeUsd else 1.0
  }

  function Term(p: PricePoint): real {
    p.priceUsd * Weight(p)
  }

  function Terms(s: seq<PricePoint>): seq<real> {
    seq(|s|, i requires 0 <= i < |s| => Term(s[i]))
  }

  function Weights(s: seq<PricePoint>): seq<real> {
    seq(|s|, i requires 0 <= i < |s| => Weight(s[i]))
  }

  function WeightedSum(s: seq<PricePoint>): real {
    Sum(Terms(s))
  }

  function TotalWeight(s: seq<PricePoint>): real {
    Sum(Weights(s))
  }

  lemma TotalWeightPositive(s: seq<PricePoint>)
    ensures if s == [] then TotalWeight(s) == 0.0 else TotalWeight(s) > 0.0
  {
    SumPositive(Weights(s));
  }

  function Mean(s: seq<PricePoint>): real
    requires s != []
  {
    TotalWeightPositive(s);
    WeightedSum(s) / TotalWeight(s)
  }

  function Change(s: seq<PricePoint>): real
    requires s != []
  {
    var first, last := s[0].priceUsd, s[|s| - 1].priceUsd;
    if first > 0.0 then (last - first) / first else 0.0
  }

  /** Mean and change of the valid points in the order they were fed; both zero below twelve points. */
  function Assessment(s: seq<PricePoint>): (real, real) {
    if |s| < MIN_DATA_POINTS then (0.0, 0.0) else (Mean(s), Change(s))
  }

  /** The last hundred entries of the history, missing ones being empty slots. */
  function Window(history: seq<PricePoint>): seq<PricePoint> {
    (seq(PRICE_HISTORY_SIZE, _ => EMPTY_SLOT) + history)[|history|..]
  }

  function Rotated(buffer: seq<PricePoint>, p: nat): seq<PricePoint>
    requires p <= |buffer|
  {
    buffer[p..] + buffer[..p]
  }

  lemma RotatedAt(buffer: seq<PricePoint>, p: nat, i: nat)
    requires |buffer| == PRICE_HISTORY_SIZE && p < PRICE_HISTORY_SIZE && i < PRICE_HISTORY_SIZE
    ensures Rotated(buffer, p)[i] == buffer[(p + i) % PRICE_HISTORY_SIZE]
  {}

  // ----- Sums do not depend on the rotation -----

  lemma {:induction false} ValidPointsConcat(a: seq<PricePoint>, b: seq<PricePoint>)
    ensures ValidPoints(a + b) == ValidPoints(a) + ValidPoints(b)
  {
    if b == [] {
      assert a + b == a;
    } else {
      var n := |b| - 1;
      assert (a + b)[..|a| + n] == a + b[..n];
      ValidPointsConcat(a, b[..n]);
    }
  }

  lemma SumsConcat(a: seq<PricePoint>, b: seq<PricePoint>)
    ensures WeightedSum(a + b) == WeightedSum(a) + WeightedSum(b)
    ensures TotalWeight(a + b) == TotalWeight(a) + TotalWeight(b)
  {
    SumConcat(Terms(a), Terms(b));
    SumConcat(Weights(a), Weights(b));
    assert Terms(a + b) == Terms(a) + Terms(b) && Weights(a + b) == Weights(a) + Weights(b);
  }

  /** Summing in physical order is summing in feeding order. */
  lemma RotationKeepsSums(buffer: seq<PricePoint>, p: nat)
    requires p <= |buffer|
    ensures var s, r := ValidPoints(buffer), ValidPoints(Rotated(buffer, p));
      WeightedSum(s) == WeightedSum(r) && TotalWeight(s) == TotalWeight(r) && |s| == |r|
  {
    var a, b := buffer[..p], buffer[p..];
    assert buffer == a + b;
    ValidPointsConcat(a, b);
    ValidPointsConcat(b, a);
    SumsConcat(ValidPoints(a), ValidPoints(b));
    SumsConcat(ValidPoints(b), ValidPoints(a));
  }

  // ----- What the result means -----

  /** The last min(count, 100) points fed. */
  function Recent(history: seq<PricePoint>): seq<PricePoint> {
    history[|history| - Min(|history|, PRICE_HISTORY_SIZE)..]
  }

  /** With positive timestamps these are the points assessed. */
  lemma WindowIsLastHundred(history: seq<PricePoint>)
    requires forall i :: 0 <= i < |history| ==> history[i].timestamp > 0.0
    ensures ValidPoints(Window(history)) == Recent(history)
  {
    var empty, tail := seq(PRICE_HISTORY_SIZE - |Recent(history)|, _ => EMPTY_SLOT), Recent(history);
    assert Window(history) == empty + tail;
    ValidPointsConcat(empty, tail);
    NoneValid(empty);
    AllValid(tail);
  }

  lemma {:induction false} NoneValid(s: seq<PricePoint>)
    requires forall i :: 0 <= i < |s| ==> s[i].timestamp <= 0.0
    ensures ValidPoints(s) == []
  {
    if s != [] {
      NoneValid(s[..|s| - 1]);
    }
  }

  lemma {:induction false} AllValid(s: seq<PricePoint>)
    requires forall i :: 0 <= i < |s| ==> s[i].timestamp > 0.0
    ensures ValidPoints(s) == s
  {
    if s != [] {
      var n := |s| - 1;
      AllValid(s[..n]);
      assert s == s[..n] + [s[n]];
    }
  }

  lemma WeightedBounds(s: seq<PricePoint>, lo: real, hi: real)
    requires forall i :: 0 <= i < |s| ==> lo <= s[i].priceUsd <= hi
    ensures Mul(lo, TotalWeight(s)) <= WeightedSum(s) <= Mul(hi, TotalWeight(s))
  {
    forall i | 0 <= i < |s| ensures Mul(lo, Weight(s[i])) <= Term(s[i]) <= Mul(hi, Weight(s[i])) {
      TermBetween(s[i], lo, hi);
    }
    SumMonotone(Times(lo, Weights(s)), Terms(s));
    SumMonotone(Terms(s), Times(hi, Weights(s)));
    SumTimes(lo, Weights(s));
    SumTimes(hi, Weights(s));
  }

  lemma TermBetween(p: PricePoint, lo: real, hi: real)
    requires lo <= p.priceUsd <= hi
    ensures Mul(lo, Weight(p)) <= Term(p) <= Mul(hi, Weight(p))
  {
    var w := Weight(p);
    assert w * (p.priceUsd - lo) >= 0.0 && w * (hi - p.priceUsd) >= 0.0;
  }

  /** The mean is a convex combination: between any bounds on the prices, so between their minimum and maximum. */
  lemma MeanBetween(s: seq<PricePoint>, lo: real, hi: real)
    requires s != [] && forall i :: 0 <= i < |s| ==> lo <= s[i].priceUsd <= hi
    ensures lo <= Mean(s) <= hi
  {
    WeightedBounds(s, lo, hi);
    TotalWeightPositive(s);
    QuotientBetween(WeightedSum(s), TotalWeight(s), lo, hi);
  }

  // ----- The mean and the change, from prices and volumes alone -----

  lemma TermIs(p: PricePoint)
    ensures Term(p) == if p.volumeUsd > 0.0 then p.priceUsd * p.volumeUsd else p.priceUsd
  {}

  /** The weights are the volumes, one for a volume that is not positive. */
  lemma WeightsAreVolumes(s: seq<PricePoint>)
    ensures TotalWeight(s)
            == Sum(seq(|s|, i requires 0 <= i < |s| => if s[i].volumeUsd > 0.0 then s[i].volumeUsd else 1.0))
    ensures WeightedSum(s)
            == Sum(seq(|s|, i requires 0 <= i < |s| =>
                 if s[i].volumeUsd > 0.0 then s[i].priceUsd * s[i].volumeUsd else s[i].priceUsd))
  {
    var volumes := seq(|s|, i requires 0 <= i < |s| => if s[i].volumeUsd > 0.0 then s[i].volumeUsd else 1.0);
    var products := seq(|s|, i requires 0 <= i < |s| =>
      if s[i].volumeUsd > 0.0 then s[i].priceUsd * s[i].volumeUsd else s[i].priceUsd);
    assert Weights(s) == volumes;
    forall i | 0 <= i < |s| ensures Terms(s)[i] == products[i] {
      TermIs(s[i]);
    }
    assert Terms(s) == products;
  }

  lemma MeanTimesWeight(s: seq<PricePoint>)
    requires s != []
    ensures Mean(s) * TotalWeight(s) == WeightedSum(s)
  {
    TotalWeightPositive(s);
  }

  lemma ChangeTimesFirst(s: seq<PricePoint>)
    requires s != []
    ensures if s[0].priceUsd > 0.0 then Change(s) * s[0].priceUsd == s[|s| - 1].priceUsd - s[0].priceUsd
            else Change(s) == 0.0
  {}

  /** From twelve points on, result is the mean weighted by volume and the change from the first to the last price. */
  lemma AssessmentIs(s: seq<PricePoint>)
    ensures |s| < 12 ==> Assessment(s) == (0.0, 0.0)
    ensures |s| >= 12 ==>
      Assessment(s).0 * Sum(seq(|s|, i requires 0 <= i < |s| => if s[i].volumeUsd > 0.0 then s[i].volumeUsd else 1.0))
      == Sum(seq(|s|, i requires 0 <= i < |s| =>
           if s[i].volumeUsd > 0.0 then s[i].priceUsd * s[i].volumeUsd else s[i].priceUsd))
    ensures |s| >= 12 ==>
      if s[0].priceUsd > 0.0 then Assessment(s).1 * s[0].priceUsd == s[|s| - 1].priceUsd - s[0].priceUsd
      else Assessment(s).1 == 0.0
  {
    if |s| >= 12 {
      WeightsAreVolumes(s);
      MeanTimesWeight(s);
      ChangeTimesFirst(s);
    }
  }

  /**
   * What the program returns for positive timestamps is the assessment of the last min(count, 100) points: nothing
   * below twelve; from then on a mean within any bounds on their prices.
   */
  lemma AssessesRecentPrices(history: seq<PricePoint>, lo: real, hi: real)
    requires forall i :: 0 <= i < |history| ==> history[i].timestamp > 0.0
    requires forall i :: 0 <= i < |Recent(history)| ==> lo <= Recent(history)[i].priceUsd <= hi
    ensures var result := Assessment(ValidPoints(Window(history)));
      && result == Assessment(Recent(history))
      && if |history| < 12 then result == (0.0, 0.0) else lo <= result.0 <= hi
  {
    WindowIsLastHundred(history);
    if |history| >= 12 {
      MeanBetween(Recent(history), lo, hi);
    }
  }

  /** From twelve points on it is their mean weighted by volume, and the change from the first of them to the last. */
  lemma RecentMeanIs(history: seq<PricePoint>, s: seq<PricePoint>, result: (real, real))
    requires forall i :: 0 <= i < |history| ==> history[i].timestamp > 0.0
    requires |history| >= 12 && s == history[|history| - (if |history| < 100 then |history| else 100)..]
    requires result == Assessment(ValidPoints(Window(history)))
    ensures result.0 * Sum(seq(|s|, i requires 0 <= i < |s| => if s[i].volumeUsd > 0.0 then s[i].volumeUsd else 1.0))
            == Sum(seq(|s|, i requires 0 <= i < |s| =>
                 if s[i].volumeUsd > 0.0 then s[i].priceUsd * s[i].volumeUsd else s[i].priceUsd))
    ensures if s[0].priceUsd > 0.0 then result.1 * s[0].priceUsd == s[|s| - 1].priceUsd - s[0].priceUsd
            else result.1 == 0.0
  {
    WindowIsLastHundred(history);
    AssessmentIs(s);
  }

  /** The points counted are all those with a positive timestamp, each as often as it occurs. */
  lemma {:induction false} ValidPointsCount(s: seq<PricePoint>, p: PricePoint)
    ensures multiset(ValidPoints(s))[p] == if p.timestamp > 0.0 then multiset(s)[p] else 0
  {
    if s != [] {
      var n := |s| - 1;
      assert s == s[..n] + [s[n]];
      ValidPointsCount(s[..n], p);
    }
  }

  function ScaledPoint(p: PricePoint, c: real): PricePoint {
    PricePoint(c * p.priceUsd, p.timestamp, p.volumeUsd)
  }

  function Scaled(s: seq<PricePoint>, c: real): seq<PricePoint> {
    seq(|s|, i requires 0 <= i < |s| => ScaledPoint(s[i], c))
  }

  lemma TermScales(p: PricePoint, c: real)
    ensures Term(ScaledPoint(p, c)) == Mul(c, Term(p))
  {}

  lemma ScaledSums(s: seq<PricePoint>, c: real)
    ensures WeightedSum(Scaled(s, c)) == Mul(c, WeightedSum(s)) && TotalWeight(Scaled(s, c)) == TotalWeight(s)
  {
    SumTimes(c, Terms(s));
    forall i | 0 <= i < |s| ensures Term(ScaledPoint(s[i], c)) == Mul(c, Term(s[i])) {
      TermScales(s[i], c);
    }
    assert Terms(Scaled(s, c)) == Times(c, Terms(s));
    assert Weights(Scaled(s, c)) == Weights(s);
  }

  lemma {:induction false} ValidScaled(s: seq<PricePoint>, c: real)
    ensures ValidPoints(Scaled(s, c)) == Scaled(ValidPoints(s), c)
  {
    if s != [] {
      var n := |s| - 1;
      ValidScaled(s[..n], c);
      assert Scaled(s, c)[..n] == Scaled(s[..n], c);
    }
  }

  lemma DivScaled(c: real, x: real, y: real)
    requires c != 0.0 && y != 0.0
    ensures c * x / (c * y) == x / y
  {
    var q := x / y;
    assert x == q * y;
    assert c * x == q * (c * y);
  }

  lemma ScaledSign(c: real, x: real)
    requires c > 0.0
    ensures c * x > 0.0 <==> x > 0.0
  {}

  lemma ScaledMean(s: seq<PricePoint>, c: real)
    requires s != [] && c > 0.0
    ensures Mean(Scaled(s, c)) == c * Mean(s)
  {
    ScaledSums(s, c);
    TotalWeightPositive(s);
    ScaledQuotient(c, WeightedSum(s), TotalWeight(s), WeightedSum(Scaled(s, c)));
  }

  lemma ScaledQuotient(c: real, x: real, y: real, x': real)
    requires y != 0.0 && x' == c * x
    ensures x' / y == c * (x / y)
  {
    var q := x / y;
    assert x == q * y;
    assert x' == c * q * y;
  }

  lemma ScaledChange(s: seq<PricePoint>, c: real)
    requires s != [] && c > 0.0
    ensures Change(Scaled(s, c)) == Change(s)
  {
    var first, last := s[0].priceUsd, s[|s| - 1].priceUsd;
    ScaledSign(c, first);
    if first > 0.0 {
      DivScaled(c, last - first, first);
      assert c * last - c * first == c * (last - first);
    }
  }

  lemma ScaledAssessment(s: seq<PricePoint>, c: real)
    requires c > 0.0
    ensures Assessment(Scaled(s, c)).0 == c * Assessment(s).0
    ensures Assessment(Scaled(s, c)).1 == Assessment(s).1
  {
    if |s| >= MIN_DATA_POINTS {
      ScaledMean(s, c);
      ScaledChange(s, c);
    }
  }

  /** Quoting all prices in another unit scales the mean and leaves the change alone. */
  lemma WindowScales(history: seq<PricePoint>, c: real)
    requires c > 0.0
    ensures Assessment(ValidPoints(Window(Scaled(history, c)))).0 == c * Assessment(ValidPoints(Window(history))).0
    ensures Assessment(ValidPoints(Window(Scaled(history, c)))).1 == Assessment(ValidPoints(Window(history))).1
  {
    assert ScaledPoint(EMPTY_SLOT, c) == EMPTY_SLOT;
    assert Window(Scaled(history, c)) == Scaled(Window(history), c);
    ValidScaled(Window(history), c);
    ScaledAssessment(ValidPoints(Window(history)), c);
  }

  // ----- The ring buffer -----

  lemma WindowSlides(history: seq<PricePoint>, x: PricePoint)
    ensures Window(history + [x]) == Window(history)[1..] + [x]
  {}

  class VolatilityOracle {
    const priceHistory: array<PricePoint>
    var priceIndex: nat
    ghost var history: seq<PricePoint>  // every point ever fed, oldest first

    ghost predicate Valid()
      reads this, priceHistory
    {
      && priceHistory.Length == PRICE_HISTORY_SIZE
      && priceIndex < PRICE_HISTORY_SIZE
      && Rotated(priceHistory[..], priceIndex) == Window(history)
    }

    constructor ()
      ensures Valid() && fresh(priceHistory) && history == []
    {
      priceHistory := new PricePoint[PRICE_HISTORY_SIZE](_ => EMPTY_SLOT);
      priceIndex := 0;
      history := [];
    }

    /** Overwrites the oldest slot. The clock reading is an input. */
    method FeedPrice(priceUsd: real, volumeUsd: real, now: real)
      requires Valid()
      modifies this, priceHistory
      ensures Valid() && history == old(history) + [PricePoint(priceUsd, now, volumeUsd)]
    {
      var point := PricePoint(priceUsd, now, volumeUsd);
      WindowSlides(history, point);
      priceHistory[priceIndex] := point;
      priceIndex := (priceIndex + 1) % PRICE_HISTORY_SIZE;
      history := history + [point];
    }

    /** The first scan, in physical order. */
    method SumPoints() returns (totalPrice: real, totalVolume: real, count: nat)
      requires Valid()
      ensures var s := ValidPoints(Window(history));
        totalPrice == WeightedSum(s) && totalVolume == TotalWeight(s) && count == |s|
      ensures var s := ValidPoints(Window(history));
        && totalVolume == Sum(seq(|s|, i requires 0 <= i < |s| => if s[i].volumeUsd > 0.0 then s[i].volumeUsd else 1.0))
        && totalPrice == Sum(seq(|s|, i requires 0 <= i < |s| =>
             if s[i].volumeUsd > 0.0 then s[i].priceUsd * s[i].volumeUsd else s[i].priceUsd))
    {
      WeightsAreVolumes(ValidPoints(Window(history)));
      ghost var buffer := priceHistory[..];
      totalPrice, totalVolume, count := 0.0, 0.0, 0;
      for i := 0 to PRICE_HISTORY_SIZE
        invariant totalPrice == WeightedSum(ValidPoints(buffer[..i]))
        invariant totalVolume == TotalWeight(ValidPoints(buffer[..i]))
        invariant count == |ValidPoints(buffer[..i])|
      {
        ScanStep(buffer, i);
        var pp := priceHistory[i];
        if pp.timestamp > 0.0 {
          if pp.volumeUsd > 0.0 {
            totalPrice := totalPrice + pp.priceUsd * pp.volumeUsd;
            totalVolume := totalVolume + pp.volumeUsd;
          } else {
            totalPrice := totalPrice + pp.priceUsd;
            totalVolume := totalVolume + 1.0;
          }
          count := count + 1;
        }
      }
      assert buffer[..PRICE_HISTORY_SIZE] == buffer;
      RotationKeepsSums(buffer, priceIndex);
    }

    /** The second scan, from the oldest slot on. */
    method FirstAndLast() returns (firstPrice: real, lastPrice: real)
      requires Valid()
      ensures var s := ValidPoints(Window(history));
        s != [] ==> firstPrice == s[0].priceUsd && lastPrice == s[|s| - 1].priceUsd
    {
      ghost var buffer, fed := priceHistory[..], Window(history);
      firstPrice, lastPrice := 0.0, 0.0;
      var foundFirst := false;
      for i := 0 to PRICE_HISTORY_SIZE
        invariant Ends(ValidPoints(fed[..i]), foundFirst, firstPrice, lastPrice)
      {
        ScanStep(fed, i);
        var idx := (priceIndex + i) % PRICE_HISTORY_SIZE;
        RotatedAt(buffer, priceIndex, i);
        var pp := priceHistory[idx];
        assert pp == fed[i];
        if pp.timestamp > 0.0 {
          EndsGrow(ValidPoints(fed[..i]), foundFirst, firstPrice, lastPrice, pp);
          if !foundFirst {
            firstPrice := pp.priceUsd;
            foundFirst := true;
          }
          lastPrice := pp.priceUsd;
        }
      }
      assert fed[..PRICE_HISTORY_SIZE] == fed;
    }

    method ComputeTwap() returns (result: (real, real))
      requires Valid()
      ensures result == Assessment(ValidPoints(Window(history)))
      ensures var s := ValidPoints(Window(history));
        if |s| < 12 then result == (0.0, 0.0)
        else
          && result.0 * Sum(seq(|s|, i requires 0 <= i < |s| => if s[i].volumeUsd > 0.0 then s[i].volumeUsd else 1.0))
             == Sum(seq(|s|, i requires 0 <= i < |s| =>
                  if s[i].volumeUsd > 0.0 then s[i].priceUsd * s[i].volumeUsd else s[i].priceUsd))
          && if s[0].priceUsd > 0.0 then result.1 * s[0].priceUsd == s[|s| - 1].priceUsd - s[0].priceUsd
             else result.1 == 0.0
    {
      AssessmentIs(ValidPoints(Window(history)));
      var totalPrice, totalVolume, count := SumPoints();
      TotalWeightPositive(ValidPoints(Window(history)));
      if count < MIN_DATA_POINTS || totalVolume == 0.0 {
        return (0.0, 0.0);
      }
      var twap := totalPrice / totalVolume;
      var firstPrice, lastPrice := FirstAndLast();
      var change := if firstPrice > 0.0 then (lastPrice - firstPrice) / firstPrice else 0.0;
      return (twap, change);
    }
  }

  /** What the second scan has found after visiting the valid points s. */
  ghost predicate Ends(s: seq<PricePoint>, found: bool, first: real, last: real) {
    if found then s != [] && first == s[0].priceUsd && last == s[|s| - 1].priceUsd else s == []
  }

  lemma EndsGrow(s: seq<PricePoint>, found: bool, first: real, last: real, p: PricePoint)
    requires Ends(s, found, first, last)
    ensures Ends(s + [p], true, if found then first else p.priceUsd, p.priceUsd)
  {}

  /** What one slot adds to a scan. */
  lemma ScanStep(s: seq<PricePoint>, i: nat)
    requires i < |s|
    ensures var before := ValidPoints(s[..i]);
      if s[i].timestamp > 0.0 then
        && ValidPoints(s[..i + 1]) == before + [s[i]]
        && WeightedSum(before + [s[i]]) == WeightedSum(before) + Term(s[i])
        && TotalWeight(before + [s[i]]) == TotalWeight(before) + Weight(s[i])
      else
        ValidPoints(s[..i + 1]) == before
  {
    assert s[..i + 1][..i] == s[..i];
    var before, p := ValidPoints(s[..i]), s[i];
    SumSnoc(Terms(before), Term(p));
    SumSnoc(Weights(before), Weight(p));
    assert Terms(before + [p]) == Terms(before) + [Term(p)];
    assert Weights(before + [p]) == Weights(before) + [Weight(p)];
  }
}
