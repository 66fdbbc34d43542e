/** Scores from factor lists and the appraisal computed from three scores. */
module Appraisal {
  import opened Common

  const MAX_SCORE_BPS: nat := 10000
  const TWO_32: nat := 0x1_0000_0000
  const TWO_128: nat := TWO_64 * TWO_64

  type uint8 = x: nat | x < 256
  type uint16 = x: nat | x < 65536

  function SumOf(factors: seq<uint8>): nat {
    if factors == [] then 0 else SumOf(factors[..|factors| - 1]) + factors[|factors| - 1]
  }

  lemma SumOfOne(x: uint8)
    ensures SumOf([x]) == x
  {
    assert [x][..0] == [];
  }

  /** Every factor counts once. */
  lemma {:induction false} SumOfConcat(a: seq<uint8>, b: seq<uint8>)
    ensures SumOf(a + b) == SumOf(a) + SumOf(b)
  {
    if b == [] {
      assert a + b == a;
    } else {
      var n := |b| - 1;
      assert (a + b)[..|a| + n] == a + b[..n];
      SumOfConcat(a, b[..n]);
    }
  }

  /** One more factor, added modulo 2^32. */
  lemma SumStep(factors: seq<uint8>, i: nat)
    requires i < |factors|
    ensures SumOf(factors[..i + 1]) % TWO_32 == (SumOf(factors[..i]) % TWO_32 + factors[i]) % TWO_32
  {
    assert factors[..i + 1][..i] == factors[..i];
  }

  lemma OneMore(n: nat, x: nat)
    ensures (n + 1) * x == n * x + x
  {}

  lemma {:induction false} SumBounds(factors: seq<uint8>, lo: nat, hi: nat)
    requires forall i :: 0 <= i < |factors| ==> lo <= factors[i] <= hi
    ensures |factors| * lo <= SumOf(factors) <= |factors| * hi
  {
    if factors != [] {
      var n := |factors| - 1;
      SumBounds(factors[..n], lo, hi);
      OneMore(n, lo);
      OneMore(n, hi);
    }
  }

  /** The mean the program computes: the 32-bit sum divided by the number of factors. */
  function Mean(factors: seq<uint8>): nat
    requires factors != []
  {
    SumOf(factors) % TWO_32 / |factors|
  }

  /** The score in basis points: one hundred per unit of the mean, wrapping past 10000. */
  function ScoreOf(factors: seq<uint8>): nat {
    if factors == [] then 0 else Mean(factors) * 100 % 10001
  }

  method CalculateScore(factors: seq<uint8>) returns (score: uint16)
    ensures score == ScoreOf(factors) && score <= MAX_SCORE_BPS
    ensures score == if factors == [] then 0 else SumOf(factors) % 0x1_0000_0000 / |factors| * 100 % 10001
  {
    if factors == [] {
      return 0;
    }
    var sum := 0;
    for i := 0 to |factors|
      invariant sum == SumOf(factors[..i]) % TWO_32
    {
      SumStep(factors, i);
      sum := (sum + factors[i]) % TWO_32;
    }
    assert factors[..|factors|] == factors;
    var average := sum / |factors|;
    score := Min(average * 100 % 10001, MAX_SCORE_BPS);
  }

  method CalculateScores(novelty: seq<uint8>, rarity: seq<uint8>, execution: seq<uint8>)
    returns (scores: (uint16, uint16, uint16))
    ensures scores.0 <= MAX_SCORE_BPS && scores.1 <= MAX_SCORE_BPS && scores.2 <= MAX_SCORE_BPS
    ensures scores == (ScoreOf(novelty), ScoreOf(rarity), ScoreOf(execution))
  {
    var n := CalculateScore(novelty);
    var r := CalculateScore(rarity);
    var e := CalculateScore(execution);
    scores := (n, r, e);
  }

  // ----- What a mean says about the factors -----

  lemma DivBetween(s: nat, n: nat, lo: nat, hi: nat)
    requires n > 0 && n * lo <= s <= n * hi
    ensures lo <= s / n <= hi
  {
    var q := s / n;
    assert s == n * q + s % n;
    assert q < lo ==> n * (q + 1) <= n * lo;
    assert q > hi ==> n * q >= n * (hi + 1);
  }

  lemma DivBelow(s: nat, n: nat)
    requires n > 0
    ensures s / n == 0 <==> s < n
  {}

  /** Taking at least n away changes the quotient by n. */
  lemma DivDiffers(s: nat, t: nat, n: nat)
    requires n > 0 && s >= t + n
    ensures s / n != t / n
  {
    var p, q := s / n, t / n;
    assert s == n * p + s % n && t == n * q + t % n;
    assert n * p > n * q;
  }

  /** The 32-bit sum gives the true mean exactly when it does not wrap, or when both means are zero. */
  lemma MeanIsTrueIff(factors: seq<uint8>)
    requires factors != []
    ensures Mean(factors) == SumOf(factors) / |factors| <==> SumOf(factors) < Max(TWO_32, |factors|)
  {
    WrappedQuotientIff(SumOf(factors), |factors|);
  }

  lemma WrappedQuotientIff(s: nat, n: nat)
    requires n > 0
    ensures s % TWO_32 / n == s / n <==> s < Max(TWO_32, n)
  {
    var wrapped := s % TWO_32;
    if s < TWO_32 {
      assert wrapped == s;
    } else if n <= TWO_32 {
      assert wrapped <= s - TWO_32;
      DivDiffers(s, wrapped, n);
    } else {
      DivBelow(wrapped, n);
      DivBelow(s, n);
    }
  }

  /** The mean is never above the largest factor, and not below the smallest one unless the sum wraps. */
  lemma MeanBetween(factors: seq<uint8>, lo: nat, hi: nat)
    requires factors != []
    requires forall i :: 0 <= i < |factors| ==> lo <= factors[i] <= hi
    ensures Mean(factors) <= hi
    ensures SumOf(factors) < Max(TWO_32, |factors|) ==> lo <= Mean(factors)
  {
    SumBounds(factors, lo, hi);
    DivBetween(SumOf(factors) % TWO_32, |factors|, 0, hi);
    DivBetween(SumOf(factors), |factors|, lo, hi);
    MeanIsTrueIff(factors);
  }

  // ----- What a score says about the mean -----

  /** How often one hundred times a mean passes the modulus 10001. */
  function Band(mean: nat): nat {
    if mean <= 100 then 0 else if mean <= 200 then 1 else 2
  }

  lemma ScoreInBand(factors: seq<uint8>)
    requires factors != []
    ensures ScoreOf(factors) == 100 * Mean(factors) - 10001 * Band(Mean(factors))
  {
    MeanBetween(factors, 0, 255);
  }

  /** A score is one hundred times the mean exactly for means up to 100; beyond, it wraps. */
  lemma ScoreIsPercentIff(factors: seq<uint8>)
    requires factors != []
    ensures ScoreOf(factors) == 100 * Mean(factors) <==> Mean(factors) <= 100
  {
    ScoreInBand(factors);
  }

  /**
   * The factors with the higher mean score at least as high exactly when both means lie in one band, or
   * when the means are far enough apart to make up for each band passed.
   */
  lemma ScoreKeepsOrderIff(a: seq<uint8>, b: seq<uint8>)
    requires a != [] && b != [] && Mean(a) <= Mean(b)
    ensures ScoreOf(a) <= ScoreOf(b) <==>
      || Band(Mean(a)) == Band(Mean(b))
      || 100 * (Mean(b) - Mean(a)) >= 10001 * (Band(Mean(b)) - Band(Mean(a)))
  {
    ScoreInBand(a);
    ScoreInBand(b);
  }

  /** Better factors can lower a score: a mean of 101 scores 99 basis points, one of 100 scores 10000. */
  lemma ScoreIsNotMonotone()
    ensures ScoreOf([100]) == 10000 && ScoreOf([101]) == 99
  {
    assert [100][..0] == [] && [101][..0] == [];
    assert SumOf([100]) == 100 && SumOf([101]) == 101;
  }

  // ----- The appraisal -----

  const NORMALIZER: nat := 1000000000

  function Product(base: nat, novelty: nat, rarity: nat, difficulty: nat): nat {
    base * (10000 + novelty) * (10000 + rarity) * (10000 + difficulty)
  }

  /** The appraisal before the final cast to 64 bits. */
  function Quotient(base: nat, novelty: nat, rarity: nat, difficulty: nat): nat {
    Product(base, novelty, rarity, difficulty) / NORMALIZER
  }

  /** The value an unsigned 128-bit register holds after computing x. */
  function Wrap128(x: nat): nat {
    x % TWO_128
  }

  lemma Wrap128Fits(x: nat)
    requires x < TWO_128
    ensures Wrap128(x) == x
  {}

  /** The 128-bit intermediate values, and the result cast to 64 bits. */
  method CalculateAppraisal(base: uint64, novelty: uint16, rarity: uint16, difficulty: uint16) returns (r: uint64)
    ensures r == Wrap(Quotient(base, novelty, rarity, difficulty))
    ensures r == Wrap(base * (10000 + novelty) * (10000 + rarity) * (10000 + difficulty) / 1000000000)
  {
    ProductFits(base, novelty, rarity, difficulty);
    Wrap128Fits(base * (10000 + novelty));
    Wrap128Fits(base * (10000 + novelty) * (10000 + rarity));
    Wrap128Fits(Product(base, novelty, rarity, difficulty));
    var total: nat := base;
    total := Wrap128(total * (10000 + novelty));
    total := Wrap128(total * (10000 + rarity));
    total := Wrap128(total * (10000 + difficulty));
    total := total / NORMALIZER;
    r := Wrap(total);
  }

  lemma MulLe(a: nat, b: nat, c: nat, d: nat)
    requires a <= b && c <= d
    ensures a * c <= b * d
  {
    assert a * c <= b * c;
    assert b * c <= b * d;
  }

  /** No step of the 128-bit product overflows, for any 16-bit scores and any 64-bit base. */
  lemma ProductFits(base: uint64, novelty: uint16, rarity: uint16, difficulty: uint16)
    ensures base * (10000 + novelty) < TWO_128
    ensures base * (10000 + novelty) * (10000 + rarity) < TWO_128
    ensures Product(base, novelty, rarity, difficulty) < TWO_128
  {
    MulLe(base, TWO_64, 10000 + novelty, 76000);
    MulLe(base * (10000 + novelty), TWO_64 * 76000, 10000 + rarity, 76000);
    MulLe(base * (10000 + novelty) * (10000 + rarity), TWO_64 * 76000 * 76000, 10000 + difficulty, 76000);
  }

  lemma ProductMonotone(
    base: nat, novelty: nat, rarity: nat, difficulty: nat, base': nat, novelty': nat, rarity': nat, difficulty': nat)
    requires base <= base' && novelty <= novelty' && rarity <= rarity' && difficulty <= difficulty'
    ensures Product(base, novelty, rarity, difficulty) <= Product(base', novelty', rarity', difficulty')
  {
    MulLe(base, base', 10000 + novelty, 10000 + novelty');
    MulLe(base * (10000 + novelty), base' * (10000 + novelty'), 10000 + rarity, 10000 + rarity');
    MulLe(base * (10000 + novelty) * (10000 + rarity), base' * (10000 + novelty') * (10000 + rarity'),
          10000 + difficulty, 10000 + difficulty');
  }

  /** The appraisal is monotone in every argument. */
  lemma AppraisalMonotone(
    base: nat, novelty: nat, rarity: nat, difficulty: nat, base': nat, novelty': nat, rarity': nat, difficulty': nat)
    requires base <= base' && novelty <= novelty' && rarity <= rarity' && difficulty <= difficulty'
    ensures Quotient(base, novelty, rarity, difficulty) <= Quotient(base', novelty', rarity', difficulty')
  {
    ProductMonotone(base, novelty, rarity, difficulty, base', novelty', rarity', difficulty');
  }

  lemma ProductLinear(base: nat, novelty: nat, rarity: nat, difficulty: nat)
    ensures Product(base, novelty, rarity, difficulty)
            == base * ((10000 + novelty) * (10000 + rarity) * (10000 + difficulty))
  {
    var a, b, c := 10000 + novelty, 10000 + rarity, 10000 + difficulty;
    assert base * a * b == base * (a * b);
    assert base * (a * b) * c == base * (a * b * c);
  }

  /** With scores in range the appraisal is 1000 to 8000 times the base, so it fits when 8000 * base does. */
  lemma AppraisalRange(base: nat, novelty: nat, rarity: nat, difficulty: nat)
    requires novelty <= MAX_SCORE_BPS && rarity <= MAX_SCORE_BPS && difficulty <= MAX_SCORE_BPS
    ensures 1000 * base <= Quotient(base, novelty, rarity, difficulty) <= 8000 * base
    ensures 8000 * base < TWO_64 ==>
      Wrap(Quotient(base, novelty, rarity, difficulty)) == Quotient(base, novelty, rarity, difficulty)
  {
    ProductMonotone(base, 0, 0, 0, base, novelty, rarity, difficulty);
    ProductMonotone(base, novelty, rarity, difficulty, base, 10000, 10000, 10000);
    ProductLinear(base, 0, 0, 0);
    ProductLinear(base, 10000, 10000, 10000);
  }

  /** Appraising two values separately loses at most one unit against appraising their sum. */
  lemma AppraisalNearlyAdditive(a: nat, b: nat, novelty: nat, rarity: nat, difficulty: nat)
    ensures var f := (x: nat) => Quotient(x, novelty, rarity, difficulty);
      f(a) + f(b) <= f(a + b) <= f(a) + f(b) + 1
  {
    ProductLinear(a, novelty, rarity, difficulty);
    ProductLinear(b, novelty, rarity, difficulty);
    ProductLinear(a + b, novelty, rarity, difficulty);
    var m := (10000 + novelty) * (10000 + rarity) * (10000 + difficulty);
    assert (a + b) * m == a * m + b * m;
  }

  /** The documented formula base * (1 + n) * (1 + r) * (1 + d), rounded down; scores are in units of 1 / 10000. */
  function Documented(base: nat, novelty: nat, rarity: nat, difficulty: nat): nat {
    Product(base, novelty, rarity, difficulty) / 1000000000000
  }

  function Factor(score: nat): real {
    1.0 + score as real / 10000.0
  }

  lemma DocumentedIsFormula(base: nat, novelty: nat, rarity: nat, difficulty: nat)
    ensures Documented(base, novelty, rarity, difficulty)
            == (base as real * Factor(novelty) * Factor(rarity) * Factor(difficulty)).Floor
  {
    var x, f, g := base as real, Factor(novelty), Factor(rarity);
    var a, b, c := (10000 + novelty) as real, (10000 + rarity) as real, (10000 + difficulty) as real;
    assert x * f == x * a / 10000.0;
    assert x * f * g == x * a * b / 100000000.0;
    assert x * f * g * Factor(difficulty) == x * a * b * c / 1000000000000.0;
    assert Product(base, novelty, rarity, difficulty) as real == x * a * b * c;
    FloorOfQuotient(Product(base, novelty, rarity, difficulty), 1000000000000);
  }

  lemma FloorOfQuotient(p: nat, q: nat)
    requires q > 0
    ensures (p as real / q as real).Floor == p / q
  {
    var d := p / q;
    assert d as real * q as real <= p as real < (d + 1) as real * q as real;
    QuotientIn(p as real, q as real, d as real);
  }

  lemma MulOrder(x: real, y: real, q: real)
    requires q > 0.0
    ensures x < y ==> x * q < y * q
    ensures x <= y ==> x * q <= y * q
  {
    assert (y - x) * q == y * q - x * q;
  }

  lemma QuotientIn(p: real, q: real, d: real)
    requires q > 0.0 && d * q <= p < (d + 1.0) * q
    ensures d <= p / q < d + 1.0
  {
    var r := p / q;
    assert r * q == p;
    MulOrder(r, d, q);
    MulOrder(d + 1.0, r, q);
  }

  /** The code's divisor is 1000 times smaller, so before the cast only base 0 gives the documented value. */
  lemma QuotientIsDocumentedIff(base: nat, novelty: nat, rarity: nat, difficulty: nat)
    ensures Quotient(base, novelty, rarity, difficulty) == Documented(base, novelty, rarity, difficulty) <==> base == 0
  {
    ProductMonotone(base, 0, 0, 0, base, novelty, rarity, difficulty);
    ProductLinear(base, 0, 0, 0);
    ProductLinear(base, novelty, rarity, difficulty);
  }

  /**
   * The returned value is the documented one for base 0 only, as long as the quotient fits 64 bits; beyond, also
   * where the cast happens to take away just the difference.
   */
  lemma DocumentedFormulaIff(base: nat, novelty: nat, rarity: nat, difficulty: nat)
    ensures var q, d := Quotient(base, novelty, rarity, difficulty), Documented(base, novelty, rarity, difficulty);
      && (Wrap(q) == d <==> base == 0 || (q >= TWO_64 > d && Wrap(q - d) == 0))
      && (q < TWO_64 ==> (Wrap(q) == d <==> base == 0))
  {
    QuotientIsDocumentedIff(base, novelty, rarity, difficulty);
    WrapMeetsIff(Quotient(base, novelty, rarity, difficulty), Documented(base, novelty, rarity, difficulty));
  }

  lemma WrapMeetsIff(q: nat, d: nat)
    ensures Wrap(q) == d <==> d < TWO_64 && Wrap(q - d) == 0
  {}

  /** That happens. */
  lemma CastCanMeetDocumented()
    ensures Wrap(Quotient(14900144124394973753, 100, 0, 0)) == Documented(14900144124394973753, 100, 0, 0)
  {}
}
