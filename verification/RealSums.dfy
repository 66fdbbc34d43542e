/** Sums of finite sequences of reals. */
module RealSums {
  function Sum(xs: seq<real>): real {
    if xs == [] then 0.0 else Sum(xs[..|xs| - 1]) + xs[|xs| - 1]
  }

  lemma SumSnoc(xs: seq<real>, x: real)
    ensures Sum(xs + [x]) == Sum(xs) + x
  {
    assert (xs + [x])[..|xs|] == xs;
  }

  lemma {:induction false} SumConcat(xs: seq<real>, ys: seq<real>)
    ensures Sum(xs + ys) == Sum(xs) + Sum(ys)
  {
    if ys == [] {
      assert xs + ys == xs;
    } else {
      var n := |ys| - 1;
      assert (xs + ys)[..|xs| + n] == xs + ys[..n];
      SumConcat(xs, ys[..n]);
    }
  }

  lemma {:induction false} SumMonotone(xs: seq<real>, ys: seq<real>)
    requires |xs| == |ys| && forall i :: 0 <= i < |xs| ==> xs[i] <= ys[i]
    ensures Sum(xs) <= Sum(ys)
  {
    if xs != [] {
      SumMonotone(xs[..|xs| - 1], ys[..|ys| - 1]);
    }
  }

  lemma {:induction false} SumPositive(xs: seq<real>)
    requires forall i :: 0 <= i < |xs| ==> xs[i] > 0.0
    ensures if xs == [] then Sum(xs) == 0.0 else Sum(xs) > 0.0
  {
    if xs != [] {
      SumPositive(xs[..|xs| - 1]);
    }
  }

  function Mul(c: real, x: real): real {
    c * x
  }

  function Times(c: real, xs: seq<real>): seq<real> {
    seq(|xs|, i requires 0 <= i < |xs| => Mul(c, xs[i]))
  }

  lemma Distribute(c: real, x: real, y: real)
    ensures Mul(c, x + y) == Mul(c, x) + Mul(c, y)
  {}

  lemma {:induction false} SumTimes(c: real, xs: seq<real>)
    ensures Sum(Times(c, xs)) == Mul(c, Sum(xs))
  {
    if xs != [] {
      var n := |xs| - 1;
      SumTimes(c, xs[..n]);
      assert Times(c, xs)[..n] == Times(c, xs[..n]);
      Distribute(c, Sum(xs[..n]), xs[n]);
    }
  }

  lemma QuotientBetween(x: real, w: real, lo: real, hi: real)
    requires w > 0.0 && Mul(lo, w) <= x <= Mul(hi, w)
    ensures lo <= x / w <= hi
  {
    var q := x / w;
    assert x == q * w;
    assert q < lo ==> q * w < lo * w;
    assert q > hi ==> q * w > hi * w;
  }
}
