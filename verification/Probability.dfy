/** Uncertain values: moments of weighted outcomes and the variance of a product. */
module Probability {
  import opened Common

  /** An outcome (its text already parsed to a number) and its weight. */
  datatype Outcome = Outcome(value: real, weight: real)

  datatype UncertainValue =
    | Normal(mean: real, stdDev: real)
    | ConfidenceInterval(lower: real, upper: real, confidence: real)
    | Discrete(outcomes: seq<Outcome>)
    | Beta(alpha: real, beta: real)
    | Samples(data: seq<real>)

  /** A value whose mean and variance divide by zero nowhere. */
  predicate Divides(v: UncertainValue) {
    v.Beta? ==> v.alpha + v.beta != 0.0 && v.alpha + v.beta + 1.0 != 0.0
  }

  type ProbabilisticValue = v: UncertainValue | Divides(v) witness Samples([])

  /** A mean with its variance (the square of the standard deviation). */
  datatype Moments = Moments(mean: real, variance: real)

  function Weight(os: seq<Outcome>): real {
    if os == [] then 0.0 else Weight(os[..|os| - 1]) + os[|os| - 1].weight
  }

  function Term1(o: Outcome): real {
    o.value * o.weight
  }

  function Term2(o: Outcome): real {
    (o.value * o.value) * o.weight
  }

  function FirstMoment(os: seq<Outcome>): real {
    if os == [] then 0.0 else FirstMoment(os[..|os| - 1]) + Term1(os[|os| - 1])
  }

  function SecondMoment(os: seq<Outcome>): real {
    if os == [] then 0.0 else SecondMoment(os[..|os| - 1]) + Term2(os[|os| - 1])
  }

  function Sum(xs: seq<real>): real {
    if xs == [] then 0.0 else Sum(xs[..|xs| - 1]) + xs[|xs| - 1]
  }

  /** The same outcomes, equally weighted. */
  function Unweighted(os: seq<Outcome>): seq<real> {
    seq(|os|, i requires 0 <= i < |os| => os[i].value)
  }

  function Square(x: real): (r: real)
    ensures r >= 0.0
  {
    x * x
  }

  function SquaredDeviations(xs: seq<real>, mean: real): real {
    if xs == [] then 0.0
    else SquaredDeviations(xs[..|xs| - 1], mean) + Square(xs[|xs| - 1] - mean)
  }

  /** The nearest integer, halves away from zero. */
  function Round(x: real): int {
    if x >= 0.0 then (x + 0.5).Floor else -((0.5 - x).Floor)
  }

  /** Half-width of an interval of the given confidence, in standard deviations. */
  function ApproximateZ(confidence: real): (z: real)
    ensures z > 0.0
  {
    match Round(confidence * 100.0)
    case 50 => 0.674
    case 80 => 1.282
    case 90 => 1.645
    case 95 => 1.96
    case 99 => 2.576
    case _ => 1.96
  }

  function BetaMean(alpha: real, beta: real): real
    requires alpha + beta != 0.0
  {
    alpha / (alpha + beta)
  }

  function BetaVariance(alpha: real, beta: real): real
    requires alpha + beta != 0.0 && alpha + beta + 1.0 != 0.0
  {
    var n := alpha + beta;
    assert n * n != 0.0;
    assert (n * n) * (n + 1.0) != 0.0;
    (alpha * beta) / ((n * n) * (n + 1.0))
  }

  function Expected(v: ProbabilisticValue): real {
    match v
    case Normal(mean, _) => mean
    case ConfidenceInterval(lower, upper, _) => (lower + upper) / 2.0
    case Beta(alpha, beta) => BetaMean(alpha, beta)
    case Discrete(os) =>
      if os == [] then 0.0
      else if Weight(os) == 0.0 then Sum(Unweighted(os)) / |os| as real
      else FirstMoment(os) / Weight(os)
    case Samples(data) => if data == [] then 0.0 else Sum(data) / |data| as real
  }

  function Variance(v: ProbabilisticValue): Option<real> {
    match v
    case Normal(_, stdDev) => Some(Square(stdDev))
    case ConfidenceInterval(lower, upper, confidence) =>
      Some(Square((upper - lower) / 2.0 / ApproximateZ(confidence)))
    case Beta(alpha, beta) => Some(BetaVariance(alpha, beta))
    case Discrete(os) =>
      if os == [] then Some(0.0)
      else if Weight(os) == 0.0 then Some(0.0)
      else Some(SecondMoment(os) / Weight(os) - Expected(v) * Expected(v))
    case Samples(data) =>
      if |data| < 2 then None
      else Some(SquaredDeviations(data, Expected(v)) / |data| as real)
  }

  function OrZero(v: Option<real>): real {
    if v.Some? then v.value else 0.0
  }

  /** The product of two independent values, by mean and variance. */
  function Mul(a: ProbabilisticValue, b: ProbabilisticValue): Moments {
    var e1, e2, v1, v2 := Expected(a), Expected(b), OrZero(Variance(a)), OrZero(Variance(b));
    var variance := (e1 * e1) * v2 + (e2 * e2) * v1;
    Moments(e1 * e2, if variance < 0.0 then 0.0 else variance)
  }

  // ---------------------------------------------------------------- real arithmetic

  lemma QuotientIs(x: real, n: real, y: real)
    requires n != 0.0 && y * n == x
    ensures x / n == y
  {
    var r := x / n;
    assert r * n == x;
    assert (r - y) * n == 0.0;
  }

  lemma QuotientOfProducts(a: real, b: real, c: real, d: real)
    requires b != 0.0 && d != 0.0
    ensures b * d != 0.0 && (a * c) / (b * d) == (a / b) * (c / d)
  {
    var p, q := a / b, c / d;
    assert p * b == a && q * d == c;
    assert b * d != 0.0;
    assert (p * q) * (b * d) == (p * b) * (q * d);
    QuotientIs(a * c, b * d, p * q);
  }

  lemma NonNegativeProduct(x: real, y: real)
    requires x >= 0.0 && y >= 0.0
    ensures x * y >= 0.0
  {
  }

  lemma NonNegativeQuotient(x: real, n: real)
    requires x >= 0.0 && n > 0.0
    ensures x / n >= 0.0
  {
  }

  // ---------------------------------------------------------------- the variance of a discrete value

  ghost predicate Weighted(os: seq<Outcome>) {
    (forall i :: 0 <= i < |os| ==> os[i].weight >= 0.0) && Weight(os) > 0.0
  }

  function TermC(o: Outcome, m: real): real {
    ((o.value - m) * (o.value - m)) * o.weight
  }

  /** Weighted squared distances from m. */
  function CentredSum(os: seq<Outcome>, m: real): real {
    if os == [] then 0.0 else CentredSum(os[..|os| - 1], m) + TermC(os[|os| - 1], m)
  }

  /** S - 2 m F + m^2 W, a function linear in S, F and W. */
  function Spread(S: real, F: real, W: real, m: real): real {
    S - 2.0 * (m * F) + (m * m) * W
  }

  lemma Distribute(f: real, x: real, y: real)
    ensures f * (x + y) == f * x + f * y
  {
  }

  lemma SpreadAdds(S: real, F: real, W: real, s: real, f: real, w: real, m: real)
    ensures Spread(S + s, F + f, W + w, m) == Spread(S, F, W, m) + Spread(s, f, w, m)
    ensures Spread(0.0, 0.0, 0.0, m) == 0.0
  {
    Distribute(m, F, f);
    Distribute(m * m, W, w);
  }

  lemma TermSpread(o: Outcome, m: real)
    ensures TermC(o, m) == Spread(Term2(o), Term1(o), o.weight, m)
  {
  }

  lemma {:induction false} CentredSumExpands(os: seq<Outcome>, m: real)
    ensures CentredSum(os, m) == Spread(SecondMoment(os), FirstMoment(os), Weight(os), m)
  {
    hide Spread, TermC, Term1, Term2;
    if os == [] {
      SpreadAdds(0.0, 0.0, 0.0, 0.0, 0.0, 0.0, m);
    } else {
      var init, o := os[..|os| - 1], os[|os| - 1];
      CentredSumExpands(init, m);
      TermSpread(o, m);
      SpreadAdds(SecondMoment(init), FirstMoment(init), Weight(init), Term2(o), Term1(o), o.weight, m);
    }
  }

  lemma {:induction false} CentredSumNonNegative(os: seq<Outcome>, m: real)
    requires forall i :: 0 <= i < |os| ==> os[i].weight >= 0.0
    ensures CentredSum(os, m) >= 0.0
  {
    if os != [] {
      var d := os[|os| - 1].value - m;
      CentredSumNonNegative(os[..|os| - 1], m);
      assert d * d >= 0.0;
      NonNegativeProduct(d * d, os[|os| - 1].weight);
    }
  }

  lemma QuotientTimes(x: real, n: real)
    requires n != 0.0
    ensures (x / n) * n == x
  {
  }

  lemma SpreadAtMean(W: real, F: real, S: real, m: real)
    requires W != 0.0 && m * W == F
    ensures Spread(S, F, W, m) / W == S / W - m * m
  {
    var s := S / W;
    QuotientTimes(S, W);
    assert (m * m) * W == m * (m * W);
    assert (s - m * m) * W == s * W - (m * m) * W;
    QuotientIs(Spread(S, F, W, m), W, s - m * m);
  }

  /** E[X^2] - E[X]^2 is the centred weighted mean of squares. */
  lemma DiscreteVarianceIsCentred(os: seq<Outcome>)
    requires os != [] && Weight(os) != 0.0
    ensures Variance(Discrete(os)) == Some(CentredSum(os, Expected(Discrete(os))) / Weight(os))
  {
    hide Spread, TermC, Term1, Term2;
    var W, F, S, m := Weight(os), FirstMoment(os), SecondMoment(os), Expected(Discrete(os));
    CentredSumExpands(os, m);
    QuotientTimes(F, W);
    SpreadAtMean(W, F, S, m);
    assert Variance(Discrete(os)).value == S / W - m * m;
    assert CentredSum(os, m) / W == Spread(S, F, W, m) / W;
  }

  /** A variance is never negative. */
  lemma DiscreteVarianceNonNegative(os: seq<Outcome>)
    requires Weighted(os)
    ensures Variance(Discrete(os)).Some? && Variance(Discrete(os)).value >= 0.0
  {
    var m := Expected(Discrete(os));
    DiscreteVarianceIsCentred(os);
    CentredSumNonNegative(os, m);
    NonNegativeQuotient(CentredSum(os, m), Weight(os));
  }

  // ---------------------------------------------------------------- samples are equally weighted outcomes

  function EquallyWeighted(data: seq<real>): seq<Outcome> {
    seq(|data|, i requires 0 <= i < |data| => Outcome(data[i], 1.0))
  }

  lemma {:induction false} EqualWeights(data: seq<real>, m: real)
    ensures Weight(EquallyWeighted(data)) == |data| as real
    ensures FirstMoment(EquallyWeighted(data)) == Sum(data)
    ensures CentredSum(EquallyWeighted(data), m) == SquaredDeviations(data, m)
  {
    if data != [] {
      var os := EquallyWeighted(data);
      EqualWeights(data[..|data| - 1], m);
      assert os[..|os| - 1] == EquallyWeighted(data[..|data| - 1]);
    }
  }

  /** Two ways to compute one variance agree. */
  lemma SamplesAreDiscrete(data: seq<real>)
    requires |data| >= 2
    ensures Expected(Samples(data)) == Expected(Discrete(EquallyWeighted(data)))
    ensures Variance(Samples(data)) == Variance(Discrete(EquallyWeighted(data)))
  {
    EqualWeights(data, Sum(data) / |data| as real);
    DiscreteVarianceIsCentred(EquallyWeighted(data));
  }

  // ---------------------------------------------------------------- the product of independent values

  function Times(a: real, b: real): real {
    a * b
  }

  lemma TimesAdds(a: real, b: real, f: real)
    ensures Times(f, a + b) == Times(f, a) + Times(f, b)
    ensures Times(a + b, f) == Times(a, f) + Times(b, f)
    ensures Times(f, 0.0) == Times(0.0, f) == 0.0
  {
  }

  /** One pair of independent outcomes. */
  function Both(x: Outcome, y: Outcome): Outcome {
    Outcome(x.value * y.value, x.weight * y.weight)
  }

  function Scaled(x: Outcome, ys: seq<Outcome>): seq<Outcome> {
    seq(|ys|, i requires 0 <= i < |ys| => Both(x, ys[i]))
  }

  /** The distribution of X * Y: one outcome for each pair of outcomes. */
  function Product(xs: seq<Outcome>, ys: seq<Outcome>): seq<Outcome> {
    if xs == [] then [] else Product(xs[..|xs| - 1], ys) + Scaled(xs[|xs| - 1], ys)
  }

  lemma {:induction false} MomentsOfAppend(a: seq<Outcome>, b: seq<Outcome>)
    ensures Weight(a + b) == Weight(a) + Weight(b)
    ensures FirstMoment(a + b) == FirstMoment(a) + FirstMoment(b)
    ensures SecondMoment(a + b) == SecondMoment(a) + SecondMoment(b)
  {
    if b == [] {
      assert a + b == a;
    } else {
      MomentsOfAppend(a, b[..|b| - 1]);
      assert (a + b)[..|a + b| - 1] == a + b[..|b| - 1];
    }
  }

  lemma Regroup(a: real, b: real, c: real, d: real)
    ensures (a * b) * (c * d) == (a * c) * (b * d)
  {
  }

  lemma TermsOfBoth(x: Outcome, y: Outcome)
    ensures Both(x, y).weight == Times(x.weight, y.weight)
    ensures Term1(Both(x, y)) == Times(Term1(x), Term1(y))
    ensures Term2(Both(x, y)) == Times(Term2(x), Term2(y))
  {
    var v, w := x.value, y.value;
    assert (v * w) * (v * w) == (v * v) * (w * w);
    Regroup(v * v, w * w, x.weight, y.weight);
    Regroup(v, w, x.weight, y.weight);
  }

  lemma {:induction false} MomentsOfScaled(x: Outcome, ys: seq<Outcome>)
    ensures Weight(Scaled(x, ys)) == Times(x.weight, Weight(ys))
    ensures FirstMoment(Scaled(x, ys)) == Times(Term1(x), FirstMoment(ys))
    ensures SecondMoment(Scaled(x, ys)) == Times(Term2(x), SecondMoment(ys))
  {
    hide Term1, Term2, Both, Times;
    if ys == [] {
      TimesAdds(0.0, 0.0, x.weight);
      TimesAdds(0.0, 0.0, Term1(x));
      TimesAdds(0.0, 0.0, Term2(x));
    } else {
      var init, y := ys[..|ys| - 1], ys[|ys| - 1];
      var s := Scaled(x, ys);
      MomentsOfScaled(x, init);
      assert s[..|s| - 1] == Scaled(x, init);
      TermsOfBoth(x, y);
      TimesAdds(Weight(init), y.weight, x.weight);
      TimesAdds(FirstMoment(init), Term1(y), Term1(x));
      TimesAdds(SecondMoment(init), Term2(y), Term2(x));
    }
  }

  lemma {:induction false} MomentsOfProduct(xs: seq<Outcome>, ys: seq<Outcome>)
    ensures Weight(Product(xs, ys)) == Times(Weight(xs), Weight(ys))
    ensures FirstMoment(Product(xs, ys)) == Times(FirstMoment(xs), FirstMoment(ys))
    ensures SecondMoment(Product(xs, ys)) == Times(SecondMoment(xs), SecondMoment(ys))
  {
    hide Term1, Term2, Both, Times;
    if xs == [] {
      TimesAdds(0.0, 0.0, Weight(ys));
      TimesAdds(0.0, 0.0, FirstMoment(ys));
      TimesAdds(0.0, 0.0, SecondMoment(ys));
    } else {
      var init, x := xs[..|xs| - 1], xs[|xs| - 1];
      MomentsOfProduct(init, ys);
      MomentsOfScaled(x, ys);
      MomentsOfAppend(Product(init, ys), Scaled(x, ys));
      TimesAdds(Weight(init), x.weight, Weight(ys));
      TimesAdds(FirstMoment(init), Term1(x), FirstMoment(ys));
      TimesAdds(SecondMoment(init), Term2(x), SecondMoment(ys));
    }
  }

  lemma TimesOfQuotients(a: real, b: real, c: real, d: real)
    requires b != 0.0 && d != 0.0
    ensures Times(b, d) != 0.0 && Times(a, c) / Times(b, d) == Times(a / b, c / d)
  {
    QuotientOfProducts(a, b, c, d);
  }

  lemma ProductNotEmpty(xs: seq<Outcome>, ys: seq<Outcome>)
    requires xs != [] && ys != []
    ensures Product(xs, ys) != []
  {
    assert |Scaled(xs[|xs| - 1], ys)| == |ys|;
  }

  lemma VarianceFrom(os: seq<Outcome>, e: real, s: real)
    requires os != [] && Weight(os) != 0.0
    requires FirstMoment(os) / Weight(os) == e && SecondMoment(os) / Weight(os) == s
    ensures Expected(Discrete(os)) == e && Variance(Discrete(os)) == Some(s - Times(e, e))
  {
    var m := Expected(Discrete(os));
    assert m == e;
    assert Variance(Discrete(os)).value == s - m * m;
    assert m * m == e * e;
  }

  /** The true moments of the product distribution. */
  lemma ProductVariance(xs: seq<Outcome>, ys: seq<Outcome>, e1: real, e2: real, s1: real, s2: real)
    requires Weighted(xs) && Weighted(ys)
    requires e1 == FirstMoment(xs) / Weight(xs) && e2 == FirstMoment(ys) / Weight(ys)
    requires s1 == SecondMoment(xs) / Weight(xs) && s2 == SecondMoment(ys) / Weight(ys)
    ensures Expected(Discrete(Product(xs, ys))) == Times(e1, e2)
    ensures Variance(Discrete(Product(xs, ys))) == Some(Times(s1, s2) - Times(Times(e1, e2), Times(e1, e2)))
  {
    hide Times;
    ProductNotEmpty(xs, ys);
    MomentsOfProduct(xs, ys);
    var os := Product(xs, ys);
    TimesOfQuotients(FirstMoment(xs), Weight(xs), FirstMoment(ys), Weight(ys));
    TimesOfQuotients(SecondMoment(xs), Weight(xs), SecondMoment(ys), Weight(ys));
    VarianceFrom(os, Times(e1, e2), Times(s1, s2));
  }

  // ---------------------------------------------------------------- what mul computes

  lemma MeanAndVariance(os: seq<Outcome>, v: real)
    requires Weighted(os) && Variance(Discrete(os)) == Some(v)
    ensures Expected(Discrete(os)) == FirstMoment(os) / Weight(os)
    ensures v == SecondMoment(os) / Weight(os) - Expected(Discrete(os)) * Expected(Discrete(os))
  {
  }

  lemma VarianceIdentity(e1: real, e2: real, s1: real, s2: real, v1: real, v2: real)
    requires v1 == s1 - e1 * e1 && v2 == s2 - e2 * e2
    ensures Times(s1, s2) - Times(Times(e1, e2), Times(e1, e2)) == (e1 * e1) * v2 + (e2 * e2) * v1 + v1 * v2
  {
    var a, b := e1 * e1, e2 * e2;
    assert (e1 * e2) * (e1 * e2) == a * b;
    assert s1 == v1 + a && s2 == v2 + b;
    assert (v1 + a) * (v2 + b) == v1 * v2 + v1 * b + a * v2 + a * b;
  }

  /** The variance of the product of independent values with means e1, e2 and variances v1, v2:
      E[X^2] E[Y^2] - (E[X] E[Y])^2, where E[X^2] is v1 + e1^2. */
  function ProductSpread(e1: real, v1: real, e2: real, v2: real): real {
    Times(v1 + e1 * e1, v2 + e2 * e2) - Times(Times(e1, e2), Times(e1, e2))
  }

  lemma SpreadFromMoments(e1: real, v1: real, s1: real, e2: real, v2: real, s2: real)
    requires v1 == s1 - e1 * e1 && v2 == s2 - e2 * e2
    ensures ProductSpread(e1, v1, e2, v2) == Times(s1, s2) - Times(Times(e1, e2), Times(e1, e2))
  {
    assert v1 + e1 * e1 == s1 && v2 + e2 * e2 == s2;
    hide Times;
  }

  /** For discrete values these are the mean and the variance of the product distribution. */
  lemma ProductSpreadOfDiscrete(xs: seq<Outcome>, ys: seq<Outcome>, v1: real, v2: real)
    requires Weighted(xs) && Weighted(ys)
    requires Variance(Discrete(xs)) == Some(v1) && Variance(Discrete(ys)) == Some(v2)
    ensures Expected(Discrete(Product(xs, ys))) == Times(Expected(Discrete(xs)), Expected(Discrete(ys)))
    ensures Variance(Discrete(Product(xs, ys))) ==
            Some(ProductSpread(Expected(Discrete(xs)), v1, Expected(Discrete(ys)), v2))
  {
    hide Times, Expected, Variance;
    var e1, e2 := Expected(Discrete(xs)), Expected(Discrete(ys));
    MeanAndVariance(xs, v1);
    MeanAndVariance(ys, v2);
    SpreadFromMoments(e1, v1, SecondMoment(xs) / Weight(xs), e2, v2, SecondMoment(ys) / Weight(ys));
    ProductVariance(xs, ys, e1, e2, SecondMoment(xs) / Weight(xs), SecondMoment(ys) / Weight(ys));
  }

  lemma SpreadIdentity(e1: real, v1: real, e2: real, v2: real)
    ensures ProductSpread(e1, v1, e2, v2) == (e1 * e1) * v2 + (e2 * e2) * v1 + v1 * v2
  {
    hide Times;
    VarianceIdentity(e1, e2, v1 + e1 * e1, v2 + e2 * e2, v1, v2);
  }

  lemma GuardIdle(e1: real, e2: real, v1: real, v2: real)
    requires v1 >= 0.0 && v2 >= 0.0
    ensures (e1 * e1) * v2 + (e2 * e2) * v1 >= 0.0
  {
    assert e1 * e1 >= 0.0 && e2 * e2 >= 0.0;
    NonNegativeProduct(e1 * e1, v2);
    NonNegativeProduct(e2 * e2, v1);
  }

  lemma MulComputes(a: ProbabilisticValue, b: ProbabilisticValue, v1: real, v2: real)
    requires Variance(a) == Some(v1) && Variance(b) == Some(v2) && v1 >= 0.0 && v2 >= 0.0
    ensures var e1, e2 := Expected(a), Expected(b);
            Mul(a, b) == Moments(e1 * e2, (e1 * e1) * v2 + (e2 * e2) * v1)
  {
    hide Variance, Expected;
    GuardIdle(Expected(a), Expected(b), v1, v2);
  }

  /** For any two values, Normal ones included, the mean of mul is the product of the means, and its
      variance falls short by exactly the product of the variances. */
  lemma MulFallsShort(a: ProbabilisticValue, b: ProbabilisticValue, v1: real, v2: real)
    requires Variance(a) == Some(v1) && Variance(b) == Some(v2) && v1 >= 0.0 && v2 >= 0.0
    ensures Mul(a, b).mean == Expected(a) * Expected(b)
    ensures ProductSpread(Expected(a), v1, Expected(b), v2) == Mul(a, b).variance + v1 * v2
  {
    hide *;
    MulComputes(a, b, v1, v2);
    SpreadIdentity(Expected(a), v1, Expected(b), v2);
  }

  lemma NonZeroProduct(x: real, y: real)
    ensures x * y == 0.0 <==> x == 0.0 || y == 0.0
  {
  }

  /** The stored variance is that of the product exactly when one of the factors is certain. */
  lemma MulExactIff(a: ProbabilisticValue, b: ProbabilisticValue, v1: real, v2: real)
    requires Variance(a) == Some(v1) && Variance(b) == Some(v2) && v1 >= 0.0 && v2 >= 0.0
    ensures Mul(a, b).variance == ProductSpread(Expected(a), v1, Expected(b), v2) <==> v1 == 0.0 || v2 == 0.0
  {
    hide Mul, Variance, Expected, ProductSpread;
    MulFallsShort(a, b, v1, v2);
    NonZeroProduct(v1, v2);
  }

  /** What mul computes for discrete values; the guard against negative variance is idle. */
  lemma MulOfDiscrete(xs: seq<Outcome>, ys: seq<Outcome>, e1: real, e2: real, v1: real, v2: real)
    requires Weighted(xs) && Weighted(ys)
    requires e1 == Expected(Discrete(xs)) && e2 == Expected(Discrete(ys))
    requires Variance(Discrete(xs)) == Some(v1) && Variance(Discrete(ys)) == Some(v2)
    ensures Mul(Discrete(xs), Discrete(ys)) == Moments(Times(e1, e2), (e1 * e1) * v2 + (e2 * e2) * v1)
  {
    hide Mul, Variance, Expected;
    DiscreteVarianceNonNegative(xs);
    DiscreteVarianceNonNegative(ys);
    MulComputes(Discrete(xs), Discrete(ys), v1, v2);
  }

  /** The mean of the product is exact. Its variance falls short by exactly Var(X) * Var(Y). */
  lemma MulMissesProductOfVariances(xs: seq<Outcome>, ys: seq<Outcome>, v1: real, v2: real)
    requires Weighted(xs) && Weighted(ys)
    requires Variance(Discrete(xs)) == Some(v1) && Variance(Discrete(ys)) == Some(v2)
    ensures Mul(Discrete(xs), Discrete(ys)).mean == Expected(Discrete(Product(xs, ys)))
    ensures Variance(Discrete(Product(xs, ys))) == Some(Mul(Discrete(xs), Discrete(ys)).variance + v1 * v2)
  {
    hide Mul, Variance, Expected, ProductSpread;
    DiscreteVarianceNonNegative(xs);
    DiscreteVarianceNonNegative(ys);
    MulFallsShort(Discrete(xs), Discrete(ys), v1, v2);
    ProductSpreadOfDiscrete(xs, ys, v1, v2);
  }

  /** In particular for discrete values, against the variance of their product distribution. */
  lemma MulOfDiscreteExactIff(xs: seq<Outcome>, ys: seq<Outcome>)
    requires Weighted(xs) && Weighted(ys)
    ensures Variance(Discrete(Product(xs, ys))) == Some(Mul(Discrete(xs), Discrete(ys)).variance)
            <==> Variance(Discrete(xs)) == Some(0.0) || Variance(Discrete(ys)) == Some(0.0)
  {
    hide Mul, Variance, Expected, ProductSpread;
    DiscreteVarianceNonNegative(xs);
    DiscreteVarianceNonNegative(ys);
    var v1, v2 := Variance(Discrete(xs)).value, Variance(Discrete(ys)).value;
    ProductSpreadOfDiscrete(xs, ys, v1, v2);
    MulExactIff(Discrete(xs), Discrete(ys), v1, v2);
  }

  lemma {:induction false} SquaredDeviationsNonNegative(xs: seq<real>, mean: real)
    ensures SquaredDeviations(xs, mean) >= 0.0
  {
    if xs != [] {
      SquaredDeviationsNonNegative(xs[..|xs| - 1], mean);
    }
  }

  lemma BetaVarianceNonNegative(alpha: real, beta: real)
    requires alpha >= 0.0 && beta >= 0.0 && alpha + beta != 0.0
    ensures BetaVariance(alpha, beta) >= 0.0
  {
    var n := alpha + beta;
    NonNegativeProduct(alpha, beta);
    NonNegativeProduct(n, n);
    NonNegativeProduct(n * n, n + 1.0);
    assert n * n != 0.0;
    assert (n * n) * (n + 1.0) != 0.0;
    NonNegativeQuotient(alpha * beta, (n * n) * (n + 1.0));
  }

  /** A variance of normal values, of intervals, of samples, of outcomes with non-negative weights, and of
      beta values with non-negative parameters is never negative. */
  lemma VarianceNonNegative(v: ProbabilisticValue)
    requires v.Discrete? && v.outcomes != [] && Weight(v.outcomes) != 0.0 ==> Weighted(v.outcomes)
    requires v.Beta? ==> v.alpha >= 0.0 && v.beta >= 0.0
    ensures Variance(v).Some? ==> Variance(v).value >= 0.0
  {
    match v
    case Normal(_, _) =>
    case ConfidenceInterval(_, _, _) =>
    case Discrete(os) =>
      if os != [] && Weight(os) != 0.0 { DiscreteVarianceNonNegative(os); }
    case Beta(alpha, beta) =>
      BetaVarianceNonNegative(alpha, beta);
    case Samples(data) =>
      if |data| >= 2 {
        SquaredDeviationsNonNegative(data, Expected(v));
        NonNegativeQuotient(SquaredDeviations(data, Expected(v)), |data| as real);
      }
  }
}
