/** Laws that the means and variances of all kinds of uncertain values obey. */
module MomentLaws {
  import opened Common
  import opened Probability

  // ---------------------------------------------------------------- f * X + c

  function Line(f: real, c: real, x: real): real {
    f * x + c
  }

  /** What a sum of terms x * w becomes, for terms of sum a and weights of sum n. */
  function LineSum(f: real, c: real, a: real, n: real): real {
    f * a + c * n
  }

  function Scale(f: real, x: real): real {
    (f * f) * x
  }

  function OnLine(os: seq<Outcome>, f: real, c: real): seq<Outcome> {
    seq(|os|, i requires 0 <= i < |os| => Outcome(Line(f, c, os[i].value), os[i].weight))
  }

  function OnLineData(data: seq<real>, f: real, c: real): seq<real> {
    seq(|data|, i requires 0 <= i < |data| => Line(f, c, data[i]))
  }

  /** The value f * X + c: a change of unit and of origin. A beta value lies in [0, 1] and has none. */
  function Rescaled(v: ProbabilisticValue, f: real, c: real): ProbabilisticValue
    requires !v.Beta?
  {
    match v
    case Normal(mean, stdDev) => Normal(Line(f, c, mean), Times(f, stdDev))
    case ConfidenceInterval(lower, upper, confidence) =>
      ConfidenceInterval(Line(f, c, lower), Line(f, c, upper), confidence)
    case Discrete(os) => Discrete(OnLine(os, f, c))
    case Samples(data) => Samples(OnLineData(data, f, c))
  }

  predicate IsEmpty(v: ProbabilisticValue) {
    v == Discrete([]) || v == Samples([])
  }

  lemma LineAdds(f: real, c: real, a: real, n: real, x: real)
    ensures LineSum(f, c, a, n) + Line(f, c, x) == LineSum(f, c, a + x, n + 1.0)
  {
  }

  lemma {:induction false} SumOnLine(data: seq<real>, f: real, c: real)
    ensures Sum(OnLineData(data, f, c)) == LineSum(f, c, Sum(data), |data| as real)
  {
    if data != [] {
      var init, x := data[..|data| - 1], data[|data| - 1];
      var r := OnLineData(data, f, c);
      SumOnLine(init, f, c);
      assert r[..|r| - 1] == OnLineData(init, f, c) && r[|r| - 1] == Line(f, c, x);
      hide Line, LineSum;
      LineAdds(f, c, Sum(init), |init| as real, x);
    }
  }

  lemma SquareScales(f: real, x: real, y: real)
    requires y == f * x
    ensures Square(y) == Scale(f, Square(x))
  {
    assert (f * x) * (f * x) == (f * f) * (x * x);
  }

  lemma SquareOnLine(f: real, c: real, x: real, m: real)
    ensures Square(Line(f, c, x) - Line(f, c, m)) == Scale(f, Square(x - m))
  {
    SquareScales(f, x - m, Line(f, c, x) - Line(f, c, m));
  }

  lemma ScaleAdds(f: real, x: real, y: real)
    ensures Scale(f, x + y) == Scale(f, x) + Scale(f, y) && Scale(f, 0.0) == 0.0
  {
  }

  lemma {:induction false} DeviationsOnLine(data: seq<real>, f: real, c: real, m: real)
    ensures SquaredDeviations(OnLineData(data, f, c), Line(f, c, m)) == Scale(f, SquaredDeviations(data, m))
  {
    hide Square, Line, Scale;
    if data == [] {
      ScaleAdds(f, 0.0, 0.0);
    } else {
      var init, x := data[..|data| - 1], data[|data| - 1];
      var r := OnLineData(data, f, c);
      DeviationsOnLine(init, f, c, m);
      assert r[..|r| - 1] == OnLineData(init, f, c) && r[|r| - 1] == Line(f, c, x);
      SquareOnLine(f, c, x, m);
      ScaleAdds(f, SquaredDeviations(init, m), Square(x - m));
    }
  }

  lemma Term1OnLine(f: real, c: real, F: real, W: real, x: real, w: real)
    ensures LineSum(f, c, F, W) + Line(f, c, x) * w == LineSum(f, c, F + x * w, W + w)
  {
    assert (f * x + c) * w == f * (x * w) + c * w;
  }

  lemma {:induction false} FirstMomentOnLine(os: seq<Outcome>, f: real, c: real)
    ensures Weight(OnLine(os, f, c)) == Weight(os)
    ensures FirstMoment(OnLine(os, f, c)) == LineSum(f, c, FirstMoment(os), Weight(os))
  {
    if os != [] {
      var init, o := os[..|os| - 1], os[|os| - 1];
      var r := OnLine(os, f, c);
      FirstMomentOnLine(init, f, c);
      assert r[..|r| - 1] == OnLine(init, f, c) && r[|r| - 1] == Outcome(Line(f, c, o.value), o.weight);
      hide Line, LineSum;
      Term1OnLine(f, c, FirstMoment(init), Weight(init), o.value, o.weight);
    }
  }

  lemma TermOnLine(f: real, c: real, o: Outcome, m: real)
    ensures TermC(Outcome(Line(f, c, o.value), o.weight), Line(f, c, m)) == Scale(f, TermC(o, m))
  {
    SquareOnLine(f, c, o.value, m);
    hide Line;
    var s, t := (o.value - m) * (o.value - m), Line(f, c, o.value) - Line(f, c, m);
    assert t * t == (f * f) * s;
    assert ((f * f) * s) * o.weight == (f * f) * (s * o.weight);
  }

  lemma {:induction false} CentredSumOnLine(os: seq<Outcome>, f: real, c: real, m: real)
    ensures CentredSum(OnLine(os, f, c), Line(f, c, m)) == Scale(f, CentredSum(os, m))
  {
    if os != [] {
      var init, o := os[..|os| - 1], os[|os| - 1];
      var r := OnLine(os, f, c);
      CentredSumOnLine(init, f, c, m);
      assert r[..|r| - 1] == OnLine(init, f, c) && r[|r| - 1] == Outcome(Line(f, c, o.value), o.weight);
      hide Line, TermC, Scale;
      TermOnLine(f, c, o, m);
      ScaleAdds(f, CentredSum(init, m), TermC(o, m));
    }
  }

  lemma QuotientOnLine(f: real, c: real, F: real, W: real)
    requires W != 0.0
    ensures LineSum(f, c, F, W) / W == Line(f, c, F / W)
  {
    var m := F / W;
    QuotientTimes(F, W);
    assert (f * m + c) * W == f * (m * W) + c * W;
    QuotientIs(f * F + c * W, W, f * m + c);
  }

  lemma QuotientScales(k: real, S: real, W: real)
    requires W != 0.0
    ensures (k * S) / W == k * (S / W)
  {
    QuotientTimes(S, W);
    assert (k * (S / W)) * W == k * ((S / W) * W);
    QuotientIs(k * S, W, k * (S / W));
  }

  lemma QuotientOfScale(f: real, S: real, W: real)
    requires W != 0.0
    ensures Scale(f, S) / W == Scale(f, S / W)
  {
    QuotientScales(f * f, S, W);
  }

  lemma DiscreteMean(os: seq<Outcome>, f: real, c: real)
    requires os != []
    ensures Expected(Discrete(OnLine(os, f, c))) == Line(f, c, Expected(Discrete(os)))
  {
    var r := OnLine(os, f, c);
    hide Line, LineSum;
    FirstMomentOnLine(os, f, c);
    if Weight(os) == 0.0 {
      assert Unweighted(r) == OnLineData(Unweighted(os), f, c);
      SumOnLine(Unweighted(os), f, c);
      QuotientOnLine(f, c, Sum(Unweighted(os)), |os| as real);
    } else {
      QuotientOnLine(f, c, FirstMoment(os), Weight(os));
    }
  }

  lemma DiscreteSpread(os: seq<Outcome>, f: real, c: real)
    requires os != []
    ensures Variance(Discrete(os)).Some?
    ensures Variance(Discrete(OnLine(os, f, c))) == Some(Scale(f, Variance(Discrete(os)).value))
  {
    FirstMomentOnLine(os, f, c);
    assert OnLine(os, f, c) != [];
    if Weight(os) == 0.0 {
      assert Scale(f, 0.0) == 0.0;
    } else {
      DiscreteVarianceIsCentred(os);
      DiscreteVarianceIsCentred(OnLine(os, f, c));
      hide *;
      DiscreteMean(os, f, c);
      CentredSumOnLine(os, f, c, Expected(Discrete(os)));
      QuotientOfScale(f, CentredSum(os, Expected(Discrete(os))), Weight(os));
    }
  }

  lemma SamplesMean(data: seq<real>, f: real, c: real)
    requires data != []
    ensures Expected(Samples(OnLineData(data, f, c))) == Line(f, c, Expected(Samples(data)))
  {
    hide Line, LineSum;
    SumOnLine(data, f, c);
    QuotientOnLine(f, c, Sum(data), |data| as real);
  }

  lemma SamplesSpread(data: seq<real>, f: real, c: real)
    requires |data| >= 2
    ensures Variance(Samples(data)).Some?
    ensures Variance(Samples(OnLineData(data, f, c))) == Some(Scale(f, Variance(Samples(data)).value))
  {
    hide Line, LineSum, Scale, SquaredDeviations, Sum, Expected;
    SamplesMean(data, f, c);
    DeviationsOnLine(data, f, c, Expected(Samples(data)));
    QuotientOfScale(f, SquaredDeviations(data, Expected(Samples(data))), |data| as real);
  }

  lemma HalfOnLine(f: real, c: real, a: real, b: real, z: real)
    requires z != 0.0
    ensures (Line(f, c, b) - Line(f, c, a)) / 2.0 / z == f * ((b - a) / 2.0 / z)
    ensures (Line(f, c, a) + Line(f, c, b)) / 2.0 == Line(f, c, (a + b) / 2.0)
  {
    var h := (b - a) / 2.0;
    assert (Line(f, c, b) - Line(f, c, a)) / 2.0 == f * h;
    QuotientScales(f, h, z);
  }

  lemma IntervalRescaled(lower: real, upper: real, confidence: real, f: real, c: real)
    ensures var v := ConfidenceInterval(lower, upper, confidence);
      && Expected(Rescaled(v, f, c)) == Line(f, c, Expected(v))
      && Variance(v).Some? && Variance(Rescaled(v, f, c)) == Some(Scale(f, Variance(v).value))
  {
    hide Line, ApproximateZ, Scale, Square;
    var z := ApproximateZ(confidence);
    var v := ConfidenceInterval(lower, upper, confidence);
    assert Rescaled(v, f, c) == ConfidenceInterval(Line(f, c, lower), Line(f, c, upper), confidence);
    HalfOnLine(f, c, lower, upper, z);
    assert Expected(v) == (lower + upper) / 2.0;
    assert Expected(Rescaled(v, f, c)) == (Line(f, c, lower) + Line(f, c, upper)) / 2.0;
    SquareScales(f, (upper - lower) / 2.0 / z, (Line(f, c, upper) - Line(f, c, lower)) / 2.0 / z);
  }

  lemma NormalRescaled(mean: real, stdDev: real, f: real, c: real)
    ensures var v := Normal(mean, stdDev);
      && Expected(Rescaled(v, f, c)) == Line(f, c, Expected(v))
      && Variance(v).Some? && Variance(Rescaled(v, f, c)) == Some(Scale(f, Variance(v).value))
  {
    SquareScales(f, stdDev, Times(f, stdDev));
    hide Line, Scale, Square, Times;
  }

  lemma RescaleKinds(v: ProbabilisticValue, f: real, c: real)
    requires !v.Beta?
    ensures Expected(Rescaled(v, f, c)) == if IsEmpty(v) then 0.0 else Line(f, c, Expected(v))
    ensures Variance(Rescaled(v, f, c)) ==
            match Variance(v) case None => None case Some(x) => Some(Scale(f, x))
  {
    assert Scale(f, 0.0) == 0.0;
    hide Line, Scale;
    match v
    case Normal(mean, stdDev) =>
      NormalRescaled(mean, stdDev, f, c);
    case ConfidenceInterval(lower, upper, confidence) =>
      IntervalRescaled(lower, upper, confidence, f, c);
    case Discrete(os) =>
      if os != [] {
        hide Expected, Variance;
        DiscreteMean(os, f, c);
        DiscreteSpread(os, f, c);
      }
    case Samples(data) =>
      if data != [] {
        SamplesMean(data, f, c);
        if |data| >= 2 {
          hide Expected, Variance;
          SamplesSpread(data, f, c);
        }
      }
  }

  /** A change of unit by f and of origin by c moves the mean along and multiplies the variance by f * f. A value
      without outcomes or samples has mean 0 in every unit. */
  lemma RescaleLaw(v: ProbabilisticValue, f: real, c: real)
    requires !v.Beta?
    ensures Expected(Rescaled(v, f, c)) == if IsEmpty(v) then 0.0 else f * Expected(v) + c
    ensures Variance(Rescaled(v, f, c)) ==
            match Variance(v) case None => None case Some(x) => Some((f * f) * x)
  {
    hide Expected, Variance, Rescaled, IsEmpty;
    RescaleKinds(v, f, c);
  }

  // ---------------------------------------------------------------- certain and standard values

  /** A value that can only be x has mean x and variance 0, whatever its kind. */
  lemma CertainLaw(x: real, confidence: real, os: seq<Outcome>, data: seq<real>)
    requires os != [] && forall i :: 0 <= i < |os| ==> os[i].value == x
    requires |data| >= 2 && forall i :: 0 <= i < |data| ==> data[i] == x
    ensures Expected(Normal(x, 0.0)) == x && Variance(Normal(x, 0.0)) == Some(0.0)
    ensures var v := ConfidenceInterval(x, x, confidence); Expected(v) == x && Variance(v) == Some(0.0)
    ensures Expected(Discrete(os)) == x && Variance(Discrete(os)) == Some(0.0)
    ensures Expected(Samples(data)) == x && Variance(Samples(data)) == Some(0.0)
  {
    assert OnLine(os, 0.0, x) == os && OnLineData(data, 0.0, x) == data;
    assert Variance(Discrete(os)).Some? && Variance(Samples(data)).Some?;
    RescaleLaw(Discrete(os), 0.0, x);
    RescaleLaw(Samples(data), 0.0, x);
    assert Square(0.0) == 0.0;
    hide Weight, FirstMoment, SecondMoment, Sum, SquaredDeviations, Square;
  }

  lemma CoinSums(os: seq<Outcome>)
    requires os == [Outcome(-1.0, 0.5), Outcome(1.0, 0.5)]
    ensures Weight(os) == 1.0 && FirstMoment(os) == 0.0 && SecondMoment(os) == 1.0
  {
    var a, b := Outcome(-1.0, 0.5), Outcome(1.0, 0.5);
    assert os[..1] == [a] && [a][..0] == [];
    assert Weight([a]) == 0.5 && FirstMoment([a]) == Term1(a) == -0.5 && SecondMoment([a]) == Term2(a) == 0.5;
    assert Term1(b) == 0.5 && Term2(b) == 0.5;
  }

  lemma EndsSums(data: seq<real>)
    requires data == [-1.0, 1.0]
    ensures Sum(data) == 0.0 && SquaredDeviations(data, 0.0) == 2.0
  {
    assert data[..1] == [-1.0] && [-1.0][..0] == [];
    assert Square(-1.0 - 0.0) == 1.0 && Square(1.0 - 0.0) == 1.0;
  }

  lemma HalfWidth(z: real)
    requires z > 0.0
    ensures Square((z - (0.0 - z)) / 2.0 / z) == 1.0 && ((0.0 - z) + z) / 2.0 == 0.0
  {
    QuotientIs(z, z, 1.0);
    assert (z - (0.0 - z)) / 2.0 == z;
  }

  lemma StandardInterval(confidence: real, z: real)
    requires z == ApproximateZ(confidence)
    ensures var v := ConfidenceInterval(0.0 - z, z, confidence); Expected(v) == 0.0 && Variance(v) == Some(1.0)
  {
    HalfWidth(z);
    hide Square, ApproximateZ;
  }

  lemma StandardNormal()
    ensures Expected(Normal(0.0, 1.0)) == 0.0 && Variance(Normal(0.0, 1.0)) == Some(1.0)
  {
  }

  lemma StandardOutcomes(os: seq<Outcome>)
    requires os == [Outcome(-1.0, 0.5), Outcome(1.0, 0.5)]
    ensures Expected(Discrete(os)) == 0.0 && Variance(Discrete(os)) == Some(1.0)
  {
    CoinSums(os);
    hide Weight, FirstMoment, SecondMoment;
  }

  lemma StandardSamples(data: seq<real>)
    requires data == [-1.0, 1.0]
    ensures Expected(Samples(data)) == 0.0 && Variance(Samples(data)) == Some(1.0)
  {
    EndsSums(data);
    hide Sum, SquaredDeviations;
  }

  /** One value of each kind with mean 0 and variance 1: the normal one, the interval as wide as its confidence asks
      for, a fair choice between -1 and 1, and two samples. */
  lemma StandardLaw(confidence: real, z: real, os: seq<Outcome>, data: seq<real>)
    requires z == ApproximateZ(confidence)
    requires os == [Outcome(-1.0, 0.5), Outcome(1.0, 0.5)] && data == [-1.0, 1.0]
    ensures Expected(Normal(0.0, 1.0)) == 0.0 && Variance(Normal(0.0, 1.0)) == Some(1.0)
    ensures var v := ConfidenceInterval(0.0 - z, z, confidence); Expected(v) == 0.0 && Variance(v) == Some(1.0)
    ensures Expected(Discrete(os)) == 0.0 && Variance(Discrete(os)) == Some(1.0)
    ensures Expected(Samples(data)) == 0.0 && Variance(Samples(data)) == Some(1.0)
  {
    hide *;
    StandardNormal();
    StandardInterval(confidence, z);
    StandardOutcomes(os);
    StandardSamples(data);
  }

  /** The widths of intervals, by the nearest whole percentage. */
  lemma WidthTable(confidence: real)
    ensures 0.495 <= confidence < 0.505 ==> ApproximateZ(confidence) == 0.674
    ensures 0.795 <= confidence < 0.805 ==> ApproximateZ(confidence) == 1.282
    ensures 0.895 <= confidence < 0.905 ==> ApproximateZ(confidence) == 1.645
    ensures 0.945 <= confidence < 0.955 ==> ApproximateZ(confidence) == 1.96
    ensures 0.985 <= confidence < 0.995 ==> ApproximateZ(confidence) == 2.576
    ensures (confidence < 0.495 || 0.505 <= confidence < 0.795 || 0.805 <= confidence < 0.895 ||
             0.905 <= confidence < 0.985 || 0.995 <= confidence) ==> ApproximateZ(confidence) == 1.96
  {
  }

  // ---------------------------------------------------------------- outcomes put together

  lemma MomentsFrom(os: seq<Outcome>, e: real, v: real)
    requires Weight(os) != 0.0 && e == Expected(Discrete(os)) && Variance(Discrete(os)) == Some(v)
    ensures Times(e, Weight(os)) == FirstMoment(os) && Times(v + Square(e), Weight(os)) == SecondMoment(os)
  {
    QuotientTimes(FirstMoment(os), Weight(os));
    QuotientTimes(SecondMoment(os), Weight(os));
    assert e == FirstMoment(os) / Weight(os);
    assert v == SecondMoment(os) / Weight(os) - e * e;
  }

  /** Mean and mean square of pooled outcomes are the weighted means of those of the parts. */
  lemma PoolingLaw(xs: seq<Outcome>, ys: seq<Outcome>, e1: real, v1: real, e2: real, v2: real, e: real, v: real)
    requires Weight(xs) != 0.0 && Weight(ys) != 0.0 && Weight(xs) + Weight(ys) != 0.0
    requires e1 == Expected(Discrete(xs)) && Variance(Discrete(xs)) == Some(v1)
    requires e2 == Expected(Discrete(ys)) && Variance(Discrete(ys)) == Some(v2)
    requires e == Expected(Discrete(xs + ys)) && Variance(Discrete(xs + ys)) == Some(v)
    ensures Times(e, Weight(xs) + Weight(ys)) == Times(e1, Weight(xs)) + Times(e2, Weight(ys))
    ensures Times(v + Square(e), Weight(xs) + Weight(ys))
         == Times(v1 + Square(e1), Weight(xs)) + Times(v2 + Square(e2), Weight(ys))
  {
    hide *;
    MomentsOfAppend(xs, ys);
    MomentsFrom(xs, e1, v1);
    MomentsFrom(ys, e2, v2);
    MomentsFrom(xs + ys, e, v);
  }

  // ---------------------------------------------------------------- beta values

  lemma PositiveProduct(x: real, y: real, p: real)
    requires x > 0.0 && y > 0.0 && p == x * y
    ensures p > 0.0
  {
  }

  lemma PositiveFactor(d: real, k: real, p: real)
    requires k > 0.0 && p > 0.0 && p == d * k
    ensures d > 0.0
  {
  }

  lemma QuotientGrows(a: real, n: real, b: real, m: real, more: real)
    requires n > 0.0 && m > 0.0 && more > 0.0 && b * n == a * m + more
    ensures a / n < b / m
  {
    var x, y, k := a / n, b / m, n * m;
    QuotientTimes(a, n);
    QuotientTimes(b, m);
    PositiveProduct(n, m, k);
    assert (y - x) * k == (y * m) * n - (x * n) * m;
    PositiveFactor(y - x, k, more);
  }

  lemma BetaMeanGrows(alpha: real, beta: real, more: real)
    requires alpha > 0.0 && beta > 0.0 && more > 0.0
    ensures BetaMean(alpha + more, beta) > BetaMean(alpha, beta)
  {
    var n, p := alpha + beta, more * beta;
    PositiveProduct(more, beta, p);
    assert (alpha + more) * n == alpha * (n + more) + p;
    QuotientGrows(alpha, n, alpha + more, n + more, p);
  }

  lemma BetaMeanFalls(alpha: real, beta: real, more: real)
    requires alpha > 0.0 && beta > 0.0 && more > 0.0
    ensures BetaMean(alpha, beta) > BetaMean(alpha, beta + more)
  {
    var n, p := alpha + beta, alpha * more;
    PositiveProduct(alpha, more, p);
    assert alpha * (n + more) == alpha * n + p;
    QuotientGrows(alpha, n + more, alpha, n, p);
  }

  /** The mean of a beta value rises with alpha and falls with beta. */
  lemma BetaMeanMoves(alpha: real, beta: real, more: real)
    requires alpha > 0.0 && beta > 0.0 && more > 0.0
    ensures Expected(Beta(alpha + more, beta)) > Expected(Beta(alpha, beta)) > Expected(Beta(alpha, beta + more))
  {
    BetaMeanGrows(alpha, beta, more);
    BetaMeanFalls(alpha, beta, more);
    hide BetaMean;
  }

  lemma MirrorMean(alpha: real, beta: real)
    requires alpha + beta != 0.0
    ensures BetaMean(alpha, beta) * (alpha + beta) == alpha && BetaMean(beta, alpha) == 1.0 - BetaMean(alpha, beta)
  {
    var n := alpha + beta;
    var m := alpha / n;
    QuotientTimes(alpha, n);
    assert (1.0 - m) * n == n - m * n;
    QuotientIs(beta, n, 1.0 - m);
  }

  lemma TrialVariance(alpha: real, beta: real, m: real)
    requires alpha + beta != 0.0 && alpha + beta + 1.0 != 0.0 && m * (alpha + beta) == alpha
    ensures BetaVariance(alpha, beta) == m * (1.0 - m) / (alpha + beta + 1.0)
  {
    var n := alpha + beta;
    var p := m * (1.0 - m);
    var k := n + 1.0;
    QuotientTimes(p, k);
    var q := p / k;
    assert (1.0 - m) * n == n - m * n == beta;
    assert p * (n * n) == (m * n) * ((1.0 - m) * n);
    assert q * ((n * n) * k) == (q * k) * (n * n);
    NonZeroProduct(n, n);
    NonZeroProduct(n * n, k);
    QuotientIs(alpha * beta, (n * n) * k, q);
  }

  lemma Complement(m: real)
    ensures (1.0 - m) * (1.0 - (1.0 - m)) == m * (1.0 - m)
  {
  }

  /** Counting successes as failures mirrors the mean and keeps the variance, which is that of a single trial,
      m (1 - m), over one more than the number of trials. */
  lemma BetaLaw(alpha: real, beta: real, m: real)
    requires alpha + beta != 0.0 && alpha + beta + 1.0 != 0.0 && m == Expected(Beta(alpha, beta))
    ensures m * (alpha + beta) == alpha && Expected(Beta(beta, alpha)) == 1.0 - m
    ensures Variance(Beta(alpha, beta)) == Variance(Beta(beta, alpha)) == Some(m * (1.0 - m) / (alpha + beta + 1.0))
  {
    MirrorMean(alpha, beta);
    MirrorMean(beta, alpha);
    assert m == BetaMean(alpha, beta);
    hide BetaMean, BetaVariance;
    TrialVariance(alpha, beta, m);
    TrialVariance(beta, alpha, 1.0 - m);
    Complement(m);
  }

  // ---------------------------------------------------------------- products

  /** What mul computes for two normal values, in their parameters. */
  lemma MulOfNormals(m1: real, s1: real, m2: real, s2: real)
    ensures Mul(Normal(m1, s1), Normal(m2, s2)) ==
            Moments(m1 * m2, (m1 * m1) * (s2 * s2) + (m2 * m2) * (s1 * s1))
  {
    assert s1 * s1 >= 0.0 && s2 * s2 >= 0.0;
    GuardIdle(m1, m2, s1 * s1, s2 * s2);
    MulComputes(Normal(m1, s1), Normal(m2, s2), s1 * s1, s2 * s2);
    hide Mul;
  }

  /** The order of the factors does not matter. */
  lemma MulCommutes(a: ProbabilisticValue, b: ProbabilisticValue)
    ensures Mul(a, b) == Mul(b, a)
  {
    hide Expected, Variance, OrZero;
  }

  lemma OneSample(x: real)
    ensures Expected(Samples([x])) == Expected(Normal(x, 0.0))
    ensures OrZero(Variance(Samples([x]))) == OrZero(Variance(Normal(x, 0.0)))
  {
    assert [x][..0] == [] && Sum([x]) == x && x / 1.0 == x && Square(0.0) == 0.0;
  }

  lemma MulSees(a: ProbabilisticValue, c: ProbabilisticValue, b: ProbabilisticValue)
    requires Expected(a) == Expected(c) && OrZero(Variance(a)) == OrZero(Variance(c))
    ensures Mul(a, b) == Mul(c, b)
  {
    hide Expected, Variance, OrZero;
  }

  /** A single sample, which has no variance, counts as certain. */
  lemma MulOfSample(x: real, b: ProbabilisticValue)
    ensures Mul(Samples([x]), b) == Mul(Normal(x, 0.0), b)
  {
    hide Mul;
    OneSample(x);
    MulSees(Samples([x]), Normal(x, 0.0), b);
  }
}
