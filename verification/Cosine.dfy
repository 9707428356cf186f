/** The cosine metric over reals: why its value never needs the clamp. */
module Cosine {

  type Vector = seq<real>

  /** Products of the components that both vectors have. */
  function DotProduct(a: Vector, b: Vector): real {
    if a == [] || b == [] then 0.0 else a[0] * b[0] + DotProduct(a[1..], b[1..])
  }

  lemma SquareNonNegative(x: real)
    ensures x * x >= 0.0
  {
  }

  /** Sum of all squared components. */
  function NormSquared(a: Vector): (r: real)
    ensures r >= 0.0
  {
    if a == [] then 0.0
    else
      SquareNonNegative(a[0]);
      a[0] * a[0] + NormSquared(a[1..])
  }

  function Clamp(x: real, lo: real, hi: real): real {
    if x < lo then lo else if x > hi then hi else x
  }

  lemma ProductNonZero(x: real, y: real)
    requires x != 0.0 && y != 0.0
    ensures x * y != 0.0
  {
  }

  /** The similarity, given the two norms. */
  function CosineSimilarity(a: Vector, b: Vector, normA: real, normB: real): real {
    if normA == 0.0 || normB == 0.0 then 0.0
    else
      ProductNonZero(normA, normB);
      Clamp(DotProduct(a, b) / (normA * normB), -1.0, 1.0)
  }

  // ---------------------------------------------------------------- real arithmetic

  lemma ProductNonNegative(x: real, y: real)
    requires x >= 0.0 && y >= 0.0
    ensures x * y >= 0.0
  {
  }

  lemma ProductPositive(x: real, y: real)
    requires x > 0.0 && y > 0.0
    ensures x * y > 0.0
  {
  }

  lemma ProductGrows(x: real, y: real, f: real)
    requires x <= y && f >= 0.0
    ensures x * f <= y * f
  {
    ProductNonNegative(y - x, f);
    assert (y - x) * f == y * f - x * f;
  }

  lemma SquareGrows(s: real, t: real)
    requires 0.0 <= s < t
    ensures s * s < t * t
  {
    var d := t - s;
    ProductNonNegative(s, d);
    ProductPositive(d, d);
    assert t == s + d;
    assert t * t == s * s + 2.0 * (s * d) + d * d;
  }

  /** Squares compare like their non-negative roots. */
  lemma RootOrder(t: real, s: real)
    requires s >= 0.0 && t * t <= s * s
    ensures -s <= t <= s
  {
    assert (-t) * (-t) == t * t;
    if t > s { SquareGrows(s, t); }
    if -t > s { SquareGrows(s, -t); }
  }

  /** The middle term of the square is at most the two outer ones. */
  lemma MiddleTerm(x: real, y: real, d: real, A: real, B: real)
    requires A >= 0.0 && B >= 0.0 && d * d <= A * B
    ensures 2.0 * (x * y * d) <= x * x * B + y * y * A
  {
    var u, v := x * x * B, y * y * A;
    var t := 2.0 * (x * y * d);
    SquareNonNegative(x);
    SquareNonNegative(y);
    ProductNonNegative(x * x, B);
    ProductNonNegative(y * y, A);
    ProductNonNegative(x * x, y * y);
    ProductGrows(d * d, A * B, (x * x) * (y * y));
    assert t * t == 4.0 * ((d * d) * ((x * x) * (y * y)));
    assert u * v == (A * B) * ((x * x) * (y * y));
    SquareNonNegative(u - v);
    assert (u + v) * (u + v) == (u - v) * (u - v) + 4.0 * (u * v);
    RootOrder(t, u + v);
  }

  lemma Expand(x: real, y: real, d: real, A: real, B: real)
    requires d * d <= A * B && 2.0 * (x * y * d) <= x * x * B + y * y * A
    ensures (x * y + d) * (x * y + d) <= (x * x + A) * (y * y + B)
  {
    assert (x * y + d) * (x * y + d) == (x * x) * (y * y) + 2.0 * (x * y * d) + d * d;
    assert (x * x + A) * (y * y + B) == (x * x) * (y * y) + x * x * B + y * y * A + A * B;
  }

  /** The square of the dot product is at most the product of the squared norms, for
      vectors of any lengths. */
  lemma {:induction false} CauchySchwarz(a: Vector, b: Vector)
    ensures DotProduct(a, b) * DotProduct(a, b) <= NormSquared(a) * NormSquared(b)
  {
    if a == [] || b == [] {
      ProductNonNegative(NormSquared(a), NormSquared(b));
    } else {
      CauchySchwarz(a[1..], b[1..]);
      var x, y, d, A, B := a[0], b[0], DotProduct(a[1..], b[1..]), NormSquared(a[1..]), NormSquared(b[1..]);
      MiddleTerm(x, y, d, A, B);
      Expand(x, y, d, A, B);
    }
  }

  lemma SquareOfProduct(x: real, y: real, A: real, B: real)
    requires x * x == A && y * y == B
    ensures (x * y) * (x * y) == A * B
  {
    assert (x * y) * (x * y) == (x * x) * (y * y);
  }

  lemma QuotientInRange(d: real, n: real)
    requires n > 0.0 && -n <= d <= n
    ensures -1.0 <= d / n <= 1.0
  {
    var r := d / n;
    assert r * n == d;
    assert (r - 1.0) * n == d - n;
    assert (-1.0 - r) * n == -n - d;
    if r > 1.0 { ProductPositive(r - 1.0, n); }
    if r < -1.0 { ProductPositive(-1.0 - r, n); }
  }

  /** With norms that are square roots, the quotient lies in [-1, 1]: the clamp returns it. */
  lemma ClampIsIdle(a: Vector, b: Vector, normA: real, normB: real)
    requires normA >= 0.0 && normA * normA == NormSquared(a)
    requires normB >= 0.0 && normB * normB == NormSquared(b)
    requires normA != 0.0 && normB != 0.0
    ensures normA * normB != 0.0
    ensures CosineSimilarity(a, b, normA, normB) == DotProduct(a, b) / (normA * normB)
    ensures -1.0 <= DotProduct(a, b) / (normA * normB) <= 1.0
  {
    hide DotProduct, NormSquared;
    var d, n := DotProduct(a, b), normA * normB;
    CauchySchwarz(a, b);
    ProductNonNegative(normA, normB);
    ProductNonZero(normA, normB);
    SquareOfProduct(normA, normB, NormSquared(a), NormSquared(b));
    RootOrder(d, n);
    QuotientInRange(d, n);
  }

  // ---------------------------------------------------------------- what the dot product and the similarity are

  lemma {:induction false} DotOfSelf(a: Vector)
    ensures DotProduct(a, a) == NormSquared(a)
  {
    if a != [] { DotOfSelf(a[1..]); }
  }

  lemma {:induction false} DotCommutes(a: Vector, b: Vector)
    ensures DotProduct(a, b) == DotProduct(b, a)
  {
    if a != [] && b != [] {
      DotCommutes(a[1..], b[1..]);
      assert a[0] * b[0] == b[0] * a[0];
    }
  }

  function Mixed(f: real, x: real, g: real, y: real): real {
    f * x + g * y
  }

  /** f * a + g * b, component by component. */
  function Combined(f: real, a: Vector, g: real, b: Vector): Vector
    requires |a| == |b|
  {
    seq(|a|, i requires 0 <= i < |a| => Mixed(f, a[i], g, b[i]))
  }

  lemma CombinedTerm(f: real, x: real, g: real, y: real, z: real, d: real, e: real)
    ensures Mixed(f, x, g, y) * z + (f * d + g * e) == f * (x * z + d) + g * (y * z + e)
  {
    assert (f * x) * z == f * (x * z) && (g * y) * z == g * (y * z);
  }

  /** The dot product is linear: that of f * a + g * b with c. */
  lemma {:induction false} DotIsLinear(f: real, a: Vector, g: real, b: Vector, c: Vector)
    requires |a| == |b|
    ensures DotProduct(Combined(f, a, g, b), c) == f * DotProduct(a, c) + g * DotProduct(b, c)
  {
    if a == [] {
      assert Combined(f, a, g, b) == [];
    } else if c != [] {
      DotIsLinear(f, a[1..], g, b[1..], c[1..]);
      hide Mixed;
      assert Combined(f, a, g, b)[1..] == Combined(f, a[1..], g, b[1..]);
      CombinedTerm(f, a[0], g, b[0], c[0], DotProduct(a[1..], c[1..]), DotProduct(b[1..], c[1..]));
    }
  }

  lemma PositiveProduct(x: real, y: real, s: real)
    requires x > 0.0 && y > 0.0 && s == x * y
    ensures s > 0.0
  {
    ProductPositive(x, y);
  }

  lemma SquareZero(x: real, s: real)
    requires s == x * x
    ensures s >= 0.0 && (s == 0.0 <==> x == 0.0)
  {
    if x > 0.0 {
      PositiveProduct(x, x, s);
    } else if x < 0.0 {
      PositiveProduct(-x, -x, s);
    }
  }

  lemma {:induction false} NormZeroIff(a: Vector)
    ensures NormSquared(a) == 0.0 <==> forall i :: 0 <= i < |a| ==> a[i] == 0.0
  {
    if a != [] {
      NormZeroIff(a[1..]);
      var s := a[0] * a[0];
      SquareZero(a[0], s);
      assert NormSquared(a) == s + NormSquared(a[1..]);
      if forall i :: 0 <= i < |a[1..]| ==> a[1..][i] == 0.0 {
        assert forall i :: 1 <= i < |a| ==> a[i] == a[1..][i - 1] == 0.0;
      }
    }
  }

  lemma SelfQuotient(n: real)
    requires n != 0.0
    ensures n / n == 1.0
  {
    var r := n / n;
    assert (r - 1.0) * n == 0.0;
  }

  lemma SelfSimilarity(a: Vector, norm: real)
    requires norm > 0.0 && norm * norm == NormSquared(a)
    ensures CosineSimilarity(a, a, norm, norm) == 1.0
  {
    DotOfSelf(a);
    hide DotProduct, NormSquared;
    var n := norm * norm;
    SquareZero(norm, n);
    SelfQuotient(n);
  }

  lemma SimilarityCommutes(a: Vector, b: Vector, normA: real, normB: real)
    ensures CosineSimilarity(a, b, normA, normB) == CosineSimilarity(b, a, normB, normA)
  {
    DotCommutes(a, b);
    assert normA * normB == normB * normA;
    hide DotProduct;
  }

  /** A vector is as similar to itself as can be, similarity is mutual, and it is 0 where a vector has no component
      other than 0. */
  lemma SimilarityLaws(a: Vector, b: Vector, normA: real, normB: real)
    requires normA >= 0.0 && normA * normA == NormSquared(a)
    requires normB >= 0.0 && normB * normB == NormSquared(b)
    ensures CosineSimilarity(a, b, normA, normB) == CosineSimilarity(b, a, normB, normA)
    ensures (exists i :: 0 <= i < |a| && a[i] != 0.0) ==> CosineSimilarity(a, a, normA, normA) == 1.0
    ensures (forall i :: 0 <= i < |a| ==> a[i] == 0.0) ==> CosineSimilarity(a, b, normA, normB) == 0.0
  {
    SimilarityCommutes(a, b, normA, normB);
    NormZeroIff(a);
    if normA != 0.0 {
      SelfSimilarity(a, normA);
      ProductNonZero(normA, normA);
    }
  }
}
