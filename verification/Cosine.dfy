/** Cosine similarity over exact reals (src/modules/learning/learning_bundle.c) and the bound behind the
    documented range of its scores. */
module Cosine {

  /** What the ranking needs of `sqrt`. */
  ghost predicate IsRoot(root: real -> real) {
    forall x: real :: x >= 0.0 ==> root(x) >= 0.0 && root(x) * root(x) == x
  }

  function Dot(a: seq<real>, b: seq<real>): real
    requires |a| == |b|
  {
    if a == [] then 0.0 else Dot(a[..|a| - 1], b[..|b| - 1]) + a[|a| - 1] * b[|b| - 1]
  }

  const TINY: real := 0.000000001

  /** The score of two vectors; 0 when their norms are too small to divide by. */
  function Score(root: real -> real, a: seq<real>, b: seq<real>): real
    requires |a| == |b|
  {
    Ratio(Dot(a, b), Norms(root, a, b))
  }

  function Norms(root: real -> real, a: seq<real>, b: seq<real>): real { root(Dot(a, a)) * root(Dot(b, b)) }

  function Ratio(dot: real, denom: real): real { if denom > TINY then dot / denom else 0.0 }

  /** `Σ (a_i y - b_i x)²`. */
  function Gap(a: seq<real>, b: seq<real>, x: real, y: real): (g: real)
    requires |a| == |b|
    ensures g >= 0.0
  {
    if a == [] then 0.0
    else
      var d := a[|a| - 1] * y - b[|b| - 1] * x;
      SquareOf(d);
      Gap(a[..|a| - 1], b[..|b| - 1], x, y) + d * d
  }

  lemma SquareOf(d: real)
    ensures d * d >= 0.0
  {}

  lemma TermExpands(s: real, t: real, x: real, y: real)
    ensures (s * y - t * x) * (s * y - t * x) == y * y * (s * s) - 2.0 * (x * y) * (s * t) + x * x * (t * t)
  {
    var p, q := s * y, t * x;
    assert (p - q) * (p - q) == p * p - 2.0 * (p * q) + q * q;
    assert p * p == y * y * (s * s) by { Swap4(s, y); }
    assert q * q == x * x * (t * t) by { Swap4(t, x); }
    assert p * q == (x * y) * (s * t) by { assert p * q == s * (y * (t * x)); assert y * (t * x) == (x * y) * t; }
  }

  lemma Swap4(s: real, y: real)
    ensures (s * y) * (s * y) == y * y * (s * s)
  {
    assert (s * y) * (s * y) == s * (y * (s * y));
    assert y * (s * y) == (y * y) * s;
  }

  lemma Spread(u: real, p: real, q: real)
    ensures u * (p + q) == u * p + u * q
  {}

  lemma {:induction false} GapExpands(a: seq<real>, b: seq<real>, x: real, y: real)
    requires |a| == |b|
    ensures Gap(a, b, x, y) == y * y * Dot(a, a) - 2.0 * (x * y) * Dot(a, b) + x * x * Dot(b, b)
  {
    if a != [] {
      var a0, b0, s, t := a[..|a| - 1], b[..|b| - 1], a[|a| - 1], b[|b| - 1];
      GapExpands(a0, b0, x, y);
      TermExpands(s, t, x, y);
      Spread(y * y, Dot(a0, a0), s * s);
      Spread(2.0 * (x * y), Dot(a0, b0), s * t);
      Spread(x * x, Dot(b0, b0), t * t);
    }
  }

  lemma {:induction false} NormsAreNonnegative(a: seq<real>)
    ensures Dot(a, a) >= 0.0
  {
    if a != [] { NormsAreNonnegative(a[..|a| - 1]); SquareOf(a[|a| - 1]); }
  }

  lemma NonzeroSquare(s: real)
    requires s != 0.0
    ensures s * s > 0.0
  {
    if s > 0.0 { PositiveProduct(s, s); } else { NegativeProduct(s, s); }
  }

  lemma NegativeProduct(u: real, v: real)
    requires u < 0.0 && v < 0.0
    ensures u * v > 0.0
  {}

  lemma {:induction false} ZeroNorm(a: seq<real>, b: seq<real>)
    requires |a| == |b| && Dot(b, b) == 0.0
    ensures Dot(a, b) == 0.0
  {
    if b != [] {
      var b0, t := b[..|b| - 1], b[|b| - 1];
      NormsAreNonnegative(b0);
      SquareOf(t);
      if t != 0.0 { NonzeroSquare(t); }
      ZeroNorm(a[..|a| - 1], b0);
    }
  }

  /** Cauchy and Schwarz, in every dimension. */
  lemma CauchySchwarz(a: seq<real>, b: seq<real>)
    requires |a| == |b|
    ensures Dot(a, b) * Dot(a, b) <= Dot(a, a) * Dot(b, b)
  {
    var aa, ab, bb := Dot(a, a), Dot(a, b), Dot(b, b);
    NormsAreNonnegative(b);
    if bb == 0.0 {
      ZeroNorm(a, b);
    } else {
      GapExpands(a, b, ab, bb);
      Collect(aa, ab, bb);
      PositiveFactor(bb, aa * bb - ab * ab);
    }
  }

  lemma Collect(aa: real, ab: real, bb: real)
    ensures bb * bb * aa - 2.0 * (ab * bb) * ab + ab * ab * bb == bb * (aa * bb - ab * ab)
  {
    assert bb * bb * aa == bb * (aa * bb);
    assert (ab * bb) * ab == bb * (ab * ab);
    Spread(bb, aa * bb, -(ab * ab));
  }

  lemma PositiveFactor(u: real, v: real)
    requires u > 0.0 && u * v >= 0.0
    ensures v >= 0.0
  {}

  lemma SquareBound(x: real, y: real)
    requires y > 0.0 && x * x <= y * y
    ensures -y <= x <= y
  {
    if x > y { LargerSquare(x, y); }
    if -x > y { LargerSquare(-x, y); }
  }

  lemma LargerSquare(x: real, y: real)
    requires x > y > 0.0
    ensures x * x > y * y
  {
    assert x * x - y * y == (x - y) * (x + y);
  }

  lemma Quotient(x: real, y: real)
    requires y > 0.0 && -y <= x <= y
    ensures -1.0 <= x / y <= 1.0
  {
    var q := x / y;
    assert q * y == x;
    if q > 1.0 { PositiveProduct(q - 1.0, y); }
    if q < -1.0 { PositiveProduct(-1.0 - q, y); }
  }

  lemma PositiveProduct(u: real, v: real)
    requires u > 0.0 && v > 0.0
    ensures u * v > 0.0
  {}

  /** Every score lies in [-1, 1]. */
  lemma ScoreInRange(root: real -> real, a: seq<real>, b: seq<real>)
    requires IsRoot(root) && |a| == |b|
    ensures -1.0 <= Score(root, a, b) <= 1.0
  {
    NormsSquare(root, a, b);
    CauchySchwarz(a, b);
    hide Norms, Dot, Ratio, IsRoot;
    RatioInRange(Dot(a, b), Norms(root, a, b));
  }

  function Square(x: real): real { x * x }

  function Mul(x: real, y: real): real { x * y }

  lemma NormsSquare(root: real -> real, a: seq<real>, b: seq<real>)
    requires IsRoot(root)
    ensures Square(Norms(root, a, b)) == Mul(Dot(a, a), Dot(b, b))
  {
    var r, s := Roots(root, a, b);
    hide IsRoot, Dot, Norms, Square, Mul;
    ProductSquare(r, s);
  }

  lemma Roots(root: real -> real, a: seq<real>, b: seq<real>) returns (r: real, s: real)
    requires IsRoot(root)
    ensures Square(r) == Dot(a, a) && Square(s) == Dot(b, b) && Norms(root, a, b) == Mul(r, s)
  {
    NormsAreNonnegative(a);
    NormsAreNonnegative(b);
    r, s := root(Dot(a, a)), root(Dot(b, b));
    RootSquare(root, Dot(a, a));
    RootSquare(root, Dot(b, b));
    hide IsRoot, Dot;
  }

  lemma RootSquare(root: real -> real, x: real)
    requires IsRoot(root) && x >= 0.0
    ensures root(x) * root(x) == x
  {}

  lemma ProductSquare(r: real, s: real)
    ensures Square(Mul(r, s)) == Mul(Square(r), Square(s))
  {
    Swap4(r, s);
  }

  lemma RatioInRange(dot: real, denom: real)
    requires dot * dot <= denom * denom
    ensures -1.0 <= Ratio(dot, denom) <= 1.0
  {
    if denom > TINY {
      SquareBound(dot, denom);
      Quotient(dot, denom);
    }
  }

  /** A vector is as similar to itself as can be. */
  lemma SelfScore(root: real -> real, a: seq<real>)
    requires IsRoot(root) && Dot(a, a) > TINY
    ensures Score(root, a, a) == 1.0
  {
    var n := Dot(a, a);
    assert root(n) * root(n) == n;
    assert Norms(root, a, a) == n;
    SelfRatio(n);
  }

  lemma SelfRatio(x: real)
    requires x > 0.0
    ensures x / x == 1.0
  {}

  /** The score is the quotient of the dot product by the product of the norms if that exceeds 1e-9, and else 0. */
  lemma ScoreExactly(root: real -> real, a: seq<real>, b: seq<real>)
    requires IsRoot(root) && |a| == |b|
    ensures var norms := Norms(root, a, b);
      && norms >= 0.0 && Square(norms) == Mul(Dot(a, a), Dot(b, b))
      && (norms > 0.000000001 ==> Mul(Score(root, a, b), norms) == Dot(a, b))
      && (norms <= 0.000000001 ==> Score(root, a, b) == 0.0)
  {
    NormsSquare(root, a, b);
    NormsPositive(root, a, b);
    hide Square, IsRoot, Dot, Norms, Mul, Ratio;
    RatioTimes(Dot(a, b), Norms(root, a, b));
  }

  lemma NormsPositive(root: real -> real, a: seq<real>, b: seq<real>)
    requires IsRoot(root)
    ensures Norms(root, a, b) >= 0.0
  {
    NormsAreNonnegative(a);
    NormsAreNonnegative(b);
    hide Dot;
    var p, q := root(Dot(a, a)), root(Dot(b, b));
    if p > 0.0 && q > 0.0 { PositiveProduct(p, q); }
  }

  lemma RatioTimes(dot: real, norms: real)
    ensures norms > 0.000000001 ==> Mul(Ratio(dot, norms), norms) == dot
    ensures norms <= 0.000000001 ==> Ratio(dot, norms) == 0.0
  {}

  /** `bundle_cosine`: three running sums, then one division. */
  method BundleCosine(root: real -> real, a: seq<real>, b: seq<real>, dim: nat) returns (score: real)
    requires |a| == |b| == dim
    ensures score == Score(root, a, b)
  {
    var dot, na, nb := 0.0, 0.0, 0.0;
    for i := 0 to dim
      invariant dot == Dot(a[..i], b[..i]) && na == Dot(a[..i], a[..i]) && nb == Dot(b[..i], b[..i])
    {
      assert a[..i + 1][..i] == a[..i] && b[..i + 1][..i] == b[..i];
      dot := dot + a[i] * b[i];
      na := na + a[i] * a[i];
      nb := nb + b[i] * b[i];
    }
    assert a[..dim] == a && b[..dim] == b;
    var denom := root(na) * root(nb);
    assert denom == Norms(root, a, b);
    score := if denom > TINY then dot / denom else 0.0;
  }
}
