/** The Wilson lower confidence bound on the hit rate, over the reals. */
module Wilson {
  import opened Common

  /** root stands for the square root in the formula and is pinned down by its defining equation. */
  predicate IsRoot(hits: nat, total: nat, z: real, root: real)
    requires total >= 1
  {
    var n, p := total as real, hits as real / total as real;
    root >= 0.0 && root * root == p * (1.0 - p) / n + z * z / (4.0 * n * n)
  }

  function WilsonLower(hits: nat, total: nat, z: real, root: real): real {
    if total == 0 then 0.0
    else
      var n := total as real;
      var p := hits as real / n;
      var d := 1.0 + z * z / n;
      (p + z * z / (2.0 * n) - z * root) / d
  }

  /** n (p - w)^2 - z^2 w (1 - w): zero exactly at the two ends of the confidence interval. */
  function Gap(n: real, p: real, z2: real, w: real): real {
    n * (p - w) * (p - w) - z2 * w * (1.0 - w)
  }

  lemma SquaresGrow(b: real, a: real)
    requires 0.0 <= b < a
    ensures b * b < a * a
  {
    Positive(a - b, a + b);
    assert (a - b) * (a + b) == a * a - b * b;
  }

  lemma SquaresOrder(a: real, b: real)
    requires a >= 0.0 && b >= 0.0 && a * a <= b * b
    ensures a <= b
  {
    if a > b {
      SquaresGrow(b, a);
    }
  }

  /** With u = z^2 / n: m^2 = c^2 - (1 + u) p^2 is the same as the root's defining equation. */
  predicate HalfWidth(p: real, u: real, m: real) {
    m >= 0.0 && m * m == u * (p * (1.0 - p)) + u * u / 4.0
  }

  lemma LowerEndIsNonNegative(p: real, u: real, m: real)
    requires 0.0 <= p <= 1.0 && u >= 0.0 && HalfWidth(p, u, m)
    ensures p + u / 2.0 - m >= 0.0
  {
    var c := p + u / 2.0;
    NonNegative(p, p);
    NonNegative(u, p * p);
    assert c * c == p * p + u * p + u * u / 4.0;
    assert u * (p * (1.0 - p)) == u * p - u * (p * p);
    SquaresOrder(m, c);
  }

  lemma LowerEndIsBelow(p: real, u: real, m: real)
    requires 0.0 <= p <= 1.0 && u >= 0.0 && HalfWidth(p, u, m)
    ensures p + u / 2.0 - m <= (1.0 + u) * p
  {
    var half := 0.5 - p;
    var gap := u * half;
    assert (1.0 + u) * p == p + u * p && u * half == u / 2.0 - u * p;
    assert half * half == 0.25 - p * (1.0 - p);
    assert gap * gap == u * u * (half * half);
    assert u * u * (half * half) == u * u / 4.0 - u * u * (p * (1.0 - p));
    NonNegative(p, 1.0 - p);
    NonNegative(u, p * (1.0 - p));
    NonNegative(u, u);
    NonNegative(u * u, p * (1.0 - p));
    if gap > 0.0 {
      SquaresOrder(gap, m);
    }
  }

  /** The lower end solves (p - w)^2 = u w (1 - w). */
  lemma LowerEndSolves(p: real, u: real, m: real, w: real)
    requires u >= 0.0 && HalfWidth(p, u, m) && (1.0 + u) * w == p + u / 2.0 - m
    ensures (p - w) * (p - w) == u * (w * (1.0 - w))
  {
    var c, d := p + u / 2.0, 1.0 + u;
    var dw := d * w;
    var q := w * dw - 2.0 * (c * w) + p * p;
    assert m * m == c * c - 2.0 * (c * dw) + dw * dw by { assert m == c - dw; }
    assert c * c == p * p + u * p + u * u / 4.0;
    assert u * (p * (1.0 - p)) == u * p - u * (p * p);
    assert d * (p * p) == p * p + u * (p * p);
    assert dw * dw - 2.0 * (c * dw) + d * (p * p) == 0.0;
    assert d * q == dw * dw - 2.0 * (c * dw) + d * (p * p) by {
      assert d * (w * dw) == dw * dw && d * (c * w) == c * dw;
    }
    assert q == 0.0 by { if q > 0.0 { Positive(d, q); } else if q < 0.0 { Positive(d, -q); } }
    assert (p - w) * (p - w) == p * p - 2.0 * (p * w) + w * w;
    assert u * (w * (1.0 - w)) == u * w - u * (w * w);
    assert w * dw == w * w + u * (w * w) by { assert dw == w + u * w; }
    assert c * w == p * w + u * w / 2.0;
  }

  lemma Scale(d: real, w: real, x: real)
    requires d > 0.0
    ensures d * w <= d * x ==> w <= x
  {
    if w > x {
      Positive(d, w - x);
      assert d * (w - x) == d * w - d * x;
    }
  }

  lemma Quotient(x: real, n: real)
    requires n > 0.0
    ensures x / n * n == x
    ensures x >= 0.0 ==> x / n >= 0.0
  {
    var q := x / n;
    if x >= 0.0 && q < 0.0 {
      Positive(-q, n);
    }
  }

  lemma Rate(hits: nat, total: nat)
    requires total >= 1 && hits <= total
    ensures 0.0 <= hits as real / total as real <= 1.0
  {
    Quotient(hits as real, total as real);
    Quotient((total - hits) as real, total as real);
    var n, p, q := total as real, hits as real / total as real, (total - hits) as real / total as real;
    assert (p + q - 1.0) * n == 0.0;
  }

  lemma RateGrows(hits: nat, more: nat, total: nat)
    requires total >= 1 && hits < more
    ensures hits as real / total as real < more as real / total as real
  {
    var n, p, p' := total as real, hits as real / total as real, more as real / total as real;
    Quotient(hits as real, n);
    Quotient(more as real, n);
    if p >= p' {
      NonNegative(p - p', n);
    }
  }

  lemma RootInTermsOfU(n: real, z: real, variance: real, u: real, root: real)
    requires n > 0.0 && u == z * z / n && root * root == variance / n + z * z / (4.0 * n * n)
    ensures (z * root) * (z * root) == u * variance + u * u / 4.0
  {
    var zz, a, b := z * z, variance / n, z * z / (4.0 * n * n);
    Quotient(variance, n);
    Quotient(zz, n);
    var four := FourSquares(n);
    Quarter(zz, n, four);
    assert (z * root) * (z * root) == zz * (root * root);
    assert zz * (a + b) == zz * a + zz * b;
    assert zz * a == u * (a * n);
    assert zz * b == u * (b * n);
  }

  lemma FourSquares(n: real) returns (four: real)
    requires n > 0.0
    ensures four == 4.0 * n * n && four > 0.0
  {
    var m := 4.0 * n;
    four := m * n;
    ProductPositive(m, n, four);
  }

  lemma ProductPositive(a: real, b: real, product: real)
    requires a > 0.0 && b > 0.0 && product == a * b
    ensures product > 0.0
  {
    Positive(a, b);
  }

  lemma Quarter(zz: real, n: real, four: real)
    requires n > 0.0 && four > 0.0 && four == 4.0 * n * n
    ensures zz / four * n == zz / n / 4.0
  {
    var b, u := zz / four, zz / n;
    Quotient(zz, four);
    Quotient(zz, n);
    assert b * four == b * n * n * 4.0;
    Cancel(b * n * 4.0, u, n);
  }

  lemma Cancel(a: real, b: real, n: real)
    requires n > 0.0 && a * n == b * n
    ensures a == b
  {
    if a < b {
      Positive(b - a, n);
    } else if b < a {
      Positive(a - b, n);
    }
  }

  /** In the source's own variables: u, p and m, and the defining equation of m. */
  lemma InTermsOfU(hits: nat, total: nat, z: real, root: real) returns (p: real, u: real, m: real)
    requires total >= 1 && hits <= total && z >= 0.0 && IsRoot(hits, total, z, root)
    ensures p == hits as real / total as real && u == z * z / total as real && m == z * root
    ensures 0.0 <= p <= 1.0 && u >= 0.0 && HalfWidth(p, u, m)
    ensures (1.0 + u) * WilsonLower(hits, total, z, root) == p + u / 2.0 - m
  {
    var n := total as real;
    p, u, m := hits as real / n, z * z / n, z * root;
    Rate(hits, total);
    NonNegative(z, z);
    NonNegative(z, root);
    Quotient(z * z, n);
    RootInTermsOfU(n, z, p * (1.0 - p), u, root);
    HalfOfU(z * z, n);
    Quotient(p + u / 2.0 - m, 1.0 + u);
  }

  lemma HalfOfU(zz: real, n: real)
    requires n > 0.0
    ensures zz / (2.0 * n) == zz / n / 2.0
  {
    Quotient(zz, 2.0 * n);
    Quotient(zz, n);
    assert (zz / (2.0 * n) * 2.0 - zz / n) * n == 0.0;
  }

  /** The bound lies between 0 and the observed rate and is an end of the Wilson interval. */
  lemma WilsonIsALowerBound(hits: nat, total: nat, z: real, root: real)
    requires total >= 1 && hits <= total && z >= 0.0 && IsRoot(hits, total, z, root)
    ensures var n, p, w := total as real, hits as real / total as real, WilsonLower(hits, total, z, root);
            0.0 <= w <= p && Gap(n, p, z * z, w) == 0.0
  {
    var p, u, m := InTermsOfU(hits, total, z, root);
    var n, w := total as real, WilsonLower(hits, total, z, root);
    Quotient(z * z, n);
    LowerEndBounds(p, u, m, w);
    GapVanishes(n, p, z * z, u, w);
  }

  lemma NoTrialsNoBound(z: real, root: real)
    ensures WilsonLower(0, 0, z, root) == 0.0
  {
  }

  lemma LowerEndBounds(p: real, u: real, m: real, w: real)
    requires 0.0 <= p <= 1.0 && u >= 0.0 && HalfWidth(p, u, m) && (1.0 + u) * w == p + u / 2.0 - m
    ensures 0.0 <= w <= p && (p - w) * (p - w) == u * (w * (1.0 - w))
  {
    LowerEndIsNonNegative(p, u, m);
    LowerEndIsBelow(p, u, m);
    LowerEndSolves(p, u, m, w);
    Scale(1.0 + u, 0.0, w);
    Scale(1.0 + u, w, p);
  }

  lemma GapVanishes(n: real, p: real, z2: real, u: real, w: real)
    requires u * n == z2 && (p - w) * (p - w) == u * (w * (1.0 - w))
    ensures Gap(n, p, z2, w) == 0.0
  {
    var square, spread := (p - w) * (p - w), w * (1.0 - w);
    assert n * (p - w) * (p - w) == n * square;
    assert z2 * w * (1.0 - w) == z2 * spread;
    assert n * (u * spread) == u * n * spread;
  }

  /** More hits out of the same number of signals always score strictly higher. */
  lemma WilsonRewardsHits(hits: nat, more: nat, total: nat, z: real, root: real, root': real)
    requires total >= 1 && hits < more <= total && z >= 0.0
    requires IsRoot(hits, total, z, root) && IsRoot(more, total, z, root')
    ensures WilsonLower(hits, total, z, root) < WilsonLower(more, total, z, root')
  {
    var p, u, m := InTermsOfU(hits, total, z, root);
    var p', u', m' := InTermsOfU(more, total, z, root');
    RateGrows(hits, more, total);
    LowerEndsGrow(p, p', u, m, m', WilsonLower(hits, total, z, root), WilsonLower(more, total, z, root'));
  }

  lemma LowerEndsGrow(p: real, p': real, u: real, m: real, m': real, w: real, w': real)
    requires 0.0 <= p < p' <= 1.0 && u >= 0.0 && HalfWidth(p, u, m) && HalfWidth(p', u, m')
    requires (1.0 + u) * w == p + u / 2.0 - m && (1.0 + u) * w' == p' + u / 2.0 - m'
    ensures w < w'
  {
    LowerEndSolves(p, u, m, w);
    LowerEndSolves(p', u, m', w');
    LowerEndIsBelow(p, u, m);
    Scale(1.0 + u, w, p);
    SolutionsGrow(p, p', u, w, w');
  }

  lemma SolutionsGrow(p: real, p': real, u: real, w: real, w': real)
    requires 0.0 <= p < p' <= 1.0 && u >= 0.0 && w <= p
    requires (p - w) * (p - w) == u * (w * (1.0 - w)) && (p' - w') * (p' - w') == u * (w' * (1.0 - w'))
    ensures w < w'
  {
    if w >= w' {
      SquaresGrow(p - w, p' - w);
      BetweenTheEnds(p', u, w', w);
    }
  }

  /** (p - w)^2 - u w (1 - w) is convex, vanishes at the lower end and is not positive at p. */
  lemma BetweenTheEnds(p: real, u: real, low: real, w: real)
    requires 0.0 <= p <= 1.0 && u >= 0.0 && low <= w < p
    requires (p - low) * (p - low) == u * (low * (1.0 - low))
    ensures (p - w) * (p - w) <= u * (w * (1.0 - w))
  {
    var s, t := w - low, p - w;
    var fp, fw := Excess(p, u, p), Excess(p, u, w);
    assert w - s == low && Excess(p, u, low) == 0.0;
    NonNegative(p, 1.0 - p);
    NonNegative(u, p * (1.0 - p));
    assert fp <= 0.0;
    Chord(p, u, w, s, t);
    NonNegative(s, -fp);
    BowIsNonNegative(u, s, t);
    if fw > 0.0 {
      Positive(s + t, fw);
    }
  }

  lemma BowIsNonNegative(u: real, s: real, t: real)
    requires u >= 0.0 && s >= 0.0 && t >= 0.0
    ensures (1.0 + u) * (s * t) * (s + t) >= 0.0
  {
    NonNegative(s, t);
    NonNegative(1.0 + u, s * t);
    NonNegative((1.0 + u) * (s * t), s + t);
  }

  function Excess(p: real, u: real, x: real): real { (p - x) * (p - x) - u * (x * (1.0 - x)) }

  lemma Chord(p: real, u: real, w: real, s: real, t: real)
    requires t == p - w
    ensures t * Excess(p, u, w - s) + s * Excess(p, u, p) - (s + t) * Excess(p, u, w) == (1.0 + u) * (s * t) * (s + t)
  {
    Step(p, u, w, -s);
    Step(p, u, w, t);
    var slope := -2.0 * (p - w) - u * (1.0 - 2.0 * w);
    var e := Excess(p, u, w);
    assert t * (e - s * slope + (1.0 + u) * (s * s)) + s * (e + t * slope + (1.0 + u) * (t * t))
        == (s + t) * e + (1.0 + u) * (s * t) * (s + t) by {
      assert t * (s * slope) == s * (t * slope);
      assert t * ((1.0 + u) * (s * s)) == (1.0 + u) * (s * t) * s;
      assert s * ((1.0 + u) * (t * t)) == (1.0 + u) * (s * t) * t;
    }
  }

  lemma Step(p: real, u: real, w: real, h: real)
    ensures Excess(p, u, w + h)
         == Excess(p, u, w) + h * (-2.0 * (p - w) - u * (1.0 - 2.0 * w)) + (1.0 + u) * (h * h)
  {
    var a := p - w;
    assert (a - h) * (a - h) == a * a - 2.0 * (a * h) + h * h;
    assert (w + h) * (1.0 - (w + h)) == w * (1.0 - w) + h * (1.0 - 2.0 * w) - h * h;
    assert u * ((w + h) * (1.0 - (w + h))) == u * (w * (1.0 - w)) + u * (h * (1.0 - 2.0 * w)) - u * (h * h);
    assert u * (h * (1.0 - 2.0 * w)) == h * (u * (1.0 - 2.0 * w));
    assert h * (-2.0 * a - u * (1.0 - 2.0 * w)) == -2.0 * (a * h) - h * (u * (1.0 - 2.0 * w));
  }
}
