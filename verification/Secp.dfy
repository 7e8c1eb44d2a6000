/**
 The addition formulas of scripts/pubkey.py:42-51, modulo any m; the script has the field prime there.
 */
module Secp {
  import opened Modular
  import opened Fermat

  type Modulus = m: int | m > 1 witness 2

  type Point = (int, int)

  // pow(b, e, m)
  function PowMod(m: Modulus, b: int, e: nat): int {
    Pow(b, e) % m
  }

  function Add(m: Modulus, p: Point, q: Point): Point {
    var (px, py) := p;
    var (qx, qy) := q;
    var lam := if p == q then 3 * px * px * PowMod(m, 2 * py, m - 2) else (qy - py) * PowMod(m, qx - px, m - 2);
    var rx := lam * lam - px - qx;
    var ry := lam * (px - rx) - py;
    (rx % m, ry % m)
  }

  // ------------------------------------------------------------------
  // What the formulas are to compute
  // ------------------------------------------------------------------

  predicate InField(m: Modulus, p: Point) {
    0 <= p.0 < m && 0 <= p.1 < m
  }

  // y^2 = x^3 + 7
  ghost predicate OnCurve(m: Modulus, p: Point) {
    Divides(m, p.1 * p.1 - p.0 * p.0 * p.0 - 7)
  }

  // r is the mirror image of the third point on the line through p and q that rises by dy over u.
  ghost predicate Mirrors(m: Modulus, u: int, dy: int, p: Point, q: Point, r: Point) {
    && Divides(m, (r.0 + p.0 + q.0) * u * u - dy * dy)
    && Divides(m, (r.1 + p.1) * u - dy * (p.0 - r.0))
  }

  function Run(p: Point, q: Point): int {
    if p == q then 2 * p.1 else q.0 - p.0
  }

  function Rise(p: Point, q: Point): int {
    if p == q then 3 * p.0 * p.0 else q.1 - p.1
  }

  // The sum of two points: the line is their chord, or the tangent.
  ghost predicate IsSum(m: Modulus, p: Point, q: Point, r: Point) {
    Mirrors(m, Run(p, q), Rise(p, q), p, q, r)
  }

  // The power m - 2 of d is its inverse.
  ghost predicate Inverts(m: Modulus, d: int) {
    Divides(m, PowMod(m, d, m - 2) * d - 1)
  }

  lemma Invertible(m: Modulus, d: int)
    requires Prime(m) && d % m != 0
    ensures Inverts(m, d)
  {
    Inverse(m, d);
  }

  // ------------------------------------------------------------------
  // The formulas compute the sum
  // ------------------------------------------------------------------

  // The first coordinate of a point with slope lam; raw stands for it before reduction.
  lemma FirstMirrors(m: Modulus, u: int, dy: int, lam: int, sum: int, x: int)
    requires Divides(m, lam * u - dy) && Divides(m, x - (lam * lam - sum))
    ensures Divides(m, (x + sum) * u * u - dy * dy)
  {
    hide Divides;
    var a, b := x - (lam * lam - sum), lam * u - dy;
    Product(m, u * u, a);
    Product(m, lam * u + dy, b);
    Sum(m, u * u * a, (lam * u + dy) * b);
    assert (lam * u + dy) * b == lam * lam * u * u - dy * dy;
    assert u * u * a == (x + sum) * u * u - lam * lam * u * u;
  }

  lemma SecondMirrors(m: Modulus, u: int, dy: int, lam: int, px: int, py: int, raw: int, x: int, y: int)
    requires Divides(m, lam * u - dy) && Divides(m, x - raw) && Divides(m, y - (lam * (px - raw) - py))
    ensures Divides(m, (y + py) * u - dy * (px - x))
  {
    hide Divides;
    var a, b, c := x - raw, lam * u - dy, y - (lam * (px - raw) - py);
    Product(m, u, c);
    Product(m, px - raw, b);
    Product(m, dy, a);
    Sum(m, u * c, (px - raw) * b);
    Sum(m, u * c + (px - raw) * b, dy * a);
    assert u * c + (px - raw) * b + dy * a == (y + py) * u - dy * (px - x);
  }

  lemma SlopeMirrors(m: Modulus, u: int, dy: int, inv: int, p: Point, q: Point, r: Point)
    requires Divides(m, inv * u - 1)
    requires var lam := dy * inv;
             var rx := lam * lam - p.0 - q.0;
             r == (rx % m, (lam * (p.0 - rx) - p.1) % m)
    ensures Mirrors(m, u, dy, p, q, r)
  {
    hide Divides;
    var lam := dy * inv;
    var rx := lam * lam - (p.0 + q.0);
    var ry := lam * (p.0 - rx) - p.1;
    assert Divides(m, lam * u - dy) by {
      Product(m, dy, inv * u - 1);
      assert dy * (inv * u - 1) == lam * u - dy;
    }
    Reduction(m, rx);
    Reduction(m, ry);
    FirstMirrors(m, u, dy, lam, p.0 + q.0, r.0);
    SecondMirrors(m, u, dy, lam, p.0, p.1, rx, r.0, r.1);
    assert r.0 + (p.0 + q.0) == r.0 + p.0 + q.0;
  }

  // The script's formulas compute the sum.
  lemma AddIsSum(m: Modulus, p: Point, q: Point)
    requires Inverts(m, Run(p, q))
    ensures IsSum(m, p, q, Add(m, p, q)) && InField(m, Add(m, p, q))
  {
    var u, dy := Run(p, q), Rise(p, q);
    hide PowMod, Mirrors, Divides;
    SlopeMirrors(m, u, dy, PowMod(m, u, m - 2), p, q, Add(m, p, q));
  }

  // ------------------------------------------------------------------
  // There is one sum only
  // ------------------------------------------------------------------

  lemma CancelRun(m: Modulus, u: int, a: int)
    requires Inverts(m, u) && Divides(m, u * a)
    ensures Divides(m, a)
  {
    Cancel(m, u, PowMod(m, u, m - 2), a);
  }

  lemma FirstUnique(m: Modulus, u: int, dy: int, sum: int, x: int, x': int)
    requires Inverts(m, u) && Divides(m, (x + sum) * u * u - dy * dy) && Divides(m, (x' + sum) * u * u - dy * dy)
    ensures Divides(m, x - x')
  {
    hide Divides, Inverts;
    var a, b := (x + sum) * u * u - dy * dy, (x' + sum) * u * u - dy * dy;
    Product(m, -1, b);
    Sum(m, a, -1 * b);
    assert a + -1 * b == u * (u * (x - x'));
    CancelRun(m, u, u * (x - x'));
    CancelRun(m, u, x - x');
  }

  lemma SecondUnique(m: Modulus, u: int, d: int, py: int, y: int, y': int)
    requires Inverts(m, u) && Divides(m, (y + py) * u - d) && Divides(m, (y' + py) * u - d)
    ensures Divides(m, y - y')
  {
    hide Divides, Inverts;
    var a, b := (y + py) * u - d, (y' + py) * u - d;
    Product(m, -1, b);
    Sum(m, a, -1 * b);
    assert a + -1 * b == u * (y - y');
    CancelRun(m, u, y - y');
  }

  lemma SumUnique(m: Modulus, p: Point, q: Point, r: Point, s: Point)
    requires Inverts(m, Run(p, q)) && IsSum(m, p, q, r) && IsSum(m, p, q, s) && InField(m, r) && InField(m, s)
    ensures r == s
  {
    hide Inverts, Run, Rise, Divides;
    var u, dy := Run(p, q), Rise(p, q);
    assert r.0 + (p.0 + q.0) == r.0 + p.0 + q.0 && s.0 + (p.0 + q.0) == s.0 + p.0 + q.0;
    FirstUnique(m, u, dy, p.0 + q.0, r.0, s.0);
    Same(m, r.0, s.0);
    SecondUnique(m, u, dy * (p.0 - r.0), p.1, r.1, s.1);
    Same(m, r.1, s.1);
  }

  // ------------------------------------------------------------------
  // Sums are on the curve
  // ------------------------------------------------------------------

  lemma Squares(z: int, w: int)
    ensures (z + w) * (z - w) == z * z - w * w
  {
  }

  lemma SquareSum(m: int, n: int)
    ensures (m + n) * (m + n) == m * m + 2 * (m * n) + n * n
  {
  }

  lemma SquareOf(m: int, n: int)
    ensures m * n * (m * n) == n * n * (m * m)
  {
  }

  lemma Spread(k: int, a: int, b: int, c: int)
    ensures k * (a - b - c) == k * a - k * b - k * c
  {
  }

  // The square of the ordinate of r, times u squared.  With p = (x, y) and r = (x + t, z), b is the
  // second equation of Mirrors.
  lemma OrdinateIs(u: int, dy: int, y: int, t: int, z: int)
    ensures var b := (z + y) * u + dy * t;
            u * u * (z * z) == b * (z * u - (dy * t + y * u)) + t * t * (dy * dy) + 2 * (dy * t * (y * u)) + u * u * (y * y)
  {
    var b, w := (z + y) * u + dy * t, dy * t + y * u;
    assert b == z * u + w;
    Squares(z * u, w);
    SquareSum(dy * t, y * u);
    SquareOf(z, u);
    SquareOf(dy, t);
    SquareOf(y, u);
  }

  // The curve's equation for r, times u squared: a is the first equation of Mirrors, c that of p.
  lemma CurveIs(u: int, dy: int, x: int, y: int, t: int, z: int, s: int, g: int)
    requires g == (x + t) * (x + t) * (x + t)
    ensures var a, b, c := s * u * u - dy * dy, (z + y) * u + dy * t, y * y - x * x * x - 7;
            u * u * (z * z - g - 7) ==
            b * (z * u - (dy * t + y * u)) - t * t * a + u * u * c
            + u * u * (s * t * t - (g - x * x * x)) + 2 * (dy * t * (y * u))
  {
    OrdinateIs(u, dy, y, t, z);
    Spread(u * u, z * z, g, 7);
    Spread(u * u, y * y, x * x * x, 7);
    Spread(u * u, s * t * t, g, -(x * x * x));
    Spread(t * t, s * u * u, dy * dy, 0);
    assert t * t * (s * u * u) == u * u * (s * t * t);
  }

  lemma Cube(x: int, t: int)
    ensures (x + t) * (x + t) * (x + t) == x * x * x + 3 * (x * x * t) + 3 * (x * t * t) + t * t * t
  {
    SquareSum(x, t);
    assert (x + t) * (x + t) * (x + t) == (x * x + 2 * (x * t) + t * t) * x + (x * x + 2 * (x * t) + t * t) * t;
  }

  // For a tangent the remainder vanishes, ...
  lemma TangentRest(x: int, y: int, t: int, g: int)
    requires g == (x + t) * (x + t) * (x + t)
    ensures var u, dy, s := 2 * y, 3 * x * x, 3 * x + t;
            u * u * (s * t * t - (g - x * x * x)) + 2 * (dy * t * (y * u)) == 0
  {
    var k := 3 * (x * x * t);
    Cube(x, t);
    assert (3 * x + t) * t * t - (g - x * x * x) == -k;
    assert 2 * y * (2 * y) * -k == -(4 * (y * y) * k);
    assert 2 * (3 * x * x * t * (y * (2 * y))) == 4 * (y * y) * k;
  }

  // ... and for a chord it is zero because the other point is on the curve.
  lemma ChordRest(u: int, dy: int, x: int, y: int, t: int, g: int)
    requires g == (x + t) * (x + t) * (x + t)
    ensures var s := 3 * x + u + t;
            var a, c := s * u * u - dy * dy, y * y - x * x * x - 7;
            var d := (y + dy) * (y + dy) - (x + u) * (x + u) * (x + u) - 7;
            u * u * (s * t * t - (g - x * x * x)) + 2 * (dy * t * (y * u)) == t * u * (a + d - c)
  {
    var s := 3 * x + u + t;
    var a, c := s * u * u - dy * dy, y * y - x * x * x - 7;
    var d := (y + dy) * (y + dy) - (x + u) * (x + u) * (x + u) - 7;
    Cube(x, t);
    Cube(x, u);
    SquareSum(y, dy);
    var f := u * u * t - 3 * (x * x * u) + 2 * (y * dy);
    assert s * t * t == 3 * (x * t * t) + u * t * t + t * t * t;
    assert s * u * u == 3 * (x * u * u) + u * u * u + u * u * t;
    assert a + d - c == f;
    ChordFactor(u, dy, x, y, t);
  }

  lemma ChordFactor(u: int, dy: int, x: int, y: int, t: int)
    ensures u * u * (u * t * t - 3 * (x * x * t)) + 2 * (dy * t * (y * u)) ==
            t * u * (u * u * t - 3 * (x * x * u) + 2 * (y * dy))
  {
    Regroup(u, t, u * t);
    assert u * t * u == u * u * t;
    Regroup(u, t, -3 * (x * x));
    Collect(u * u, u * t * t, -3 * (x * x) * t, 0);
    Collect(t * u, u * u * t, -3 * (x * x) * u, 2 * (y * dy));
    assert dy * t * (y * u) == t * u * (y * dy);
  }

  lemma Regroup(u: int, t: int, k: int)
    ensures u * u * (k * t) == t * u * (k * u)
  {
  }

  lemma Collect(k: int, a: int, b: int, c: int)
    ensures k * (a + b + c) == k * a + k * b + k * c
  {
  }

  lemma CurveKept(m: Modulus, u: int, dy: int, p: Point, r: Point, s: int, rest: int)
    requires Inverts(m, u) && OnCurve(m, p) && Divides(m, s * u * u - dy * dy) && Divides(m, (r.1 + p.1) * u - dy * (p.0 - r.0)) && Divides(m, rest)
    requires var t := r.0 - p.0;
             rest == u * u * (s * t * t - (r.0 * r.0 * r.0 - p.0 * p.0 * p.0)) + 2 * (dy * t * (p.1 * u))
    ensures OnCurve(m, r)
  {
    hide Divides, Inverts;
    var t, d := r.0 - p.0, r.1 * r.1 - r.0 * r.0 * r.0 - 7;
    var a, b, c := s * u * u - dy * dy, (r.1 + p.1) * u - dy * (p.0 - r.0), p.1 * p.1 - p.0 * p.0 * p.0 - 7;
    var w := r.1 * u - (dy * t + p.1 * u);
    Combination(m, w, b, -(t * t), a, u * u, c, rest);
    CurveEquation(u, dy, p, r, s, rest);
    CancelRun(m, u, u * d);
    CancelRun(m, u, d);
  }

  lemma CurveEquation(u: int, dy: int, p: Point, r: Point, s: int, rest: int)
    requires var t := r.0 - p.0;
             rest == u * u * (s * t * t - (r.0 * r.0 * r.0 - p.0 * p.0 * p.0)) + 2 * (dy * t * (p.1 * u))
    ensures var t, d := r.0 - p.0, r.1 * r.1 - r.0 * r.0 * r.0 - 7;
            var a, b, c := s * u * u - dy * dy, (r.1 + p.1) * u - dy * (p.0 - r.0), p.1 * p.1 - p.0 * p.0 * p.0 - 7;
            var w := r.1 * u - (dy * t + p.1 * u);
            u * (u * d) == w * b + -(t * t) * a + u * u * c + rest
  {
    var t, d := r.0 - p.0, r.1 * r.1 - r.0 * r.0 * r.0 - 7;
    var a, w := s * u * u - dy * dy, r.1 * u - (dy * t + p.1 * u);
    var b, b' := (r.1 + p.1) * u - dy * (p.0 - r.0), (r.1 + p.1) * u + dy * t;
    assert b == b' by {
      Opposite(dy, p.0, r.0);
    }
    CurveIs(u, dy, p.0, p.1, t, r.1, s, r.0 * r.0 * r.0);
    assert u * (u * d) == u * u * d by {
      Nested(u, d);
    }
    assert b' * w == w * b && -(t * t) * a == -(t * t * a) by {
      Swap(b, w);
      Negated(t * t, a);
    }
  }

  lemma Opposite(k: int, a: int, b: int)
    ensures -(k * (a - b)) == k * (b - a)
  {
  }

  lemma Nested(u: int, d: int)
    ensures u * (u * d) == u * u * d
  {
  }

  lemma Swap(a: int, b: int)
    ensures a * b == b * a
  {
  }

  lemma Negated(a: int, b: int)
    ensures -a * b == -(a * b)
  {
  }

  lemma Combination(m: Modulus, w: int, b: int, h: int, a: int, v: int, c: int, rest: int)
    requires Divides(m, b) && Divides(m, a) && Divides(m, c) && Divides(m, rest)
    ensures Divides(m, w * b + h * a + v * c + rest)
  {
    hide Divides;
    Product(m, w, b);
    Product(m, h, a);
    Product(m, v, c);
    Sum(m, w * b, h * a);
    Sum(m, w * b + h * a, v * c);
    Sum(m, w * b + h * a + v * c, rest);
  }

  // The tangent and the chord.
  lemma TangentOnCurve(m: Modulus, p: Point, r: Point)
    requires OnCurve(m, p) && Inverts(m, Run(p, p)) && IsSum(m, p, p, r)
    ensures OnCurve(m, r)
  {
    hide Inverts, Divides;
    var u, dy, t, g := Run(p, p), Rise(p, p), r.0 - p.0, r.0 * r.0 * r.0;
    var s := r.0 + p.0 + p.0;
    assert p.0 + t == r.0 && s == 3 * p.0 + t;
    TangentRest(p.0, p.1, t, g);
    Nothing(m);
    CurveKept(m, u, dy, p, r, s, 0);
  }

  lemma ChordOnCurve(m: Modulus, p: Point, q: Point, r: Point)
    requires p != q && OnCurve(m, p) && OnCurve(m, q) && Inverts(m, Run(p, q)) && IsSum(m, p, q, r)
    ensures OnCurve(m, r)
  {
    hide Inverts, Divides;
    var u, dy, t, g := Run(p, q), Rise(p, q), r.0 - p.0, r.0 * r.0 * r.0;
    var s := r.0 + p.0 + q.0;
    var a, c, d := s * u * u - dy * dy, p.1 * p.1 - p.0 * p.0 * p.0 - 7, q.1 * q.1 - q.0 * q.0 * q.0 - 7;
    assert s == 3 * p.0 + u + t && p.0 + t == r.0 && p.0 + u == q.0 && p.1 + dy == q.1;
    ChordRest(u, dy, p.0, p.1, t, g);
    Product(m, -1, c);
    Sum(m, a, d);
    Sum(m, a + d, -1 * c);
    Product(m, t * u, a + d - c);
    CurveKept(m, u, dy, p, r, s, t * u * (a + d - c));
  }

  // The sum of two points on the curve is on the curve.
  lemma SumOnCurve(m: Modulus, p: Point, q: Point, r: Point)
    requires OnCurve(m, p) && OnCurve(m, q) && Inverts(m, Run(p, q)) && IsSum(m, p, q, r)
    ensures OnCurve(m, r)
  {
    hide *;
    if p == q {
      TangentOnCurve(m, p, r);
    } else {
      ChordOnCurve(m, p, q, r);
    }
  }
}
