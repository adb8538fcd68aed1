// Learning rates that are too large: gradient descent that never stops.
module Divergence {
  import opened Vectors
  import opened GradientDescent
  import opened Convergence

  function Form(m: Sym, v: Vec): real { Dot(v, Times(m, v)) }

  // ---- the curvature form of the gradient never increases ----

  // With g' = c u - g and u = m g, the form of g' differs from that of g by c^2 (u.mu) - 2c (u.u).
  lemma FormOfStep(m: Sym, c: real, g: Vec)
    ensures var u := Times(m, g);
      Form(m, Add(Scale(c, u), Scale(-1.0, g))) == c * (c * Form(m, u)) - 2.0 * (c * Dot(u, u)) + Form(m, g)
  {
    var u := Times(m, g);
    var w := Times(m, u);
    var h := Add(Scale(c, u), Scale(-1.0, g));
    TimesLinear(m, c, u, -1.0, g);
    DotLinear(h, c, w, -1.0, u);
    DotLinear(w, c, u, -1.0, g);
    DotLinear(u, c, u, -1.0, g);
    Symmetric(m, g, u);
    assert Dot(h, w) == c * Dot(u, w) - Dot(g, w);
    assert Dot(h, u) == c * Dot(u, u) - Dot(g, u);
    FormArithmetic(c, Dot(u, w), Dot(u, u), Dot(g, u), Dot(h, w), Dot(h, u));
  }

  lemma FormArithmetic(c: real, a: real, b: real, f: real, x: real, y: real)
    requires x == c * a - b && y == c * b - f
    ensures c * x + -1.0 * y == c * (c * a) - 2.0 * (c * b) + f
  {
  }

  lemma FormDecreases(d: seq<Sample>, rate: real, p: Vec)
    requires d != [] && rate > 0.0
    ensures var m := Curvature(d, rate);
      Form(m, Gradient(d, Step(d, rate, p))) <= Form(m, Gradient(d, p))
  {
    hide Dot, Times, Scale, Add, Gradient, Quad, Curvature, Step, SumSquares;
    var m, g, c := Curvature(d, rate), Gradient(d, p), 2.0 / (|d| as real);
    var u := Times(m, g);
    StepGradient(d, rate, p);
    FormOfStep(m, c, g);
    CurvatureForm(d, rate, u, Quad(d, u), Times(Curvature(d, rate), u));
    QuadBounds(d, u);
    DecreaseArithmetic(|d| as real, rate, c, Form(m, u), Dot(u, u), Quad(d, u));
  }

  lemma DecreaseArithmetic(n: real, rate: real, c: real, f: real, s: real, q: real)
    requires rate > 0.0 && c > 0.0 && c * n == 2.0 && f == n * s - rate * q && q >= 0.0
    ensures c * (c * f) - 2.0 * (c * s) <= 0.0
  {
    var t := rate * q;
    assert t >= 0.0;
    assert c * f == (c * n) * s - c * t;
    assert c * (c * f) == 2.0 * (c * s) - c * (c * t);
    MulMono(c, 0.0, t);
    MulMono(c, 0.0, c * t);
  }

  // A tolerance that a gradient of form at most -k cannot meet.
  function Tolerance(k: real, c: real): (eps: real)
    requires k > 0.0 && c >= 0.0
    ensures eps > 0.0
  {
    if k / (c + 1.0) < 1.0 then k / (c + 1.0) else 1.0
  }

  lemma ToleranceOk(k: real, c: real, e: real, s: real)
    requires k > 0.0 && c >= 0.0 && e == Tolerance(k, c) && s == e * e
    ensures c * s < k
  {
    var f := k / (c + 1.0);
    assert f * (c + 1.0) == k;
    SquareBelow(e, s);
    MulMono(c, s, f);
    assert c * f + f == k;
  }

  lemma SquareBelow(e: real, s: real)
    requires 0.0 < e <= 1.0 && s == e * e
    ensures s <= e
  {
    ProductBelow(e, e, s);
  }

  lemma ProductBelow(x: real, y: real, z: real)
    requires 0.0 < x && y <= 1.0 && z == x * y
    ensures z <= x
  {
    MulMono(x, y, 1.0);
  }

  lemma NegativeFormIsLarge(d: seq<Sample>, rate: real, g: Vec, k: real, eps: real, e: real, z: real)
    requires d != [] && rate > 0.0 && k > 0.0 && eps > 0.0 && e == eps * eps
    requires Form(Curvature(d, rate), g) <= -k && z == rate * SumSquares(d) * e && z < k
    ensures L1(g) >= eps
  {
    hide Dot, Times, Quad, SumSquares, Curvature;
    CurvatureForm(d, rate, g, Quad(d, g), Times(Curvature(d, rate), g));
    QuadBounds(d, g);
    DotSelf(g);
    SumSquaresNonNegative(d);
    var l := L1(g) * L1(g);
    Norms(g, l);
    if L1(g) < eps {
      SquareMono(L1(g), eps, l, e);
      LargeArithmetic(|d| as real, rate, SumSquares(d), Dot(g, g), Quad(d, g), l, e, k, z);
    }
  }

  lemma LargeArithmetic(n: real, rate: real, t: real, s: real, q: real, l: real, e: real, k: real, z: real)
    requires z == rate * t * e && n > 0.0 && rate > 0.0 && t >= 0.0 && s >= 0.0 && q <= t * s && s <= l <= e
    requires n * s - rate * q <= -k
    ensures z >= k
  {
    MulMono(n, 0.0, s);
    MulMono(t, s, e);
    MulMono(rate, q, t * e);
    assert rate * (t * e) == rate * t * e;
  }

  lemma {:induction false} SumSquaresNonNegative(d: seq<Sample>)
    ensures SumSquares(d) >= 0.0
  {
    if d != [] {
      SumSquaresNonNegative(d[1..]);
      DotSelf(d[0].x);
    }
  }

  lemma {:induction false} NegativeNeverStops(d: seq<Sample>, rate: real, eps: real, e: real, k: real, z: real,
                                              fuel: nat, res: seq<Entry>, p: Vec)
    requires d != [] && rate > 0.0 && k > 0.0 && eps > 0.0 && e == eps * eps
    requires Form(Curvature(d, rate), Gradient(d, p)) <= -k && z == rate * SumSquares(d) * e && z < k
    ensures Go(d, rate, eps, fuel, res, p).None?
    decreases fuel
  {
    if fuel > 0 {
      NegativeFormIsLarge(d, rate, Gradient(d, p), k, eps, e, z);
      FormDecreases(d, rate, p);
      NegativeNeverStops(d, rate, eps, e, k, z, fuel - 1, [Entry(p, Loss(d, p), Gradient(d, p))] + res, Step(d,
          rate, p));
    }
  }

  // ---- a kernel of the curvature: the gradient along it only changes sign ----

  lemma KernelFlips(m: Sym, c: real, g: Vec, v: Vec)
    requires Times(m, v) == Vec(0.0, 0.0)
    ensures Dot(v, Add(Scale(c, Times(m, g)), Scale(-1.0, g))) == -Dot(v, g)
  {
    Symmetric(m, v, g);
    assert Dot(Vec(0.0, 0.0), g) == 0.0;
    DotLinear(v, c, Times(m, g), -1.0, g);
  }

  lemma DotBound(v: Vec, g: Vec, z: real)
    requires z == L1(v) * L1(g)
    ensures Abs(Dot(v, g)) <= z
  {
    hide Abs;
    var p, q := v.a * g.a, v.b * g.b;
    assert Dot(v, g) == p + q;
    AbsProduct(v.a, g.a, p);
    AbsProduct(v.b, g.b, q);
    AbsSum(p, q);
    AbsSum(v.a, v.b);
    AbsSum(g.a, g.b);
    SumsProduct(Abs(v.a), Abs(v.b), Abs(g.a), Abs(g.b), Abs(p) + Abs(q), L1(v), L1(g), z);
  }

  lemma AbsProduct(x: real, y: real, z: real)
    requires z == x * y
    ensures Abs(z) == Abs(x) * Abs(y)
  {
    ProductSign(x, y, z);
  }

  lemma AbsSum(x: real, y: real)
    ensures Abs(x + y) <= Abs(x) + Abs(y) && Abs(x) >= 0.0 && Abs(y) >= 0.0
  {
  }

  lemma ProductSign(x: real, y: real, z: real)
    requires z == x * y
    ensures (x >= 0.0 && y >= 0.0) || (x <= 0.0 && y <= 0.0) ==> z >= 0.0
    ensures (x >= 0.0 && y <= 0.0) || (x <= 0.0 && y >= 0.0) ==> z <= 0.0
  {
  }

  lemma SumsProduct(a: real, b: real, x: real, y: real, s: real, v: real, g: real, z: real)
    requires a >= 0.0 && b >= 0.0 && x >= 0.0 && y >= 0.0
    requires s == a * x + b * y && v == a + b && g == x + y && z == v * g
    ensures s <= z
  {
    assert (a + b) * (x + y) == a * x + b * y + (a * y + b * x);
    assert a * y >= 0.0 && b * x >= 0.0;
  }

  lemma {:induction false} KernelNeverStops(d: seq<Sample>, rate: real, eps: real, v: Vec, w: real,
                                            fuel: nat, res: seq<Entry>, p: Vec)
    requires d != [] && eps > 0.0 && Times(Curvature(d, rate), v) == Vec(0.0, 0.0)
    requires L1(v) > 0.0 && Abs(Dot(v, Gradient(d, p))) == w && w == eps * L1(v)
    ensures Go(d, rate, eps, fuel, res, p).None?
    decreases fuel
  {
    if fuel > 0 {
      var g := Gradient(d, p);
      LargeAlong(v, g, eps, w);
      FlipsAlong(d, rate, v, p);
      KernelNeverStops(d, rate, eps, v, w, fuel - 1, [Entry(p, Loss(d, p), g)] + res, Step(d, rate, p));
    }
  }

  lemma LargeAlong(v: Vec, g: Vec, eps: real, w: real)
    requires L1(v) > 0.0 && Abs(Dot(v, g)) == w && w == eps * L1(v)
    ensures L1(g) >= eps
  {
    hide *;
    var z := L1(v) * L1(g);
    DotBound(v, g, z);
    LargeFactor(L1(v), L1(g), eps, Abs(Dot(v, g)), z, w);
  }

  lemma LargeFactor(x: real, y: real, eps: real, t: real, z: real, w: real)
    requires x > 0.0 && t == w && t <= z && z == x * y && w == eps * x
    ensures y >= eps
  {
    if y < eps { StrictProduct(x, y, eps, z, w); }
  }

  lemma FlipsAlong(d: seq<Sample>, rate: real, v: Vec, p: Vec)
    requires d != [] && Times(Curvature(d, rate), v) == Vec(0.0, 0.0)
    ensures Abs(Dot(v, Gradient(d, Step(d, rate, p)))) == Abs(Dot(v, Gradient(d, p)))
  {
    StepGradient(d, rate, p);
    KernelFlips(Curvature(d, rate), 2.0 / (|d| as real), Gradient(d, p), v);
  }

  lemma StrictProduct(x: real, y: real, z: real, p: real, q: real)
    requires x > 0.0 && y < z && p == x * y && q == z * x
    ensures p < q
  {
    MulNegative(x, y - z);
  }

  // ---- where the descent has to start ----

  function Cross(u: Vec, v: Vec): real { u.a * v.b - u.b * v.a }

  lemma FormGap(m: Sym, u: Vec, v: Vec, x: real, y: real, b: real, c: real)
    requires x == Form(m, u) && y == Form(m, v) && b == Dot(u, Times(m, v)) && c == Cross(u, v)
    ensures x * y == b * b + Det(m) * (c * c)
  {
  }

  // The determinant of the moments is a sum of squares.
  lemma {:induction false} MomentsDet(d: seq<Sample>)
    ensures Det(Moments(d)) >= 0.0
  {
    if d != [] {
      var x, m := d[0].x, Moments(d[1..]);
      var w := Vec(-x.b, x.a);
      MomentsDet(d[1..]);
      QuadIsForm(d[1..], w);
      QuadBounds(d[1..], w);
      OuterDet(x, m, w);
    }
  }

  lemma OuterDet(x: Vec, m: Sym, w: Vec)
    requires w == Vec(-x.b, x.a)
    ensures Det(AddOuter(x, m)) == Det(m) + Form(m, w)
  {
  }

  // If the curvature form is negative somewhere, it is negative on an image of the moments, and so
  // on differences of gradients.
  lemma NegativeImage(d: seq<Sample>, rate: real, v: Vec)
    requires d != [] && rate > 0.0 && Form(Curvature(d, rate), v) < 0.0
    ensures Form(Curvature(d, rate), Times(Moments(d), v)) < 0.0
  {
    var m := Moments(d);
    var z := Times(m, v);
    var a, b, c, s := Form(m, v), Dot(z, z), Form(m, z), Dot(v, v);
    CurvatureForm(d, rate, v, Quad(d, v), Times(Curvature(d, rate), v));
    CurvatureForm(d, rate, z, Quad(d, z), Times(Curvature(d, rate), z));
    QuadIsForm(d, v); QuadIsForm(d, z);
    QuadBounds(d, v); QuadBounds(d, z);
    DotSelf(v); DotSelf(z);
    CauchySchwarz(v, z);
    Symmetric(m, v, z);
    MomentsDet(d);
    var e := Cross(v, z);
    FormGap(m, v, z, a, c, b, e);
    GapNonNegative(Det(m), e);
    NegativeImageArithmetic(|d| as real, rate, a, b, c, s, a * a, b * b, s * b, a * c);
  }

  lemma GapNonNegative(det: real, e: real)
    requires det >= 0.0
    ensures det * (e * e) >= 0.0
  {
    Square(e);
    MulMono(det, 0.0, e * e);
  }

  lemma NegativeImageArithmetic(n: real, rate: real, a: real, b: real, c: real, s: real,
                                aa: real, bb: real, sb: real, ac: real)
    requires n > 0.0 && rate > 0.0 && a >= 0.0 && b >= 0.0 && c >= 0.0 && s >= 0.0
    requires aa == a * a && bb == b * b && sb == s * b && ac == a * c
    requires n * s - rate * a < 0.0 && aa <= sb && bb <= ac
    ensures n * b - rate * c < 0.0
  {
    MulMono(n, 0.0, s);
    PositiveFactor(rate, a, rate * a);
    ProductPositive(a, a, aa);
    PositiveFactors(s, b, sb);
    // rate s b >= rate a a > n s a, so rate b > n a
    MulMono(rate, aa, sb);
    ScaledLess(a, n * s, rate * a, a * (n * s), a * (rate * a));
    assert a * (n * s) == s * (n * a) && a * (rate * a) == rate * aa && s * (rate * b) == rate * sb;
    CancelLess(s, n * a, rate * b, s * (n * a), rate * sb);
    // rate a c >= rate b b > n a b, so rate c > n b
    MulMono(rate, bb, ac);
    ScaledLess(b, n * a, rate * b, b * (n * a), b * (rate * b));
    assert b * (n * a) == a * (n * b) && b * (rate * b) == rate * bb && a * (rate * c) == rate * ac;
    CancelLess(a, n * b, rate * c, a * (n * b), rate * ac);
  }

  lemma PositiveFactor(x: real, y: real, p: real)
    requires x > 0.0 && p == x * y && p > 0.0
    ensures y > 0.0
  {
    if y <= 0.0 { MulMono(x, y, 0.0); }
  }

  lemma PositiveFactors(x: real, y: real, p: real)
    requires x >= 0.0 && y >= 0.0 && p == x * y && p > 0.0
    ensures x > 0.0 && y > 0.0
  {
    if x <= 0.0 { MulMono(y, x, 0.0); }
    if y <= 0.0 { MulMono(x, y, 0.0); }
  }

  lemma ScaledLess(t: real, x: real, y: real, p: real, q: real)
    requires t > 0.0 && x < y && p == t * x && q == t * y
    ensures p < q
  {
    MulNegative(t, x - y);
  }

  lemma CancelLess(t: real, x: real, y: real, p: real, q: real)
    requires t > 0.0 && p < q && p == t * x && q == t * y
    ensures x < y
  {
    if x >= y { MulMono(t, y, x); }
  }

  lemma FormScaled(m: Sym, t: real, v: Vec, f: real)
    requires f == Form(m, v)
    ensures Form(m, Scale(t, v)) == t * (t * f)
  {
    TimesScale(m, t, v);
    var w := Times(m, v);
    assert t * v.a * (t * w.a) + t * v.b * (t * w.b) == t * (t * (v.a * w.a + v.b * w.b));
  }

  lemma FormOfDifference(m: Sym, t: real, z: Vec, b: Vec, f: real, g: real, w: real)
    requires f == Form(m, z) && g == Form(m, b) && w == Dot(z, Times(m, b))
    ensures Form(m, Add(Scale(t, z), Scale(-1.0, b))) == t * (t * f) - 2.0 * (t * w) + g
  {
    var h := Add(Scale(t, z), Scale(-1.0, b));
    TimesLinear(m, t, z, -1.0, b);
    var mz, mb := Times(m, z), Times(m, b);
    DotLinear(h, t, mz, -1.0, mb);
    DotLinear(mz, t, z, -1.0, b);
    DotLinear(mb, t, z, -1.0, b);
    Symmetric(m, z, b);
    DifferenceArithmetic(t, f, g, w, Dot(h, mz), Dot(h, mb));
  }

  lemma DifferenceArithmetic(t: real, f: real, g: real, w: real, x: real, y: real)
    requires x == t * f - w && y == t * w - g
    ensures t * x + -1.0 * y == t * (t * f) - 2.0 * (t * w) + g
  {
  }

  // The gradient at a multiple of v.
  lemma GradientAt(d: seq<Sample>, t: real, v: Vec)
    requires d != []
    ensures Gradient(d, Scale(t, v))
      == Scale(2.0 / (|d| as real), Add(Scale(t, Times(Moments(d), v)), Scale(-1.0, Correlation(d, Vec(0.0, 0.0)))))
  {
    var o := Vec(0.0, 0.0);
    var x := Scale(t, v);
    assert Add(o, x) == x;
    ErrorsShift(d, o, x);
    WeightedShift(d, Errors(d, o), Errors(d, x), x);
    TimesScale(Moments(d), t, v);
    NegateGradient(|d| as real, t, Times(Moments(d), v), Correlation(d, o));
  }

  lemma NegateGradient(n: real, t: real, z: Vec, b: Vec)
    requires n > 0.0
    ensures Scale(-2.0 / n, Add(b, Scale(-1.0, Scale(t, z)))) == Scale(2.0 / n, Add(Scale(t, z), Scale(-1.0, b)))
  {
    NegateArithmetic(n, t * z.a, b.a);
    NegateArithmetic(n, t * z.b, b.b);
  }

  lemma NegateArithmetic(n: real, x: real, b: real)
    requires n > 0.0
    ensures -2.0 / n * (b + -1.0 * x) == 2.0 / n * (x + -1.0 * b)
  {
    var c := 2.0 / n;
    assert -2.0 / n == -c;
    assert -c * (b - x) == c * (x - b);
  }

  // A parameter so far out that the negative quadratic term dominates.
  lemma FarOut(f: real, w: real, g: real) returns (t: real)
    requires f < 0.0
    ensures t * (t * f) - 2.0 * (t * w) + g <= f
  {
    var k := 2.0 * Abs(w) + Abs(g);
    var q := k / -f;
    assert q * -f == k;
    ProductNonNegative(q, -f, k);
    t := q + 1.0;
    // t f = -k + f
    assert t * f == -k + f;
    MulMono(t, -2.0 * w, 2.0 * Abs(w));
    MulMono(q, f, 0.0);
    MulMono(q, 0.0, Abs(g));
    assert t * (t * f) == t * (-k) + t * f;
    assert t * k == t * (2.0 * Abs(w)) + t * Abs(g);
    assert t * Abs(g) == q * Abs(g) + Abs(g);
    assert t * (-2.0 * w) == -2.0 * (t * w);
  }

  lemma ProductNonNegative(x: real, y: real, z: real)
    requires y > 0.0 && z >= 0.0 && x * y == z
    ensures x >= 0.0
  {
    if x < 0.0 { MulNegative(y, x); }
  }

  lemma NegativeStart(d: seq<Sample>, rate: real, v: Vec) returns (p: Vec, k: real)
    requires d != [] && rate > 0.0 && Form(Curvature(d, rate), v) < 0.0
    ensures k > 0.0 && Form(Curvature(d, rate), Gradient(d, p)) <= -k
  {
    var m, b := Curvature(d, rate), Correlation(d, Vec(0.0, 0.0));
    var z := Times(Moments(d), v);
    var f, g, w := Form(m, z), Form(m, b), Dot(z, Times(m, b));
    NegativeImage(d, rate, v);
    var t := FarOut(f, w, g);
    p := Scale(t, v);
    var h := Add(Scale(t, z), Scale(-1.0, b));
    var c, x := 2.0 / (|d| as real), Form(m, h);
    FormOfDifference(m, t, z, b, f, g, w);
    GradientAt(d, t, v);
    FormScaled(m, c, h, x);
    k := c * (c * -f);
    ScaledNegative(c, x, f, k, c * (c * x));
  }

  lemma ScaledNegative(c: real, x: real, f: real, k: real, y: real)
    requires c > 0.0 && x <= f < 0.0 && k == c * (c * -f) && y == c * (c * x)
    ensures k > 0.0 && y <= -k
  {
    ProductPositive(c, -f, c * -f);
    ProductPositive(c, c * -f, k);
    MulMono(c, x, f);
    MulMono(c, c * x, c * f);
    assert c * (c * f) == -k;
  }

  // ---- the exact condition ----

  // A direction in which a symmetric matrix that is not positive definite has a negative form, or
  // which it sends to zero.
  lemma BadDirection(m: Sym) returns (v: Vec)
    requires !PositiveDefinite(m)
    ensures Form(m, v) < 0.0 || (v != Vec(0.0, 0.0) && Times(m, v) == Vec(0.0, 0.0))
  {
    hide Form, Times, Det;
    if m.p < 0.0 || (m.p == 0.0 && m.q == 0.0) {
      v := Vec(1.0, 0.0);
      UnitForm(m);
    } else if m.p == 0.0 {
      v := SlantForm(m);
    } else {
      v := Vec(-m.q, m.p);
      AdjointForm(m, v);
      if Det(m) < 0.0 { MulNegative(m.p, Det(m)); }
    }
  }

  lemma UnitForm(m: Sym)
    ensures Form(m, Vec(1.0, 0.0)) == m.p && Times(m, Vec(1.0, 0.0)) == Vec(m.p, m.q)
  {
  }

  lemma SlantForm(m: Sym) returns (v: Vec)
    requires m.p == 0.0 && m.q != 0.0
    ensures Form(m, v) == -1.0
  {
    var t := -(m.r + 1.0) / (2.0 * m.q);
    v := Vec(t, 1.0);
    assert t * (2.0 * m.q) == -(m.r + 1.0);
    assert Form(m, v) == t * (2.0 * m.q) + m.r;
  }

  lemma AdjointForm(m: Sym, v: Vec)
    requires v == Vec(-m.q, m.p)
    ensures Times(m, v) == Vec(0.0, Det(m)) && Form(m, v) == m.p * Det(m)
  {
    assert m.p * -m.q + m.q * m.p == 0.0;
    assert m.q * -m.q + m.r * m.p == Det(m);
  }

  lemma L1Positive(v: Vec)
    requires v != Vec(0.0, 0.0)
    ensures L1(v) > 0.0 && Dot(v, v) > 0.0
  {
    if v.a != 0.0 { NonZeroSquare(v.a, v.a * v.a); } else { NonZeroSquare(v.b, v.b * v.b); }
    Square(v.a); Square(v.b);
  }

  lemma NonZeroSquare(t: real, s: real)
    requires t != 0.0 && s == t * t
    ensures s > 0.0
  {
    if t > 0.0 { ProductPositive(t, t, s); } else { ProductPositive(-t, -t, s); }
  }

  // A start whose gradient has a fixed component along a kernel direction.
  lemma KernelStart(d: seq<Sample>, rate: real, v: Vec) returns (p: Vec, w: real)
    requires d != [] && rate > 0.0 && v != Vec(0.0, 0.0) && Times(Curvature(d, rate), v) == Vec(0.0, 0.0)
    ensures w > 0.0 && Abs(Dot(v, Gradient(d, p))) == w
  {
    var z, b, c := Times(Moments(d), v), Correlation(d, Vec(0.0, 0.0)), 2.0 / (|d| as real);
    var q, x := Dot(v, z), Dot(v, b);
    CurvatureForm(d, rate, v, Quad(d, v), Times(Curvature(d, rate), v));
    QuadIsForm(d, v);
    assert Dot(v, Vec(0.0, 0.0)) == 0.0;
    L1Positive(v);
    ProductPositive(|d| as real, Dot(v, v), rate * q);
    PositiveFactor(rate, q, rate * q);
    var t := (1.0 + x) / q;
    assert t * q == 1.0 + x;
    p := Scale(t, v);
    w := c;
    var h := Add(Scale(t, z), Scale(-1.0, b));
    GradientAt(d, t, v);
    DotLinear(v, t, z, -1.0, b);
    assert Dot(v, h) == 1.0;
    DotScaled(v, c, h);
  }

  lemma DotScaled(v: Vec, c: real, h: Vec)
    requires Dot(v, h) == 1.0
    ensures Dot(v, Scale(c, h)) == c
  {
    assert v.a * (c * h.a) + v.b * (c * h.b) == c * (v.a * h.a + v.b * h.b);
  }

  // A start and a tolerance with which gradient descent runs for ever.
  lemma RunsForEver(d: seq<Sample>, rate: real) returns (eps: real, p: Vec)
    requires d != [] && rate > 0.0 && !PositiveDefinite(Curvature(d, rate))
    ensures eps > 0.0 && !Halts(d, rate, eps, p)
  {
    hide *;
    var v := BadDirection(Curvature(d, rate));
    if Form(Curvature(d, rate), v) < 0.0 {
      var k;
      p, k := NegativeStart(d, rate, v);
      SumSquaresNonNegative(d);
      MulMono(rate, 0.0, SumSquares(d));
      var c := rate * SumSquares(d);
      eps := Tolerance(k, c);
      var e := eps * eps;
      ToleranceOk(k, c, eps, e);
      forall fuel: nat ensures Go(d, rate, eps, fuel, [], p).None? {
        NegativeNeverStops(d, rate, eps, e, k, c * e, fuel, [], p);
      }
    } else {
      var w;
      p, w := KernelStart(d, rate, v);
      L1Positive(v);
      eps := w / L1(v);
      assert eps * L1(v) == w;
      PositiveFactor(L1(v), eps, w);
      forall fuel: nat ensures Go(d, rate, eps, fuel, [], p).None? {
        KernelNeverStops(d, rate, eps, v, w, fuel, [], p);
      }
    }
    NeverHalts(d, rate, eps, p);
  }

  lemma NeverHalts(d: seq<Sample>, rate: real, eps: real, p: Vec)
    requires d != [] && forall fuel: nat :: Go(d, rate, eps, fuel, [], p).None?
    ensures !Halts(d, rate, eps, p)
  {
  }

  // Gradient descent stops from every start and for every tolerance exactly when n times the identity
  // less the rate times the moments of the data is positive definite, whatever the target values are.
  lemma HaltsExactly(d: seq<Sample>, rate: real)
    requires d != [] && rate > 0.0
    ensures (forall eps, p | eps > 0.0 :: Halts(d, rate, eps, p)) <==> PositiveDefinite(Curvature(d, rate))
  {
    if PositiveDefinite(Curvature(d, rate)) {
      var mu := DefiniteCurvature(d, rate);
      forall eps, p | eps > 0.0 ensures Halts(d, rate, eps, p) {
        var fuel := StopsInTime(d, rate, eps, mu, p);
      }
    } else {
      var eps, p := RunsForEver(d, rate);
    }
  }
}
