// examples/gradient-descent/GradientDescent.hs over the real numbers, for any number of samples.
module Vectors {
  datatype Vec = Vec(a: real, b: real)

  function Add(p: Vec, q: Vec): Vec { Vec(p.a + q.a, p.b + q.b) }

  function Scale(t: real, p: Vec): Vec { Vec(t * p.a, t * p.b) }

  function Dot(p: Vec, q: Vec): real { p.a * q.a + p.b * q.b }

  function Abs(t: real): real { if t < 0.0 then -t else t }

  // sumall . abs
  function L1(p: Vec): real { Abs(p.a) + Abs(p.b) }

  // The largest of the four sums with signs.
  lemma L1IsLargest(p: Vec)
    ensures L1(p) in {p.a + p.b, p.a - p.b, -p.a + p.b, -p.a - p.b}
    ensures p.a + p.b <= L1(p) && p.a - p.b <= L1(p) && -p.a + p.b <= L1(p) && -p.a - p.b <= L1(p)
  {
  }

  // A symmetric two by two matrix.
  datatype Sym = Sym(p: real, q: real, r: real)

  function Times(m: Sym, v: Vec): Vec { Vec(m.p * v.a + m.q * v.b, m.q * v.a + m.r * v.b) }

  function Det(m: Sym): real { m.p * m.r - m.q * m.q }

  predicate PositiveDefinite(m: Sym) { m.p > 0.0 && Det(m) > 0.0 }

  // The definitions, for proofs that hide them.
  lemma AddIs(p: Vec, q: Vec) ensures Add(p, q) == Vec(p.a + q.a, p.b + q.b) {}

  lemma ScaleIs(t: real, p: Vec) ensures Scale(t, p) == Vec(t * p.a, t * p.b) {}

  lemma TimesIs(m: Sym, v: Vec) ensures Times(m, v) == Vec(m.p * v.a + m.q * v.b, m.q * v.a + m.r * v.b) {}

  lemma Same(v: Vec, w: Vec) requires v.a == w.a && v.b == w.b ensures v == w {}

  lemma CombinationIs(s: real, v: Vec, t: real, w: Vec)
    ensures Add(Scale(s, v), Scale(t, w)) == Vec(s * v.a + t * w.a, s * v.b + t * w.b)
  {
  }

  lemma Square(t: real) ensures t * t >= 0.0 {}

  lemma DotSelf(v: Vec) ensures Dot(v, v) >= 0.0 { Square(v.a); Square(v.b); }

  lemma Symmetric(m: Sym, u: Vec, v: Vec)
    ensures Dot(Times(m, u), v) == Dot(u, Times(m, v))
  {
    var x, y := m.p * u.a + m.q * u.b, m.q * u.a + m.r * u.b;
    assert x * v.a + y * v.b == m.p * u.a * v.a + m.q * u.b * v.a + m.q * u.a * v.b + m.r * u.b * v.b;
    var z, w := m.p * v.a + m.q * v.b, m.q * v.a + m.r * v.b;
    assert u.a * z + u.b * w == m.p * u.a * v.a + m.q * u.a * v.b + m.q * u.b * v.a + m.r * u.b * v.b;
  }

  lemma DotLinear(u: Vec, s: real, v: Vec, t: real, w: Vec)
    ensures Dot(u, Add(Scale(s, v), Scale(t, w))) == s * Dot(u, v) + t * Dot(u, w)
    ensures Dot(Add(Scale(s, v), Scale(t, w)), u) == s * Dot(v, u) + t * Dot(w, u)
  {
  }

  lemma TimesLinear(m: Sym, s: real, v: Vec, t: real, w: Vec)
    ensures Times(m, Add(Scale(s, v), Scale(t, w))) == Add(Scale(s, Times(m, v)), Scale(t, Times(m, w)))
  {
    hide *;
    var x, y, z := Add(Scale(s, v), Scale(t, w)), Times(m, v), Times(m, w);
    CombinationIs(s, v, t, w);
    CombinationIs(s, y, t, z);
    TimesIs(m, v);
    TimesIs(m, w);
    TimesIs(m, x);
    RowLinear(m.p, m.q, s, v, t, w, x, y.a, z.a);
    RowLinear(m.q, m.r, s, v, t, w, x, y.b, z.b);
    Same(Times(m, x), Add(Scale(s, y), Scale(t, z)));
  }

  lemma RowLinear(p: real, q: real, s: real, v: Vec, t: real, w: Vec, x: Vec, y: real, z: real)
    requires x.a == s * v.a + t * w.a && x.b == s * v.b + t * w.b
    requires y == p * v.a + q * v.b && z == p * w.a + q * w.b
    ensures p * x.a + q * x.b == s * y + t * z
  {
    assert p * x.a == s * (p * v.a) + t * (p * w.a);
    assert q * x.b == s * (q * v.b) + t * (q * w.b);
  }

  // Cayley and Hamilton: trace(m) times the form of m is det(m) times the norm plus a square.
  lemma CayleyHamilton(m: Sym, v: Vec)
    ensures (m.p + m.r) * Dot(v, Times(m, v)) == Det(m) * Dot(v, v) + Dot(Times(m, v), Times(m, v))
  {
  }

  // The norm squared lies between half the square and the square of the sum of absolute values.
  lemma Norms(v: Vec, l: real)
    requires l == L1(v) * L1(v)
    ensures Dot(v, v) <= l <= 2.0 * Dot(v, v)
  {
    var x, y := Abs(v.a), Abs(v.b);
    assert x * x == v.a * v.a && y * y == v.b * v.b;
    assert l == x * x + 2.0 * (x * y) + y * y;
    Square(x - y);
    assert (x - y) * (x - y) == x * x - 2.0 * (x * y) + y * y;
    assert x * y >= 0.0;
  }

  lemma CauchySchwarz(u: Vec, v: Vec)
    ensures Dot(u, v) * Dot(u, v) <= Dot(u, u) * Dot(v, v)
  {
    var d := u.a * v.b - u.b * v.a;
    Square(d);
    assert Dot(u, u) * Dot(v, v) == Dot(u, v) * Dot(u, v) + d * d;
  }
}

module GradientDescent {
  import opened Options
  import opened Vectors

  // One column of x with the target value of y.
  datatype Sample = Sample(x: Vec, y: real)

  // What go records: the parameter, its loss and its gradient.
  datatype Entry = Entry(param: Vec, loss: real, grad: Vec)

  // y - param * x
  function Errors(d: seq<Sample>, p: Vec): (es: seq<real>)
    ensures |es| == |d| && forall i | 0 <= i < |d| :: es[i] == d[i].y - Dot(p, d[i].x)
  {
    seq(|d|, i requires 0 <= i < |d| => d[i].y - Dot(p, d[i].x))
  }

  // sumall . square
  function SumOfSquares(es: seq<real>): real {
    if es == [] then 0.0 else es[0] * es[0] + SumOfSquares(es[1..])
  }

  function Loss(d: seq<Sample>, p: Vec): real { SumOfSquares(Errors(d, p)) }

  // es times x transposed
  function Weighted(d: seq<Sample>, es: seq<real>): Vec
    requires |es| == |d|
  {
    if d == [] then Vec(0.0, 0.0) else Add(Scale(es[0], d[0].x), Weighted(d[1..], es[1..]))
  }

  function Correlation(d: seq<Sample>, p: Vec): Vec { Weighted(d, Errors(d, p)) }

  function Gradient(d: seq<Sample>, p: Vec): Vec
    requires d != []
  {
    Scale(-2.0 / (|d| as real), Correlation(d, p))
  }

  function Step(d: seq<Sample>, rate: real, p: Vec): Vec
    requires d != []
  {
    var g := Gradient(d, p);
    Vec(p.a - g.a * rate, p.b - g.b * rate)
  }

  // The recursion go of gradientDescent, cut off after fuel gradient evaluations.  It is unbounded in
  // the program: None says that it is still running.
  function Go(d: seq<Sample>, rate: real, eps: real, fuel: nat, res: seq<Entry>, p: Vec): Option<seq<Entry>>
    requires d != []
  {
    if fuel == 0 then None
    else
      var g := Gradient(d, p);
      if L1(g) < eps then Some(res)
      else Go(d, rate, eps, fuel - 1, [Entry(p, Loss(d, p), g)] + res, Step(d, rate, p))
  }

  ghost predicate Halts(d: seq<Sample>, rate: real, eps: real, p: Vec)
    requires d != []
  {
    exists fuel: nat :: Go(d, rate, eps, fuel, [], p).Some?
  }

  // ---- moments of the data ----

  // x times x transposed.
  function Moments(d: seq<Sample>): Sym {
    if d == [] then Sym(0.0, 0.0, 0.0) else AddOuter(d[0].x, Moments(d[1..]))
  }

  function AddOuter(x: Vec, m: Sym): Sym { Sym(x.a * x.a + m.p, x.a * x.b + m.q, x.b * x.b + m.r) }

  // The sum of (v . x)^2.
  function Quad(d: seq<Sample>, v: Vec): real {
    if d == [] then 0.0 else Dot(v, d[0].x) * Dot(v, d[0].x) + Quad(d[1..], v)
  }

  // The sum of squares of x.
  function SumSquares(d: seq<Sample>): real {
    if d == [] then 0.0 else Dot(d[0].x, d[0].x) + SumSquares(d[1..])
  }

  lemma {:induction false} QuadIsForm(d: seq<Sample>, v: Vec)
    ensures Quad(d, v) == Dot(v, Times(Moments(d), v))
  {
    if d != [] {
      QuadIsForm(d[1..], v);
      QuadStep(Moments(d[1..]), d[0].x, v);
    }
  }

  lemma QuadStep(m: Sym, x: Vec, v: Vec)
    ensures Dot(v, Times(AddOuter(x, m), v)) == Dot(v, x) * Dot(v, x) + Dot(v, Times(m, v))
  {
  }

  lemma {:induction false} QuadBounds(d: seq<Sample>, v: Vec)
    ensures 0.0 <= Quad(d, v) <= SumSquares(d) * Dot(v, v)
  {
    if d != [] {
      QuadBounds(d[1..], v);
      CauchySchwarz(v, d[0].x);
      Square(Dot(v, d[0].x));
      assert SumSquares(d) * Dot(v, v) == Dot(d[0].x, d[0].x) * Dot(v, v) + SumSquares(d[1..]) * Dot(v, v);
    }
  }

  lemma {:induction false} SumNonNegative(es: seq<real>)
    ensures SumOfSquares(es) >= 0.0
  {
    if es != [] {
      SumNonNegative(es[1..]);
      Square(es[0]);
    }
  }

  lemma LossNonNegative(d: seq<Sample>, p: Vec)
    ensures Loss(d, p) >= 0.0
  {
    SumNonNegative(Errors(d, p));
  }

  // ---- the loss and the moments on the data alone ----

  lemma LossOfOne(s: Sample, p: Vec)
    ensures Loss([s], p) == (s.y - Dot(p, s.x)) * (s.y - Dot(p, s.x))
  {
    var es := Errors([s], p);
    assert es[0] == s.y - Dot(p, s.x) && SumOfSquares(es[1..]) == 0.0;
  }

  lemma {:induction false} SumAdds(es: seq<real>, fs: seq<real>)
    ensures SumOfSquares(es + fs) == SumOfSquares(es) + SumOfSquares(fs)
  {
    if es == [] {
      assert es + fs == fs;
    } else {
      assert (es + fs)[1..] == es[1..] + fs;
      SumAdds(es[1..], fs);
    }
  }

  // The loss of joined data is the sum of the losses.
  lemma LossAdds(d: seq<Sample>, e: seq<Sample>, p: Vec)
    ensures Loss(d + e, p) == Loss(d, p) + Loss(e, p)
  {
    assert Errors(d + e, p) == Errors(d, p) + Errors(e, p);
    SumAdds(Errors(d, p), Errors(e, p));
  }

  lemma {:induction false} SumIsZero(es: seq<real>)
    ensures SumOfSquares(es) == 0.0 <==> forall e | e in es :: e == 0.0
  {
    if es != [] {
      SumIsZero(es[1..]);
      SumNonNegative(es[1..]);
      var s, t := es[0] * es[0], SumOfSquares(es[1..]);
      ZeroSquare(es[0], s);
      assert SumOfSquares(es) == s + t;
      assert es[0] in es && forall e :: e in es <==> e == es[0] || e in es[1..];
    }
  }

  lemma ZeroSquare(t: real, s: real)
    requires s == t * t
    ensures s >= 0.0 && (s == 0.0 <==> t == 0.0)
  {
    Square(t);
    if t != 0.0 { assert s / t == t; }
  }

  // The loss is zero exactly where the model meets all the samples.
  lemma LossIsZero(d: seq<Sample>, p: Vec)
    ensures Loss(d, p) == 0.0 <==> forall s | s in d :: s.y == Dot(p, s.x)
  {
    hide Dot, SumOfSquares;
    var es := Errors(d, p);
    SumIsZero(es);
    if forall e | e in es :: e == 0.0 {
      forall s | s in d ensures s.y == Dot(p, s.x) {
        var i :| 0 <= i < |d| && d[i] == s;
        assert es[i] in es;
      }
    }
  }

  lemma MomentsOfOne(s: Sample)
    ensures Moments([s]) == Sym(s.x.a * s.x.a, s.x.a * s.x.b, s.x.b * s.x.b)
  {
    assert [s][1..] == [];
  }

  lemma {:induction false} MomentsAdd(d: seq<Sample>, e: seq<Sample>)
    ensures var m, k, n := Moments(d + e), Moments(d), Moments(e);
      m.p == k.p + n.p && m.q == k.q + n.q && m.r == k.r + n.r
  {
    if d == [] {
      assert d + e == e;
    } else {
      assert (d + e)[1..] == d[1..] + e;
      MomentsAdd(d[1..], e);
    }
  }

  // The sum of squares is the trace of the moments.
  lemma {:induction false} SumSquaresIsTrace(d: seq<Sample>)
    ensures SumSquares(d) == Moments(d).p + Moments(d).r
  {
    if d != [] { SumSquaresIsTrace(d[1..]); }
  }

  // ---- the exact expansion of the loss ----

  // fs are the errors es after the parameter has moved by v.
  ghost predicate Shifted(d: seq<Sample>, es: seq<real>, fs: seq<real>, v: Vec) {
    |es| == |fs| == |d| && forall i | 0 <= i < |d| :: fs[i] == es[i] - Dot(v, d[i].x)
  }

  lemma ErrorsShift(d: seq<Sample>, p: Vec, v: Vec)
    ensures Shifted(d, Errors(d, p), Errors(d, Add(p, v)), v)
  {
    forall i | 0 <= i < |d| ensures Errors(d, Add(p, v))[i] == Errors(d, p)[i] - Dot(v, d[i].x) {
      DotAdd(p, v, d[i].x);
    }
  }

  lemma DotAdd(p: Vec, v: Vec, x: Vec) ensures Dot(Add(p, v), x) == Dot(p, x) + Dot(v, x) {}

  lemma {:induction false} SumShift(d: seq<Sample>, es: seq<real>, fs: seq<real>, v: Vec)
    requires Shifted(d, es, fs, v)
    ensures SumOfSquares(fs) == SumOfSquares(es) - 2.0 * Dot(Weighted(d, es), v) + Quad(d, v)
  {
    if d != [] {
      SumShift(d[1..], es[1..], fs[1..], v);
      SumShiftStep(es[0], fs[0], Dot(v, d[0].x));
      WeightedStep(es[0], d[0].x, Weighted(d[1..], es[1..]), v);
    }
  }

  lemma SumShiftStep(e: real, f: real, t: real)
    requires f == e - t
    ensures f * f == e * e - 2.0 * (e * t) + t * t
  {
  }

  lemma WeightedStep(e: real, x: Vec, c: Vec, v: Vec)
    ensures Dot(Add(Scale(e, x), c), v) == e * Dot(v, x) + Dot(c, v)
  {
    assert (e * x.a + c.a) * v.a + (e * x.b + c.b) * v.b == e * (v.a * x.a + v.b * x.b) + (c.a * v.a + c.b * v.b);
  }

  // The exact quadratic identity: the loss is its own second order expansion, with the gradient as
  // first order term.
  lemma LossExpansion(d: seq<Sample>, p: Vec, v: Vec)
    requires d != []
    ensures Loss(d, Add(p, v)) == Loss(d, p) + (|d| as real) * Dot(Gradient(d, p), v) + Quad(d, v)
  {
    hide Dot, Scale, Add, Quad, SumOfSquares, Weighted, Errors;
    ErrorsShift(d, p, v);
    SumShift(d, Errors(d, p), Errors(d, Add(p, v)), v);
    GradientDot(|d| as real, Correlation(d, p), v);
  }

  lemma GradientDot(n: real, c: Vec, v: Vec)
    requires n > 0.0
    ensures n * Dot(Scale(-2.0 / n, c), v) == -2.0 * Dot(c, v)
  {
    var t := -2.0 / n;
    assert n * t == -2.0;
    assert n * (t * c.a * v.a + t * c.b * v.b) == (n * t) * (c.a * v.a) + (n * t) * (c.b * v.b);
  }

  lemma {:induction false} WeightedShift(d: seq<Sample>, es: seq<real>, fs: seq<real>, v: Vec)
    requires Shifted(d, es, fs, v)
    ensures Weighted(d, fs) == Add(Weighted(d, es), Scale(-1.0, Times(Moments(d), v)))
  {
    hide Add, Scale, Times, Dot, AddOuter;
    if d == [] {
      NoShift(v);
    } else {
      WeightedShift(d[1..], es[1..], fs[1..], v);
      WeightedShiftStep(d[0].x, v, es[0], fs[0], Weighted(d[1..], es[1..]), Moments(d[1..]));
    }
  }

  lemma NoShift(v: Vec)
    ensures Vec(0.0, 0.0) == Add(Vec(0.0, 0.0), Scale(-1.0, Times(Sym(0.0, 0.0, 0.0), v)))
  {
    hide Add, Scale, Times;
    TimesIs(Sym(0.0, 0.0, 0.0), v);
    ScaleIs(-1.0, Vec(0.0, 0.0));
    AddIs(Vec(0.0, 0.0), Vec(0.0, 0.0));
  }

  lemma WeightedShiftStep(x: Vec, v: Vec, e: real, f: real, c: Vec, m: Sym)
    requires f == e - Dot(v, x)
    ensures Add(Scale(f, x), Add(c, Scale(-1.0, Times(m, v))))
         == Add(Add(Scale(e, x), c), Scale(-1.0, Times(AddOuter(x, m), v)))
  {
    hide *;
    var t := Dot(v, x);
    ScaleDifference(e, t, x);
    OuterTimes(x, m, v);
    Rearrange(Scale(e, x), Scale(t, x), c, Times(m, v));
  }

  lemma ScaleDifference(e: real, t: real, x: Vec)
    ensures Scale(e - t, x) == Add(Scale(e, x), Scale(-1.0, Scale(t, x)))
  {
  }

  lemma OuterTimes(x: Vec, m: Sym, v: Vec)
    ensures Times(AddOuter(x, m), v) == Add(Scale(Dot(v, x), x), Times(m, v))
  {
    var t := v.a * x.a + v.b * x.b;
    assert t * x.a == x.a * x.a * v.a + x.a * x.b * v.b;
    assert t * x.b == x.a * x.b * v.a + x.b * x.b * v.b;
  }

  lemma Rearrange(u: Vec, s: Vec, c: Vec, z: Vec)
    ensures Add(Add(u, Scale(-1.0, s)), Add(c, Scale(-1.0, z))) == Add(Add(u, c), Scale(-1.0, Add(s, z)))
  {
  }
}

// When gradient descent stops: the exact condition on the data and the learning rate.
module Convergence {
  import opened Options
  import opened Vectors
  import opened GradientDescent

  // n times the identity less rate times the moments of the data.
  function Curvature(d: seq<Sample>, rate: real): Sym { Blend(|d| as real, rate, Moments(d)) }

  function Blend(n: real, rate: real, m: Sym): Sym { IdentityLess(n, Multiple(rate, m)) }

  function Multiple(t: real, m: Sym): Sym { Sym(t * m.p, t * m.q, t * m.r) }

  function IdentityLess(n: real, m: Sym): Sym { Sym(n - m.p, -m.q, n - m.r) }

  lemma MultipleTimes(t: real, m: Sym, v: Vec)
    ensures Times(Multiple(t, m), v) == Scale(t, Times(m, v))
  {
    assert t * m.p * v.a + t * m.q * v.b == t * (m.p * v.a + m.q * v.b);
    assert t * m.q * v.a + t * m.r * v.b == t * (m.q * v.a + m.r * v.b);
  }

  lemma IdentityLessTimes(n: real, m: Sym, v: Vec)
    ensures Times(IdentityLess(n, m), v) == Add(Scale(n, v), Scale(-1.0, Times(m, v)))
  {
    assert (n - m.p) * v.a == n * v.a - m.p * v.a;
    assert (n - m.r) * v.b == n * v.b - m.r * v.b;
  }

  lemma Negative(t: real, v: Vec) ensures Scale(-1.0, Scale(t, v)) == Scale(-t, v) {}

  lemma BlendTimes(n: real, rate: real, m: Sym, v: Vec)
    ensures Times(Blend(n, rate, m), v) == Add(Scale(n, v), Scale(-rate, Times(m, v)))
  {
    hide Add, Scale, Times, Multiple, IdentityLess;
    MultipleTimes(rate, m, v);
    IdentityLessTimes(n, Multiple(rate, m), v);
    Negative(rate, Times(m, v));
  }

  // The curvature in terms of the number of samples, the rate and the moments.
  lemma CurvatureIs(d: seq<Sample>, rate: real, m: Sym)
    requires m == Moments(d)
    ensures var n, c := |d| as real, Curvature(d, rate);
      c.p == n - rate * m.p && c.q == -(rate * m.q) && c.r == n - rate * m.r
  {
    hide Moments, Blend;
    BlendIs(|d| as real, rate, m);
  }

  lemma BlendIs(n: real, rate: real, m: Sym)
    ensures var c := Blend(n, rate, m); c.p == n - rate * m.p && c.q == -(rate * m.q) && c.r == n - rate * m.r
  {
  }

  lemma DefiniteMeans(m: Sym)
    ensures PositiveDefinite(m) <==> m.p > 0.0 && m.p * m.r > m.q * m.q
  {
  }

  lemma CurvatureForm(d: seq<Sample>, rate: real, v: Vec, q: real, w: Vec)
    requires q == Quad(d, v) && w == Times(Curvature(d, rate), v)
    ensures Dot(v, w) == (|d| as real) * Dot(v, v) - rate * q
  {
    hide Dot, Times, Scale, Add, Blend;
    BlendTimes(|d| as real, rate, Moments(d), v);
    DotLinear(v, |d| as real, v, -rate, Times(Moments(d), v));
    QuadIsForm(d, v);
  }

  lemma StepIsShift(d: seq<Sample>, rate: real, p: Vec)
    requires d != []
    ensures Step(d, rate, p) == Add(p, Scale(-rate, Gradient(d, p)))
  {
  }

  lemma QuadScale(d: seq<Sample>, rate: real, t: real, v: Vec, s: real)
    requires t == -rate && s == rate * Quad(d, v)
    ensures Quad(d, Scale(t, v)) == rate * s
  {
    QuadIsForm(d, v);
    QuadIsForm(d, Scale(t, v));
    FormScale(Moments(d), rate, t, v, s);
  }

  lemma FormScale(m: Sym, rate: real, t: real, v: Vec, s: real)
    requires t == -rate && s == rate * Dot(v, Times(m, v))
    ensures Dot(Scale(t, v), Times(m, Scale(t, v))) == rate * s
  {
    var x, y := m.p * v.a + m.q * v.b, m.q * v.a + m.r * v.b;
    assert Times(m, Scale(t, v)) == Scale(t, Vec(x, y)) by { TimesScale(m, t, v); }
    assert t * v.a * (t * x) == rate * (rate * (v.a * x));
    assert t * v.b * (t * y) == rate * (rate * (v.b * y));
  }

  // The scalars that make up the change of the loss in one step.
  lemma StepFacts(d: seq<Sample>, rate: real, p: Vec) returns (t: real, x: real, y: real, w: real)
    requires d != []
    ensures var g := Gradient(d, p);
      && t == -rate && w == rate * Quad(d, g)
      && x == t * Dot(g, g) && y == rate * w
      && Loss(d, Step(d, rate, p)) == Loss(d, p) + (|d| as real) * x + y
  {
    hide *;
    var g := Gradient(d, p);
    t := -rate;
    x := Dot(g, Scale(t, g));
    y := Quad(d, Scale(t, g));
    w := rate * Quad(d, g);
    StepIsShift(d, rate, p);
    LossExpansion(d, p, Scale(t, g));
    QuadScale(d, rate, t, g, w);
    DotScale(g, t);
  }

  // One step lowers the loss by rate times the curvature form of the gradient, exactly.
  lemma StepLoss(d: seq<Sample>, rate: real, p: Vec)
    requires d != []
    ensures var g := Gradient(d, p);
      Loss(d, Step(d, rate, p)) == Loss(d, p) - rate * Dot(g, Times(Curvature(d, rate), g))
  {
    hide *;
    var g := Gradient(d, p);
    var t, x, y, w := StepFacts(d, rate, p);
    CurvatureForm(d, rate, g, Quad(d, g), Times(Curvature(d, rate), g));
    StepLossArithmetic(Loss(d, p), Loss(d, Step(d, rate, p)), |d| as real, rate, t, Dot(g, g), Quad(d, g), x, y, w,
                       Dot(g, Times(Curvature(d, rate), g)));
  }

  lemma DotScale(g: Vec, t: real)
    ensures Dot(g, Scale(t, g)) == t * Dot(g, g)
  {
    assert g.a * (t * g.a) + g.b * (t * g.b) == t * (g.a * g.a + g.b * g.b);
  }

  lemma StepLossArithmetic(l0: real, l1: real, n: real, rate: real, t: real, s: real, q: real,
                           x: real, y: real, w: real, c: real)
    requires t == -rate && l1 == l0 + n * x + y
    requires w == rate * q && y == rate * w
    requires x == t * s && c == n * s - w
    ensures l1 == l0 - rate * c
  {
    assert n * x == -(n * rate * s);
    assert rate * c == n * rate * s - rate * w;
  }

  // The next gradient is twice the curvature applied to this one, over n, less this one.
  lemma StepGradient(d: seq<Sample>, rate: real, p: Vec)
    requires d != []
    ensures var g := Gradient(d, p);
      Gradient(d, Step(d, rate, p)) == Add(Scale(2.0 / (|d| as real), Times(Curvature(d, rate), g)), Scale(-1.0, g))
  {
    var g, n, m := Gradient(d, p), |d| as real, Moments(d);
    var v := Scale(-rate, g);
    StepIsShift(d, rate, p);
    ErrorsShift(d, p, v);
    WeightedShift(d, Errors(d, p), Errors(d, Add(p, v)), v);
    BlendTimes(n, rate, m, g);
    TimesScale(m, -rate, g);
    NextGradient(n, rate, Correlation(d, p), g, Times(m, g));
  }

  lemma NextGradient(n: real, rate: real, c: Vec, g: Vec, u: Vec)
    requires n > 0.0 && g == Scale(-2.0 / n, c)
    ensures Scale(-2.0 / n, Add(c, Scale(-1.0, Scale(-rate, u))))
         == Add(Scale(2.0 / n, Add(Scale(n, g), Scale(-rate, u))), Scale(-1.0, g))
  {
    StepGradientArithmetic(n, rate, c.a, u.a);
    StepGradientArithmetic(n, rate, c.b, u.b);
  }

  lemma TimesScale(m: Sym, t: real, v: Vec)
    ensures Times(m, Scale(t, v)) == Scale(t, Times(m, v))
  {
    assert m.p * (t * v.a) + m.q * (t * v.b) == t * (m.p * v.a + m.q * v.b);
    assert m.q * (t * v.a) + m.r * (t * v.b) == t * (m.q * v.a + m.r * v.b);
  }

  lemma StepGradientArithmetic(n: real, rate: real, c: real, u: real)
    requires n > 0.0
    ensures var g := -2.0 / n * c;
      -2.0 / n * (c + -1.0 * (-rate * u)) == 2.0 / n * (n * g + -rate * u) + -1.0 * g
  {
    var t := 2.0 / n;
    assert -2.0 / n == -t && t * n == 2.0;
    var g := -t * c;
    assert t * (n * g + -rate * u) == (t * n) * g - t * rate * u;
    assert -t * (c + rate * u) == g - t * rate * u;
  }

  // ---- sufficient curvature: an explicit step bound ----

  // The curvature form is at least mu times the norm.
  ghost predicate AtLeast(d: seq<Sample>, rate: real, mu: real) {
    forall v: Vec :: Dot(v, Times(Curvature(d, rate), v)) >= mu * Dot(v, v)
  }

  // The least decrease of the loss in a step that is not the last.
  function Drop(rate: real, eps: real, mu: real): real { rate * (mu * HalfSquare(eps)) }

  function HalfSquare(eps: real): (h: real)
    ensures 2.0 * h == eps * eps
  {
    eps * eps / 2.0
  }

  lemma LargeGradient(g: Vec, eps: real)
    requires eps > 0.0 && L1(g) >= eps
    ensures Dot(g, g) >= HalfSquare(eps)
  {
    var l := L1(g) * L1(g);
    Norms(g, l);
    SquareMono(eps, L1(g), 2.0 * HalfSquare(eps), l);
  }

  lemma SquareMono(x: real, y: real, s: real, t: real)
    requires 0.0 <= x <= y && s == x * x && t == y * y
    ensures s <= t
  {
    MulMono(x, x, y);
    MulMono(y, x, y);
  }

  lemma ContinuingStep(d: seq<Sample>, rate: real, eps: real, mu: real, p: Vec)
    requires d != [] && rate > 0.0 && eps > 0.0 && mu > 0.0 && AtLeast(d, rate, mu)
    requires L1(Gradient(d, p)) >= eps
    ensures Loss(d, Step(d, rate, p)) <= Loss(d, p) - Drop(rate, eps, mu)
  {
    hide *;
    var g := Gradient(d, p);
    StepLoss(d, rate, p);
    LargeGradient(g, eps);
    AtLeastHere(d, rate, mu, g);
    DropArithmetic(Loss(d, p), Loss(d, Step(d, rate, p)), rate, mu, HalfSquare(eps), Dot(g, g),
                   Dot(g, Times(Curvature(d, rate), g)), eps);
  }

  lemma AtLeastHere(d: seq<Sample>, rate: real, mu: real, v: Vec)
    requires AtLeast(d, rate, mu)
    ensures Dot(v, Times(Curvature(d, rate), v)) >= mu * Dot(v, v)
  {
    hide Dot, Times, Curvature;
  }

  lemma DropArithmetic(l0: real, l1: real, rate: real, mu: real, h: real, s: real, c: real, eps: real)
    requires rate > 0.0 && mu > 0.0 && h == HalfSquare(eps) && s >= h && c >= mu * s && l1 == l0 - rate * c
    ensures l1 <= l0 - Drop(rate, eps, mu)
  {
    MulMono(mu, h, s);
    MulMono(rate, mu * h, c);
  }

  lemma MulMono(t: real, x: real, y: real)
    requires t >= 0.0 && x <= y
    ensures t * x <= t * y
  {
  }

  // With curvature at least mu the recursion stops, having recorded at most loss / drop entries.
  lemma {:induction false} HaltsWithin(d: seq<Sample>, rate: real, eps: real, mu: real, fuel: nat, res: seq<Entry>,
      p: Vec)
    requires d != [] && rate > 0.0 && eps > 0.0 && mu > 0.0 && AtLeast(d, rate, mu)
    requires fuel as real * Drop(rate, eps, mu) > Loss(d, p)
    ensures var r := Go(d, rate, eps, fuel, res, p);
      r.Some? && (|r.value| - |res|) as real * Drop(rate, eps, mu) <= Loss(d, p)
    decreases fuel
  {
    LossNonNegative(d, p);
    var g := Gradient(d, p);
    if L1(g) < eps {
    } else {
      ContinuingStep(d, rate, eps, mu, p);
      var t := Drop(rate, eps, mu);
      assert (fuel - 1) as real * t == fuel as real * t - t;
      var res' := [Entry(p, Loss(d, p), g)] + res;
      HaltsWithin(d, rate, eps, mu, fuel - 1, res', Step(d, rate, p));
      var k := |Go(d, rate, eps, fuel - 1, res', Step(d, rate, p)).value| - |res'|;
      assert (k + 1) as real * t == k as real * t + t;
    }
  }

  lemma ProductPositive(x: real, y: real, z: real)
    requires x > 0.0 && y > 0.0 && z == x * y
    ensures z > 0.0
  {
  }

  lemma DropPositive(rate: real, eps: real, mu: real)
    requires rate > 0.0 && eps > 0.0 && mu > 0.0
    ensures Drop(rate, eps, mu) > 0.0
  {
    var h := HalfSquare(eps);
    ProductPositive(eps, eps, 2.0 * h);
    ProductPositive(mu, h, mu * h);
    ProductPositive(rate, mu * h, Drop(rate, eps, mu));
  }

  // A number of steps that is certainly enough.
  function Enough(loss: real, drop: real): nat
    requires drop > 0.0 && loss >= 0.0
  {
    assert loss / drop >= 0.0;
    (loss / drop).Floor + 1
  }

  lemma EnoughIsMore(loss: real, drop: real)
    requires drop > 0.0 && loss >= 0.0
    ensures Enough(loss, drop) as real * drop > loss
  {
    var q := loss / drop;
    var k := Enough(loss, drop) as real;
    assert k > q;
    assert q * drop == loss;
    assert (k - q) * drop > 0.0;
    assert k * drop == q * drop + (k - q) * drop;
  }

  lemma StopsInTime(d: seq<Sample>, rate: real, eps: real, mu: real, p: Vec) returns (fuel: nat)
    requires d != [] && rate > 0.0 && eps > 0.0 && mu > 0.0 && AtLeast(d, rate, mu)
    ensures var r := Go(d, rate, eps, fuel, [], p);
      r.Some? && |r.value| as real * Drop(rate, eps, mu) <= Loss(d, p)
  {
    DropPositive(rate, eps, mu);
    LossNonNegative(d, p);
    fuel := Enough(Loss(d, p), Drop(rate, eps, mu));
    EnoughIsMore(Loss(d, p), Drop(rate, eps, mu));
    HaltsWithin(d, rate, eps, mu, fuel, [], p);
  }

  // ---- what the history records ----

  // The parameter after k steps.
  function Iterate(d: seq<Sample>, rate: real, p: Vec, k: nat): Vec
    requires d != []
    decreases k
  {
    if k == 0 then p else Iterate(d, rate, Step(d, rate, p), k - 1)
  }

  function EntryAt(d: seq<Sample>, p: Vec): Entry
    requires d != []
  {
    Entry(p, Loss(d, p), Gradient(d, p))
  }

  predicate StopsAt(d: seq<Sample>, rate: real, eps: real, p: Vec, k: nat)
    requires d != []
  {
    L1(Gradient(d, Iterate(d, rate, p, k))) < eps
  }

  // The history is the trajectory newest first; it is complete as soon as the gradient is below eps
  // and not before.
  lemma {:induction false} GoRecordsTrajectory(d: seq<Sample>, rate: real, eps: real, fuel: nat, res: seq<Entry>,
      p: Vec)
    requires d != []
    ensures var r := Go(d, rate, eps, fuel, res, p);
      && (r.None? <==> forall k: nat | k < fuel :: !StopsAt(d, rate, eps, p, k))
      && (r.Some? ==>
            var n := |r.value| - |res|;
            && 0 <= n < fuel && r.value[n..] == res
            && StopsAt(d, rate, eps, p, n) && (forall k: nat | k < n :: !StopsAt(d, rate, eps, p, k))
            && (forall k: nat | k < n ::
                  var q := Iterate(d, rate, p, k); r.value[n - 1 - k] == Entry(q, Loss(d, q), Gradient(d, q))))
    decreases fuel
  {
    hide Gradient, Loss, Step, L1;
    if fuel == 0 {
    } else if StopsAt(d, rate, eps, p, 0) {
      assert Go(d, rate, eps, fuel, res, p) == Some(res);
    } else {
      var q := Step(d, rate, p);
      var res' := [EntryAt(d, p)] + res;
      GoRecordsTrajectory(d, rate, eps, fuel - 1, res', q);
      var r := Go(d, rate, eps, fuel - 1, res', q);
      assert Go(d, rate, eps, fuel, res, p) == r;
      forall k: nat ensures StopsAt(d, rate, eps, p, k + 1) <==> StopsAt(d, rate, eps, q, k) { }
      LaterStops(d, rate, eps, p, fuel);
      if r.Some? {
        var n := |r.value| - |res'|;
        LaterStops(d, rate, eps, p, n + 1);
        assert r.value[n + 1..] == r.value[n..][1..] == res;
        assert r.value[n] == r.value[n..][0] == EntryAt(d, p);
        forall k: nat | k < n + 1 ensures r.value[n - k] == EntryAt(d, Iterate(d, rate, p, k)) {
          if k > 0 { assert r.value[n - 1 - (k - 1)] == EntryAt(d, Iterate(d, rate, q, k - 1)); }
        }
      }
    }
  }

  lemma LaterStops(d: seq<Sample>, rate: real, eps: real, p: Vec, n: nat)
    requires d != [] && n > 0 && !StopsAt(d, rate, eps, p, 0)
    ensures (forall k: nat | k < n :: !StopsAt(d, rate, eps, p, k))
      <==> forall k: nat | k < n - 1 :: !StopsAt(d, rate, eps, Step(d, rate, p), k)
  {
    var q := Step(d, rate, p);
    forall k: nat | 0 < k < n ensures StopsAt(d, rate, eps, p, k) <==> StopsAt(d, rate, eps, q, k - 1) { }
    forall k: nat | k < n - 1 ensures StopsAt(d, rate, eps, p, k + 1) <==> StopsAt(d, rate, eps, q, k) { }
  }

  // The losses of the trajectory decrease strictly until it stops.
  lemma LossesDecrease(d: seq<Sample>, rate: real, eps: real, mu: real, p: Vec, k: nat)
    requires d != [] && rate > 0.0 && eps > 0.0 && mu > 0.0 && AtLeast(d, rate, mu)
    requires !StopsAt(d, rate, eps, p, k)
    ensures Loss(d, Iterate(d, rate, p, k + 1)) < Loss(d, Iterate(d, rate, p, k))
    ensures Iterate(d, rate, p, k + 1) == Step(d, rate, Iterate(d, rate, p, k))
  {
    IterateLast(d, rate, p, k);
    ContinuingStep(d, rate, eps, mu, Iterate(d, rate, p, k));
    DropPositive(rate, eps, mu);
  }

  lemma {:induction false} IterateLast(d: seq<Sample>, rate: real, p: Vec, k: nat)
    requires d != []
    ensures Iterate(d, rate, p, k + 1) == Step(d, rate, Iterate(d, rate, p, k)) && Iterate(d, rate, p, 0) == p
    decreases k
  {
    if k > 0 { IterateLast(d, rate, Step(d, rate, p), k - 1); }
  }

  // ---- the two conditions on the rate ----

  // The rate condition in terms of the sum of squares of x.
  lemma SmallRateCurvature(d: seq<Sample>, rate: real, mu: real)
    requires d != [] && rate > 0.0 && mu <= (|d| as real) - rate * SumSquares(d)
    ensures AtLeast(d, rate, mu)
  {
    hide Dot, Times, Curvature, SumSquares;
    forall v: Vec ensures Dot(v, Times(Curvature(d, rate), v)) >= mu * Dot(v, v) {
      SmallRateForm(d, rate, mu, v);
    }
  }

  lemma SmallRateForm(d: seq<Sample>, rate: real, mu: real, v: Vec)
    requires d != [] && rate > 0.0 && mu <= (|d| as real) - rate * SumSquares(d)
    ensures Dot(v, Times(Curvature(d, rate), v)) >= mu * Dot(v, v)
  {
    hide *;
    CurvatureForm(d, rate, v, Quad(d, v), Times(Curvature(d, rate), v));
    QuadBounds(d, v);
    DotSelf(v);
    SmallRateArithmetic(|d| as real, rate, SumSquares(d), mu, Dot(v, v), Quad(d, v));
  }

  lemma SmallRateArithmetic(n: real, rate: real, t: real, mu: real, s: real, q: real)
    requires rate > 0.0 && s >= 0.0 && q <= t * s && mu <= n - rate * t
    ensures n * s - rate * q >= mu * s
  {
    MulMono(rate, q, t * s);
    MulMono(s, mu, n - rate * t);
    assert rate * (t * s) == rate * t * s;
    assert (n - rate * t) * s == n * s - rate * t * s;
  }

  // With rate times the sum of squares of x at most half the number of samples, gradient descent
  // stops and has recorded at most 4 loss(p0) / (rate n eps^2) steps.
  lemma StepBound(d: seq<Sample>, rate: real, eps: real, p: Vec) returns (fuel: nat)
    requires d != [] && rate > 0.0 && eps > 0.0 && rate * SumSquares(d) <= (|d| as real) / 2.0
    ensures var r := Go(d, rate, eps, fuel, [], p);
      r.Some? && |r.value| as real * (rate * (|d| as real) * (eps * eps)) <= 4.0 * Loss(d, p)
  {
    fuel := StepBoundAt(d, rate, eps, (|d| as real) / 2.0, p);
  }

  lemma StepBoundAt(d: seq<Sample>, rate: real, eps: real, mu: real, p: Vec) returns (fuel: nat)
    requires d != [] && rate > 0.0 && eps > 0.0 && rate * SumSquares(d) <= mu && 2.0 * mu == (|d| as real)
    ensures var r := Go(d, rate, eps, fuel, [], p);
      r.Some? && |r.value| as real * (rate * (|d| as real) * (eps * eps)) <= 4.0 * Loss(d, p)
  {
    SmallRateCurvature(d, rate, mu);
    fuel := StopsInTime(d, rate, eps, mu, p);
    var k := |Go(d, rate, eps, fuel, [], p).value| as real;
    DropBound(|d| as real, rate, eps, mu, k, Loss(d, p));
  }

  lemma DropBound(n: real, rate: real, eps: real, mu: real, k: real, loss: real)
    requires 2.0 * mu == n && k * Drop(rate, eps, mu) <= loss
    ensures k * (rate * n * (eps * eps)) <= 4.0 * loss
  {
    QuarterBound(n, rate, eps, HalfSquare(eps), mu, k, Drop(rate, eps, mu), loss);
  }

  lemma QuarterBound(n: real, rate: real, eps: real, h: real, mu: real, k: real, t: real, loss: real)
    requires 2.0 * h == eps * eps && 2.0 * mu == n && t == rate * (mu * h) && k * t <= loss
    ensures k * (rate * n * (eps * eps)) <= 4.0 * loss
  {
    var z := rate * n * (eps * eps);
    assert z == 4.0 * t by { assert z == rate * (2.0 * mu) * (2.0 * h); }
    assert k * z == 4.0 * (k * t);
  }

  // The curvature of positive definite data is at least its determinant over its trace.
  lemma DefiniteCurvature(d: seq<Sample>, rate: real) returns (mu: real)
    requires d != [] && PositiveDefinite(Curvature(d, rate))
    ensures mu > 0.0 && AtLeast(d, rate, mu)
  {
    hide Dot, Times, Curvature;
    mu := DefiniteForm(Curvature(d, rate));
  }

  lemma DefiniteForm(m: Sym) returns (mu: real)
    requires PositiveDefinite(m)
    ensures mu > 0.0 && forall v: Vec :: Dot(v, Times(m, v)) >= mu * Dot(v, v)
  {
    TracePositive(m);
    mu := Det(m) / (m.p + m.r);
    hide Dot, Times, Det;
    forall v: Vec ensures Dot(v, Times(m, v)) >= mu * Dot(v, v) {
      CayleyHamilton(m, v);
      DotSelf(Times(m, v));
      QuotientBound(Det(m), m.p + m.r, mu, Dot(v, v), Dot(v, Times(m, v)));
    }
  }

  lemma TracePositive(m: Sym)
    requires PositiveDefinite(m)
    ensures m.p + m.r > 0.0
  {
    var s := m.q * m.q;
    assert s >= 0.0 by { Square(m.q); }
    assert m.p * m.r > 0.0;
    if m.r <= 0.0 { MulMono(m.p, m.r, 0.0); }
  }

  lemma QuotientBound(det: real, tr: real, mu: real, s: real, c: real)
    requires tr > 0.0 && mu == det / tr && tr * c >= det * s
    ensures c >= mu * s
  {
    assert mu * tr == det;
    assert tr * (c - mu * s) == tr * c - det * s;
    if c - mu * s < 0.0 { MulNegative(tr, c - mu * s); }
  }

  lemma MulNegative(x: real, y: real)
    requires x > 0.0 && y < 0.0
    ensures x * y < 0.0
  {
  }
}
