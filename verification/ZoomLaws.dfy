// Laws over several viewport operations.
module ZoomLaws {
  import opened Affine
  import opened Viewport

  // Unrotated, with the same positive scale on both axes.
  predicate Uniform(m: Matrix, s: real) {
    m.xx == m.yy == s && m.yx == m.xy == 0.0 && s > 0.0
  }

  lemma UniformFacts(m: Matrix, s: real)
    requires Uniform(m, s)
    ensures Invertible(m) && RootOf(m, s) && UnrotatedX(m, s) == s
  {
    assert s * s > 0.0;
    assert Times(s, s) == s * s && Times(0.0, 0.0) == 0.0 && Times(0.0, s) == 0.0 == Times(s, 0.0);
    SelfQuotient(s);
  }

  lemma SelfQuotient(s: real)
    requires s != 0.0
    ensures (s * s) / s == s && 0.0 / s == 0.0
  {
    var q := (s * s) / s;
    assert q * s == s * s;
    assert (q - s) * s == 0.0;
  }

  lemma UniformScaled(m: Matrix, n: Matrix, s: real, g: real)
    requires Uniform(m, s) && SameLinear(n, Scale(m, g, g)) && Times(s, g) > 0.0
    ensures Uniform(n, Times(s, g))
  {
  }

  function Pow(b: real, n: nat): real {
    if n == 0 then 1.0 else Times(b, Pow(b, n - 1))
  }

  // The canvas of the program: one scale range for both axes.
  predicate Range(l: Limits, lo: real, hi: real) {
    l == Limits(true, hi, hi, true, lo, lo) && 0.0 < lo <= hi
  }

  // Within the range, limiting the factor is limiting the resulting scale.
  lemma LimitedScale(l: Limits, m: Matrix, s: real, f: real, lo: real, hi: real)
    requires Uniform(m, s) && Range(l, lo, hi) && RootOf(m, s) && UnrotatedX(m, s) == s
    ensures Limitable(l, m, s)
    ensures var g := LimitScale(l, m, s, Point(f, f)); g.x == g.y && Times(s, g.x) == Clamp(Times(s, f), lo, hi)
  {
    Cancel(s, hi);
    Cancel(s, lo);
    assert Times(f, s) == Times(s, f);
    LimitedAxis(f, s, lo, hi);
  }

  lemma LimitedAxis(f: real, s: real, lo: real, hi: real)
    requires s > 0.0 && 0.0 < lo <= hi && Times(f, s) == Times(s, f)
    requires Times(s, hi / s) == hi == Times(hi / s, s) && Times(s, lo / s) == lo
    ensures Times(s, LimitAxis(true, hi, true, lo, f, s)) == Clamp(Times(s, f), lo, hi)
  {
    hide Times;
    var g := if Times(f, s) > hi then hi / s else f;
    assert Times(g, s) == Times(s, g);
  }

  lemma Cancel(s: real, v: real)
    requires s != 0.0
    ensures Times(s, v / s) == v == Times(v / s, s)
  {
  }

  // Limiting after every step is limiting once at the end.
  lemma StepIn(s0: real, p: real, b: real, hi: real)
    requires s0 > 0.0 && p > 0.0 && b >= 1.0 && hi > 0.0
    ensures Min(hi, Times(Min(hi, Times(p, s0)), b)) == Min(hi, Times(Times(b, p), s0))
  {
    assert (p * s0) * b == (b * p) * s0;
    Signed(hi, b - 1.0);
    if p * s0 > hi {
      Signed(p * s0 - hi, b);
      assert (p * s0 - hi) * b == (p * s0) * b - hi * b;
    }
  }

  lemma StepOut(s0: real, p: real, b: real, lo: real)
    requires s0 > 0.0 && p > 0.0 && 0.0 < b <= 1.0 && lo > 0.0
    ensures Max(lo, Times(Max(lo, Times(p, s0)), b)) == Max(lo, Times(Times(b, p), s0))
  {
    assert (p * s0) * b == (b * p) * s0;
    Signed(lo, 1.0 - b);
    if p * s0 < lo {
      Signed(lo - p * s0, b);
      assert (lo - p * s0) * b == lo * b - (p * s0) * b;
    }
  }

  lemma {:induction false} PowPositive(b: real, n: nat)
    requires b > 0.0
    ensures Pow(b, n) > 0.0
  {
    if n > 0 {
      PowPositive(b, n - 1);
      Signed(b, Pow(b, n - 1));
      NonzeroProduct(b, Pow(b, n - 1));
    }
  }

  // The scale after n zoom steps from s.
  function ZoomedScale(inward: bool, n: nat, s: real, lo: real, hi: real): real {
    if inward then Min(hi, Times(Pow(1.4, n), s)) else Max(lo, Times(Pow(0.9, n), s))
  }

  lemma ZoomStep(inward: bool, n: nat, s: real, lo: real, hi: real)
    requires 0.0 < lo <= s <= hi
    ensures var v := ZoomedScale(inward, n, s, lo, hi); var f := if inward then 1.4 else 0.9;
            && lo <= v <= hi
            && Clamp(Times(v, f), lo, hi) == ZoomedScale(inward, n + 1, s, lo, hi)
  {
    hide Times;
    PowPositive(1.4, n);
    PowPositive(0.9, n);
    PowBounds(n);
    ZoomRange(inward, n, s, lo, hi);
    if inward {
      StepIn(s, Pow(1.4, n), 1.4, hi);
      Grows(ZoomedScale(inward, n, s, lo, hi));
    } else {
      StepOut(s, Pow(0.9, n), 0.9, lo);
      Grows(ZoomedScale(inward, n, s, lo, hi));
    }
  }

  lemma Grows(v: real)
    requires v > 0.0
    ensures Times(v, 1.4) >= v >= Times(v, 0.9)
  {
  }

  lemma {:induction false} PowBounds(n: nat)
    ensures Pow(1.4, n) >= 1.0 && 0.0 < Pow(0.9, n) <= 1.0
  {
    if n > 0 {
      PowBounds(n - 1);
    }
  }

  lemma ZoomRange(inward: bool, n: nat, s: real, lo: real, hi: real)
    requires 0.0 < lo <= s <= hi && Pow(1.4, n) >= 1.0 && 0.0 < Pow(0.9, n) <= 1.0
    ensures lo <= ZoomedScale(inward, n, s, lo, hi) <= hi
  {
    Signed(Pow(1.4, n) - 1.0, s);
    Signed(1.0 - Pow(0.9, n), s);
    assert (Pow(1.4, n) - 1.0) * s == Times(Pow(1.4, n), s) - s;
    assert (1.0 - Pow(0.9, n)) * s == s - Times(Pow(0.9, n), s);
  }

  // topo_zoom_in_out_canvas: n steps of 1.4 or 0.9 give the limited power,
  // and the user point in the middle of the viewport stays there.
  method ZoomInOut(canvas: Canvas, inward: bool, val: nat, ghost s: real, ghost lo: real, ghost hi: real)
    requires Uniform(canvas.root, s) && Range(canvas.limits, lo, hi) && lo <= s <= hi
    requires canvas.maintainAspect && canvas.maintainCenter && Invertible(canvas.root)
    modifies canvas`root, canvas`initW, canvas`initH, canvas`lastW, canvas`lastH
    ensures Uniform(canvas.root, ZoomedScale(inward, val, s, lo, hi))
    ensures Apply(canvas.root, old(canvas.UserAt(canvas.Centre()))) == canvas.Centre()
  {
    hide Mul, Inverse, Apply, Det, Times, LimitScale, ZoomedScale, Limitable, RootOf, UnrotatedX;
    ghost var u := canvas.UserAt(canvas.Centre());
    BackAndForth(canvas.root, canvas.Centre());
    ZoomStart(inward, s, lo, hi);
    for i := 0 to val
      invariant Uniform(canvas.root, ZoomedScale(inward, i, s, lo, hi))
      invariant Invertible(canvas.root) && Apply(canvas.root, u) == canvas.Centre()
    {
      ghost var v := ZoomedScale(inward, i, s, lo, hi);
      var h := canvas.root.yy;
      var f := if inward then 1.4 else 0.9;
      ghost var m := canvas.root;
      UniformFacts(m, v);
      LimitedScale(canvas.limits, m, v, f, lo, hi);
      ZoomStep(inward, i, s, lo, hi);
      BackAndForth(m, u);
      canvas.Zoom(f, 0.0, h);
      ghost var g := LimitScale(canvas.limits, m, v, Point(f, f)).x;
      ZoomStep(inward, i + 1, s, lo, hi);
      FactorNonzero(v, g);
      UniformScaled(m, canvas.root, v, g);
    }
  }

  lemma ZoomStart(inward: bool, s: real, lo: real, hi: real)
    requires lo <= s <= hi
    ensures ZoomedScale(inward, 0, s, lo, hi) == s
  {
  }

  lemma FactorNonzero(s: real, g: real)
    ensures Times(s, g) > 0.0 ==> g != 0.0
  {
  }

  // ----- requested viewport ----------------------------------------------------------

  predicate Unrotated(m: Matrix) {
    m.yx == m.xy == 0.0
  }

  // The linear part of an unrotated inverse.
  lemma UnrotatedInverse(m: Matrix, d: Point)
    requires Unrotated(m) && Invertible(m)
    ensures m.xx != 0.0 && m.yy != 0.0 && Distance(Inverse(m), d) == Point(d.x / m.xx, d.y / m.yy)
  {
    var k := 1.0 / (m.xx * m.yy);
    assert Det(m) == m.xx * m.yy;
    assert m.xx != 0.0 && m.yy != 0.0;
    QuotientOf(m.xx, m.yy, d.x);
    QuotientOf(m.yy, m.xx, d.y);
  }

  lemma QuotientOf(a: real, b: real, x: real)
    requires a != 0.0 && b != 0.0 && a * b != 0.0
    ensures (b * (1.0 / (a * b))) * x == x / a && (b * (1.0 / (b * a))) * x == x / a
  {
    assert a * (b * (1.0 / (a * b))) == 1.0;
    assert b * (1.0 / (a * b)) == 1.0 / a;
  }

  // Asking for a w by h viewport and reading it back gives w by h, when the
  // root is unrotated and the factors used are the requested ones.
  lemma SizeRoundTrip(m: Matrix, n: Matrix, size: Point, w: real, h: real)
    requires Unrotated(m) && Invertible(m) && Invertible(n)
    requires size.x != 0.0 && size.y != 0.0 && w != 0.0 && h != 0.0
    requires var g := RequestedScale(m, size, w, h, false); SameLinear(n, Scale(m, g.x, g.y))
    ensures Distance(Inverse(n), size) == Point(w, h)
  {
    hide Inverse, Scale, Det, Distance;
    var g := RequestedScale(m, size, w, h, false);
    UnrotatedInverse(m, Point(size.x, 0.0));
    UnrotatedInverse(m, Point(0.0, size.y));
    UnrotatedScaled(m, g);
    UnrotatedInverse(n, size);
    Asked(m.xx, size.x, w);
    Asked(m.yy, size.y, h);
  }

  lemma UnrotatedScaled(m: Matrix, g: Point)
    requires Unrotated(m)
    ensures var n := Scale(m, g.x, g.y); n.xx == m.xx * g.x && n.yy == m.yy * g.y && Unrotated(n)
  {
  }

  lemma Asked(a: real, width: real, w: real)
    requires a != 0.0 && width != 0.0 && w != 0.0
    ensures a * ((width / a) / w) != 0.0 && width / (a * ((width / a) / w)) == w
  {
    var q := (width / a) / w;
    assert q * w == width / a;
    assert a * (q * w) == width;
    assert (a * q) * w == width;
  }

  lemma RequestedNonzero(m: Matrix, size: Point, w: real, h: real)
    requires Unrotated(m) && Invertible(m) && size.x != 0.0 && size.y != 0.0 && w != 0.0 && h != 0.0
    ensures RequestedScale(m, size, w, h, false).x != 0.0
    ensures RequestedScale(m, size, w, h, false).y != 0.0
  {
    hide Inverse, Det;
    UnrotatedInverse(m, Point(size.x, 0.0));
    UnrotatedInverse(m, Point(0.0, size.y));
    NonzeroQuotient(size.x, m.xx);
    NonzeroQuotient(size.y, m.yy);
    NonzeroQuotient(size.x / m.xx, w);
    NonzeroQuotient(size.y / m.yy, h);
  }

  // cr_canvas_center_scale, then cr_canvas_get_center_scale: the centre comes
  // back unless a limited factor is zero; the size when unrotated, without
  // aspect, and no limit changes the requested factors.
  method CenterScaleRoundTrip(canvas: Canvas, p: Point, w: real, h: real, hyp: real)
    returns (q: Point, w': real, h': real)
    requires Invertible(canvas.root) && Limitable(canvas.limits, canvas.root, hyp)
    requires w != 0.0 && h != 0.0
    modifies canvas`root, canvas`initW, canvas`initH, canvas`lastW, canvas`lastH
    ensures var r := RequestedScale(old(canvas.root), canvas.Size(), w, h, canvas.maintainAspect);
            var g := LimitScale(canvas.limits, old(canvas.root), hyp, r);
            && q == Apply(Inverse(CentredRoot(old(canvas.root), canvas.Centre(), g, p)), canvas.Centre())
            && (g.x != 0.0 && g.y != 0.0 ==> q == p)
            && (Unrotated(old(canvas.root)) && !canvas.maintainAspect && g == r ==>
                  g.x != 0.0 && g.y != 0.0 && w' == w && h' == h)
  {
    hide Mul, Inverse, Apply, Det, Times, Limitable, LimitScale, RootOf, UnrotatedX, RequestedScale, Distance, Form;
    hide Scale, CentredRoot;
    ghost var m := canvas.root;
    ghost var r := RequestedScale(m, canvas.Size(), w, h, canvas.maintainAspect);
    ghost var g := LimitScale(canvas.limits, m, hyp, r);
    canvas.CenterScale(p, w, h, hyp);
    CentredRootOk(m, canvas.Centre(), g, p);
    if Unrotated(m) && !canvas.maintainAspect && g == r {
      RequestedNonzero(m, canvas.Size(), w, h);
      SizeRoundTrip(m, canvas.root, canvas.Size(), w, h);
    }
    q, w', h' := canvas.GetCenterScale();
    if Invertible(canvas.root) { BackAndForth(canvas.root, p); }
  }

  // With a zero factor two different requests leave the same root matrix, so
  // that nothing read from it can give both centres back.
  lemma SameRoot(m: Matrix, c: Point, g: Point, p: Point)
    requires g.x == 0.0 || g.y == 0.0
    ensures CentredRoot(m, c, g, Beside(g, p)) == CentredRoot(m, c, g, p) && Beside(g, p) != p
  {
    hide Inverse, Apply, Scale, Translate;
    var s := Scale(m, g.x, g.y);
    ZeroColumn(m, g);
    var n := Apply(Inverse(s), c);
    SameShift(s, Minus(n, Beside(g, p)), Minus(n, p));
  }

  // Another point, along an axis with factor zero.
  function Beside(g: Point, p: Point): Point {
    if g.x == 0.0 then Point(p.x + 1.0, p.y) else Point(p.x, p.y + 1.0)
  }

  lemma TimesZero(a: real)
    ensures Times(0.0, a) == 0.0 == Times(a, 0.0)
  {
  }

  lemma ZeroColumn(m: Matrix, g: Point)
    ensures var s := Scale(m, g.x, g.y);
            (g.x == 0.0 ==> s.xx == 0.0 && s.yx == 0.0) && (g.y == 0.0 ==> s.xy == 0.0 && s.yy == 0.0)
  {
    hide Times;
    TimesZero(m.xx);
    TimesZero(m.yx);
    TimesZero(m.xy);
    TimesZero(m.yy);
  }

  lemma SameShift(s: Matrix, a: Point, b: Point)
    requires (s.xx == 0.0 && s.yx == 0.0) || a.x == b.x
    requires (s.xy == 0.0 && s.yy == 0.0) || a.y == b.y
    ensures Translate(s, a) == Translate(s, b)
  {
    hide Times;
    TimesZero(a.x);
    TimesZero(a.y);
    TimesZero(b.x);
    TimesZero(b.y);
  }

  // Every requested centre is read back if and only if no limited factor is
  // zero.
  lemma CentreReadBack(m: Matrix, c: Point, g: Point)
    requires Invertible(m)
    ensures (forall p :: Apply(Inverse(CentredRoot(m, c, g, p)), c) == p) <==> g.x != 0.0 && g.y != 0.0
  {
    hide Mul, Inverse, Apply, Det, Times, Scale, CentredRoot;
    if g.x != 0.0 && g.y != 0.0 {
      forall p
        ensures Apply(Inverse(CentredRoot(m, c, g, p)), c) == p
      {
        CentredRootOk(m, c, g, p);
        BackAndForth(CentredRoot(m, c, g, p), p);
      }
    } else {
      var p := Point(0.0, 0.0);
      SameRoot(m, c, g, p);
    }
  }

  // A matrix that turns by a quarter, one way or the other.
  predicate Quarter(m: Matrix) {
    m.xx == 0.0 && m.yy == 0.0
  }

  // For instance this one.
  lemma QuarterExists(m: Matrix)
    requires m == Matrix(0.0, 1.0, -1.0, 0.0, 0.0, 0.0)
    ensures Quarter(m) && Invertible(m) && RootOf(m, 1.0)
  {
    hide Times;
    TimesZero(0.0);
    TimesOne(-1.0);
  }

  lemma TimesOne(a: real)
    ensures Times(1.0, a) == a
  {
  }

  lemma QuarterInverse(m: Matrix)
    requires Quarter(m)
    ensures Quarter(Inverse(m))
  {
    hide Times, Det;
    if Det(m) != 0.0 {
      TimesZero(1.0 / Det(m));
    }
  }

  lemma AcrossOnly(i: Matrix, d: real)
    requires Quarter(i)
    ensures Distance(i, Point(d, 0.0)).x == 0.0 && Distance(i, Point(0.0, d)).y == 0.0
  {
    hide Times;
    TimesZero(d);
    TimesZero(i.xy);
    TimesZero(i.yx);
  }

  // On a canvas turned by a quarter each axis is measured along the other
  // one: every request asks for two zero factors, and without a limit to
  // replace them the requested centre is lost.
  lemma QuarterTurn(m: Matrix, c: Point, size: Point, w: real, h: real, aspect: bool)
    requires Quarter(m) && Invertible(m) && w != 0.0 && h != 0.0
    ensures var g := RequestedScale(m, size, w, h, aspect);
            g == Point(0.0, 0.0) && !(forall p :: Apply(Inverse(CentredRoot(m, c, g, p)), c) == p)
  {
    hide Mul, Inverse, Apply, Det, Times, Scale, CentredRoot, Distance;
    QuarterInverse(m);
    AcrossOnly(Inverse(m), size.x);
    AcrossOnly(Inverse(m), size.y);
    CentreReadBack(m, c, Point(0.0, 0.0));
  }

  // Without the aspect kept, each factor is zero exactly when the root has a
  // zero on its diagonal.
  lemma RequestedZero(m: Matrix, size: Point, w: real, h: real)
    requires Invertible(m) && size.x != 0.0 && size.y != 0.0 && w != 0.0 && h != 0.0
    ensures var g := RequestedScale(m, size, w, h, false);
            (g.x == 0.0 <==> m.yy == 0.0) && (g.y == 0.0 <==> m.xx == 0.0)
  {
    hide Inverse, Det, Times, Distance;
    var i := Inverse(m);
    InverseDiagonal(m);
    Along(i, size);
    NonzeroProduct(i.xx, size.x);
    NonzeroProduct(i.yy, size.y);
    ZeroQuotient(Times(i.xx, size.x), w);
    ZeroQuotient(Times(i.yy, size.y), h);
  }

  lemma InverseDiagonal(m: Matrix)
    requires Invertible(m)
    ensures (Inverse(m).xx == 0.0 <==> m.yy == 0.0) && (Inverse(m).yy == 0.0 <==> m.xx == 0.0)
  {
    hide Det, Times;
    var k := 1.0 / Det(m);
    NonzeroQuotient(1.0, Det(m));
    NonzeroProduct(m.yy, k);
    NonzeroProduct(m.xx, k);
  }

  lemma Along(i: Matrix, d: Point)
    ensures Distance(i, Point(d.x, 0.0)).x == Times(i.xx, d.x) && Distance(i, Point(0.0, d.y)).y == Times(i.yy, d.y)
  {
    hide Times;
    TimesZero(i.xy);
    TimesZero(i.yx);
  }

  lemma ZeroQuotient(a: real, b: real)
    requires b != 0.0
    ensures a / b == 0.0 <==> a == 0.0
  {
    if a != 0.0 { NonzeroQuotient(a, b); }
  }

  // The condition on the root itself, without limits and without the aspect
  // kept: every requested centre is read back if and only if its diagonal has
  // no zero.
  lemma DiagonalDecides(m: Matrix, c: Point, size: Point, w: real, h: real)
    requires Invertible(m) && size.x != 0.0 && size.y != 0.0 && w != 0.0 && h != 0.0
    ensures var g := RequestedScale(m, size, w, h, false);
            (forall p :: Apply(Inverse(CentredRoot(m, c, g, p)), c) == p) <==> m.xx != 0.0 && m.yy != 0.0
  {
    hide Mul, Inverse, Apply, Det, Times, Scale, CentredRoot, Distance, RequestedScale;
    RequestedZero(m, size, w, h);
    CentreReadBack(m, c, RequestedScale(m, size, w, h, false));
  }

  lemma NoLimit(l: Limits, m: Matrix, h: real, f: Point)
    requires Limitable(l, m, h) && !l.hasMax && !l.hasMin
    ensures LimitScale(l, m, h, f) == f
  {
    hide UnrotatedX, Times;
  }

  // A positive smallest scale, as the program sets one, rules such factors
  // out, whatever the rotation.
  lemma LimitsKeepCentre(l: Limits, m: Matrix, h: real, f: Point)
    requires Limitable(l, m, h) && l.hasMin && l.minX > 0.0 && l.minY > 0.0
    ensures LimitScale(l, m, h, f).x != 0.0 && LimitScale(l, m, h, f).y != 0.0
  {
    hide UnrotatedX, Times;
    LimitNonzero(l.hasMax, l.maxX, l.minX, f.x, UnrotatedX(m, h));
    LimitNonzero(l.hasMax, l.maxY, l.minY, f.y, h);
  }

  lemma LimitNonzero(k: bool, hi: real, lo: real, f: real, cur: real)
    requires cur != 0.0 && lo > 0.0
    ensures LimitAxis(k, hi, true, lo, f, cur) != 0.0
  {
    var g := if k && Times(f, cur) > hi then hi / cur else f;
    NonzeroQuotient(lo, cur);
    NonzeroProduct(g, cur);
  }

  // ----- zooming without a maintained centre ------------------------------------------

  lemma ApplyScaling(m: Matrix, gx: real, gy: real, u: Point)
    ensures Apply(Scale(m, gx, gy), u) == Apply(m, Point(gx * u.x, gy * u.y))
  {
    ApplyMul(Scaling(gx, gy), m, u);
    assert Apply(Scaling(gx, gy), u) == Point(gx * u.x, gy * u.y);
  }

  lemma LessOnce(g: real, x: real)
    ensures Times(g - 1.0, x) == g * x - x
  {
  }

  lemma Fixed(g: real, x: real)
    ensures g * x == x <==> g == 1.0 || x == 0.0
  {
    if x != 0.0 && g * x == x {
      LessOnce(g, x);
      NonzeroProduct(g - 1.0, x);
    }
  }

  lemma FixedPoint(gx: real, gy: real, u: Point)
    ensures Point(gx * u.x, gy * u.y) == u <==> (gx == 1.0 || u.x == 0.0) && (gy == 1.0 || u.y == 0.0)
  {
    Fixed(gx, u.x);
    Fixed(gy, u.y);
  }

  // Scaling the root leaves what device point c shows exactly when each scaled
  // axis has it at coordinate 0.
  lemma PointKept(m: Matrix, gx: real, gy: real, c: Point)
    requires Invertible(m)
    ensures var u := Apply(Inverse(m), c);
            Apply(Scale(m, gx, gy), u) == c <==> (gx == 1.0 || u.x == 0.0) && (gy == 1.0 || u.y == 0.0)
  {
    hide Apply, Mul, Inverse, Det;
    var u := Apply(Inverse(m), c);
    var v := Point(gx * u.x, gy * u.y);
    ApplyScaling(m, gx, gy, u);
    BackAndForth(m, c);
    BackAndForth(m, v);
    assert Apply(m, v) == c <==> v == u;
    FixedPoint(gx, gy, u);
  }

  // cr_canvas_zoom without a maintained centre.  The upper left point is
  // promised to stay, and the centre if the canvas scales by itself; either
  // does exactly under the condition below.
  method ZoomUncentred(canvas: Canvas, xFactor: real, yFactor: real, h: real)
    requires Invertible(canvas.root) && Limitable(canvas.limits, canvas.root, h) && !canvas.maintainCenter
    modifies canvas`root, canvas`initW, canvas`initH, canvas`lastW, canvas`lastH
    ensures var f := Point(xFactor, if canvas.maintainAspect then xFactor else yFactor);
            var g := LimitScale(canvas.limits, old(canvas.root), h, f);
            forall c :: var u := old(canvas.UserAt(c));
              Apply(canvas.root, u) == c <==> (g.x == 1.0 || u.x == 0.0) && (g.y == 1.0 || u.y == 0.0)
  {
    hide Mul, Inverse, Apply, Det, Times, Scale, Limitable, LimitScale, RootOf, UnrotatedX;
    ghost var m := canvas.root;
    ghost var f := Point(xFactor, if canvas.maintainAspect then xFactor else yFactor);
    ghost var g := LimitScale(canvas.limits, m, h, f);
    canvas.Zoom(xFactor, yFactor, h);
    forall c
      ensures var u := Apply(Inverse(m), c);
              Apply(canvas.root, u) == c <==> (g.x == 1.0 || u.x == 0.0) && (g.y == 1.0 || u.y == 0.0)
    {
      PointKept(m, g.x, g.y, c);
    }
  }

  // A canvas scrolled 10 pixels to the right and zoomed by 2: the corner moves.
  lemma CornerLost()
    ensures var m := Translation(Point(10.0, 0.0));
            Invertible(m) && Apply(Scale(m, 2.0, 2.0), Apply(Inverse(m), Point(0.0, 0.0))) != Point(0.0, 0.0)
  {
    hide Apply, Mul, Inverse, Det, Translation, Scale, Scaling, Translate, Form, Times;
    var m := Translation(Point(10.0, 0.0));
    var u := Apply(Inverse(m), Point(0.0, 0.0));
    TranslationInvertible(Point(10.0, 0.0));
    BackAndForth(m, Point(0.0, 0.0));
    ApplyTranslation(Point(10.0, 0.0), u);
    PointKept(m, 2.0, 2.0, Point(0.0, 0.0));
  }

  // The same through the canvas: neither the corner nor the centre stays,
  // whether or not the canvas scales by itself.
  method ZoomLosesPoints(canvas: Canvas)
    requires canvas.root == Translation(Point(10.0, 0.0)) && !canvas.limits.hasMax && !canvas.limits.hasMin
    requires !canvas.maintainCenter
    modifies canvas`root, canvas`initW, canvas`initH, canvas`lastW, canvas`lastH
    ensures Apply(canvas.root, old(canvas.UserAt(Point(0.0, 0.0)))) != Point(0.0, 0.0)
    ensures Apply(canvas.root, old(canvas.UserAt(canvas.Centre()))) != canvas.Centre()
  {
    hide Apply, Mul, Inverse, Det, Scale, Scaling, Form, Times, LimitScale, UnrotatedX;
    ghost var m := canvas.root;
    ghost var corner, centre := Point(0.0, 0.0), canvas.Centre();
    TranslationFacts(Point(10.0, 0.0));
    NoLimit(canvas.limits, m, 1.0, Point(2.0, 2.0));
    BackAndForth(m, corner);
    BackAndForth(m, centre);
    Scrolled(m, canvas.UserAt(corner), corner);
    Scrolled(m, canvas.UserAt(centre), centre);
    ZoomUncentred(canvas, 2.0, 2.0, 1.0);
  }

  lemma TranslationFacts(t: Point)
    ensures Invertible(Translation(t)) && RootOf(Translation(t), 1.0) && UnrotatedX(Translation(t), 1.0) == 1.0
  {
  }

  // What a canvas scrolled by 10 shows at a device point.
  lemma Scrolled(m: Matrix, u: Point, c: Point)
    requires m == Translation(Point(10.0, 0.0)) && Apply(m, u) == c
    ensures u == Point(c.x - 10.0, c.y)
  {
    hide Apply, Translation;
    ApplyTranslation(Point(10.0, 0.0), u);
  }

  lemma TranslationInvertible(t: Point)
    ensures Invertible(Translation(t))
  {
  }
}
