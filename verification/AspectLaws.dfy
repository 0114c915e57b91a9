// Which factor the canvas scales by when it keeps the aspect ratio, what the
// scale limits and the scroll region leave of a request, and when the
// documented promise of an equal or larger area is kept.
module AspectLaws {
  import opened Affine
  import opened Viewport
  import opened ZoomLaws

  // f is one of a and b, and of the two the nearer to 1.
  predicate Nearer(f: real, a: real, b: real) {
    (f == a || f == b) && Abs(1.0 - f) <= Abs(1.0 - a) && Abs(1.0 - f) <= Abs(1.0 - b)
  }

  predicate Farther(f: real, a: real, b: real) {
    (f == a || f == b) && Abs(1.0 - f) >= Abs(1.0 - a) && Abs(1.0 - f) >= Abs(1.0 - b)
  }

  // Of two positive factors the nearer to 1 is the smaller one if and only if
  // together they are more than 2; at 2 the second one counts as nearer.
  predicate SmallerIsNearer(a: real, b: real) {
    a == b || a + b > 2.0 || (a + b == 2.0 && b < a)
  }

  // ----- scaling with the widget ------------------------------------------------------

  // With the aspect kept, one axis decides: the one whose size changed less,
  // or more if the canvas is to show less.
  lemma ScaleChoice(canvas: Canvas, w: real, h: real)
    requires canvas.initW != 0.0 && canvas.initH != 0.0 && canvas.maintainAspect
    ensures var f := canvas.ScaleFactors(w, h); var fx, fy := w / canvas.initW, h / canvas.initH;
            f.x == f.y && if canvas.showLess then Farther(f.x, fx, fy) else Nearer(f.x, fx, fy)
  {
  }

  // So more area is shown, as meant, if and only if the two factors together
  // are large enough, and less area, as meant with showLess, likewise.
  lemma MoreArea(canvas: Canvas, w: real, h: real)
    requires canvas.initW != 0.0 && canvas.initH != 0.0 && canvas.maintainAspect
    ensures var f := canvas.ScaleFactors(w, h).x; var fx, fy := w / canvas.initW, h / canvas.initH;
            && (!canvas.showLess ==> (f == Min(fx, fy) <==> SmallerIsNearer(fx, fy)))
            && (canvas.showLess ==> (f == Max(fx, fy) <==> SmallerIsNearer(fx, fy)))
  {
    Choice(w / canvas.initW, h / canvas.initH);
  }

  lemma Choice(a: real, b: real)
    ensures (if Abs(1.0 - a) < Abs(1.0 - b) then a else b) == Min(a, b) <==> SmallerIsNearer(a, b)
    ensures (if Abs(1.0 - a) < Abs(1.0 - b) then b else a) == Max(a, b) <==> SmallerIsNearer(a, b)
  {
  }

  // ----- a requested viewport with the aspect kept ------------------------------------

  // The factor used is that of the two axes which is nearer to 1.
  lemma RequestedAspect(m: Matrix, size: Point, w: real, h: real)
    requires w != 0.0 && h != 0.0
    ensures var s, g := RequestedScale(m, size, w, h, false), RequestedScale(m, size, w, h, true);
            g.x == g.y && Nearer(g.x, s.x, s.y)
  {
    hide Distance, Inverse;
  }

  // Without the aspect kept each axis asks for its own factor: the size of the
  // viewport along it, measured in user units, over the size requested.
  lemma RequestedFactors(m: Matrix, size: Point, w: real, h: real)
    requires Invertible(m) && w != 0.0 && h != 0.0
    ensures var s := RequestedScale(m, size, w, h, false);
            s.x * w * Det(m) == m.yy * size.x && s.y * h * Det(m) == m.xx * size.y
  {
    hide Det, Distance, Inverse, Times;
    var i := Inverse(m);
    Along(i, size);
    InverseScaled(m);
    Cleared(i.xx, size.x, w, m.yy, Det(m));
    Cleared(i.yy, size.y, h, m.xx, Det(m));
  }

  lemma InverseScaled(m: Matrix)
    requires Invertible(m)
    ensures Inverse(m).xx * Det(m) == m.yy && Inverse(m).yy * Det(m) == m.xx
  {
    hide Det;
    var k := 1.0 / Det(m);
    assert k * Det(m) == 1.0;
    assert (m.yy * k) * Det(m) == m.yy * (k * Det(m));
    assert (m.xx * k) * Det(m) == m.xx * (k * Det(m));
  }

  lemma Cleared(i: real, d: real, w: real, a: real, det: real)
    requires w != 0.0 && i * det == a
    ensures (Times(i, d) / w) * w * det == a * d
  {
    assert ((i * d) / w) * w == i * d;
    assert (i * d) * det == (i * det) * d;
  }

  // The sizes shown after a scaling by g, from those requested: an axis with
  // factor g itself shows what was requested.
  lemma ShownSize(m: Matrix, n: Matrix, size: Point, w: real, h: real, g: real)
    requires Unrotated(m) && m.xx > 0.0 && m.yy > 0.0 && size.x > 0.0 && size.y > 0.0 && w > 0.0 && h > 0.0
    requires g > 0.0 && SameLinear(n, Scale(m, g, g))
    ensures var s, d := RequestedScale(m, size, w, h, false), Distance(Inverse(n), size);
            s.x > 0.0 && s.y > 0.0 && d.x * g == w * s.x && d.y * g == h * s.y
  {
    hide Inverse, Det, Distance, RequestedScale, Scale;
    InvertibleDiagonal(m);
    RequestedUnrotated(m, size, w, h);
    UnrotatedScaled(m, Point(g, g));
    PositiveProduct(m.xx, g);
    PositiveProduct(m.yy, g);
    InvertibleDiagonal(n);
    UnrotatedInverse(n, size);
    ShownAxis(m.xx, g, size.x, w);
    ShownAxis(m.yy, g, size.y, h);
  }

  lemma InvertibleDiagonal(m: Matrix)
    requires Unrotated(m) && m.xx > 0.0 && m.yy > 0.0
    ensures Invertible(m)
  {
    assert Det(m) == m.xx * m.yy;
  }

  lemma PositiveProduct(a: real, b: real)
    requires a > 0.0 && b > 0.0
    ensures a * b > 0.0
  {
  }

  lemma RequestedUnrotated(m: Matrix, size: Point, w: real, h: real)
    requires Unrotated(m) && Invertible(m) && w != 0.0 && h != 0.0
    ensures m.xx != 0.0 && m.yy != 0.0
    ensures RequestedScale(m, size, w, h, false) == Point((size.x / m.xx) / w, (size.y / m.yy) / h)
  {
    hide Inverse, Det, Distance;
    UnrotatedInverse(m, Point(size.x, 0.0));
    UnrotatedInverse(m, Point(0.0, size.y));
  }

  lemma ShownAxis(a: real, g: real, width: real, w: real)
    requires a > 0.0 && g > 0.0 && width > 0.0 && w > 0.0 && a * g > 0.0
    ensures (width / a) / w > 0.0 && (width / (a * g)) * g == w * ((width / a) / w)
  {
    var p, q := width / a, width / (a * g);
    assert p > 0.0 && p / w > 0.0;
    assert w * (p / w) == p;
    assert q * (a * g) == width == p * a;
    assert (q * g - p) * a == 0.0;
  }

  lemma AtLeast(d: real, g: real, w: real, s: real)
    requires g > 0.0 && w > 0.0 && d * g == w * s
    ensures d >= w <==> s >= g
    ensures d == w <==> s == g
  {
    assert (d - w) * g == w * (s - g);
    if s > g { PositiveProduct(w, s - g); }
    if s < g { PositiveProduct(w, g - s); }
    if d > w { PositiveProduct(d - w, g); }
    if d < w { PositiveProduct(w - d, g); }
  }

  // cr_canvas_center_scale promises that with the aspect kept an equal or
  // larger area is shown.  One axis shows exactly the requested size; the
  // other shows at least that if and only if the two factors asked for are
  // equal, or together more than 2.
  lemma AspectShows(m: Matrix, n: Matrix, size: Point, w: real, h: real)
    requires Unrotated(m) && m.xx > 0.0 && m.yy > 0.0 && size.x > 0.0 && size.y > 0.0 && w > 0.0 && h > 0.0
    requires var g := RequestedScale(m, size, w, h, true); SameLinear(n, Scale(m, g.x, g.y))
    ensures var s, d := RequestedScale(m, size, w, h, false), Distance(Inverse(n), size);
            && (d.x == w || d.y == h)
            && (d.x >= w && d.y >= h <==> SmallerIsNearer(s.x, s.y))
  {
    hide Inverse, Distance, Scale, SmallerIsNearer;
    var s, g := RequestedScale(m, size, w, h, false), RequestedScale(m, size, w, h, true).x;
    var d := Distance(Inverse(n), size);
    RequestedAspect(m, size, w, h);
    RequestedPositive(m, size, w, h);
    ShownSize(m, n, size, w, h, g);
    AtLeast(d.x, g, w, s.x);
    AtLeast(d.y, g, h, s.y);
    Choice(s.x, s.y);
  }

  lemma RequestedPositive(m: Matrix, size: Point, w: real, h: real)
    requires Unrotated(m) && m.xx > 0.0 && m.yy > 0.0 && size.x > 0.0 && size.y > 0.0 && w > 0.0 && h > 0.0
    ensures RequestedScale(m, size, w, h, false).x > 0.0 && RequestedScale(m, size, w, h, false).y > 0.0
  {
    hide Inverse, Det, Distance, RequestedScale;
    InvertibleDiagonal(m);
    RequestedUnrotated(m, size, w, h);
    PositiveQuotient(size.x, m.xx);
    PositiveQuotient(size.y, m.yy);
    PositiveQuotient(size.x / m.xx, w);
    PositiveQuotient(size.y / m.yy, h);
  }

  lemma PositiveQuotient(a: real, b: real)
    requires a > 0.0 && b > 0.0
    ensures a / b > 0.0
  {
  }

  // A widget of 100 by 100 asked for 200 by 400 shows 200 by 200.
  lemma AspectShowsLess() returns (m: Matrix, n: Matrix, size: Point, w: real, h: real)
    ensures Unrotated(m) && m.xx > 0.0 && m.yy > 0.0 && size.x > 0.0 && size.y > 0.0 && w > 0.0 && h > 0.0
    ensures var g := RequestedScale(m, size, w, h, true); SameLinear(n, Scale(m, g.x, g.y))
    ensures Distance(Inverse(n), size) == Point(w, h / 2.0)
    ensures m == IDENTITY && size == Point(100.0, 100.0) && w == 200.0 && h == 400.0
  {
    hide Inverse, Det, Distance, Scale;
    m, size, w, h := IDENTITY, Point(100.0, 100.0), 200.0, 400.0;
    n := Scale(m, 0.5, 0.5);
    InvertibleDiagonal(m);
    RequestedUnrotated(m, size, w, h);
    UnrotatedScaled(m, Point(0.5, 0.5));
    InvertibleDiagonal(n);
    UnrotatedInverse(n, size);
  }

  // ----- scale limits -------------------------------------------------------------------

  // v after the limits: cut from above and then from below.
  function Cut(l: bool, hi: real, k: bool, lo: real, v: real): real {
    var cut := if l && v > hi then hi else v;
    if k && cut < lo then lo else cut
  }

  // Limiting the factor of an axis with a nonzero scale cuts the resulting
  // scale, first from above and then from below.
  lemma LimitedAxisScale(l: bool, hi: real, k: bool, lo: real, f: real, cur: real)
    requires cur != 0.0
    ensures LimitAxis(l, hi, k, lo, f, cur) * cur == Cut(l, hi, k, lo, f * cur)
    ensures !(l && f * cur > hi) && !(k && f * cur < lo) ==> LimitAxis(l, hi, k, lo, f, cur) == f
  {
    assert (hi / cur) * cur == hi && (lo / cur) * cur == lo;
  }

  // The canvas limits each axis by its own range.
  lemma LimitedScales(l: Limits, m: Matrix, h: real, f: Point)
    requires Limitable(l, m, h) && UnrotatedX(m, h) != 0.0
    ensures var g := LimitScale(l, m, h, f); var x := UnrotatedX(m, h);
            && g.x * x == Cut(l.hasMax, l.maxX, l.hasMin, l.minX, f.x * x)
            && g.y * h == Cut(l.hasMax, l.maxY, l.hasMin, l.minY, f.y * h)
  {
    hide UnrotatedX, LimitAxis;
    LimitedAxisScale(l.hasMax, l.maxX, l.hasMin, l.minX, f.x, UnrotatedX(m, h));
    LimitedAxisScale(l.hasMax, l.maxY, l.hasMin, l.minY, f.y, h);
  }

  // The scale to which the limits apply: a matrix that turns and then scales
  // has the scales it was made with, whatever the turn.
  lemma TurnedScale(c: real, s: real, sx: real, sy: real)
    requires c * c + s * s == 1.0 && sy > 0.0
    ensures var m := Mul(Matrix(c, s, -s, c, 0.0, 0.0), Scaling(sx, sy));
            RootOf(m, sy) && UnrotatedX(m, sy) == sx
  {
    hide UnrotatedX;
    var m := Mul(Matrix(c, s, -s, c, 0.0, 0.0), Scaling(sx, sy));
    assert m == Matrix(sx * c, sy * s, sx * -s, sy * c, 0.0, 0.0);
    TurnedRoot(c, s, sy);
    TurnedX(m, c, s, sx, sy);
  }

  lemma TurnedRoot(c: real, s: real, sy: real)
    requires c * c + s * s == 1.0
    ensures Times(sy, sy) == Times(sy * s, sy * s) + Times(sy * c, sy * c)
  {
    assert (sy * s) * (sy * s) + (sy * c) * (sy * c) == (sy * sy) * (c * c + s * s);
  }

  lemma TurnedX(m: Matrix, c: real, s: real, sx: real, sy: real)
    requires c * c + s * s == 1.0 && sy != 0.0
    requires m == Matrix(sx * c, sy * s, sx * -s, sy * c, 0.0, 0.0)
    ensures UnrotatedX(m, sy) == sx
  {
    assert (sy * c) * (sx * c) - (sy * s) * (sx * -s) == (sx * sy) * (c * c + s * s) == sx * sy;
    assert (sy * s) * (sx * c) + (sy * c) * (sx * -s) == 0.0;
    assert (sx * sy) / sy == sx;
  }

  // ----- the scroll region --------------------------------------------------------------

  // The point that centring aims at: p itself in an infinite world or where
  // the viewport fits; otherwise, in a region at least as large as the
  // viewport, half the viewport on each side of it lies within the region.
  lemma TargetWithin(canvas: Canvas, p: Point)
    ensures !canvas.scrollWorld ==> canvas.Target(p) == p
    ensures var size := canvas.Size(); var half := Distance(Inverse(canvas.root), Point(size.x / 2.0, size.y / 2.0));
            var q, r := canvas.Target(p), canvas.scroll;
            canvas.scrollWorld ==>
              && (r.x2 - r.x1 >= half.x + half.x ==>
                    && r.x1 <= q.x - half.x && q.x + half.x <= r.x2
                    && (r.x1 <= p.x - half.x && p.x + half.x <= r.x2 ==> q.x == p.x)
                    && (q.x < p.x ==> q.x + half.x == r.x2) && (q.x > p.x ==> q.x - half.x == r.x1))
              && (r.y2 - r.y1 >= half.y + half.y ==>
                    && r.y1 <= q.y - half.y && q.y + half.y <= r.y2
                    && (r.y1 <= p.y - half.y && p.y + half.y <= r.y2 ==> q.y == p.y)
                    && (q.y < p.y ==> q.y + half.y == r.y2) && (q.y > p.y ==> q.y - half.y == r.y1))
  {
    hide Distance, Inverse;
  }
}
