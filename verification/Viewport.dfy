// The viewport of the canvas: the root matrix under zooming, resizing and
// centring.
module Viewport {
  import opened Affine

  // ----- laws of the root matrix -------------------------------------------------

  lemma TranslateShifts(m: Matrix, t: Point, p: Point)
    ensures Apply(Translate(m, t), p) == Apply(m, Plus(p, t))
  {
    hide Mul;
    ApplyMul(Translation(t), m, p);
    ApplyTranslation(t, p);
  }

  lemma ApplyTranslation(t: Point, p: Point)
    ensures Apply(Translation(t), p) == Plus(p, t)
  {
  }

  // The translation all centring operations end with puts user point u on
  // device point c.
  lemma TranslateTo(m: Matrix, c: Point, u: Point)
    requires Invertible(m)
    ensures Apply(Translate(m, Minus(Apply(Inverse(m), c), u)), u) == c
  {
    hide Apply, Mul, Inverse, Det;
    var n := Apply(Inverse(m), c);
    TranslateShifts(m, Minus(n, u), u);
    assert Plus(u, Minus(n, u)) == n;
    BackAndForth(m, c);
  }

  // A translation by the user distance of d moves every device image by d.
  lemma TranslateMoves(m: Matrix, d: Point, p: Point)
    requires Invertible(m)
    ensures Apply(Translate(m, Distance(Inverse(m), d)), p) == Plus(Apply(m, p), d)
  {
    hide Mul, Inverse, Det, Form;
    var t := Distance(Inverse(m), d);
    TranslateShifts(m, t, p);
    ApplyPlus(m, p, t);
    BackAndForth(m, d);
  }

  lemma TranslateLinear(m: Matrix, t: Point)
    ensures var n := Translate(m, t); n.xx == m.xx && n.yx == m.yx && n.xy == m.xy && n.yy == m.yy
    ensures Det(Translate(m, t)) == Det(m)
  {
  }

  // Scaling keeps a matrix invertible exactly when no factor is zero.
  lemma ScaleInvertible(m: Matrix, sx: real, sy: real)
    requires Invertible(m)
    ensures Invertible(Scale(m, sx, sy)) <==> sx != 0.0 && sy != 0.0
  {
    hide Times;
    DetScaling(sx, sy);
    DetMul(Scaling(sx, sy), m);
    NonzeroProduct(sx, sy);
    NonzeroProduct(Det(Scaling(sx, sy)), Det(m));
  }

  lemma DetScaling(sx: real, sy: real)
    ensures Det(Scaling(sx, sy)) == Times(sx, sy)
  {
  }

  lemma NonzeroProduct(a: real, b: real)
    ensures Times(a, b) != 0.0 <==> a != 0.0 && b != 0.0
  {
  }

  // ----- scale limits ---------------------------------------------------------------

  datatype Limits = Limits(hasMax: bool, maxX: real, maxY: real, hasMin: bool, minX: real, minY: real)

  function LimitAxis(l: bool, hi: real, k: bool, lo: real, f: real, cur: real): real
    requires cur == 0.0 ==> !(l && 0.0 > hi) && !(k && 0.0 < lo)
  {
    var g := if l && Times(f, cur) > hi then hi / cur else f;
    if k && Times(g, cur) < lo then lo / cur else g
  }

  // The scale of each axis as if there were no rotation.  h is the square
  // root that turning the matrix by -atan2(yx, yy) introduces.
  function UnrotatedX(m: Matrix, h: real): real
    requires h != 0.0
  {
    (Times(m.yy, m.xx) - Times(m.yx, m.xy)) / h + (Times(m.yx, m.xx) + Times(m.yy, m.xy)) / h
  }

  predicate RootOf(m: Matrix, h: real) {
    h > 0.0 && Times(h, h) == Times(m.yx, m.yx) + Times(m.yy, m.yy)
  }

  // A vanishing current x scale divides by zero when a limit is out of its
  // reach.
  predicate Limitable(l: Limits, m: Matrix, h: real) {
    RootOf(m, h) && (UnrotatedX(m, h) == 0.0 ==> !(l.hasMax && 0.0 > l.maxX) && !(l.hasMin && 0.0 < l.minX))
  }

  // limit_scale
  function LimitScale(l: Limits, m: Matrix, h: real, f: Point): Point
    requires Limitable(l, m, h)
  {
    Point(LimitAxis(l.hasMax, l.maxX, l.hasMin, l.minX, f.x, UnrotatedX(m, h)),
          LimitAxis(l.hasMax, l.maxY, l.hasMin, l.minY, f.y, h))
  }

  // ----- the canvas -------------------------------------------------------------------

  class Canvas {
    var root: Matrix
    var width: real        // allocation of the widget
    var height: real
    var initW: real
    var initH: real
    var lastW: real
    var lastH: real
    var limits: Limits
    var maintainCenter: bool
    var maintainAspect: bool
    var showLess: bool
    var scrollWorld: bool
    var scroll: Rect

    constructor (width: real, height: real)
      ensures root == IDENTITY && this.width == width && this.height == height
      ensures maintainCenter == maintainAspect == showLess == scrollWorld == false
    {
      root := IDENTITY;
      this.width, this.height := width, height;
      initW, initH, lastW, lastH := 0.0, 0.0, 0.0, 0.0;
      limits := Limits(false, 0.0, 0.0, false, 0.0, 0.0);
      maintainCenter, maintainAspect, showLess, scrollWorld := false, false, false, false;
      scroll := Rect(0.0, 0.0, 0.0, 0.0);
    }

    // The size that get_size passes back: a widget without a real size counts
    // as 100 by 100.
    function Size(): Point
      reads `width, `height
    {
      if width <= 1.0 || height <= 1.0 then Point(100.0, 100.0) else Point(width, height)
    }

    // The device point at the centre of the viewport.
    function Centre(): Point
      reads `width, `height
    {
      Point(Size().x / 2.0, Size().y / 2.0)
    }

    // The user point a device point shows.
    function UserAt(c: Point): Point
      reads `root
    {
      Apply(Inverse(root), c)
    }

    // get_size.  Without a real size the reference sizes are reset, at every
    // call.
    method GetSize() returns (w: real, h: real)
      modifies `initW, `initH, `lastW, `lastH
      ensures Point(w, h) == Size() && w > 1.0 && h > 1.0
      ensures (width <= 1.0 || height <= 1.0) ==> initW == initH == lastW == lastH == 100.0
      ensures !(width <= 1.0 || height <= 1.0) ==> unchanged(this) && w == width && h == height
      ensures (width <= 1.0 || height <= 1.0) ==> w == h == 100.0
    {
      w, h := width, height;
      if width <= 1.0 || height <= 1.0 {
        initW, initH, lastW, lastH, w, h := 100.0, 100.0, 100.0, 100.0, 100.0, 100.0;
      }
    }

    method GetCenter() returns (u: Point)
      modifies `initW, `initH, `lastW, `lastH
      ensures u == UserAt(Centre())
    {
      var w, h := GetSize();
      u := Apply(Inverse(root), Point(w / 2.0, h / 2.0));
    }

    // The user point that centring on p aims at: in a finite world the
    // viewport stays within the scroll region.
    function Target(p: Point): Point
      reads `root, `width, `height, `scrollWorld, `scroll
    {
      if !scrollWorld then p
      else
        var half := Distance(Inverse(root), Centre());
        Point(Clamp(p.x, scroll.x1 + half.x, scroll.x2 - half.x),
              Clamp(p.y, scroll.y1 + half.y, scroll.y2 - half.y))
    }

    // cr_canvas_center_on, up to the scroll bars
    method CenterOn(p: Point)
      modifies `root, `initW, `initH, `lastW, `lastH
      ensures root == Translate(old(root), Minus(old(UserAt(Centre())), old(Target(p))))
      ensures Invertible(old(root)) ==> Invertible(root) && Apply(root, old(Target(p))) == Centre()
    {
      hide Mul, Inverse, Apply, Det, Times, Distance;
      var w, h := GetSize();
      var before := Apply(Inverse(root), Point(w / 2.0, h / 2.0));
      var q := p;
      if scrollWorld {
        var half := Distance(Inverse(root), Point(w / 2.0, h / 2.0));
        q := Point(Clamp(p.x, scroll.x1 + half.x, scroll.x2 - half.x),
                   Clamp(p.y, scroll.y1 + half.y, scroll.y2 - half.y));
      }
      var m := root;
      root := Translate(m, Minus(before, q));
      TranslateLinear(m, Minus(before, q));
      if Invertible(m) { TranslateTo(m, Centre(), q); }
    }

    // cr_canvas_zoom.  h: see UnrotatedX.
    method Zoom(xFactor: real, yFactor: real, h: real)
      requires Invertible(root) && Limitable(limits, root, h)
      modifies `root, `initW, `initH, `lastW, `lastH
      ensures var f := Point(xFactor, if maintainAspect then xFactor else yFactor);
              var g := LimitScale(limits, old(root), h, f);
              && SameLinear(root, Scale(old(root), g.x, g.y))
              && (!maintainCenter ==> root == Scale(old(root), g.x, g.y))
              && (Invertible(root) <==> g.x != 0.0 && g.y != 0.0)
              && (maintainCenter && Invertible(root) ==> Apply(root, old(UserAt(Centre()))) == Centre())
    {
      hide Mul, Inverse, Apply, Det, Times, Limitable, LimitScale, RootOf, UnrotatedX, LimitAxis;
      var m := root;
      var f := Point(xFactor, if maintainAspect then xFactor else yFactor);
      var c := Centre();
      var u := UserAt(c);
      if maintainCenter {
        var w, ht := GetSize();
      }
      var g := LimitScale(limits, m, h, f);
      root := Scale(m, g.x, g.y);
      ghost var scaled := root;
      ScaleInvertible(m, g.x, g.y);
      if maintainCenter {
        var n := Apply(Inverse(root), c);
        root := Translate(root, Minus(n, u));
        TranslateLinear(scaled, Minus(n, u));
        if Invertible(scaled) { TranslateTo(scaled, c, u); }
      }
      SameDet(scaled, root);
    }

    // maintain_center
    method MaintainCenter(newW: real, newH: real, oldW: real, oldH: real)
      requires Invertible(root)
      modifies `root
      ensures Invertible(root)
      ensures Apply(root, Apply(Inverse(old(root)), Point(oldW / 2.0, oldH / 2.0))) == Point(newW / 2.0, newH / 2.0)
      ensures forall p :: Apply(root, p) == Plus(Apply(old(root), p), Point((newW - oldW) / 2.0, (newH - oldH) / 2.0))
    {
      hide Mul, Inverse, Apply, Det, Times, Distance;
      var m := root;
      var d := Point((newW - oldW) / 2.0, (newH - oldH) / 2.0);
      root := Translate(m, Distance(Inverse(m), d));
      TranslateLinear(m, Distance(Inverse(m), d));
      forall p
        ensures Apply(root, p) == Plus(Apply(m, p), d)
      {
        TranslateMoves(m, d, p);
      }
      var c := Point(oldW / 2.0, oldH / 2.0);
      BackAndForth(m, c);
      assert Plus(c, d) == Point(newW / 2.0, newH / 2.0);
    }

    // calculate_scale_factors
    function ScaleFactors(w: real, h: real): Point
      requires initW != 0.0 && initH != 0.0
      reads this
    {
      var fx, fy := w / initW, h / initH;
      if !maintainAspect then Point(fx, fy)
      else if (Abs(1.0 - fx) < Abs(1.0 - fy)) != showLess then Point(fx, fx)
      else Point(fy, fy)
    }

    // auto_scale, for widget sizes that are not zero
    method AutoScale(newW: real, newH: real, oldW: real, oldH: real)
      requires Invertible(root) && initW != 0.0 && initH != 0.0
      requires newW != 0.0 && newH != 0.0 && oldW != 0.0 && oldH != 0.0
      modifies `root
      ensures Invertible(root)
      ensures var a := if maintainCenter then Point(oldW / 2.0, oldH / 2.0) else Point(0.0, 0.0);
              var b := if maintainCenter then Point(newW / 2.0, newH / 2.0) else Point(0.0, 0.0);
              Apply(root, Apply(Inverse(old(root)), a)) == b
      ensures var p, q := ScaleFactors(newW, newH), ScaleFactors(oldW, oldH);
              q.x != 0.0 && q.y != 0.0 && SameLinear(root, Scale(old(root), p.x / q.x, p.y / q.y))
      ensures !maintainAspect ==> SameLinear(root, Scale(old(root), newW / oldW, newH / oldH))
    {
      hide Mul, Inverse, Apply, Det, Times;
      if !maintainAspect {
        SameRatio(newW, oldW, initW);
        SameRatio(newH, oldH, initH);
      }
      var m := root;
      var p, q := ScaleFactors(newW, newH), ScaleFactors(oldW, oldH);
      FactorsNonzero(newW, newH);
      FactorsNonzero(oldW, oldH);
      var sx, sy := p.x / q.x, p.y / q.y;
      var a := if maintainCenter then Point(oldW / 2.0, oldH / 2.0) else Point(0.0, 0.0);
      var u := Apply(Inverse(m), a);
      root := Scale(m, sx, sy);
      ghost var scaled := root;
      ScaleInvertible(m, sx, sy);
      var b := if maintainCenter then Point(newW / 2.0, newH / 2.0) else Point(0.0, 0.0);
      var n := Apply(Inverse(root), b);
      root := Translate(root, Minus(n, u));
      TranslateLinear(scaled, Minus(n, u));
      TranslateTo(scaled, b, u);
      SameDet(scaled, root);
    }

    lemma FactorsNonzero(w: real, h: real)
      requires initW != 0.0 && initH != 0.0 && w != 0.0 && h != 0.0
      ensures ScaleFactors(w, h).x != 0.0 && ScaleFactors(w, h).y != 0.0
    {
      NonzeroQuotient(w, initW);
      NonzeroQuotient(h, initH);
    }

    // cr_canvas_center_scale
    method CenterScale(p: Point, w: real, h: real, hyp: real)
      requires Invertible(root) && Limitable(limits, root, hyp) && w != 0.0 && h != 0.0
      modifies `root, `initW, `initH, `lastW, `lastH
      ensures Point(initW, initH) == Size()
      ensures var g := LimitScale(limits, old(root), hyp, RequestedScale(old(root), Size(), w, h, maintainAspect));
              && root == CentredRoot(old(root), Centre(), g, p)
              && (Invertible(root) <==> g.x != 0.0 && g.y != 0.0)
              && (g.x != 0.0 && g.y != 0.0 ==> Apply(root, p) == Centre())
    {
      hide Mul, Inverse, Apply, Det, Times, Limitable, LimitScale, RootOf, UnrotatedX, LimitAxis, RequestedScale;
      var m := root;
      var wd, ht := GetSize();
      var g := LimitScale(limits, m, hyp, RequestedScale(m, Point(wd, ht), w, h, maintainAspect));
      root := Scale(m, g.x, g.y);
      var n := Apply(Inverse(root), Point(wd / 2.0, ht / 2.0));
      root := Translate(root, Minus(n, p));
      CentredRootOk(m, Centre(), g, p);
      var iw, ih := GetSize();
      initW, initH := iw, ih;
    }

    // cr_canvas_get_center_scale
    method GetCenterScale() returns (p: Point, w: real, h: real)
      modifies `initW, `initH, `lastW, `lastH
      ensures p == UserAt(Centre()) && Point(w, h) == Distance(Inverse(root), Size())
    {
      var wd, ht := GetSize();
      var d := Distance(Inverse(root), Point(wd, ht));
      p := Apply(Inverse(root), Point(wd / 2.0, ht / 2.0));
      w, h := d.x, d.y;
    }
  }

  // The root matrix scaled by g, with user point p brought to device point c.
  function CentredRoot(m: Matrix, c: Point, g: Point, p: Point): Matrix {
    var s := Scale(m, g.x, g.y);
    Translate(s, Minus(Apply(Inverse(s), c), p))
  }

  lemma CentredRootOk(m: Matrix, c: Point, g: Point, p: Point)
    requires Invertible(m)
    ensures SameLinear(CentredRoot(m, c, g, p), Scale(m, g.x, g.y))
    ensures Invertible(CentredRoot(m, c, g, p)) <==> g.x != 0.0 && g.y != 0.0
    ensures g.x != 0.0 && g.y != 0.0 ==> Apply(CentredRoot(m, c, g, p), p) == c
  {
    hide Mul, Inverse, Apply, Det, Times, Scale;
    var s := Scale(m, g.x, g.y);
    ScaleInvertible(m, g.x, g.y);
    TranslateLinear(s, Minus(Apply(Inverse(s), c), p));
    SameDet(s, CentredRoot(m, c, g, p));
    if Invertible(s) { TranslateTo(s, c, p); }
  }

  lemma SameRatio(a: real, b: real, c: real)
    requires b != 0.0 && c != 0.0
    ensures b / c != 0.0 && (a / c) / (b / c) == a / b
  {
    NonzeroQuotient(b, c);
    var q := a / b;
    assert (b / c) * c == b && (a / c) * c == a && q * b == a;
    assert (q * (b / c)) * c == (a / c) * c;
    assert (q * (b / c) - a / c) * c == 0.0;
    assert q * (b / c) == a / c;
    assert (q * (b / c)) / (b / c) == q;
  }

  function Abs(x: real): real {
    if x < 0.0 then -x else x
  }

  lemma NonzeroQuotient(a: real, b: real)
    requires a != 0.0 && b != 0.0
    ensures a / b != 0.0
  {
    assert (a / b) * b == a;
  }

  predicate SameLinear(m: Matrix, n: Matrix) {
    m.xx == n.xx && m.yx == n.yx && m.xy == n.xy && m.yy == n.yy
  }

  lemma SameDet(m: Matrix, n: Matrix)
    requires SameLinear(m, n)
    ensures Det(m) == Det(n)
  {
  }

  // The factors that would show w by h user units, one axis at a time as if
  // there were no rotation; with the aspect kept, the one nearer to 1.
  function RequestedScale(m: Matrix, size: Point, w: real, h: real, aspect: bool): Point
    requires w != 0.0 && h != 0.0
  {
    var sx := Distance(Inverse(m), Point(size.x, 0.0)).x / w;
    var sy := Distance(Inverse(m), Point(0.0, size.y)).y / h;
    if !aspect then Point(sx, sy)
    else if Abs(1.0 - sx) < Abs(1.0 - sy) then Point(sx, sx)
    else Point(sy, sy)
  }

  function Clamp(x: real, lo: real, hi: real): real {
    if x > hi then hi else if x < lo then lo else x
  }
}
