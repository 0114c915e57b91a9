// cairo matrices over the reals: a small group library.
module Affine {

  datatype Point = Point(x: real, y: real)

  datatype Matrix = Matrix(xx: real, yx: real, xy: real, yy: real, x0: real, y0: real)

  const IDENTITY := Matrix(1.0, 0.0, 0.0, 1.0, 0.0, 0.0)

  // Products are kept behind a name, so that most proofs stay linear.
  function Times(a: real, b: real): real {
    a * b
  }

  // One coordinate of a transformed point.
  function Form(a: real, b: real, c: real, x: real, y: real): real {
    Times(a, x) + Times(b, y) + c
  }

  // cairo_matrix_transform_distance
  function Distance(m: Matrix, d: Point): Point {
    Point(Form(m.xx, m.xy, 0.0, d.x, d.y), Form(m.yx, m.yy, 0.0, d.x, d.y))
  }

  // cairo_matrix_transform_point
  function Apply(m: Matrix, p: Point): Point {
    Point(Form(m.xx, m.xy, m.x0, p.x, p.y), Form(m.yx, m.yy, m.y0, p.x, p.y))
  }

  function Plus(p: Point, q: Point): Point {
    Point(p.x + q.x, p.y + q.y)
  }

  function Minus(p: Point, q: Point): Point {
    Point(p.x - q.x, p.y - q.y)
  }

  // cairo_matrix_multiply: first a, then b
  function Mul(a: Matrix, b: Matrix): Matrix {
    var u := Distance(b, Point(a.xx, a.yx));
    var v := Distance(b, Point(a.xy, a.yy));
    var o := Apply(b, Point(a.x0, a.y0));
    Matrix(u.x, u.y, v.x, v.y, o.x, o.y)
  }

  function Translation(t: Point): Matrix {
    Matrix(1.0, 0.0, 0.0, 1.0, t.x, t.y)
  }

  function Scaling(sx: real, sy: real): Matrix {
    Matrix(sx, 0.0, 0.0, sy, 0.0, 0.0)
  }

  // cairo_matrix_translate and cairo_matrix_scale act before m
  function Translate(m: Matrix, t: Point): Matrix {
    Mul(Translation(t), m)
  }

  function Scale(m: Matrix, sx: real, sy: real): Matrix {
    Mul(Scaling(sx, sy), m)
  }

  function Det(m: Matrix): real {
    Times(m.xx, m.yy) - Times(m.yx, m.xy)
  }

  predicate Invertible(m: Matrix) {
    Det(m) != 0.0
  }

  // cairo_matrix_invert; a singular matrix is left as it is
  function Inverse(m: Matrix): Matrix {
    if Det(m) == 0.0 then m
    else
      var k := 1.0 / Det(m);
      Matrix(Times(m.yy, k), Times(-m.yx, k), Times(-m.xy, k), Times(m.xx, k),
             Times(Times(m.xy, m.y0) - Times(m.yy, m.x0), k), Times(Times(m.yx, m.x0) - Times(m.xx, m.y0), k))
  }

  lemma MulIdentity(m: Matrix)
    ensures Mul(IDENTITY, m) == m && Mul(m, IDENTITY) == m
  {
  }

  // A form of two forms is a form.
  lemma FormForm(s: real, t: real, f: real, u: real, v: real, w: real, z: real, g: real, h: real, x: real, y: real)
    ensures Form(Form(s, t, 0.0, u, v), Form(s, t, 0.0, w, z), Form(s, t, f, g, h), x, y)
         == Form(s, t, f, Form(u, w, g, x, y), Form(v, z, h, x, y))
  {
  }

  // The action on points makes Mul a composition.
  lemma ApplyMul(a: Matrix, b: Matrix, p: Point)
    ensures Apply(Mul(a, b), p) == Apply(b, Apply(a, p))
  {
    hide Form;
    FormForm(b.xx, b.xy, b.x0, a.xx, a.yx, a.xy, a.yy, a.x0, a.y0, p.x, p.y);
    FormForm(b.yx, b.yy, b.y0, a.xx, a.yx, a.xy, a.yy, a.x0, a.y0, p.x, p.y);
  }

  lemma DistanceMul(a: Matrix, b: Matrix, d: Point)
    ensures Distance(Mul(a, b), d) == Distance(b, Distance(a, d))
  {
    hide Form;
    assert Form(b.xx, b.xy, 0.0, 0.0, 0.0) == 0.0 == Form(b.yx, b.yy, 0.0, 0.0, 0.0) by { FormZero(b); }
    FormForm(b.xx, b.xy, 0.0, a.xx, a.yx, a.xy, a.yy, 0.0, 0.0, d.x, d.y);
    FormForm(b.yx, b.yy, 0.0, a.xx, a.yx, a.xy, a.yy, 0.0, 0.0, d.x, d.y);
  }

  lemma FormZero(m: Matrix)
    ensures Form(m.xx, m.xy, 0.0, 0.0, 0.0) == 0.0 == Form(m.yx, m.yy, 0.0, 0.0, 0.0)
  {
  }

  lemma MulAssoc(a: Matrix, b: Matrix, c: Matrix)
    ensures Mul(Mul(a, b), c) == Mul(a, Mul(b, c))
  {
    hide Form;
    DistanceMul(b, c, Point(a.xx, a.yx));
    DistanceMul(b, c, Point(a.xy, a.yy));
    ApplyMul(b, c, Point(a.x0, a.y0));
  }

  lemma FormPlus(a: real, b: real, c: real, x: real, y: real, dx: real, dy: real)
    ensures Form(a, b, c, x + dx, y + dy) == Form(a, b, c, x, y) + Form(a, b, 0.0, dx, dy)
  {
  }

  lemma ApplyPlus(m: Matrix, p: Point, d: Point)
    ensures Apply(m, Plus(p, d)) == Plus(Apply(m, p), Distance(m, d))
  {
    hide Form;
    FormPlus(m.xx, m.xy, m.x0, p.x, p.y, d.x, d.y);
    FormPlus(m.yx, m.yy, m.y0, p.x, p.y, d.x, d.y);
  }

  lemma DetForm(a: real, b: real, c: real, d: real, e: real, g: real, f: real, h: real)
    ensures Times(Form(e, f, 0.0, a, b), Form(g, h, 0.0, c, d)) - Times(Form(g, h, 0.0, a, b), Form(e, f, 0.0, c, d))
         == Times(Times(a, d) - Times(b, c), Times(e, h) - Times(g, f))
  {
  }

  lemma DetMul(a: Matrix, b: Matrix)
    ensures Det(Mul(a, b)) == Times(Det(a), Det(b))
  {
    hide Form, Times;
    DetForm(a.xx, a.yx, a.xy, a.yy, b.xx, b.yx, b.xy, b.yy);
  }

  lemma Adjugate(a: real, b: real, c: real, d: real, k: real)
    requires (a * d - b * c) * k == 1.0
    ensures Form(Times(d, k), Times(-c, k), 0.0, a, b) == 1.0 && Form(Times(-b, k), Times(a, k), 0.0, a, b) == 0.0
    ensures Form(Times(d, k), Times(-c, k), 0.0, c, d) == 0.0 && Form(Times(-b, k), Times(a, k), 0.0, c, d) == 1.0
    ensures Form(a, c, 0.0, Times(d, k), Times(-b, k)) == 1.0 && Form(b, d, 0.0, Times(d, k), Times(-b, k)) == 0.0
    ensures Form(a, c, 0.0, Times(-c, k), Times(a, k)) == 0.0 && Form(b, d, 0.0, Times(-c, k), Times(a, k)) == 1.0
  {
  }

  lemma Offset(a: real, b: real, c: real, d: real, k: real, x: real, y: real)
    ensures Form(Times(d, k), Times(-c, k), Times(Times(c, y) - Times(d, x), k), x, y) == 0.0
    ensures Form(Times(-b, k), Times(a, k), Times(Times(b, x) - Times(a, y), k), x, y) == 0.0
  {
  }

  lemma OffsetBack(a: real, b: real, c: real, d: real, k: real, x: real, y: real)
    requires (a * d - b * c) * k == 1.0
    ensures Form(a, c, x, Times(Times(c, y) - Times(d, x), k), Times(Times(b, x) - Times(a, y), k)) == 0.0
    ensures Form(b, d, y, Times(Times(c, y) - Times(d, x), k), Times(Times(b, x) - Times(a, y), k)) == 0.0
  {
    var e := (a * d - b * c) * k;
    assert a * ((c * y - d * x) * k) + c * ((b * x - a * y) * k) == -(e * x);
    assert b * ((c * y - d * x) * k) + d * ((b * x - a * y) * k) == -(e * y);
  }

  lemma InverseLaws(m: Matrix)
    requires Invertible(m)
    ensures Mul(m, Inverse(m)) == IDENTITY && Mul(Inverse(m), m) == IDENTITY
  {
    var k := 1.0 / Det(m);
    assert (m.xx * m.yy - m.yx * m.xy) * k == 1.0;
    InverseWith(m, k);
  }

  lemma InverseWith(m: Matrix, k: real)
    requires Invertible(m) && k == 1.0 / Det(m) && (m.xx * m.yy - m.yx * m.xy) * k == 1.0
    ensures Mul(m, Inverse(m)) == IDENTITY && Mul(Inverse(m), m) == IDENTITY
  {
    hide Form, Times;
    Adjugate(m.xx, m.yx, m.xy, m.yy, k);
    Offset(m.xx, m.yx, m.xy, m.yy, k, m.x0, m.y0);
    OffsetBack(m.xx, m.yx, m.xy, m.yy, k, m.x0, m.y0);
  }

  lemma DetIdentity()
    ensures Det(IDENTITY) == 1.0 && forall d :: Times(d, 0.0) == 0.0
  {
  }

  // A point survives the way to the other side and back.
  lemma BackAndForth(m: Matrix, p: Point)
    requires Invertible(m)
    ensures Apply(m, Apply(Inverse(m), p)) == p && Apply(Inverse(m), Apply(m, p)) == p
    ensures Distance(m, Distance(Inverse(m), p)) == p && Distance(Inverse(m), Distance(m, p)) == p
  {
    InverseLaws(m);
    ApplyMul(m, Inverse(m), p);
    ApplyMul(Inverse(m), m, p);
    DistanceMul(m, Inverse(m), p);
    DistanceMul(Inverse(m), m, p);
  }

  lemma ProductInvertible(a: Matrix, b: Matrix)
    requires Invertible(a) && Invertible(b)
    ensures Invertible(Mul(a, b))
  {
    DetMul(a, b);
  }

  // Undoing the last factor of a product.
  lemma MulCancel(m: Matrix, a: Matrix)
    requires Invertible(m)
    ensures Mul(Inverse(m), Mul(m, a)) == a
  {
    MulAssoc(Inverse(m), m, a);
    InverseLaws(m);
    MulIdentity(a);
  }

  // ----- rectangles -----------------------------------------------------------

  datatype Rect = Rect(x1: real, y1: real, x2: real, y2: real)

  predicate In(p: Point, r: Rect) {
    r.x1 <= p.x <= r.x2 && r.y1 <= p.y <= r.y2
  }

  function Min(a: real, b: real): real { if a < b then a else b }
  function Max(a: real, b: real): real { if a > b then a else b }

  // The smallest upright rectangle around the images of the four corners.
  function Enclose(m: Matrix, r: Rect): Rect {
    var a := Apply(m, Point(r.x1, r.y1));
    var b := Apply(m, Point(r.x2, r.y1));
    var c := Apply(m, Point(r.x2, r.y2));
    var d := Apply(m, Point(r.x1, r.y2));
    Rect(Min(Min(Min(a.x, c.x), d.x), b.x), Min(Min(Min(a.y, c.y), b.y), d.y),
         Max(Max(Max(a.x, c.x), d.x), b.x), Max(Max(Max(a.y, c.y), b.y), d.y))
  }

  predicate Sandwich(a: real, v: real, b: real) {
    a <= v <= b || b <= v <= a
  }

  lemma Signed(a: real, d: real)
    requires d >= 0.0
    ensures a >= 0.0 ==> a * d >= 0.0
    ensures a <= 0.0 ==> a * d <= 0.0
  {
  }

  lemma Between(a: real, lo: real, x: real, hi: real)
    requires lo <= x <= hi
    ensures Sandwich(Times(a, lo), Times(a, x), Times(a, hi))
  {
    Signed(a, x - lo);
    Signed(a, hi - x);
    assert a * (x - lo) == a * x - a * lo && a * (hi - x) == a * hi - a * x;
  }

  // A linear form at a point of a rectangle lies between its values at two
  // opposite corners.
  lemma FormExtremes(a: real, b: real, c: real, r: Rect, p: Point)
    requires In(p, r)
    ensures var v := Form(a, b, c, p.x, p.y);
            || Sandwich(Form(a, b, c, r.x1, r.y1), v, Form(a, b, c, r.x2, r.y2))
            || Sandwich(Form(a, b, c, r.x2, r.y1), v, Form(a, b, c, r.x1, r.y2))
  {
    hide Times;
    Between(a, r.x1, p.x, r.x2);
    Between(b, r.y1, p.y, r.y2);
  }

  lemma MinMax(v1: real, v2: real, v3: real, v4: real, v: real)
    requires Sandwich(v1, v, v3) || Sandwich(v2, v, v4)
    ensures Min(Min(Min(v1, v3), v4), v2) <= v <= Max(Max(Max(v1, v3), v4), v2)
    ensures Min(Min(Min(v1, v3), v2), v4) <= v <= Max(Max(Max(v1, v3), v2), v4)
  {
  }

  lemma EncloseContains(m: Matrix, r: Rect, p: Point)
    requires In(p, r)
    ensures In(Apply(m, p), Enclose(m, r))
  {
    hide Form, Min, Max;
    FormExtremes(m.xx, m.xy, m.x0, r, p);
    FormExtremes(m.yx, m.yy, m.y0, r, p);
    MinMax(Form(m.xx, m.xy, m.x0, r.x1, r.y1), Form(m.xx, m.xy, m.x0, r.x2, r.y1),
           Form(m.xx, m.xy, m.x0, r.x2, r.y2), Form(m.xx, m.xy, m.x0, r.x1, r.y2),
           Form(m.xx, m.xy, m.x0, p.x, p.y));
    MinMax(Form(m.yx, m.yy, m.y0, r.x1, r.y1), Form(m.yx, m.yy, m.y0, r.x2, r.y1),
           Form(m.yx, m.yy, m.y0, r.x2, r.y2), Form(m.yx, m.yy, m.y0, r.x1, r.y2),
           Form(m.yx, m.yy, m.y0, p.x, p.y));
  }

  // No smaller upright rectangle contains all images.
  lemma EncloseLeast(m: Matrix, r: Rect, s: Rect)
    requires r.x1 <= r.x2 && r.y1 <= r.y2
    requires forall p :: In(p, r) ==> In(Apply(m, p), s)
    ensures var e := Enclose(m, r); s.x1 <= e.x1 && s.y1 <= e.y1 && e.x2 <= s.x2 && e.y2 <= s.y2
  {
    hide Apply;
    assert In(Point(r.x1, r.y1), r) && In(Point(r.x2, r.y1), r) && In(Point(r.x2, r.y2), r) && In(Point(r.x1, r.y2), r);
  }
}
