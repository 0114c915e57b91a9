// Canvas items: a tree whose nodes carry an affine matrix, bounds and flags.
module ItemTree {
  import opened Options
  import opened Affine

  // matrixP: the matrix at the last bounds report.  recalculated: what the
  // item answers when asked for its bounds.  hit: whether the item accepts
  // the pointer position being tested.
  datatype Item = Item(id: nat, visible: bool, needUpdate: bool, avoidTest: bool,
                       matrix: Option<Matrix>, matrixP: Matrix,
                       bounds: Option<Rect>, recalculated: Option<Rect>,
                       hit: bool, kids: seq<Item>)

  // The matrix an item applies.
  function M(item: Item): Matrix {
    if item.matrix.Some? then item.matrix.value else IDENTITY
  }

  // Its matrix can be undone.
  predicate Regular(item: Item) {
    item.matrix.Some? ==> Invertible(item.matrix.value)
  }

  // ----- paths ------------------------------------------------------------------

  type ItemPath = seq<nat>

  predicate ValidPath(item: Item, path: ItemPath)
    decreases |path|
  {
    path == [] || (path[0] < |item.kids| && ValidPath(item.kids[path[0]], path[1..]))
  }

  function ItemAt(item: Item, path: ItemPath): Item
    requires ValidPath(item, path)
    decreases |path|
  {
    if path == [] then item else ItemAt(item.kids[path[0]], path[1..])
  }

  // The composition of all matrices from the item at the path up to this one.
  function PathMatrix(item: Item, path: ItemPath): Matrix
    requires ValidPath(item, path)
    decreases |path|
  {
    if path == [] then M(item) else Mul(PathMatrix(item.kids[path[0]], path[1..]), M(item))
  }

  predicate VisiblePath(item: Item, path: ItemPath)
    requires ValidPath(item, path)
    decreases |path|
  {
    item.visible && (path == [] || VisiblePath(item.kids[path[0]], path[1..]))
  }

  predicate InvertiblePath(item: Item, path: ItemPath)
    requires ValidPath(item, path)
    decreases |path|
  {
    Regular(item) && (path == [] || InvertiblePath(item.kids[path[0]], path[1..]))
  }

  predicate AllInvertible(item: Item) {
    Regular(item) && forall k :: 0 <= k < |item.kids| ==> AllInvertible(item.kids[k])
  }

  // No item occurs twice.
  ghost predicate NoRepeats(item: Item) {
    forall p, q :: ValidPath(item, p) && ValidPath(item, q) && ItemAt(item, p).id == ItemAt(item, q).id ==> p == q
  }

  // ----- painting -----------------------------------------------------------------

  predicate TestInside(r: Rect, b: Rect) {
    !(Max(b.x1, r.x1) > Min(b.x2, r.x2)) && !(Max(b.y1, r.y1) > Min(b.y2, r.y2))
  }

  // For upright rectangles the test says that they share a point.
  lemma TestInsideExact(r: Rect, b: Rect)
    requires r.x1 <= r.x2 && r.y1 <= r.y2 && b.x1 <= b.x2 && b.y1 <= b.y2
    ensures TestInside(r, b) <==> exists p :: In(p, r) && In(p, b)
  {
    if TestInside(r, b) {
      var p := Point(Max(b.x1, r.x1), Max(b.y1, r.y1));
      assert In(p, r) && In(p, b);
    }
  }

  function CurrentBounds(item: Item): Option<Rect> {
    if item.needUpdate then item.recalculated else item.bounds
  }

  // invoke_paint: the items painted for a requested rectangle.
  function Paint(item: Item, all: bool, r: Rect): seq<nat>
    decreases item, 1
  {
    if !item.visible then []
    else
      var r' := if item.matrix.Some? then Enclose(Inverse(item.matrix.value), r) else r;
      var b := CurrentBounds(item);
      (if all || (b.Some? && TestInside(r', b.value)) then [item.id] else []) + PaintKids(item.kids, all, r')
  }

  function PaintKids(kids: seq<Item>, all: bool, r: Rect): seq<nat>
    decreases kids, 0
  {
    if kids == [] then [] else Paint(kids[0], all, r) + PaintKids(kids[1..], all, r)
  }

  lemma {:induction false} PaintKid(kids: seq<Item>, all: bool, r: Rect, k: nat, id: nat)
    requires k < |kids| && id in Paint(kids[k], all, r)
    ensures id in PaintKids(kids, all, r)
  {
    if k > 0 {
      PaintKid(kids[1..], all, r, k - 1, id);
    }
  }

  // A point known to lie in the requested rectangle stays in it on the way
  // into an item.
  lemma IntoItem(item: Item, r: Rect, q: Point)
    requires Regular(item) && In(Apply(M(item), q), r)
    ensures In(q, if item.matrix.Some? then Enclose(Inverse(item.matrix.value), r) else r)
  {
    if item.matrix.Some? {
      var m := item.matrix.value;
      EncloseContains(Inverse(m), r, Apply(m, q));
      BackAndForth(m, q);
    } else {
      ApplyIdentity(q);
    }
  }

  lemma ApplyIdentity(q: Point)
    ensures Apply(IDENTITY, q) == q
  {
  }

  // p lies in the bounds the item is to show: those it answers when asked, if
  // it waits for an update, and those it had otherwise.
  predicate Due(item: Item, p: Point) {
    if item.needUpdate then item.recalculated.Some? && In(p, item.recalculated.value)
    else item.bounds.Some? && In(p, item.bounds.value)
  }

  // Culling is sound: an item with a bounds point whose image lies in the
  // requested rectangle is painted, at any depth.
  lemma {:induction false} PaintCovers(item: Item, all: bool, r: Rect, path: ItemPath, p: Point)
    requires ValidPath(item, path) && VisiblePath(item, path) && InvertiblePath(item, path)
    requires Due(ItemAt(item, path), p) && In(Apply(PathMatrix(item, path), p), r)
    ensures ItemAt(item, path).id in Paint(item, all, r)
    decreases |path|
  {
    hide Apply, Enclose, Mul, Det, Inverse;
    var r' := if item.matrix.Some? then Enclose(Inverse(item.matrix.value), r) else r;
    if path == [] {
      IntoItem(item, r, p);
    } else {
      var kid := item.kids[path[0]];
      var q := Apply(PathMatrix(kid, path[1..]), p);
      ApplyMul(PathMatrix(kid, path[1..]), M(item), p);
      IntoItem(item, r, q);
      PaintCovers(kid, all, r', path[1..], p);
      PaintKid(item.kids, all, r', path[0], ItemAt(item, path).id);
    }
  }

  // ----- finding the matrix of an item ----------------------------------------------

  function ToItem(item: Item, m: Matrix): Matrix {
    if item.matrix.Some? then Mul(item.matrix.value, m) else m
  }

  function FromItem(item: Item, m: Matrix): Matrix {
    if item.matrix.Some? then Mul(Inverse(item.matrix.value), m) else m
  }

  // cr_item_find_child: searched from the last kid to the first, the matrix
  // multiplied in place on the way down and divided out on failure.
  function FindChild(item: Item, m: Matrix, id: nat): (bool, Matrix)
    decreases item, 1
  {
    var m1 := ToItem(item, m);
    if item.id == id then (true, m1)
    else
      var (found, m2) := FindKids(item.kids, m1, id);
      if found then (true, m2) else (false, FromItem(item, m2))
  }

  function FindKids(kids: seq<Item>, m: Matrix, id: nat): (bool, Matrix)
    decreases kids, 0
  {
    if kids == [] then (false, m)
    else
      var (found, m1) := FindChild(kids[|kids| - 1], m, id);
      if found then (true, m1) else FindKids(kids[..|kids| - 1], m1, id)
  }

  // invoke_test: the same walk, for the first item that accepts the position.
  function PickItem(item: Item, m: Matrix): (Option<nat>, Matrix)
    decreases item, 1
  {
    if !item.visible || item.avoidTest then (None, m)
    else
      var (found, m1) := PickKids(item.kids, ToItem(item, m));
      if found.Some? then (found, m1)
      else if item.hit then (Some(item.id), m1)
      else (None, FromItem(item, m1))
  }

  function PickKids(kids: seq<Item>, m: Matrix): (Option<nat>, Matrix)
    decreases kids, 0
  {
    if kids == [] then (None, m)
    else
      var (found, m1) := PickItem(kids[|kids| - 1], m);
      if found.Some? then (found, m1) else PickKids(kids[..|kids| - 1], m1)
  }

  lemma ToFrom(item: Item, m: Matrix)
    requires Regular(item)
    ensures ToItem(item, m) == Mul(M(item), m)
    ensures FromItem(item, ToItem(item, m)) == m
  {
    hide Mul, Inverse, Det;
    MulIdentity(m);
    if item.matrix.Some? {
      MulCancel(item.matrix.value, m);
    }
  }

  ghost predicate Occurs(item: Item, id: nat) {
    exists p :: ValidPath(item, p) && ItemAt(item, p).id == id
  }

  ghost predicate Reached(item: Item, id: nat, m: Matrix, result: Matrix) {
    exists p :: ValidPath(item, p) && ItemAt(item, p).id == id && result == Mul(PathMatrix(item, p), m)
  }

  ghost predicate KidReached(kids: seq<Item>, id: nat, m: Matrix, result: Matrix) {
    exists k :: 0 <= k < |kids| && Reached(kids[k], id, m, result)
  }

  ghost predicate KidOccurs(kids: seq<Item>, id: nat) {
    exists k :: 0 <= k < |kids| && Occurs(kids[k], id)
  }

  // The composition of the matrices on any path of such a tree can be undone.
  lemma {:induction false} PathInvertible(item: Item, path: ItemPath)
    requires AllInvertible(item) && ValidPath(item, path)
    ensures Invertible(PathMatrix(item, path))
    decreases |path|
  {
    hide Mul, Inverse, Det;
    MatrixInvertible(item);
    if path != [] {
      PathInvertible(item.kids[path[0]], path[1..]);
      ProductInvertible(PathMatrix(item.kids[path[0]], path[1..]), M(item));
    }
  }

  lemma MatrixInvertible(item: Item)
    requires Regular(item)
    ensures Invertible(M(item))
  {
    hide Det;
    DetIdentity();
  }

  lemma ReachedInvertible(item: Item, id: nat, m: Matrix, result: Matrix)
    requires AllInvertible(item) && Invertible(m) && Reached(item, id, m, result)
    ensures Invertible(result)
  {
    hide Mul, Inverse, Det, AllInvertible;
    var p :| ValidPath(item, p) && ItemAt(item, p).id == id && result == Mul(PathMatrix(item, p), m);
    PathInvertible(item, p);
    ProductInvertible(PathMatrix(item, p), m);
  }

  lemma KidOccursIff(item: Item, id: nat)
    ensures Occurs(item, id) <==> item.id == id || KidOccurs(item.kids, id)
  {
    if item.id == id {
      assert ValidPath(item, []) && ItemAt(item, []).id == id;
    }
    if KidOccurs(item.kids, id) {
      var k :| 0 <= k < |item.kids| && Occurs(item.kids[k], id);
      var p :| ValidPath(item.kids[k], p) && ItemAt(item.kids[k], p).id == id;
      var path := [k] + p;
      assert path[1..] == p;
      assert ValidPath(item, path) && ItemAt(item, path).id == id;
    }
    if Occurs(item, id) {
      var p :| ValidPath(item, p) && ItemAt(item, p).id == id;
      if p != [] {
        var kid := item.kids[p[0]];
        assert ValidPath(kid, p[1..]) && ItemAt(kid, p[1..]).id == id;
        assert Occurs(kid, id);
      }
    }
  }

  lemma LiftReached(item: Item, id: nat, m: Matrix, result: Matrix)
    requires Regular(item) && KidReached(item.kids, id, ToItem(item, m), result)
    ensures Reached(item, id, m, result)
  {
    hide Mul, Inverse, Det;
    ToFrom(item, m);
    var k :| 0 <= k < |item.kids| && Reached(item.kids[k], id, ToItem(item, m), result);
    var kid := item.kids[k];
    var p :| ValidPath(kid, p) && ItemAt(kid, p).id == id && result == Mul(PathMatrix(kid, p), ToItem(item, m));
    var path := [k] + p;
    assert path[1..] == p;
    MulAssoc(PathMatrix(kid, p), M(item), m);
    assert ValidPath(item, path) && ItemAt(item, path).id == id && result == Mul(PathMatrix(item, path), m);
  }

  lemma ReachedHere(item: Item, m: Matrix)
    requires Regular(item)
    ensures Reached(item, item.id, m, ToItem(item, m))
  {
    hide Mul, Inverse, Det;
    ToFrom(item, m);
    assert ValidPath(item, []) && ItemAt(item, []).id == item.id && ToItem(item, m) == Mul(PathMatrix(item, []), m);
  }

  // The search succeeds exactly when the item occurs; then the matrix is the
  // product along a path to it, and otherwise the caller's matrix is restored.
  lemma {:induction false} FindChildExact(item: Item, m: Matrix, id: nat)
    requires AllInvertible(item)
    ensures FindChild(item, m, id).0 <==> Occurs(item, id)
    ensures FindChild(item, m, id).0 ==> Reached(item, id, m, FindChild(item, m, id).1)
    ensures !FindChild(item, m, id).0 ==> FindChild(item, m, id).1 == m
    decreases item, 1
  {
    hide Mul, Inverse, Det, Occurs, Reached, KidOccurs, KidReached;
    KidOccursIff(item, id);
    if item.id == id {
      ReachedHere(item, m);
    } else {
      var m1 := ToItem(item, m);
      FindKidsExact(item.kids, m1, id);
      if FindKids(item.kids, m1, id).0 {
        LiftReached(item, id, m, FindKids(item.kids, m1, id).1);
      } else {
        ToFrom(item, m);
      }
    }
  }

  lemma {:induction false} FindKidsExact(kids: seq<Item>, m: Matrix, id: nat)
    requires forall k :: 0 <= k < |kids| ==> AllInvertible(kids[k])
    ensures FindKids(kids, m, id).0 <==> KidOccurs(kids, id)
    ensures FindKids(kids, m, id).0 ==> KidReached(kids, id, m, FindKids(kids, m, id).1)
    ensures !FindKids(kids, m, id).0 ==> FindKids(kids, m, id).1 == m
    decreases kids, 0
  {
    hide Mul, Inverse, Det, Occurs, Reached;
    if kids != [] {
      var last := |kids| - 1;
      FindChildExact(kids[last], m, id);
      var (found, m1) := FindChild(kids[last], m, id);
      if !found {
        FindKidsExact(kids[..last], m1, id);
        assert KidOccurs(kids[..last], id) <==> KidOccurs(kids, id);
      }
    }
  }

  lemma {:induction false} PickItemReached(item: Item, m: Matrix)
    requires AllInvertible(item)
    ensures var (found, m1) := PickItem(item, m);
            if found.Some? then Reached(item, found.value, m, m1) else m1 == m
    decreases item, 1
  {
    hide Mul, Inverse, Det, Reached, KidReached;
    if item.visible && !item.avoidTest {
      var m1 := ToItem(item, m);
      PickKidsReached(item.kids, m1);
      var (found, m2) := PickKids(item.kids, m1);
      if found.Some? {
        LiftReached(item, found.value, m, m2);
      } else {
        ReachedHere(item, m);
        ToFrom(item, m);
      }
    }
  }

  lemma {:induction false} PickKidsReached(kids: seq<Item>, m: Matrix)
    requires forall k :: 0 <= k < |kids| ==> AllInvertible(kids[k])
    ensures var (found, m1) := PickKids(kids, m);
            if found.Some? then KidReached(kids, found.value, m, m1) else m1 == m
    decreases kids, 0
  {
    hide Mul, Inverse, Det, Reached;
    if kids != [] {
      var last := |kids| - 1;
      PickItemReached(kids[last], m);
      var (found, m1) := PickItem(kids[last], m);
      if found.None? {
        PickKidsReached(kids[..last], m1);
      }
    }
  }

  // In a tree without repeated items, looking the picked item up again gives
  // the very matrix the pick left in its context.
  lemma PickThenFind(item: Item, m: Matrix)
    requires AllInvertible(item) && NoRepeats(item) && PickItem(item, m).0.Some?
    ensures var (found, picked) := PickItem(item, m);
            FindChild(item, m, found.value) == (true, picked)
  {
    hide Mul, Inverse, Det;
    var (found, picked) := PickItem(item, m);
    var id := found.value;
    PickItemReached(item, m);
    FindChildExact(item, m, id);
    var p :| ValidPath(item, p) && ItemAt(item, p).id == id && picked == Mul(PathMatrix(item, p), m);
    assert Occurs(item, id);
    var q :| ValidPath(item, q) && ItemAt(item, q).id == id
          && FindChild(item, m, id).1 == Mul(PathMatrix(item, q), m);
    assert p == q;
  }
}
