// Damage: items report the rectangles they covered and will cover; each
// report climbs the tree through the matrices of the ancestors.
module DamageReport {
  import opened Options
  import opened Affine
  import opened ItemTree

  // What the propagation of a report sees of an item on the way up.
  datatype Frame = Frame(needUpdate: bool, inReport: bool, matrix: Option<Matrix>, matrixP: Matrix)

  // The item being walked and its ancestors, innermost first.
  type Chain = seq<Frame>

  datatype Report = Report(id: nat, rect: Rect)

  function FrameOf(item: Item): Frame {
    Frame(item.needUpdate, true, item.matrix, item.matrixP)
  }

  // The matrix a report of the given kind goes through.
  function Used(f: Frame, before: bool): Matrix {
    if f.matrix.None? then IDENTITY else if before then f.matrixP else f.matrix.value
  }

  function Through(f: Frame, before: bool, r: Rect): Rect {
    if f.matrix.None? then r else Enclose(Used(f, before), r)
  }

  // invalidated, at the item and then at each ancestor: update is the
  // INVALIDATE_UPDATE bit of the mask.
  function Deliver(up: Chain, before: bool, update: bool, r: Rect): Option<Rect> {
    if up == [] then Some(r)
    else
      var u := update || up[0].needUpdate;
      if !u && !up[0].inReport then None
      else Deliver(up[1..], before, u, Through(up[0], before, r))
  }

  function ChainMatrix(up: Chain, before: bool): Matrix {
    if up == [] then IDENTITY else Mul(Used(up[0], before), ChainMatrix(up[1..], before))
  }

  function Emit(id: nat, up: Chain, before: bool, update: bool, b: Option<Rect>): seq<Report> {
    if b.None? then []
    else
      match Deliver(up, before, update, b.value)
      case None => []
      case Some(r) => [Report(id, r)]
  }

  // report_old_bounds
  function OldReports(item: Item, up: Chain, all: bool): seq<Report>
    decreases item, 1
  {
    var all' := all || item.needUpdate;
    var up' := [FrameOf(item)] + up;
    (if all' then Emit(item.id, up', true, item.needUpdate, item.bounds) else [])
    + OldKids(item.kids, up', all')
  }

  function OldKids(kids: seq<Item>, up: Chain, all: bool): seq<Report>
    decreases kids, 0
  {
    if kids == [] then [] else OldReports(kids[0], up, all) + OldKids(kids[1..], up, all)
  }

  // report_new_bounds: kids first, then the item with its bounds brought up
  // to date.
  function NewReports(item: Item, up: Chain, all: bool): seq<Report>
    decreases item, 1
  {
    if !item.visible then []
    else
      var all' := all || item.needUpdate;
      var up' := [FrameOf(item)] + up;
      NewKids(item.kids, up', all')
      + (if all' then Emit(item.id, up', false, item.needUpdate, CurrentBounds(item)) else [])
  }

  function NewKids(kids: seq<Item>, up: Chain, all: bool): seq<Report>
    decreases kids, 0
  {
    if kids == [] then [] else NewReports(kids[0], up, all) + NewKids(kids[1..], up, all)
  }

  // The tree after report_new_bounds.
  function Settled(item: Item): Item
    decreases item, 1
  {
    if !item.visible then item.(needUpdate := false)
    else item.(needUpdate := false, bounds := CurrentBounds(item),
                    matrixP := if item.matrix.Some? then item.matrix.value else item.matrixP, kids := SettledKids(item.kids))
  }

  function SettledKids(kids: seq<Item>): (r: seq<Item>)
    ensures |r| == |kids|
    decreases kids, 0
  {
    if kids == [] then [] else [Settled(kids[0])] + SettledKids(kids[1..])
  }

  // ----- containment ------------------------------------------------------------

  // A delivered rectangle contains the image, under the composition of all
  // matrices on the way, of every point of the reported one.
  lemma {:induction false} DeliverContains(up: Chain, before: bool, update: bool, r: Rect, p: Point)
    requires Deliver(up, before, update, r).Some? && In(p, r)
    ensures In(Apply(ChainMatrix(up, before), p), Deliver(up, before, update, r).value)
  {
    hide Apply, Mul, Enclose;
    if up == [] {
      ApplyIdentity(p);
    } else {
      var f := up[0];
      if f.matrix.None? { ApplyIdentity(p); } else { EncloseContains(Used(f, before), r, p); }
      DeliverContains(up[1..], before, update || f.needUpdate, Through(f, before, r), Apply(Used(f, before), p));
      ApplyMul(Used(f, before), ChainMatrix(up[1..], before), p);
    }
  }

  // ----- the propagation filter ---------------------------------------------------

  // No report is stopped: up to the first item that needs an update, every
  // one is itself walking its bounds.
  predicate Open(up: Chain) {
    up == [] || up[0].needUpdate || (up[0].inReport && Open(up[1..]))
  }

  lemma {:induction false} DeliverPasses(up: Chain, before: bool, update: bool, r: Rect)
    ensures Deliver(up, before, update, r).Some? <==> update || Open(up)
  {
    if up != [] {
      var u := update || up[0].needUpdate;
      DeliverPasses(up[1..], before, u, Through(up[0], before, r));
    }
  }

  // The items that should report: with bounds, and flagged or below a flag.
  function Reporting(item: Item, all: bool): seq<nat>
    decreases item, 1
  {
    var all' := all || item.needUpdate;
    (if all' && item.bounds.Some? then [item.id] else []) + ReportingKids(item.kids, all')
  }

  function ReportingKids(kids: seq<Item>, all: bool): seq<nat>
    decreases kids, 0
  {
    if kids == [] then [] else Reporting(kids[0], all) + ReportingKids(kids[1..], all)
  }

  function Ids(rs: seq<Report>): seq<nat> {
    if rs == [] then [] else [rs[0].id] + Ids(rs[1..])
  }

  lemma {:induction false} IdsPlus(a: seq<Report>, b: seq<Report>)
    ensures Ids(a + b) == Ids(a) + Ids(b)
  {
    if a == [] {
      assert a + b == b;
    } else {
      assert (a + b)[1..] == a[1..] + b;
      IdsPlus(a[1..], b);
    }
  }

  // Every item that should report its old bounds is heard by the device.
  lemma {:induction false} OldAllHeard(item: Item, up: Chain, all: bool)
    requires Open(up)
    ensures Ids(OldReports(item, up, all)) == Reporting(item, all)
    decreases item, 1
  {
    hide Enclose;
    var all' := all || item.needUpdate;
    var up' := [FrameOf(item)] + up;
    assert up'[1..] == up;
    var own := if all' then Emit(item.id, up', true, item.needUpdate, item.bounds) else [];
    if item.bounds.Some? { DeliverPasses(up', true, item.needUpdate, item.bounds.value); }
    assert Ids(own) == if all' && item.bounds.Some? then [item.id] else [];
    OldKidsHeard(item.kids, up', all');
    IdsPlus(own, OldKids(item.kids, up', all'));
  }

  lemma {:induction false} OldKidsHeard(kids: seq<Item>, up: Chain, all: bool)
    requires Open(up)
    ensures Ids(OldKids(kids, up, all)) == ReportingKids(kids, all)
    decreases kids, 0
  {
    if kids != [] {
      OldAllHeard(kids[0], up, all);
      OldKidsHeard(kids[1..], up, all);
      IdsPlus(OldReports(kids[0], up, all), OldKids(kids[1..], up, all));
    }
  }

  // _remove flags the parent before the child reports, so that nothing the
  // removed subtree covered is lost, whatever the state of the ancestors.
  function RemoveReports(child: Item, parent: Frame, above: Chain): seq<Report> {
    OldReports(child, [parent.(needUpdate := true)] + above, true)
  }

  lemma RemoveAllHeard(child: Item, parent: Frame, above: Chain)
    ensures Ids(RemoveReports(child, parent, above)) == Reporting(child, true)
  {
    OldAllHeard(child, [parent.(needUpdate := true)] + above, true);
  }

  // ----- whole passes ---------------------------------------------------------------

  // Some item on the path, from this one to its end, is flagged.
  predicate Flagged(item: Item, path: ItemPath, all: bool)
    requires ValidPath(item, path)
    decreases |path|
  {
    all || item.needUpdate || (path != [] && Flagged(item.kids[path[0]], path[1..], false))
  }

  lemma {:induction false} FlaggedAll(item: Item, path: ItemPath, all: bool)
    requires ValidPath(item, path)
    ensures Flagged(item, path, all) == (all || Flagged(item, path, false))
  {
  }

  ghost predicate Covered(rs: seq<Report>, id: nat, q: Point) {
    exists i :: 0 <= i < |rs| && rs[i].id == id && In(q, rs[i].rect)
  }

  lemma CoveredPlus(a: seq<Report>, b: seq<Report>, id: nat, q: Point)
    requires Covered(a, id, q) || Covered(b, id, q)
    ensures Covered(a + b, id, q)
  {
    if Covered(a, id, q) {
      var i :| 0 <= i < |a| && a[i].id == id && In(q, a[i].rect);
      assert (a + b)[i] == a[i];
    } else {
      var i :| 0 <= i < |b| && b[i].id == id && In(q, b[i].rect);
      assert (a + b)[|a| + i] == b[i];
    }
  }

  lemma {:induction false} NewKidCovered(kids: seq<Item>, up: Chain, all: bool, k: nat, id: nat, q: Point)
    requires k < |kids| && Covered(NewReports(kids[k], up, all), id, q)
    ensures Covered(NewKids(kids, up, all), id, q)
    decreases |kids|
  {
    hide Covered;
    if k > 0 {
      assert kids[1..][k - 1] == kids[k];
      NewKidCovered(kids[1..], up, all, k - 1, id, q);
    }
    CoveredPlus(NewReports(kids[0], up, all), NewKids(kids[1..], up, all), id, q);
  }

  lemma EmitCovers(id: nat, up: Chain, before: bool, update: bool, b: Rect, p: Point)
    requires (update || Open(up)) && In(p, b)
    ensures Covered(Emit(id, up, before, update, Some(b)), id, Apply(ChainMatrix(up, before), p))
  {
    hide Apply, Mul, Enclose;
    DeliverPasses(up, before, update, b);
    DeliverContains(up, before, update, b, p);
    assert Emit(id, up, before, update, Some(b))[0].id == id;
  }

  // The new-bounds pass: whatever the flagged items will show, at any depth,
  // lies in the damage reported to the device.
  lemma {:induction false} NewDamageCovers(item: Item, up: Chain, all: bool, path: ItemPath, p: Point)
    requires ValidPath(item, path) && VisiblePath(item, path) && Flagged(item, path, all) && Open(up)
    requires Due(ItemAt(item, path), p)
    ensures Covered(NewReports(item, up, all), ItemAt(item, path).id,
                    Apply(Mul(PathMatrix(item, path), ChainMatrix(up, false)), p))
    decreases |path|
  {
    hide Apply, Mul, Enclose, Covered;
    var all' := all || item.needUpdate;
    var up' := [FrameOf(item)] + up;
    assert up'[1..] == up;
    assert ChainMatrix(up', false) == Mul(M(item), ChainMatrix(up, false));
    var id := ItemAt(item, path).id;
    var own := if all' then Emit(item.id, up', false, item.needUpdate, CurrentBounds(item)) else [];
    var q := Apply(Mul(PathMatrix(item, path), ChainMatrix(up, false)), p);
    if path == [] {
      EmitCovers(id, up', false, item.needUpdate, CurrentBounds(item).value, p);
    } else {
      var kid := item.kids[path[0]];
      FlaggedAll(kid, path[1..], all');
      NewDamageCovers(kid, up', all', path[1..], p);
      MulAssoc(PathMatrix(kid, path[1..]), M(item), ChainMatrix(up, false));
      NewKidCovered(item.kids, up', all', path[0], id, q);
    }
    CoveredPlus(NewKids(item.kids, up', all'), own, id, q);
  }

  // The composition of the matrices that a report of old bounds goes through.
  function OldPathMatrix(item: Item, path: ItemPath): Matrix
    requires ValidPath(item, path)
    decreases |path|
  {
    var own := Used(FrameOf(item), true);
    if path == [] then own else Mul(OldPathMatrix(item.kids[path[0]], path[1..]), own)
  }

  lemma {:induction false} OldKidCovered(kids: seq<Item>, up: Chain, all: bool, k: nat, id: nat, q: Point)
    requires k < |kids| && Covered(OldReports(kids[k], up, all), id, q)
    ensures Covered(OldKids(kids, up, all), id, q)
    decreases |kids|
  {
    hide OldReports, Covered;
    if k > 0 {
      OldKidCovered(kids[1..], up, all, k - 1, id, q);
    }
    CoveredPlus(OldReports(kids[0], up, all), OldKids(kids[1..], up, all), id, q);
  }

  // The old-bounds pass: where the flagged items were shown, at any depth,
  // lies in the damage reported to the device.
  lemma {:induction false} OldDamageCovers(item: Item, up: Chain, all: bool, path: ItemPath, p: Point)
    requires ValidPath(item, path) && Flagged(item, path, all) && Open(up)
    requires var b := ItemAt(item, path).bounds; b.Some? && In(p, b.value)
    ensures Covered(OldReports(item, up, all), ItemAt(item, path).id,
                    Apply(Mul(OldPathMatrix(item, path), ChainMatrix(up, true)), p))
    decreases |path|
  {
    hide Apply, Mul, Enclose, Covered;
    var all' := all || item.needUpdate;
    var up' := [FrameOf(item)] + up;
    assert up'[1..] == up;
    var own := Used(FrameOf(item), true);
    assert ChainMatrix(up', true) == Mul(own, ChainMatrix(up, true));
    var id := ItemAt(item, path).id;
    var mine := if all' then Emit(item.id, up', true, item.needUpdate, item.bounds) else [];
    var q := Apply(Mul(OldPathMatrix(item, path), ChainMatrix(up, true)), p);
    if path == [] {
      EmitCovers(id, up', true, item.needUpdate, item.bounds.value, p);
    } else {
      var kid := item.kids[path[0]];
      FlaggedAll(kid, path[1..], all');
      OldDamageCovers(kid, up', all', path[1..], p);
      MulAssoc(OldPathMatrix(kid, path[1..]), own, ChainMatrix(up, true));
      OldKidCovered(item.kids, up', all', path[0], id, q);
    }
    CoveredPlus(mine, OldKids(item.kids, up', all'), id, q);
  }

  // ----- two updates in a row ---------------------------------------------------------

  predicate Normal(r: Rect) {
    r.x1 <= r.x2 && r.y1 <= r.y2
  }

  predicate NormalTree(item: Item) {
    (item.bounds.Some? ==> Normal(item.bounds.value)) &&
    forall k :: 0 <= k < |item.kids| ==> NormalTree(item.kids[k])
  }

  predicate AllVisible(item: Item) {
    item.visible && forall k :: 0 <= k < |item.kids| ==> AllVisible(item.kids[k])
  }

  // As report_new_bounds leaves a visible tree.
  predicate IsSettled(item: Item) {
    && item.visible && !item.needUpdate && (item.matrix.Some? ==> item.matrixP == item.matrix.value)
    && forall k :: 0 <= k < |item.kids| ==> IsSettled(item.kids[k])
  }

  lemma {:induction false} SettledOk(item: Item)
    requires AllVisible(item)
    ensures IsSettled(Settled(item))
    decreases item, 1
  {
    SettledKidsOk(item.kids);
  }

  lemma {:induction false} SettledKidsOk(kids: seq<Item>)
    requires forall k :: 0 <= k < |kids| ==> AllVisible(kids[k])
    ensures forall k :: 0 <= k < |kids| ==> IsSettled(SettledKids(kids)[k])
    decreases kids, 0
  {
    if kids != [] {
      SettledOk(kids[0]);
      SettledKidsOk(kids[1..]);
    }
  }

  // b is a after any changes of matrices and flags, visibility included; the
  // previous matrix of an item that had none is the identity it was created
  // with.
  predicate Altered(a: Item, b: Item)
    decreases a
  {
    && b.id == a.id && b.bounds == a.bounds && |b.kids| == |a.kids|
    && (a.matrix.Some? ==> b.matrix.Some? && b.matrixP == a.matrixP)
    && (a.matrix.None? && b.matrix.Some? ==> b.matrixP == IDENTITY && NormalTree(a))
    && forall k :: 0 <= k < |a.kids| ==> Altered(a.kids[k], b.kids[k])
  }

  predicate FramesAltered(ua: Chain, ub: Chain, normal: bool) {
    && |ua| == |ub|
    && forall i :: 0 <= i < |ua| ==> FrameAltered(ua[i], ub[i], normal)
  }

  predicate FrameAltered(fa: Frame, fb: Frame, normal: bool) {
    && fa.inReport && fb.inReport
    && (fa.matrix.Some? ==> fb.matrix.Some? && fb.matrixP == fa.matrix.value)
    && (fa.matrix.None? && fb.matrix.Some? ==> fb.matrixP == IDENTITY && normal)
  }

  lemma EncloseNormal(m: Matrix, r: Rect)
    ensures Normal(Enclose(m, r))
  {
  }

  lemma EncloseIdentity(r: Rect)
    requires Normal(r)
    ensures Enclose(IDENTITY, r) == r
  {
  }

  lemma ThroughSame(fa: Frame, fb: Frame, normal: bool, r: Rect)
    requires FrameAltered(fa, fb, normal) && (normal ==> Normal(r))
    ensures Through(fb, true, r) == Through(fa, false, r)
    ensures normal ==> Normal(Through(fa, false, r))
  {
    hide Enclose;
    if fa.matrix.Some? {
      EncloseNormal(fa.matrix.value, r);
    } else if normal {
      EncloseIdentity(r);
    }
  }

  lemma {:induction false} DeliverSame(ua: Chain, ub: Chain, normal: bool, va: bool, vb: bool, r: Rect)
    requires FramesAltered(ua, ub, normal) && (normal ==> Normal(r))
    ensures Deliver(ub, true, vb, r) == Deliver(ua, false, va, r)
    decreases |ua|
  {
    hide Enclose, Through;
    if ua != [] {
      assert FrameAltered(ua[0], ub[0], normal);
      ThroughSame(ua[0], ub[0], normal, r);
      assert forall i :: 0 <= i < |ua[1..]| ==> ua[1..][i] == ua[i + 1] && ub[1..][i] == ub[i + 1];
      DeliverSame(ua[1..], ub[1..], normal, va || ua[0].needUpdate, vb || ub[0].needUpdate,
                  Through(ua[0], false, r));
    }
  }

  lemma PushFrame(a: Item, b: Item, ua: Chain, ub: Chain)
    requires IsSettled(a) && Altered(a, b) && FramesAltered(ua, ub, NormalTree(a))
    ensures FramesAltered([FrameOf(a)] + ua, [FrameOf(b)] + ub, NormalTree(a))
  {
    assert FrameAltered(FrameOf(a), FrameOf(b), NormalTree(a));
  }

  // Main result on damage: whatever matrices were changed since the last
  // update, each item that now reports its old bounds reports the rectangle
  // that a full report would have given at the end of that update.
  lemma {:induction false} OldMatchesNew(a: Item, b: Item, ua: Chain, ub: Chain, all: bool)
    requires IsSettled(a) && Altered(a, b) && FramesAltered(ua, ub, NormalTree(a))
    ensures forall r :: r in OldReports(b, ub, all) ==> r in NewReports(a, ua, true)
    decreases a, 1
  {
    hide Enclose, Deliver;
    var ua', ub' := [FrameOf(a)] + ua, [FrameOf(b)] + ub;
    PushFrame(a, b, ua, ub);
    if a.bounds.Some? {
      DeliverSame(ua', ub', NormalTree(a), false, b.needUpdate, a.bounds.value);
    }
    OldKidsMatchNew(a.kids, b.kids, ua', ub', all || b.needUpdate, NormalTree(a));
  }

  lemma {:induction false} OldKidsMatchNew(ka: seq<Item>, kb: seq<Item>, ua: Chain, ub: Chain, all: bool, normal: bool)
    requires |ka| == |kb| && FramesAltered(ua, ub, normal)
    requires forall k :: 0 <= k < |ka| ==>
               IsSettled(ka[k]) && Altered(ka[k], kb[k]) && (normal ==> NormalTree(ka[k]))
    ensures forall r :: r in OldKids(kb, ub, all) ==> r in NewKids(ka, ua, true)
    decreases ka, 0
  {
    if ka != [] {
      assert forall i :: 0 <= i < |ua| ==> FrameAltered(ua[i], ub[i], normal);
      assert FramesAltered(ua, ub, NormalTree(ka[0]));
      OldMatchesNew(ka[0], kb[0], ua, ub, all);
      OldKidsMatchNew(ka[1..], kb[1..], ua, ub, all, normal);
    }
  }

  // The canvas: update, then any changes of matrices, then the first pass of
  // the next update.
  lemma NextUpdateRepaintsOld(t: Item, b: Item)
    requires AllVisible(t) && Altered(Settled(t), b)
    ensures forall r :: r in OldReports(b, [], false) ==> r in NewReports(Settled(t), [], true)
    ensures Ids(OldReports(b, [], false)) == Reporting(b, false)
  {
    SettledOk(t);
    OldMatchesNew(Settled(t), b, [], [], false);
    OldAllHeard(b, [], false);
  }

  // The remembered matrices are those of the previous update.
  lemma {:induction false} SamePathMatrix(a: Item, b: Item, path: ItemPath)
    requires IsSettled(a) && Altered(a, b) && ValidPath(b, path)
    ensures ValidPath(a, path) && OldPathMatrix(b, path) == PathMatrix(a, path)
    decreases |path|
  {
    hide Mul;
    if path != [] {
      SamePathMatrix(a.kids[path[0]], b.kids[path[0]], path[1..]);
    }
  }

  // Across two updates: wherever a flagged item was shown by the first one, at
  // any depth and whatever was changed since, lies in the damage of the second.
  lemma OldImageRepainted(t: Item, b: Item, path: ItemPath, p: Point)
    requires AllVisible(t) && Altered(Settled(t), b) && ValidPath(b, path) && Flagged(b, path, false)
    requires var r := ItemAt(b, path).bounds; r.Some? && In(p, r.value)
    ensures ValidPath(Settled(t), path)
    ensures Covered(OldReports(b, [], false), ItemAt(b, path).id, Apply(PathMatrix(Settled(t), path), p))
  {
    hide Mul, Apply, Covered, Flagged;
    SettledOk(t);
    SamePathMatrix(Settled(t), b, path);
    OldDamageCovers(b, [], false, path, p);
    MulIdentity(OldPathMatrix(b, path));
  }
}
