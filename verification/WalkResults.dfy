// What the walks over a tree of items do, item by item: the fields they leave,
// the items they paint and in which order, and the item they pick.
module WalkResults {
  import opened Options
  import opened Affine
  import opened ItemTree
  import opened DamageReport

  // The tree after invoke_paint: bounds that were due are recalculated, also
  // when the canvas has shut off its updates.
  function Painted(item: Item): Item
    decreases item, 1
  {
    if !item.visible then item.(needUpdate := false)
    else item.(needUpdate := false, bounds := CurrentBounds(item), kids := PaintedKids(item.kids))
  }

  function PaintedKids(kids: seq<Item>): (r: seq<Item>)
    ensures |r| == |kids|
    decreases kids, 0
  {
    if kids == [] then [] else [Painted(kids[0])] + PaintedKids(kids[1..])
  }

  lemma {:induction false} PaintedKidsAt(kids: seq<Item>)
    ensures forall k :: 0 <= k < |kids| ==> PaintedKids(kids)[k] == Painted(kids[k])
  {
    hide Painted;
    if kids != [] {
      PaintedKidsAt(kids[1..]);
    }
  }

  lemma {:induction false} SettledKidsAt(kids: seq<Item>)
    ensures forall k :: 0 <= k < |kids| ==> SettledKids(kids)[k] == Settled(kids[k])
  {
    hide Settled;
    if kids != [] {
      SettledKidsAt(kids[1..]);
    }
  }

  // ----- the fields after a walk ------------------------------------------------------

  // A walk reaches the item at the path: all items above it are visible.
  predicate Walked(item: Item, path: ItemPath)
    requires ValidPath(item, path)
    decreases |path|
  {
    path == [] || (item.visible && Walked(item.kids[path[0]], path[1..]))
  }

  // y is x after a walk that reaches it or not, and finds it and all above it
  // visible or not.  remember: the walk reports new bounds.
  ghost predicate FieldsAfter(x: Item, y: Item, reached: bool, seen: bool, remember: bool) {
    && y.id == x.id && y.visible == x.visible && y.avoidTest == x.avoidTest && y.hit == x.hit
    && y.matrix == x.matrix && y.recalculated == x.recalculated && |y.kids| == |x.kids|
    && y.needUpdate == (x.needUpdate && !reached)
    && y.bounds == (if x.needUpdate && seen then x.recalculated else x.bounds)
    && y.matrixP == (if remember && seen && x.matrix.Some? then x.matrix.value else x.matrixP)
  }

  // b is a after such a walk, item by item.
  ghost predicate WalkedTree(a: Item, b: Item, remember: bool) {
    forall path {:trigger ValidPath(a, path)} {:trigger ValidPath(b, path)} ::
      (ValidPath(a, path) <==> ValidPath(b, path)) && (ValidPath(a, path) ==>
        FieldsAfter(ItemAt(a, path), ItemAt(b, path), Walked(a, path), VisiblePath(a, path), remember))
  }

  // Nothing below an item that is not visible is reached.
  lemma {:induction false} Untouched(a: Item, b: Item, path: ItemPath, remember: bool)
    requires ValidPath(a, path) && !a.visible && b == a.(needUpdate := false)
    ensures ValidPath(b, path)
    ensures FieldsAfter(ItemAt(a, path), ItemAt(b, path), Walked(a, path), VisiblePath(a, path), remember)
  {
  }

  lemma {:induction false} PaintedAt(item: Item, path: ItemPath)
    ensures ValidPath(item, path) <==> ValidPath(Painted(item), path)
    ensures ValidPath(item, path) ==>
              FieldsAfter(ItemAt(item, path), ItemAt(Painted(item), path), Walked(item, path), VisiblePath(item, path), false)
    decreases |path|
  {
    hide FieldsAfter;
    PaintedKidsAt(item.kids);
    if !item.visible {
      if ValidPath(item, path) { Untouched(item, Painted(item), path, false); }
    } else if path == [] {
      assert FieldsAfter(item, Painted(item), true, true, false) by { PaintedHere(item); }
    } else if path[0] < |item.kids| {
      PaintedAt(item.kids[path[0]], path[1..]);
    }
  }

  lemma PaintedHere(item: Item)
    requires item.visible
    ensures FieldsAfter(item, Painted(item), true, true, false)
  {
  }

  lemma {:induction false} SettledAt(item: Item, path: ItemPath)
    ensures ValidPath(item, path) <==> ValidPath(Settled(item), path)
    ensures ValidPath(item, path) ==>
              FieldsAfter(ItemAt(item, path), ItemAt(Settled(item), path), Walked(item, path), VisiblePath(item, path), true)
    decreases |path|
  {
    hide FieldsAfter;
    SettledKidsAt(item.kids);
    if !item.visible {
      if ValidPath(item, path) { Untouched(item, Settled(item), path, true); }
    } else if path == [] {
      assert FieldsAfter(item, Settled(item), true, true, true) by { SettledHere(item); }
    } else if path[0] < |item.kids| {
      SettledAt(item.kids[path[0]], path[1..]);
    }
  }

  lemma SettledHere(item: Item)
    requires item.visible
    ensures FieldsAfter(item, Settled(item), true, true, true)
  {
  }

  // Painting recalculates the bounds of each flagged item it sees, and clears
  // each flag it reaches; it changes nothing else.
  lemma PaintedTree(item: Item)
    ensures WalkedTree(item, Painted(item), false)
  {
    hide FieldsAfter, Painted;
    forall path
      ensures ValidPath(item, path) <==> ValidPath(Painted(item), path)
      ensures ValidPath(item, path) ==>
                FieldsAfter(ItemAt(item, path), ItemAt(Painted(item), path), Walked(item, path), VisiblePath(item, path), false)
    {
      PaintedAt(item, path);
    }
  }

  // So does reporting new bounds, which remembers the matrices too.
  lemma SettledTree(item: Item)
    ensures WalkedTree(item, Settled(item), true)
  {
    hide FieldsAfter, Settled;
    forall path
      ensures ValidPath(item, path) <==> ValidPath(Settled(item), path)
      ensures ValidPath(item, path) ==>
                FieldsAfter(ItemAt(item, path), ItemAt(Settled(item), path), Walked(item, path), VisiblePath(item, path), true)
    {
      SettledAt(item, path);
    }
  }

  // ----- painting in order --------------------------------------------------------------

  // p comes before q: above it, or to the left of it.
  predicate Before(p: ItemPath, q: ItemPath) {
    q != [] && (p == [] || p[0] < q[0] || (p[0] == q[0] && Before(p[1..], q[1..])))
  }

  // The requested rectangle in the units of the item at the path.
  function Requested(item: Item, path: ItemPath, r: Rect): Rect
    requires ValidPath(item, path)
    decreases |path|
  {
    var r' := if item.matrix.Some? then Enclose(Inverse(item.matrix.value), r) else r;
    if path == [] then r' else Requested(item.kids[path[0]], path[1..], r')
  }

  predicate Touches(item: Item, r: Rect) {
    if item.needUpdate then item.recalculated.Some? && TestInside(r, item.recalculated.value)
    else item.bounds.Some? && TestInside(r, item.bounds.value)
  }

  // The item at the path is to be painted.
  predicate Paints(item: Item, all: bool, r: Rect, path: ItemPath) {
    && ValidPath(item, path) && VisiblePath(item, path)
    && (all || Touches(ItemAt(item, path), Requested(item, path, r)))
  }

  // ids are the items to be painted, each path once: parents first, and kids
  // from the first to the last.
  ghost predicate PaintsAll(item: Item, all: bool, r: Rect, ids: seq<nat>, paths: seq<ItemPath>) {
    && |ids| == |paths|
    && (forall i :: 0 <= i < |paths| ==> Paints(item, all, r, paths[i]) && ids[i] == ItemAt(item, paths[i]).id)
    && (forall i, j :: 0 <= i < j < |paths| ==> Before(paths[i], paths[j]))
    && (forall path :: Paints(item, all, r, path) ==> path in paths)
  }

  ghost predicate PaintedInOrder(item: Item, all: bool, r: Rect, ids: seq<nat>) {
    exists paths :: PaintsAll(item, all, r, ids, paths)
  }

  // The same for the items below, from the k-th on; r is in the item's units.
  ghost predicate KidPaints(item: Item, all: bool, r: Rect, k: nat, path: ItemPath) {
    path != [] && k <= path[0] < |item.kids| && Paints(item.kids[path[0]], all, r, path[1..])
  }

  ghost predicate KidsPaintAll(item: Item, all: bool, r: Rect, k: nat, ids: seq<nat>, paths: seq<ItemPath>) {
    && |ids| == |paths|
    && (forall i :: 0 <= i < |paths| ==>
          KidPaints(item, all, r, k, paths[i]) && ids[i] == ItemAt(item.kids[paths[i][0]], paths[i][1..]).id)
    && (forall i, j :: 0 <= i < j < |paths| ==> Before(paths[i], paths[j]))
    && (forall path :: KidPaints(item, all, r, k, path) ==> path in paths)
  }

  // The paths of a kid, seen from its parent.
  function Prefixed(k: nat, paths: seq<ItemPath>): (r: seq<ItemPath>)
    ensures |r| == |paths| && forall i :: 0 <= i < |r| ==> r[i] == [k] + paths[i] && r[i][1..] == paths[i]
  {
    seq(|paths|, i requires 0 <= i < |paths| => [k] + paths[i])
  }

  lemma {:induction false} PaintListing(item: Item, all: bool, r: Rect) returns (paths: seq<ItemPath>)
    ensures PaintsAll(item, all, r, Paint(item, all, r), paths)
    decreases item, |item.kids| + 1
  {
    hide Enclose, Inverse, TestInside, KidsPaintAll;
    paths := [];
    if item.visible {
      var r' := if item.matrix.Some? then Enclose(Inverse(item.matrix.value), r) else r;
      var below := KidsListing(item, all, r', 0);
      assert item.kids[0..] == item.kids;
      var own := Touches(item, r');
      paths := (if all || own then [[]] else []) + below;
      Joined(item, all, r, r', PaintKids(item.kids, all, r'), below);
    }
  }

  // The item itself goes before the items below it.
  lemma Joined(item: Item, all: bool, r: Rect, r': Rect, ids: seq<nat>, below: seq<ItemPath>)
    requires item.visible && r' == if item.matrix.Some? then Enclose(Inverse(item.matrix.value), r) else r
    requires KidsPaintAll(item, all, r', 0, ids, below)
    ensures var own := all || Touches(item, r');
            PaintsAll(item, all, r, (if own then [item.id] else []) + ids, (if own then [[]] else []) + below)
  {
    hide Touches, Paints, KidPaints, Before, ValidPath, ItemAt, Enclose, Inverse;
    assert ValidPath(item, []) && ItemAt(item, []) == item by { ItemHere(item); }
    var own := all || Touches(item, r');
    var paths := (if own then [[]] else []) + below;
    PaintsHere(item, all, r, r');
    forall i | 0 <= i < |below|
      ensures below[i] != [] && ValidPath(item, below[i]) && Paints(item, all, r, below[i])
      ensures ids[i] == ItemAt(item, below[i]).id
    {
      assert KidPaints(item, all, r', 0, below[i]);
      PaintsBelow(item, all, r, r', below[i]);
    }
    forall path | path != [] && Paints(item, all, r, path)
      ensures path in below
    {
      PaintsBelow(item, all, r, r', path);
    }
    if own {
      BelowIsLater();
      OwnFirst(item, all, r, ids, below);
    } else {
      assert paths == below && [] + ids == ids;
    }
  }

  lemma OwnFirst(item: Item, all: bool, r: Rect, ids: seq<nat>, below: seq<ItemPath>)
    requires Paints(item, all, r, []) && |ids| == |below|
    requires forall i :: 0 <= i < |below| ==>
               below[i] != [] && Paints(item, all, r, below[i]) && ids[i] == ItemAt(item, below[i]).id
    requires forall i, j :: 0 <= i < j < |below| ==> Before(below[i], below[j])
    requires forall path :: path != [] && Paints(item, all, r, path) ==> path in below
    requires forall q: ItemPath :: q != [] ==> Before([], q)
    ensures PaintsAll(item, all, r, [item.id] + ids, [[]] + below)
  {
    hide Paints, Before, ItemAt;
    var paths: seq<ItemPath> := [[]] + below;
    assert ItemAt(item, []) == item by { ItemHere(item); }
    assert forall path :: path in paths <==> path == [] || path in below;
  }

  lemma ItemHere(item: Item)
    ensures ValidPath(item, []) && ItemAt(item, []) == item
  {
  }

  lemma PaintsHere(item: Item, all: bool, r: Rect, r': Rect)
    requires item.visible && r' == if item.matrix.Some? then Enclose(Inverse(item.matrix.value), r) else r
    ensures Paints(item, all, r, []) <==> all || Touches(item, r')
  {
    hide Enclose, Inverse, Touches;
  }

  lemma PaintsBelow(item: Item, all: bool, r: Rect, r': Rect, path: ItemPath)
    requires item.visible && r' == if item.matrix.Some? then Enclose(Inverse(item.matrix.value), r) else r
    ensures path != [] ==> (Paints(item, all, r, path) <==> KidPaints(item, all, r', 0, path))
    ensures KidPaints(item, all, r', 0, path) ==>
              path != [] && ValidPath(item, path) && ItemAt(item, path) == ItemAt(item.kids[path[0]], path[1..])
  {
    hide Enclose, Inverse, Touches;
  }

  lemma BelowIsLater()
    ensures forall q: ItemPath :: q != [] ==> Before([], q)
  {
  }

  lemma {:induction false} KidsListing(item: Item, all: bool, r: Rect, k: nat) returns (paths: seq<ItemPath>)
    requires k <= |item.kids|
    ensures KidsPaintAll(item, all, r, k, PaintKids(item.kids[k..], all, r), paths)
    decreases item, |item.kids| - k
  {
    hide Paint, PaintsAll, KidsPaintAll;
    if k == |item.kids| {
      paths := [];
      assert KidsPaintAll(item, all, r, k, [], []) by { NoKids(item, all, r); }
    } else {
      var first := PaintListing(item.kids[k], all, r);
      var rest := KidsListing(item, all, r, k + 1);
      assert item.kids[k..][1..] == item.kids[k + 1..];
      paths := Prefixed(k, first) + rest;
      KidsJoined(item, all, r, k, Paint(item.kids[k], all, r), first, PaintKids(item.kids[k + 1..], all, r), rest);
    }
  }

  lemma NoKids(item: Item, all: bool, r: Rect)
    ensures KidsPaintAll(item, all, r, |item.kids|, [], [])
  {
  }

  lemma KidsJoined(item: Item, all: bool, r: Rect, k: nat, a: seq<nat>, first: seq<ItemPath>,
                   b: seq<nat>, rest: seq<ItemPath>)
    requires k < |item.kids| && PaintsAll(item.kids[k], all, r, a, first)
    requires KidsPaintAll(item, all, r, k + 1, b, rest)
    ensures KidsPaintAll(item, all, r, k, a + b, Prefixed(k, first) + rest)
  {
    hide Paints, ItemAt;
    var own := Prefixed(k, first);
    var paths := own + rest;
    forall i, j | 0 <= i < j < |paths|
      ensures Before(paths[i], paths[j])
    {
      if j < |own| { assert Before(first[i], first[j]); }
      else if i >= |own| { assert Before(rest[i - |own|], rest[j - |own|]); }
      else { assert KidPaints(item, all, r, k + 1, rest[j - |own|]); }
    }
    forall path | KidPaints(item, all, r, k, path)
      ensures path in paths
    {
      if path[0] == k {
        var i :| 0 <= i < |first| && first[i] == path[1..];
        assert own[i] == [k] + path[1..] == path;
        assert paths[i] == path;
      } else {
        assert path in rest;
      }
    }
  }

  // Exactly the visible items that touch the requested rectangle are painted,
  // parents before the items below them and kids from the first to the last.
  lemma PaintInOrder(item: Item, all: bool, r: Rect)
    ensures PaintedInOrder(item, all, r, Paint(item, all, r))
  {
    hide Paint, PaintsAll;
    var paths := PaintListing(item, all, r);
  }

  // None of the images that belong on the requested rectangle is missing.
  ghost predicate PaintsDue(item: Item, r: Rect, ids: seq<nat>) {
    forall path, p {:trigger ItemAt(item, path), In(p, r)}
                   {:trigger Due(ItemAt(item, path), p)} ::
      ValidPath(item, path) && VisiblePath(item, path) && InvertiblePath(item, path)
      && Due(ItemAt(item, path), p) && In(Apply(PathMatrix(item, path), p), r) ==>
        ItemAt(item, path).id in ids
  }

  lemma PaintAllDue(item: Item, all: bool, r: Rect)
    ensures PaintsDue(item, r, Paint(item, all, r))
  {
    hide Paint, Apply, Due, In;
    forall path, p | ValidPath(item, path) && VisiblePath(item, path) && InvertiblePath(item, path)
                     && Due(ItemAt(item, path), p) && In(Apply(PathMatrix(item, path), p), r)
      ensures ItemAt(item, path).id in Paint(item, all, r)
    {
      PaintCovers(item, all, r, path, p);
    }
  }

  // ----- the damage of an update --------------------------------------------------------

  // Whatever flagged items are to show lies in the damage.
  ghost predicate DamageDue(item: Item, news: seq<Report>) {
    forall path, p {:trigger Due(ItemAt(item, path), p)} ::
      ValidPath(item, path) && VisiblePath(item, path) && Flagged(item, path, false) && Due(ItemAt(item, path), p) ==>
        Covered(news, ItemAt(item, path).id, Apply(PathMatrix(item, path), p))
  }

  lemma NewAllDue(item: Item)
    ensures DamageDue(item, NewReports(item, [], false))
  {
    hide NewReports, Apply, Due, Covered, Mul, Flagged;
    forall path, p | ValidPath(item, path) && VisiblePath(item, path) && Flagged(item, path, false)
                     && Due(ItemAt(item, path), p)
      ensures Covered(NewReports(item, [], false), ItemAt(item, path).id, Apply(PathMatrix(item, path), p))
    {
      NewDamageCovers(item, [], false, path, p);
      MulIdentity(PathMatrix(item, path));
    }
  }

  // Wherever they were shown does, too.
  ghost predicate DamageShown(item: Item, olds: seq<Report>) {
    forall path, p {:trigger ItemAt(item, path), Apply(OldPathMatrix(item, path), p)} ::
      ValidPath(item, path) && Flagged(item, path, false)
      && ItemAt(item, path).bounds.Some? && In(p, ItemAt(item, path).bounds.value) ==>
        Covered(olds, ItemAt(item, path).id, Apply(OldPathMatrix(item, path), p))
  }

  lemma OldAllShown(item: Item)
    ensures DamageShown(item, OldReports(item, [], false))
  {
    hide OldReports, Apply, In, Covered, Mul, Flagged;
    forall path, p | ValidPath(item, path) && Flagged(item, path, false)
                     && ItemAt(item, path).bounds.Some? && In(p, ItemAt(item, path).bounds.value)
      ensures Covered(OldReports(item, [], false), ItemAt(item, path).id, Apply(OldPathMatrix(item, path), p))
    {
      OldDamageCovers(item, [], false, path, p);
      MulIdentity(OldPathMatrix(item, path));
    }
  }

  // The item at the path, flagged or below a flag, has bounds to report.
  ghost predicate ReportsOld(item: Item, all: bool, path: ItemPath) {
    ValidPath(item, path) && Flagged(item, path, all) && ItemAt(item, path).bounds.Some?
  }

  ghost predicate ReportsNew(item: Item, all: bool, path: ItemPath) {
    && ValidPath(item, path) && VisiblePath(item, path) && Flagged(item, path, all)
    && if ItemAt(item, path).needUpdate then ItemAt(item, path).recalculated.Some? else ItemAt(item, path).bounds.Some?
  }

  ghost predicate SomeReport(item: Item, all: bool, id: nat, now: bool) {
    exists path :: (if now then ReportsNew(item, all, path) else ReportsOld(item, all, path))
                   && ItemAt(item, path).id == id
  }

  ghost predicate SomeKidReports(kids: seq<Item>, all: bool, id: nat, now: bool) {
    exists k :: 0 <= k < |kids| && SomeReport(kids[k], all, id, now)
  }

  // An item reports itself or through the items below it.
  lemma ReportIff(item: Item, all: bool, id: nat, now: bool)
    ensures SomeReport(item, all, id, now) <==>
            || (item.id == id && if now then ReportsNew(item, all, []) else ReportsOld(item, all, []))
            || ((now ==> item.visible) && SomeKidReports(item.kids, all || item.needUpdate, id, now))
  {
    var all' := all || item.needUpdate;
    forall path | path != [] && ValidPath(item, path)
      ensures ReportsOld(item, all, path) <==> ReportsOld(item.kids[path[0]], all', path[1..])
      ensures ReportsNew(item, all, path) <==> item.visible && ReportsNew(item.kids[path[0]], all', path[1..])
    {
      FlaggedAll(item.kids[path[0]], path[1..], all');
    }
    if (now ==> item.visible) && SomeKidReports(item.kids, all', id, now) {
      var k :| 0 <= k < |item.kids| && SomeReport(item.kids[k], all', id, now);
      var p :| (if now then ReportsNew(item.kids[k], all', p) else ReportsOld(item.kids[k], all', p))
               && ItemAt(item.kids[k], p).id == id;
      var path := [k] + p;
      assert path[1..] == p;
      assert ValidPath(item, path) && ItemAt(item, path).id == id;
    }
    if item.id == id && if now then ReportsNew(item, all, []) else ReportsOld(item, all, []) {
      assert ItemAt(item, []).id == id;
    }
  }

  // Exactly those items are heard of when old bounds are reported ...
  lemma {:induction false} OldHeard(item: Item, up: Chain, all: bool, id: nat)
    requires Open(up)
    ensures id in Ids(OldReports(item, up, all)) <==> SomeReport(item, all, id, false)
  {
    hide OldReports, SomeReport;
    OldAllHeard(item, up, all);
    ReportingIff(item, all, id);
  }

  lemma {:induction false} ReportingIff(item: Item, all: bool, id: nat)
    ensures id in Reporting(item, all) <==> SomeReport(item, all, id, false)
    decreases item, 1
  {
    hide SomeReport, SomeKidReports;
    ReportIff(item, all, id, false);
    ReportingKidsIff(item.kids, all || item.needUpdate, id);
  }

  lemma {:induction false} ReportingKidsIff(kids: seq<Item>, all: bool, id: nat)
    ensures id in ReportingKids(kids, all) <==> SomeKidReports(kids, all, id, false)
    decreases kids, 0
  {
    hide Reporting, SomeReport;
    if kids != [] {
      ReportingIff(kids[0], all, id);
      ReportingKidsIff(kids[1..], all, id);
      assert SomeKidReports(kids, all, id, false) <==>
             SomeReport(kids[0], all, id, false) || SomeKidReports(kids[1..], all, id, false) by {
        FirstKidOrRest(kids, all, id, false);
      }
    }
  }

  lemma FirstKidOrRest(kids: seq<Item>, all: bool, id: nat, now: bool)
    requires kids != []
    ensures SomeKidReports(kids, all, id, now) <==>
            SomeReport(kids[0], all, id, now) || SomeKidReports(kids[1..], all, id, now)
  {
    hide SomeReport;
    if SomeKidReports(kids[1..], all, id, now) {
      var k :| 0 <= k < |kids[1..]| && SomeReport(kids[1..][k], all, id, now);
      assert SomeReport(kids[k + 1], all, id, now);
    }
    if SomeKidReports(kids, all, id, now) {
      var k :| 0 <= k < |kids| && SomeReport(kids[k], all, id, now);
      if k > 0 { assert SomeReport(kids[1..][k - 1], all, id, now); }
    }
  }

  // ... and when new ones are.
  lemma {:induction false} NewHeard(item: Item, up: Chain, all: bool, id: nat)
    requires Open(up)
    ensures id in Ids(NewReports(item, up, all)) <==> SomeReport(item, all, id, true)
    decreases item, 1
  {
    hide SomeReport, SomeKidReports, Emit, Deliver;
    ReportIff(item, all, id, true);
    if item.visible {
      var all' := all || item.needUpdate;
      var up' := [FrameOf(item)] + up;
      assert up'[1..] == up;
      var own := if all' then Emit(item.id, up', false, item.needUpdate, CurrentBounds(item)) else [];
      OwnHeard(item, up', all', id);
      NewKidsHeard(item.kids, up', all', id);
      IdsPlus(NewKids(item.kids, up', all'), own);
    }
  }

  lemma OwnHeard(item: Item, up: Chain, all: bool, id: nat)
    requires Open(up)
    ensures id in Ids(if all then Emit(item.id, up, false, item.needUpdate, CurrentBounds(item)) else []) <==>
            all && item.id == id && if item.needUpdate then item.recalculated.Some? else item.bounds.Some?
  {
    hide Deliver;
    var b := CurrentBounds(item);
    if b.Some? { DeliverPasses(up, false, item.needUpdate, b.value); }
    var own := if all then Emit(item.id, up, false, item.needUpdate, b) else [];
    assert own == [] || (|own| == 1 && own[1..] == []);
  }

  lemma {:induction false} NewKidsHeard(kids: seq<Item>, up: Chain, all: bool, id: nat)
    requires Open(up)
    ensures id in Ids(NewKids(kids, up, all)) <==> SomeKidReports(kids, all, id, true)
    decreases kids, 0
  {
    hide NewReports, SomeReport;
    if kids != [] {
      NewHeard(kids[0], up, all, id);
      NewKidsHeard(kids[1..], up, all, id);
      IdsPlus(NewReports(kids[0], up, all), NewKids(kids[1..], up, all));
      assert SomeKidReports(kids, all, id, true) <==>
             SomeReport(kids[0], all, id, true) || SomeKidReports(kids[1..], all, id, true) by {
        FirstKidOrRest(kids, all, id, true);
      }
    }
  }

  ghost predicate HeardExactly(item: Item, rs: seq<Report>, now: bool) {
    forall id :: id in Ids(rs) <==> SomeReport(item, false, id, now)
  }

  lemma UpdateHeard(item: Item)
    ensures HeardExactly(item, OldReports(item, [], false), false)
    ensures HeardExactly(item, NewReports(item, [], false), true)
  {
    hide OldReports, NewReports, SomeReport;
    forall id
      ensures id in Ids(OldReports(item, [], false)) <==> SomeReport(item, false, id, false)
      ensures id in Ids(NewReports(item, [], false)) <==> SomeReport(item, false, id, true)
    {
      OldHeard(item, [], false, id);
      NewHeard(item, [], false, id);
    }
  }

  // ----- picking --------------------------------------------------------------------------

  // The item at the path and all above it take part in the test.
  predicate Tested(item: Item, path: ItemPath)
    requires ValidPath(item, path)
    decreases |path|
  {
    item.visible && !item.avoidTest && (path == [] || Tested(item.kids[path[0]], path[1..]))
  }

  predicate Accepts(item: Item, path: ItemPath) {
    ValidPath(item, path) && Tested(item, path) && ItemAt(item, path).hit
  }

  // path is the last one of those that accept the position: the item that is
  // painted on top of the others.
  ghost predicate OnTop(item: Item, path: ItemPath) {
    Accepts(item, path) && forall q :: Accepts(item, q) && q != path ==> Before(q, path)
  }

  ghost predicate Picks(item: Item, found: Option<nat>) {
    match found
    case None => forall q :: !Accepts(item, q)
    case Some(id) => exists path :: OnTop(item, path) && ItemAt(item, path).id == id
  }

  ghost predicate KidAccepts(item: Item, k: nat, q: ItemPath) {
    q != [] && q[0] < |item.kids| && q[0] < k && Accepts(item.kids[q[0]], q[1..])
  }

  // The item picked is the topmost one that accepts the position, and none is
  // picked only if there is none.
  lemma {:induction false} PickTopmost(item: Item, m: Matrix) returns (path: ItemPath)
    ensures var found := PickItem(item, m).0;
            if found.None? then forall q :: !Accepts(item, q)
            else OnTop(item, path) && ItemAt(item, path).id == found.value
    decreases item, |item.kids| + 1
  {
    hide ToItem, FromItem, PickKids;
    path := [];
    if item.visible && !item.avoidTest {
      path := PickBelow(item, |item.kids|, ToItem(item, m));
      assert item.kids[..|item.kids|] == item.kids;
      forall q | q != []
        ensures Accepts(item, q) <==> KidAccepts(item, |item.kids|, q)
      {
      }
      if PickKids(item.kids, ToItem(item, m)).0.None? {
        path := [];
      }
    }
  }

  lemma {:induction false} PickBelow(item: Item, k: nat, m: Matrix) returns (path: ItemPath)
    requires k <= |item.kids|
    ensures var found := PickKids(item.kids[..k], m).0;
            if found.None? then forall q :: !KidAccepts(item, k, q)
            else KidAccepts(item, k, path) && ItemAt(item.kids[path[0]], path[1..]).id == found.value
                 && forall q :: KidAccepts(item, k, q) && q != path ==> Before(q, path)
    decreases item, k
  {
    hide PickItem, Accepts;
    path := [];
    if k > 0 {
      var kids := item.kids[..k];
      assert kids[k - 1] == item.kids[k - 1] && kids[..k - 1] == item.kids[..k - 1];
      var below := PickTopmost(item.kids[k - 1], m);
      var (found, m1) := PickItem(item.kids[k - 1], m);
      if found.Some? {
        path := [k - 1] + below;
        assert path[1..] == below;
        forall q | KidAccepts(item, k, q) && q != path
          ensures Before(q, path)
        {
          if q[0] == k - 1 { assert q == [k - 1] + q[1..]; }
        }
      } else {
        path := PickBelow(item, k - 1, m1);
        forall q
          ensures KidAccepts(item, k, q) <==> KidAccepts(item, k - 1, q)
        {
        }
      }
    }
  }

  lemma PickPicks(item: Item, m: Matrix)
    ensures Picks(item, PickItem(item, m).0)
  {
    hide PickItem, OnTop, Accepts;
    var path := PickTopmost(item, m);
  }
}
