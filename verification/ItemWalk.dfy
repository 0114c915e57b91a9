// The recursive walks over live canvas items: they read and reset flags,
// bounds and matrices in place.
module ItemWalk {
  import opened Options
  import opened Affine
  import opened ItemTree
  import opened DamageReport
  import opened WalkResults

  // The matrix that the searches work on, owned by their caller.
  class Cell {
    var m: Matrix

    constructor (m: Matrix)
      ensures this.m == m
    {
      this.m := m;
    }
  }

  class Node {
    const id: nat
    const kids: seq<Node>
    ghost const repr: set<Node>
    var visible: bool
    var needUpdate: bool
    var inReport: bool
    var avoidTest: bool
    var matrix: Option<Matrix>
    var matrixI: Matrix
    var matrixP: Matrix
    var bounds: Option<Rect>
    var recalculated: Option<Rect>
    var hit: bool

    // A new item asks for its first update; the items below it are distinct.
    constructor (id: nat, kids: seq<Node>, matrix: Option<Matrix>, recalculated: Option<Rect>)
      requires forall k :: 0 <= k < |kids| ==> kids[k].Ok()
      requires forall j, k :: 0 <= j < k < |kids| ==> kids[j].repr !! kids[k].repr
      ensures Ok() && this.id == id && this.kids == kids && fresh(this)
      ensures visible && needUpdate && !inReport && !avoidTest && bounds == None
      ensures this.matrix == matrix && matrixP == IDENTITY && this.recalculated == recalculated
    {
      this.id, this.kids, this.matrix, this.recalculated := id, kids, matrix, recalculated;
      visible, needUpdate, inReport, avoidTest, hit := true, true, false, false, false;
      matrixI, matrixP, bounds := IDENTITY, IDENTITY, None;
      repr := {this} + set k, n | 0 <= k < |kids| && n in kids[k].repr :: n;
    }

    // The items below form a tree.
    ghost predicate Ok()
      decreases repr
    {
      && this in repr
      && (forall k :: 0 <= k < |kids| ==> kids[k].repr < repr && this !in kids[k].repr && kids[k].Ok())
      && (forall j, k :: 0 <= j < k < |kids| ==> kids[j].repr !! kids[k].repr)
    }

    // The item as a value.
    ghost function Value(): Item
      requires Ok()
      reads repr`visible, repr`needUpdate, repr`avoidTest, repr`matrix, repr`matrixP
      reads repr`bounds, repr`recalculated, repr`hit
      decreases repr, 0
    {
      Item(id, visible, needUpdate, avoidTest, matrix, matrixP, bounds, recalculated, hit, Values(0))
    }

    ghost function Values(k: nat): (r: seq<Item>)
      requires Ok() && k <= |kids|
      reads repr`visible, repr`needUpdate, repr`avoidTest, repr`matrix, repr`matrixP
      reads repr`bounds, repr`recalculated, repr`hit
      ensures |r| == |kids| - k && forall j :: 0 <= j < |r| ==> r[j] == kids[k + j].Value()
      decreases repr, 0, |kids| - k
    {
      if k == |kids| then [] else [kids[k].Value()] + Values(k + 1)
    }

    lemma Parts()
      requires Ok()
      ensures this in repr
      ensures forall k :: 0 <= k < |kids| ==> kids[k].repr < repr && this !in kids[k].repr && kids[k].Ok()
      ensures forall j, k :: 0 <= j < |kids| && 0 <= k < |kids| && j != k ==> kids[j].repr !! kids[k].repr
    {
    }

    lemma ValueIs()
      requires Ok()
      ensures var v := Value();
              && v.id == id && v.visible == visible && v.needUpdate == needUpdate && v.avoidTest == avoidTest
              && v.matrix == matrix && v.matrixP == matrixP && v.bounds == bounds && v.recalculated == recalculated
              && v.hit == hit && |v.kids| == |kids|
      ensures forall k :: 0 <= k < |kids| ==> kids[k].Ok() && kids[k].Value() == Value().kids[k]
    {
      hide Ok;
      Parts();
    }

    lemma ValueMade(vals: seq<Item>)
      requires Ok() && |vals| == |kids|
      requires forall k :: 0 <= k < |kids| ==> kids[k].Ok() && kids[k].Value() == vals[k]
      ensures Value() == Item(id, visible, needUpdate, avoidTest, matrix, matrixP, bounds, recalculated, hit, vals)
    {
      hide Ok;
      Parts();
      assert Values(0) == vals;
    }

    // inverse_matrix
    method InverseMatrix()
      requires matrix.Some?
      modifies `matrixI
      ensures matrixI == Inverse(matrix.value)
    {
      matrixI := Inverse(matrix.value);
    }

    // report_old_bounds
    method ReportOldBounds(up: Chain, all: bool) returns (rs: seq<Report>)
      requires Ok()
      modifies repr`inReport
      ensures rs == OldReports(Value(), up, all) && !inReport
      decreases repr
    {
      hide Ok, Emit, Value, Values, OldReports, OldKids;
      Parts();
      ValueIs();
      ghost var item := Value();
      var all' := all || needUpdate;
      inReport := true;
      var up' := [Frame(needUpdate, inReport, matrix, matrixP)] + up;
      rs := if all' then Emit(id, up', true, needUpdate, bounds) else [];
      OldStart(item, up, all);
      var k := 0;
      while k < |kids|
        invariant 0 <= k <= |kids| && Value() == item
        invariant OldReports(item, up, all) == rs + OldKids(item.kids[k..], up', all')
      {
        ValueIs();
        OldNext(item.kids, k, up', all');
        var more := kids[k].ReportOldBounds(up', all');
        rs := rs + more;
        k := k + 1;
      }
      OldEnd(item.kids, up', all');
      inReport := false;
    }

    // report_new_bounds
    method ReportNewBounds(up: Chain, all: bool) returns (rs: seq<Report>)
      requires Ok()
      modifies repr
      ensures Value() == Settled(old(Value())) && (visible ==> !inReport)
      ensures WalkedTree(old(Value()), Value(), true)
      ensures rs == NewReports(old(Value()), up, all)
      decreases repr
    {
      hide Ok, Emit, Value, Values, NewReports, NewKids, Settled, SettledKids, WalkedTree;
      Parts();
      ValueIs();
      ghost var item := Value();
      SettledTree(item);
      if !visible {
        needUpdate := false;
        SettledIs(item);
        NewStart(item, up, all);
        ValueMade(item.kids);
        return [];
      }
      var up' := [Frame(needUpdate, true, matrix, matrixP)] + up;
      if matrix.Some? {
        matrixP := matrix.value;
      }
      var all' := all || needUpdate;
      inReport := true;
      rs := ReportKids(item.kids, up', all');
      if needUpdate {
        bounds := recalculated;
      }
      if all' {
        rs := rs + Emit(id, up', false, needUpdate, bounds);
      }
      needUpdate := false;
      inReport := false;
      NewStart(item, up, all);
      SettledIs(item);
      ValueMade(SettledKids(item.kids));
    }

    // its loop over the items below
    method ReportKids(ghost vals: seq<Item>, up: Chain, all: bool) returns (rs: seq<Report>)
      requires Ok() && |vals| == |kids|
      requires forall k :: 0 <= k < |kids| ==> kids[k].Ok() && kids[k].Value() == vals[k]
      modifies repr - {this}
      ensures forall k :: 0 <= k < |kids| ==> kids[k].Value() == SettledKids(vals)[k]
      ensures rs == NewKids(vals, up, all)
      decreases repr, 0
    {
      hide Ok, Value, Values, NewReports, NewKids, Settled, SettledKids;
      Parts();
      rs := [];
      var k := 0;
      assert vals[0..] == vals;
      while k < |kids|
        invariant 0 <= k <= |kids|
        invariant NewKids(vals, up, all) == rs + NewKids(vals[k..], up, all)
        invariant forall j :: 0 <= j < k ==> kids[j].Value() == Settled(vals[j])
        invariant forall j :: k <= j < |kids| ==> kids[j].Value() == vals[j]
      {
        NewNext(vals, k, up, all);
        var more := kids[k].ReportNewBounds(up, all);
        rs := rs + more;
        k := k + 1;
      }
      NewEnd(vals, up, all);
      SettledKidsAt(vals);
    }

    // cr_item_find_child
    method FindBelow(cell: Cell, target: nat) returns (found: bool)
      requires Ok()
      modifies cell, repr`matrixI
      ensures (found, cell.m) == FindChild(Value(), old(cell.m), target)
      decreases repr
    {
      hide Ok, Value, Values, FindChild, FindKids, Mul, Inverse;
      Parts();
      ValueIs();
      ghost var item := Value();
      if matrix.Some? {
        cell.m := Mul(matrix.value, cell.m);
      }
      ghost var entered := cell.m;
      found := id == target;
      if !found {
        var k := |kids|;
        assert item.kids[..k] == item.kids;
        while !found && k > 0
          invariant 0 <= k <= |kids| && Value() == item
          invariant FindKids(item.kids, entered, target) ==
                      if found then (true, cell.m) else FindKids(item.kids[..k], cell.m, target)
          decreases !found, k
        {
          k := k - 1;
          ValueIs();
          FindNext(item.kids, k, cell.m, target);
          found := kids[k].FindBelow(cell, target);
        }
        FindNone(cell.m, target);
      }
      if !found && matrix.Some? {
        InverseMatrix();
        cell.m := Mul(matrixI, cell.m);
      }
      FindIs(item, old(cell.m), target);
    }

    // invoke_test, on the matrix of the drawing context
    method InvokeTest(cell: Cell) returns (found: Option<nat>)
      requires Ok()
      modifies cell, repr`matrixI
      ensures (found, cell.m) == PickItem(Value(), old(cell.m))
      ensures Picks(Value(), found)
      decreases repr
    {
      hide Ok, Value, Values, PickItem, PickKids, Mul, Inverse, Picks;
      Parts();
      ValueIs();
      ghost var item := Value();
      PickIs(item, cell.m);
      PickPicks(item, cell.m);
      if !visible || avoidTest {
        return None;
      }
      if matrix.Some? {
        cell.m := Mul(matrix.value, cell.m);
      }
      ghost var entered := cell.m;
      found := None;
      var k := |kids|;
      assert item.kids[..k] == item.kids;
      while found.None? && k > 0
        invariant 0 <= k <= |kids| && Value() == item
        invariant PickKids(item.kids, entered) ==
                    if found.Some? then (found, cell.m) else PickKids(item.kids[..k], cell.m)
        decreases found.None?, k
      {
        k := k - 1;
        ValueIs();
        PickNext(item.kids, k, cell.m);
        found := kids[k].InvokeTest(cell);
      }
      PickNone(cell.m);
      if found.None? {
        if hit {
          found := Some(id);
        }
      }
      if found.None? && matrix.Some? {
        InverseMatrix();
        cell.m := Mul(matrixI, cell.m);
      }
    }

    // invoke_paint; painted: the items that were asked to paint, in order.
    method InvokePaint(all: bool, r: Rect) returns (painted: seq<nat>)
      requires Ok()
      modifies repr
      ensures Value() == Painted(old(Value()))
      ensures painted == Paint(old(Value()), all, r)
      ensures WalkedTree(old(Value()), Value(), false)
      ensures PaintedInOrder(old(Value()), all, r, painted) && PaintsDue(old(Value()), r, painted)
      decreases repr
    {
      hide Ok, Value, Values, Paint, PaintKids, Painted, PaintedKids, Enclose, Inverse, TestInside;
      hide WalkedTree, PaintedInOrder, PaintsDue;
      Parts();
      ValueIs();
      ghost var item := Value();
      PaintIs(item, all, r);
      PaintedIs(item);
      PaintedTree(item);
      PaintInOrder(item, all, r);
      PaintAllDue(item, all, r);
      if !visible {
        needUpdate := false;
        ValueMade(item.kids);
        return [];
      }
      if needUpdate {
        bounds := recalculated;
        needUpdate := false;
      }
      var r' := r;
      if matrix.Some? {
        InverseMatrix();
        r' := Enclose(matrixI, r);
      }
      painted := if all || (bounds.Some? && TestInside(r', bounds.value)) then [id] else [];
      var more := PaintBelow(item.kids, all, r');
      painted := painted + more;
      ValueMade(PaintedKids(item.kids));
    }

    // its loop over the items below
    method PaintBelow(ghost vals: seq<Item>, all: bool, r: Rect) returns (painted: seq<nat>)
      requires Ok() && |vals| == |kids|
      requires forall k :: 0 <= k < |kids| ==> kids[k].Ok() && kids[k].Value() == vals[k]
      modifies repr - {this}
      ensures forall k :: 0 <= k < |kids| ==> kids[k].Value() == PaintedKids(vals)[k]
      ensures painted == PaintKids(vals, all, r)
      decreases repr, 0
    {
      hide Ok, Value, Values, Paint, PaintKids, Painted, PaintedKids;
      Parts();
      painted := [];
      var k := 0;
      assert vals[0..] == vals;
      while k < |kids|
        invariant 0 <= k <= |kids|
        invariant PaintKids(vals, all, r) == painted + PaintKids(vals[k..], all, r)
        invariant forall j :: 0 <= j < k ==> kids[j].Value() == Painted(vals[j])
        invariant forall j :: k <= j < |kids| ==> kids[j].Value() == vals[j]
      {
        PaintNext(vals, k, all, r);
        var more := kids[k].InvokePaint(all, r);
        painted := painted + more;
        k := k + 1;
      }
      PaintEnd(vals, all, r);
      PaintedKidsAt(vals);
    }

    // the two passes of update, at the root of a mapped canvas
    method Update() returns (olds: seq<Report>, news: seq<Report>)
      requires Ok()
      modifies repr
      ensures Value() == Settled(old(Value()))
      ensures olds == OldReports(old(Value()), [], false) && news == NewReports(old(Value()), [], false)
      ensures Ids(olds) == Reporting(old(Value()), false)
      ensures WalkedTree(old(Value()), Value(), true)
      ensures DamageShown(old(Value()), olds) && DamageDue(old(Value()), news)
      ensures HeardExactly(old(Value()), olds, false) && HeardExactly(old(Value()), news, true)
    {
      hide Ok, Value, Values, OldReports, NewReports, Settled, Reporting, WalkedTree, DamageShown, DamageDue, HeardExactly;
      ghost var item := Value();
      OldAllShown(item);
      NewAllDue(item);
      UpdateHeard(item);
      olds := ReportOldBounds([], false);
      OldAllHeard(Value(), [], false);
      news := ReportNewBounds([], false);
    }
  }

  lemma OldStart(item: Item, up: Chain, all: bool)
    ensures var up' := [FrameOf(item)] + up; var all' := all || item.needUpdate;
            OldReports(item, up, all) ==
            (if all' then Emit(item.id, up', true, item.needUpdate, item.bounds) else []) + OldKids(item.kids[0..], up', all')
  {
    assert item.kids[0..] == item.kids;
  }

  lemma OldNext(kids: seq<Item>, k: nat, up: Chain, all: bool)
    requires k < |kids|
    ensures OldKids(kids[k..], up, all) == OldReports(kids[k], up, all) + OldKids(kids[k + 1..], up, all)
  {
    hide OldReports;
    assert kids[k..][1..] == kids[k + 1..];
  }

  lemma OldEnd(kids: seq<Item>, up: Chain, all: bool)
    ensures OldKids(kids[|kids|..], up, all) == []
  {
  }

  lemma NewStart(item: Item, up: Chain, all: bool)
    ensures var up' := [FrameOf(item)] + up; var all' := all || item.needUpdate;
            NewReports(item, up, all) ==
            if !item.visible then []
            else NewKids(item.kids, up', all')
                 + (if all' then Emit(item.id, up', false, item.needUpdate, CurrentBounds(item)) else [])
  {
  }

  lemma NewNext(kids: seq<Item>, k: nat, up: Chain, all: bool)
    requires k < |kids|
    ensures NewKids(kids[k..], up, all) == NewReports(kids[k], up, all) + NewKids(kids[k + 1..], up, all)
  {
    hide NewReports;
    assert kids[k..][1..] == kids[k + 1..];
  }

  lemma NewEnd(kids: seq<Item>, up: Chain, all: bool)
    ensures NewKids(kids[|kids|..], up, all) == []
  {
  }

  lemma SettledIs(item: Item)
    ensures Settled(item) ==
            if !item.visible then item.(needUpdate := false)
            else item.(needUpdate := false, bounds := CurrentBounds(item),
                       matrixP := if item.matrix.Some? then item.matrix.value else item.matrixP,
                       kids := SettledKids(item.kids))
  {
  }

  lemma FindIs(item: Item, m: Matrix, id: nat)
    ensures var m1 := ToItem(item, m); var (found, m2) := FindKids(item.kids, m1, id);
            FindChild(item, m, id) ==
            if item.id == id then (true, m1) else if found then (true, m2) else (false, FromItem(item, m2))
  {
  }

  lemma FindNext(kids: seq<Item>, k: nat, m: Matrix, id: nat)
    requires k < |kids|
    ensures var (found, m1) := FindChild(kids[k], m, id);
            FindKids(kids[..k + 1], m, id) == if found then (true, m1) else FindKids(kids[..k], m1, id)
  {
    hide FindChild;
    assert kids[..k + 1][..k] == kids[..k];
  }

  lemma FindNone(m: Matrix, id: nat)
    ensures FindKids([], m, id) == (false, m)
  {
  }

  lemma PickIs(item: Item, m: Matrix)
    ensures var (found, m1) := PickKids(item.kids, ToItem(item, m));
            PickItem(item, m) ==
            if !item.visible || item.avoidTest then (None, m)
            else if found.Some? then (found, m1)
            else if item.hit then (Some(item.id), m1) else (None, FromItem(item, m1))
  {
  }

  lemma PickNext(kids: seq<Item>, k: nat, m: Matrix)
    requires k < |kids|
    ensures var (found, m1) := PickItem(kids[k], m);
            PickKids(kids[..k + 1], m) == if found.Some? then (found, m1) else PickKids(kids[..k], m1)
  {
    hide PickItem;
    assert kids[..k + 1][..k] == kids[..k];
  }

  lemma PickNone(m: Matrix)
    ensures PickKids([], m) == (None, m)
  {
  }

  lemma PaintIs(item: Item, all: bool, r: Rect)
    ensures var r' := if item.matrix.Some? then Enclose(Inverse(item.matrix.value), r) else r;
            var b := CurrentBounds(item);
            Paint(item, all, r) ==
            if !item.visible then []
            else (if all || (b.Some? && TestInside(r', b.value)) then [item.id] else []) + PaintKids(item.kids, all, r')
  {
  }

  lemma PaintNext(kids: seq<Item>, k: nat, all: bool, r: Rect)
    requires k < |kids|
    ensures PaintKids(kids[k..], all, r) == Paint(kids[k], all, r) + PaintKids(kids[k + 1..], all, r)
  {
    hide Paint;
    assert kids[k..][1..] == kids[k + 1..];
  }

  lemma PaintEnd(kids: seq<Item>, all: bool, r: Rect)
    ensures PaintKids(kids[|kids|..], all, r) == []
  {
  }

  lemma PaintedIs(item: Item)
    ensures Painted(item) ==
            if !item.visible then item.(needUpdate := false)
            else item.(needUpdate := false, bounds := CurrentBounds(item), kids := PaintedKids(item.kids))
  {
  }
}
