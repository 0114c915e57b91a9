// Dragging the canvas.
module Panner {
  import opened Affine
  import opened ItemTree
  import opened Viewport

  // ----- events on the way up the item tree ----------------------------------------

  // The pointer position in the units of the item reached, and the matrix
  // from there to the device.
  datatype Travel = Travel(matrix: Matrix, coords: Point)

  // invoke_event, at the picked item
  function Start(matrix: Matrix, device: Point): Travel {
    Travel(matrix, Apply(Inverse(matrix), device))
  }

  // event: leaving an item for its parent
  function Leave(t: Travel, item: Item): Travel {
    if item.matrix.None? then t
    else Travel(Mul(Inverse(item.matrix.value), t.matrix), Apply(item.matrix.value, t.coords))
  }

  function Climb(t: Travel, items: seq<Item>): Travel
    decreases |items|
  {
    if items == [] then t else Climb(Leave(t, items[0]), items[1..])
  }

  // At every level the position, taken to the device, is where the pointer is.
  lemma {:induction false} ClimbKeepsDevice(t: Travel, items: seq<Item>)
    requires forall i :: 0 <= i < |items| ==> Regular(items[i])
    ensures Apply(Climb(t, items).matrix, Climb(t, items).coords) == Apply(t.matrix, t.coords)
    decreases |items|
  {
    hide Apply, Mul, Inverse, Det;
    if items != [] {
      var m := M(items[0]);
      if items[0].matrix.Some? {
        ApplyMul(Inverse(m), t.matrix, Apply(m, t.coords));
        BackAndForth(m, t.coords);
      }
      ClimbKeepsDevice(Leave(t, items[0]), items[1..]);
    }
  }

  lemma EventReachesDevicePoint(matrix: Matrix, device: Point, items: seq<Item>)
    requires Invertible(matrix) && forall i :: 0 <= i < |items| ==> Regular(items[i])
    ensures var t := Climb(Start(matrix, device), items); Apply(t.matrix, t.coords) == device
  {
    hide Apply, Mul, Inverse, Det;
    ClimbKeepsDevice(Start(matrix, device), items);
    BackAndForth(matrix, device);
  }

  // A motion of the pointer: the item it was picked on is looked up in the
  // tree, and the event climbs from there to the panner.
  datatype Pointer = Pointer(time: int, device: Point, tree: Item, pick: nat, way: seq<Item>)

  predicate Deliverable(p: Pointer) {
    && AllInvertible(p.tree) && FindChild(p.tree, IDENTITY, p.pick).0
    && forall i :: 0 <= i < |p.way| ==> Regular(p.way[i])
  }

  function Delivered(p: Pointer): Travel {
    Climb(Start(FindChild(p.tree, IDENTITY, p.pick).1, p.device), p.way)
  }

  // The panner recovers where the pointer is.
  lemma PointerReaches(p: Pointer)
    requires Deliverable(p)
    ensures var t := Delivered(p); Apply(t.matrix, t.coords) == p.device
  {
    hide Apply, Mul, Inverse, Det, AllInvertible, FindChild, Reached;
    FindChildExact(p.tree, IDENTITY, p.pick);
    assert Invertible(IDENTITY) by { DetIdentity(); }
    var matrix := FindChild(p.tree, IDENTITY, p.pick).1;
    ReachedInvertible(p.tree, p.pick, IDENTITY, matrix);
    EventReachesDevicePoint(matrix, p.device, p.way);
  }

  // ----- the panner -------------------------------------------------------------------

  datatype Event =
    | Press(button: int, time: int, travel: Travel)
    | Motion(time: int, travel: Travel)
    | Release

  class CrPanner {
    const canvas: Canvas
    var active: bool
    var dragging: bool
    var last: Point
    var lastMsec: int
    var button: int
    ghost var grabbed: Point     // the user point under the cursor at the press

    // While dragging in an infinite world, the grabbed point is displayed at
    // the last position.
    ghost predicate Valid()
      reads this, canvas
    {
      && Invertible(canvas.root)
      && (dragging && !canvas.scrollWorld ==> Apply(canvas.root, grabbed) == last)
    }

    constructor (canvas: Canvas)
      requires Invertible(canvas.root)
      ensures this.canvas == canvas && Valid() && !active && !dragging && button == 2
    {
      this.canvas := canvas;
      active, dragging, last, lastMsec, button := false, false, Point(0.0, 0.0), 0, 2;
    }

    // The user point that a pan by d brings to the centre.
    function PanTarget(d: Point): Point
      reads canvas
    {
      canvas.Target(Minus(canvas.UserAt(canvas.Centre()), Distance(Inverse(canvas.root), d)))
    }

    // pan: every device image moves by d, unless the scroll region of a finite
    // world stops it.
    method Pan(d: Point)
      requires Invertible(canvas.root)
      modifies canvas`root, canvas`initW, canvas`initH, canvas`lastW, canvas`lastH
      ensures Invertible(canvas.root)
      ensures old(var q := Minus(canvas.UserAt(canvas.Centre()), Distance(Inverse(canvas.root), d)); canvas.Target(q) == q) ==>
                forall p :: Apply(canvas.root, p) == Plus(Apply(old(canvas.root), p), d)
      ensures !canvas.scrollWorld ==> forall p :: Apply(canvas.root, p) == Plus(Apply(old(canvas.root), p), d)
      ensures d == Point(0.0, 0.0) ==> canvas.root == old(canvas.root)
      ensures d != Point(0.0, 0.0) ==> Apply(canvas.root, old(PanTarget(d))) == canvas.Centre()
    {
      hide Apply, Mul, Inverse, Det, Distance;
      var m := canvas.root;
      ghost var q := Minus(canvas.UserAt(canvas.Centre()), Distance(Inverse(m), d));
      ghost var free := canvas.Target(q) == q;
      assert !canvas.scrollWorld ==> free;
      if d.x != 0.0 || d.y != 0.0 {
        var u := Distance(Inverse(canvas.root), d);
        var c := canvas.GetCenter();
        canvas.CenterOn(Minus(c, u));
        assert Minus(c, Minus(c, u)) == u;
      } else {
        NoMove(m, d);
      }
      if free {
        forall p
          ensures Apply(canvas.root, p) == Plus(Apply(m, p), d)
        {
          if d.x != 0.0 || d.y != 0.0 { TranslateMoves(m, d, p); }
        }
      }
    }

    lemma NoMove(m: Matrix, d: Point)
      requires d == Point(0.0, 0.0)
      ensures forall p :: Apply(m, p) == Plus(Apply(m, p), d)
    {
    }

    // on_event.  A motion that comes less than 100 ms after the last one that
    // panned is dropped, but the next one covers its distance too.
    method OnEvent(ev: Event) returns (handled: bool, ghost emitted: bool)
      requires Valid()
      modifies this, canvas`root, canvas`initW, canvas`initH, canvas`lastW, canvas`lastH
      ensures Valid()
      ensures emitted <==> ev.Motion? && old(active && dragging) && ev.time - old(lastMsec) >= 100
      ensures emitted ==>
                var device := Apply(ev.travel.matrix, ev.travel.coords);
                && last == device && lastMsec == ev.time && grabbed == old(grabbed) && dragging && active
                && (!canvas.scrollWorld ==>
                      && Apply(canvas.root, grabbed) == device
                      && forall p :: Apply(canvas.root, p) == Plus(Apply(old(canvas.root), p), Minus(device, old(last))))
                && (device != old(last) ==>
                      Apply(canvas.root, old(PanTarget(Minus(Apply(ev.travel.matrix, ev.travel.coords), last))))
                      == canvas.Centre())
      ensures !emitted ==> canvas.root == old(canvas.root)
      ensures ev.Motion? && !emitted ==> unchanged(this)
      ensures ev.Release? && old(active) ==> !active && !dragging
      ensures ev.Press? ==> handled == (old(active) || ev.button == button)
      ensures ev.Press? && handled ==> active && dragging && last == Apply(ev.travel.matrix, ev.travel.coords)
      ensures ev.Press? && !handled ==> unchanged(this)
    {
      hide Apply, Mul, Inverse, Det;
      handled, emitted := false, false;
      if ev.Press? {
        if !active {
          if ev.button == button {
            active := true;
          } else {
            return;
          }
        }
        last := Apply(ev.travel.matrix, ev.travel.coords);
        grabbed := Apply(Inverse(canvas.root), last);
        BackAndForth(canvas.root, last);
        dragging := true;
        lastMsec := ev.time;
        handled := true;
      } else if !active {
        return;
      } else if ev.Motion? {
        if dragging && ev.time - lastMsec >= 100 {
          var p := Apply(ev.travel.matrix, ev.travel.coords);
          Pan(Minus(p, last));
          assert Plus(last, Minus(p, last)) == p;
          lastMsec := ev.time;
          last := p;
          handled, emitted := true, true;
        }
      } else {
        active := false;
        dragging := false;
        handled := true;
      }
    }

    // A whole drag: after the last pan the grabbed point is under the pointer
    // of that motion, however many motions were throttled in between.
    method Drag(moves: seq<Pointer>) returns (ghost seen: int)
      requires Valid() && active && dragging
      requires forall i :: 0 <= i < |moves| ==> Deliverable(moves[i])
      modifies this, canvas`root, canvas`initW, canvas`initH, canvas`lastW, canvas`lastH
      ensures Valid() && active && dragging && grabbed == old(grabbed)
      ensures -1 <= seen < |moves|
      ensures seen == -1 ==> last == old(last) && lastMsec == old(lastMsec) && canvas.root == old(canvas.root)
      ensures seen >= 0 ==> last == moves[seen].device && lastMsec == moves[seen].time
      ensures seen >= 0 && !canvas.scrollWorld ==> Apply(canvas.root, grabbed) == moves[seen].device
      ensures forall i :: seen < i < |moves| ==> moves[i].time - lastMsec < 100
    {
      hide Apply, Mul, Inverse, Det, Deliverable, Delivered, Regular;
      seen := -1;
      for i := 0 to |moves|
        invariant Valid() && active && dragging && grabbed == old(grabbed) && -1 <= seen < i
        invariant seen == -1 ==> last == old(last) && canvas.root == old(canvas.root) && lastMsec == old(lastMsec)
        invariant seen >= 0 ==> last == moves[seen].device && lastMsec == moves[seen].time
        invariant forall j :: seen < j < i ==> moves[j].time - lastMsec < 100
      {
        PointerReaches(moves[i]);
        ghost var emitted;
        var handled;
        handled, emitted := OnEvent(Motion(moves[i].time, Delivered(moves[i])));
        if emitted { seen := i; }
      }
    }
  }
}
