// The forces that spread the items of a connected group, and the step that
// turns an item's force into a movement.
module ForceLayout {
  import opened Sequences
  import opened Affine

  const REPULSE_K := 500.0
  const FRICTION := 3.0
  const MAX_ACCEL := 3.0
  const MAX_SPEED := 30.0
  const MIN_SPEED := 0.3

  datatype Kind = Node | Sat | Lan

  // What a force between two items depends on.
  datatype Body = Body(at: Point, lan: bool)

  // ---- the force between two items

  function Dist(a: Body, b: Body): real {
    Times(a.at.x - b.at.x, a.at.x - b.at.x) + Times(a.at.y - b.at.y, a.at.y - b.at.y)
  }

  function Factor(a: Body, b: Body): real {
    if a.lan || b.lan then REPULSE_K / 100.0 else REPULSE_K
  }

  // The push of b on a when they do not coincide; nothing otherwise.
  function Push(a: Body, b: Body): Point {
    var dist := Dist(a, b);
    if dist == 0.0 then Point(0.0, 0.0)
    else Point(Times((a.at.x - b.at.x) / dist, Factor(a, b)), Times((a.at.y - b.at.y) / dist, Factor(a, b)))
  }

  lemma Opposite(v: real, d: real, f: real)
    requires d != 0.0
    ensures Times((-v) / d, f) == -Times(v / d, f)
  {
    var q := v / d;
    assert (-q) * d == -v;
    assert (-v) / d == -q;
  }

  lemma SameSquare(v: real)
    ensures Times(-v, -v) == Times(v, v)
  {
  }

  lemma PushOpposite(a: Body, b: Body)
    ensures Push(b, a) == Point(-Push(a, b).x, -Push(a, b).y)
  {
    hide Times;
    var vx, vy := a.at.x - b.at.x, a.at.y - b.at.y;
    assert b.at.x - a.at.x == -vx && b.at.y - a.at.y == -vy;
    SameSquare(vx);
    SameSquare(vy);
    if Dist(a, b) != 0.0 {
      Opposite(vx, Dist(a, b), Factor(a, b));
      Opposite(vy, Dist(a, b), Factor(a, b));
    }
  }

  lemma CrossZero(vx: real, vy: real, d: real, f: real)
    requires d != 0.0
    ensures Times(vx, Times(vy / d, f)) == Times(vy, Times(vx / d, f))
  {
    var p, q := vx / d, vy / d;
    assert vx == p * d && vy == q * d;
    assert (p * d) * (q * f) == (q * d) * (p * f);
  }

  lemma TimesZero(a: real)
    ensures Times(a, 0.0) == 0.0
  {
  }

  // The push is along the line between the two.
  lemma PushCentral(a: Body, b: Body)
    ensures Times(a.at.x - b.at.x, Push(a, b).y) == Times(a.at.y - b.at.y, Push(a, b).x)
  {
    hide Times;
    if Dist(a, b) == 0.0 {
      TimesZero(a.at.x - b.at.x);
      TimesZero(a.at.y - b.at.y);
    } else {
      CrossZero(a.at.x - b.at.x, a.at.y - b.at.y, Dist(a, b), Factor(a, b));
    }
  }

  lemma SquarePositive(v: real)
    ensures Times(v, v) >= 0.0 && (v != 0.0 ==> Times(v, v) > 0.0)
  {
    if v > 0.0 { Positive(v); } else if v < 0.0 { Positive(-v); SameSquare(v); }
  }

  lemma Positive(v: real)
    requires v > 0.0
    ensures Times(v, v) > 0.0
  {
    Signed(v, v);
    assert (v * v) / v == v;
  }

  lemma Shares(p: real, q: real, d: real, f: real)
    requires d != 0.0 && Times(p, p) + Times(q, q) == d
    ensures Times(p, Times(p / d, f)) + Times(q, Times(q / d, f)) == f
  {
    var x, y := p / d, q / d;
    assert p == x * d && q == y * d;
    assert (p * x + q * y) * d == p * p + q * q;
    assert (p * x + q * y - 1.0) * d == 0.0;
    assert p * (x * f) + q * (y * f) == (p * x + q * y) * f;
  }

  // The push is away from the other one, and its size times the distance is
  // the factor, a hundredth of it for lans.
  lemma PushOutward(a: Body, b: Body)
    requires a.at != b.at
    ensures Times(a.at.x - b.at.x, Push(a, b).x) + Times(a.at.y - b.at.y, Push(a, b).y)
         == if a.lan || b.lan then 5.0 else 500.0
    ensures Dist(a, b) > 0.0
  {
    hide Times;
    SquarePositive(a.at.x - b.at.x);
    SquarePositive(a.at.y - b.at.y);
    Shares(a.at.x - b.at.x, a.at.y - b.at.y, Dist(a, b), Factor(a, b));
  }

  // ---- totals over a group

  // The two components of a force, and its turning moment about the origin.
  datatype Measure = AlongX | AlongY | Turning

  function Load(m: Measure, a: Body, force: Point): real {
    match m
    case AlongX => force.x
    case AlongY => force.y
    case Turning => Times(a.at.x, force.y) - Times(a.at.y, force.x)
  }

  lemma LoadPlus(m: Measure, a: Body, f: Point, g: Point)
    ensures Load(m, a, Plus(f, g)) == Load(m, a, f) + Load(m, a, g)
  {
  }

  lemma LoadNothing(m: Measure, a: Body)
    ensures Load(m, a, Point(0.0, 0.0)) == 0.0
  {
  }

  lemma LoadOpposite(m: Measure, a: Body, b: Body)
    ensures Load(m, a, Push(a, b)) == -Load(m, b, Push(b, a))
  {
    hide Push, Dist, Factor, Times;
    PushOpposite(a, b);
    PushCentral(a, b);
    if m.Turning? {
      TurningOpposite(a.at, b.at, Push(a, b));
    }
  }

  lemma TurningOpposite(a: Point, b: Point, f: Point)
    requires Times(a.x - b.x, f.y) == Times(a.y - b.y, f.x)
    ensures Times(a.x, f.y) - Times(a.y, f.x) == -(Times(b.x, -f.y) - Times(b.y, -f.x))
  {
  }

  function Total(m: Measure, bodies: seq<Body>, forces: seq<Point>): real
    requires |bodies| == |forces|
  {
    if bodies == [] then 0.0
    else Total(m, bodies[..|bodies| - 1], forces[..|bodies| - 1])
         + Load(m, bodies[|bodies| - 1], forces[|bodies| - 1])
  }

  // The pushes of all of others on a.
  function PushSum(a: Body, others: seq<Body>): Point {
    if others == [] then Point(0.0, 0.0)
    else Plus(PushSum(a, others[..|others| - 1]), Push(a, others[|others| - 1]))
  }

  // The forces after the pushes of others are added on each of bodies.
  function Pushed(bodies: seq<Body>, forces: seq<Point>, others: seq<Body>): (r: seq<Point>)
    requires |bodies| == |forces|
    ensures |r| == |forces|
  {
    seq(|forces|, i requires 0 <= i < |forces| => Plus(forces[i], PushSum(bodies[i], others)))
  }

  // What one more pusher adds in total is the opposite of what it receives.
  lemma {:induction false} OneMorePusher(m: Measure, bodies: seq<Body>, forces: seq<Point>, others: seq<Body>, b: Body)
    requires |bodies| == |forces|
    ensures Total(m, bodies, Pushed(bodies, forces, others + [b]))
         == Total(m, bodies, Pushed(bodies, forces, others)) - Load(m, b, PushSum(b, bodies))
  {
    hide Load, Push, Plus;
    if bodies == [] {
      LoadNothing(m, b);
    } else {
      var n := |bodies| - 1;
      var a := bodies[n];
      OneMorePusher(m, bodies[..n], forces[..n], others, b);
      PushedInit(bodies, forces, others);
      PushedInit(bodies, forces, others + [b]);
      assert (others + [b])[..|others|] == others;
      LoadPlus(m, a, forces[n], PushSum(a, others + [b]));
      LoadPlus(m, a, PushSum(a, others), Push(a, b));
      LoadPlus(m, a, forces[n], PushSum(a, others));
      LoadPlus(m, b, PushSum(b, bodies[..n]), Push(b, a));
      LoadOpposite(m, a, b);
    }
  }

  lemma PushedInit(bodies: seq<Body>, forces: seq<Point>, others: seq<Body>)
    requires |bodies| == |forces| > 0
    ensures Pushed(bodies, forces, others)[..|bodies| - 1]
         == Pushed(bodies[..|bodies| - 1], forces[..|bodies| - 1], others)
  {
  }

  // Every item pushing every other one adds nothing to the totals.
  lemma {:induction false} NoNetPush(m: Measure, bodies: seq<Body>, forces: seq<Point>)
    requires |bodies| == |forces|
    ensures Total(m, bodies, Pushed(bodies, forces, bodies)) == Total(m, bodies, forces)
  {
    hide Load, Push, Plus;
    if bodies != [] {
      var n := |bodies| - 1;
      var a := bodies[n];
      var front := bodies[..n];
      assert bodies == front + [a];
      PushedInit(bodies, forces, bodies);
      OneMorePusher(m, front, forces[..n], front, a);
      NoNetPush(m, front, forces[..n]);
      LoadPlus(m, a, forces[n], PushSum(a, bodies));
      LoadPlus(m, a, PushSum(a, front), Push(a, a));
      LoadOpposite(m, a, a);
    }
  }

  // ---- the passes over live items

  class Item {
    const kind: Kind
    var position: Point
    var velocity: Point
    var force: Point

    constructor (kind: Kind, position: Point)
      ensures this.kind == kind && this.position == position
      ensures velocity == force == Point(0.0, 0.0)
    {
      this.kind, this.position := kind, position;
      velocity, force := Point(0.0, 0.0), Point(0.0, 0.0);
    }
  }

  function BodyOf(i: Item): Body
    reads i`position
  {
    Body(i.position, i.kind == Lan)
  }

  // A kick of the random tie-break: at most the factor, and never nothing.
  predicate Kick(d: real, factor: real) {
    d != 0.0 && -factor <= d <= factor
  }

  // set_repulse_force.  sx, sy: the random signs; rx, ry: the random sizes.
  method SetRepulseForce(item: Item, cur: Item, frozen: bool, sx: bool, sy: bool, rx: nat, ry: nat)
    requires 1 <= rx <= 200 && 1 <= ry <= 200
    modifies item`force
    ensures frozen ==> item.force == Point(0.0, 0.0)
    ensures !frozen && Dist(BodyOf(item), BodyOf(cur)) != 0.0 ==>
              item.force == Plus(old(item.force), Push(BodyOf(item), BodyOf(cur)))
    ensures !frozen && Dist(BodyOf(item), BodyOf(cur)) == 0.0 ==>
              && Kick(item.force.x - old(item.force).x, Factor(BodyOf(item), BodyOf(cur)))
              && Kick(item.force.y - old(item.force).y, Factor(BodyOf(item), BodyOf(cur)))
  {
    if frozen {
      item.force := Point(0.0, 0.0);
    } else {
      var vx := item.position.x - cur.position.x;
      var vy := item.position.y - cur.position.y;
      var dist := Times(vx, vx) + Times(vy, vy);
      var factor := REPULSE_K;
      if item.kind == Lan || cur.kind == Lan {
        factor := REPULSE_K / 100.0;
      }
      if dist != 0.0 {
        item.force := Point(item.force.x + Times(vx / dist, factor), item.force.y + Times(vy / dist, factor));
      } else {
        var negx := if sx then -1.0 else 1.0;
        var negy := if sy then -1.0 else 1.0;
        item.force := Point(item.force.x + negx * factor * (rx as real) / 200.0,
                            item.force.y + negy * factor * (ry as real) / 200.0);
      }
    }
  }

  function Bodies(group: seq<Item>): (r: seq<Body>)
    reads group`position
    ensures |r| == |group| && forall i :: 0 <= i < |group| ==> r[i] == BodyOf(group[i])
  {
    if group == [] then [] else [BodyOf(group[0])] + Bodies(group[1..])
  }

  function Forces(group: seq<Item>): (r: seq<Point>)
    reads group`force
    ensures |r| == |group| && forall i :: 0 <= i < |group| ==> r[i] == group[i].force
  {
    if group == [] then [] else [group[0].force] + Forces(group[1..])
  }

  // No two members coincide.
  ghost predicate Apart(group: seq<Item>)
    reads group`position
  {
    forall i, j :: 0 <= i < |group| && 0 <= j < |group| && group[i] != group[j] ==>
                     Dist(BodyOf(group[i]), BodyOf(group[j])) != 0.0
  }

  lemma NoSelfPush(a: Body, f: Point)
    ensures Plus(f, Push(a, a)) == f
  {
    assert a.at.x - a.at.x == 0.0;
  }

  lemma PlusMore(f: Point, g: Point, h: Point)
    ensures Plus(Plus(f, g), h) == Plus(f, Plus(g, h))
  {
  }

  // Another member than the i-th.
  ghost predicate Accompanied(group: seq<Item>, i: nat)
    requires i < |group|
  {
    exists j :: 0 <= j < |group| && group[j] != group[i]
  }

  lemma HasCompany(group: seq<Item>, i: nat)
    requires i < |group|
    ensures Accompanied(group, i) <==> exists k :: 0 <= k < |group| && group[k] != group[i]
  {
  }

  // repulsion_force_item: the pushes of the whole group on its i-th member.
  method RepulsionForceItem(group: seq<Item>, i: nat, frozen: bool)
    requires i < |group|
    modifies {group[i]}`force
    ensures frozen && Accompanied(group, i) ==> group[i].force == Point(0.0, 0.0)
    ensures frozen && !Accompanied(group, i) ==> group[i].force == old(group[i].force)
    ensures !frozen && Apart(group) ==>
              group[i].force == Plus(old(group[i].force), PushSum(BodyOf(group[i]), Bodies(group)))
  {
    hide Push, Plus, Dist, Factor, Bodies, Accompanied;
    var item := group[i];
    ghost var bodies := Bodies(group);
    assert !frozen ==> item.force == Plus(item.force, PushSum(BodyOf(item), bodies[..0])) by {
      PlusNothing(item.force);
    }
    var j := 0;
    while j < |group|
      invariant j <= |group|
      invariant frozen && (exists k :: 0 <= k < j && group[k] != item) ==> item.force == Point(0.0, 0.0)
      invariant frozen && (forall k :: 0 <= k < j ==> group[k] == item) ==> item.force == old(item.force)
      invariant !frozen && Apart(group) ==>
                  item.force == Plus(old(item.force), PushSum(BodyOf(item), bodies[..j]))
    {
      var cur := group[j];
      assert bodies[..j + 1][..j] == bodies[..j] && bodies[j] == BodyOf(cur);
      PlusMore(old(item.force), PushSum(BodyOf(item), bodies[..j]), Push(BodyOf(item), BodyOf(cur)));
      if item != cur {
        var sx, sy := *, *;
        var rx: nat, ry: nat :| 1 <= rx <= 200 && 1 <= ry <= 200;
        SetRepulseForce(item, cur, frozen, sx, sy, rx, ry);
      } else {
        NoSelfPush(BodyOf(item), item.force);
      }
      j := j + 1;
    }
    assert bodies[..j] == bodies;
    HasCompany(group, i);
  }

  lemma PlusNothing(f: Point)
    ensures f == Plus(f, Point(0.0, 0.0))
  {
  }

  lemma NoNetPushes(bodies: seq<Body>, forces: seq<Point>)
    requires |bodies| == |forces|
    ensures forall m :: Total(m, bodies, Pushed(bodies, forces, bodies)) == Total(m, bodies, forces)
  {
    forall m ensures Total(m, bodies, Pushed(bodies, forces, bodies)) == Total(m, bodies, forces) {
      NoNetPush(m, bodies, forces);
    }
  }

  lemma AllPushed(bodies: seq<Body>, before: seq<Point>, after: seq<Point>)
    requires |bodies| == |before| == |after|
    requires forall k :: 0 <= k < |after| ==> after[k] == Plus(before[k], PushSum(bodies[k], bodies))
    ensures after == Pushed(bodies, before, bodies)
  {
  }

  lemma Company(group: seq<Item>, i: nat)
    requires Distinct(group) && i < |group|
    ensures |group| > 1 ==> Accompanied(group, i)
    ensures forall k :: 0 <= k < |group| && k != i ==> group[k] != group[i]
  {
    if |group| > 1 {
      assert group[if i == 0 then 1 else 0] != group[i];
    }
  }

  // The group pass of move_manager_single_step.  It moves nothing, and unless
  // members coincide it adds no net force and no net turning moment to the
  // group.
  method RepulsionPass(group: seq<Item>, frozen: bool)
    requires Distinct(group)
    modifies group`force
    ensures frozen && |group| > 1 ==> forall i :: 0 <= i < |group| ==> group[i].force == Point(0.0, 0.0)
    ensures !frozen && Apart(group) ==> Forces(group) == Pushed(Bodies(group), old(Forces(group)), Bodies(group))
    ensures !frozen && Apart(group) ==>
              forall m :: Total(m, Bodies(group), Forces(group)) == Total(m, Bodies(group), old(Forces(group)))
  {
    hide Push, Plus, Dist, Factor, PushSum, Total, Apart, Accompanied, Pushed, Bodies, Forces, BodyOf, Distinct;
    ghost var bodies := Bodies(group);
    ghost var before := Forces(group);
    var i := 0;
    while i < |group|
      invariant i <= |group| && Bodies(group) == bodies
      invariant forall k :: i <= k < |group| ==> group[k].force == before[k]
      invariant frozen && |group| > 1 ==> forall k :: 0 <= k < i ==> group[k].force == Point(0.0, 0.0)
      invariant !frozen && Apart(group) ==>
                  forall k :: 0 <= k < i ==> group[k].force == Plus(before[k], PushSum(bodies[k], bodies))
    {
      Company(group, i);
      RepulsionForceItem(group, i, frozen);
      i := i + 1;
    }
    if !frozen && Apart(group) {
      AllPushed(bodies, before, Forces(group));
      NoNetPushes(bodies, before);
    }
  }

  // ---- from force to movement

  // accel_control
  function AccelControl(accel: real): (r: real)
    ensures -MAX_ACCEL <= r <= MAX_ACCEL
    ensures -MAX_ACCEL <= accel <= MAX_ACCEL ==> r == accel
    ensures accel * r >= 0.0
  {
    if accel > MAX_ACCEL then MAX_ACCEL else if accel < -MAX_ACCEL then -MAX_ACCEL else accel
  }

  // The speeds an item can have after a step.
  predicate Steady(v: real) {
    -MAX_SPEED <= v <= -MIN_SPEED || v == 0.0 || MIN_SPEED <= v <= MAX_SPEED
  }

  // speed_control
  function SpeedControl(speed: real): (r: real)
    ensures Steady(r)
    ensures Steady(speed) ==> r == speed
    ensures r == 0.0 <==> -MIN_SPEED < speed < MIN_SPEED
  {
    if speed > MAX_SPEED then MAX_SPEED
    else if speed < -MAX_SPEED then -MAX_SPEED
    else if 0.0 < speed < MIN_SPEED then 0.0
    else if -MIN_SPEED < speed < 0.0 then 0.0
    else speed
  }

  // get_object_mass
  function Mass(kind: Kind): real {
    match kind
    case Node => 20.0
    case Sat => 5.0
    case Lan => 2.0
  }

  // One axis of move_single_step: the speed after a step under a force.
  function NextSpeed(kind: Kind, v: real, force: real): (r: real)
    ensures Steady(r)
  {
    var braked := force - v * FRICTION;
    var felt := if kind == Lan then braked / 5.0 else braked;
    SpeedControl(v + AccelControl(felt / Mass(kind)))
  }

  // move_single_step.  mayMove: authorized_to_move, neither the item nor what
  // it is tied to is grabbed.
  method MoveSingleStep(item: Item, mayMove: bool)
    modifies item`force, item`velocity, item`position
    ensures item.force == Point(0.0, 0.0)
    ensures item.velocity == Point(NextSpeed(item.kind, old(item.velocity.x), old(item.force.x)),
                                   NextSpeed(item.kind, old(item.velocity.y), old(item.force.y)))
    ensures item.position == if mayMove then Plus(old(item.position), item.velocity) else old(item.position)
  {
    var fx := item.force.x - item.velocity.x * FRICTION;
    var fy := item.force.y - item.velocity.y * FRICTION;
    if item.kind == Lan {
      fx, fy := fx / 5.0, fy / 5.0;
    }
    var ax, ay := AccelControl(fx / Mass(item.kind)), AccelControl(fy / Mass(item.kind));
    item.velocity := Point(SpeedControl(item.velocity.x + ax), SpeedControl(item.velocity.y + ay));
    if mayMove {
      item.position := Plus(item.position, item.velocity);
    }
    item.force := Point(0.0, 0.0);
  }

  // The least force that sets a resting item in motion.
  lemma RestIffWeak(kind: Kind, force: real)
    ensures NextSpeed(kind, 0.0, force) == 0.0 <==>
            match kind case Node => -6.0 < force < 6.0 case Sat => -1.5 < force < 1.5 case Lan => -3.0 < force < 3.0
  {
    assert force - 0.0 * FRICTION == force;
    match kind
    case Node => assert NextSpeed(kind, 0.0, force) == SpeedControl(AccelControl(force / 20.0));
    case Sat => assert NextSpeed(kind, 0.0, force) == SpeedControl(AccelControl(force / 5.0));
    case Lan => assert NextSpeed(kind, 0.0, force) == SpeedControl(AccelControl(force / 5.0 / 2.0));
  }

  // A stronger force never gives a lower speed.
  lemma SpeedMonotone(kind: Kind, v: real, f: real, g: real)
    requires f <= g
    ensures NextSpeed(kind, v, f) <= NextSpeed(kind, v, g)
  {
    hide AccelControl, SpeedControl;
    var d := v * FRICTION;
    Lighter(kind, f - d, g - d);
    var x := (if kind == Lan then (f - d) / 5.0 else f - d) / Mass(kind);
    var y := (if kind == Lan then (g - d) / 5.0 else g - d) / Mass(kind);
    AccelMonotone(x, y);
    ControlMonotone(v + AccelControl(x), v + AccelControl(y));
  }

  lemma Lighter(kind: Kind, f: real, g: real)
    requires f <= g
    ensures (if kind == Lan then f / 5.0 else f) / Mass(kind) <= (if kind == Lan then g / 5.0 else g) / Mass(kind)
  {
  }

  lemma AccelMonotone(a: real, b: real)
    requires a <= b
    ensures AccelControl(a) <= AccelControl(b)
  {
  }

  lemma ControlMonotone(a: real, b: real)
    requires a <= b
    ensures SpeedControl(a) <= SpeedControl(b)
  {
  }

  // An item at rest moves the way it is pushed, if at all, and a speed under
  // three times itself as force stays as it is.
  lemma SpeedFollows(kind: Kind, v: real, force: real)
    ensures force >= 0.0 ==> NextSpeed(kind, 0.0, force) >= 0.0
    ensures force <= 0.0 ==> NextSpeed(kind, 0.0, force) <= 0.0
    ensures Steady(v) ==> NextSpeed(kind, v, 3.0 * v) == v
  {
    hide NextSpeed;
    RestIffWeak(kind, 0.0);
    if force >= 0.0 { SpeedMonotone(kind, 0.0, 0.0, force); } else { SpeedMonotone(kind, 0.0, force, 0.0); }
    Balanced(kind, v);
  }

  lemma Balanced(kind: Kind, v: real)
    ensures Steady(v) ==> NextSpeed(kind, v, 3.0 * v) == v
  {
    assert 3.0 * v - v * FRICTION == 0.0;
    assert 0.0 / Mass(kind) == 0.0;
  }

  // Without a force an item slows down, by a fixed amount while fast and by a
  // part of its speed below, and never turns back.
  lemma Slows(kind: Kind, v: real)
    requires Steady(v)
    ensures var r := NextSpeed(kind, v, 0.0);
            && (v == 0.0 ==> r == 0.0)
            && (v > 0.0 ==> 0.0 <= r <= Slower(v))
            && (v < 0.0 ==> -Slower(-v) <= r <= 0.0)
  {
    match kind
    case Node => assert NextSpeed(kind, v, 0.0) == SpeedControl(v + AccelControl(v * -0.15));
    case Sat => assert NextSpeed(kind, v, 0.0) == SpeedControl(v + AccelControl(v * -0.6));
    case Lan => assert NextSpeed(kind, v, 0.0) == SpeedControl(v + AccelControl(v * -0.3));
  }

  // At most this is left of a speed after a step.
  function Slower(v: real): real {
    if v > 20.0 then v - MAX_ACCEL else v * 0.85
  }

  // At most this is left of any speed after n steps.
  function Left(n: nat): real {
    if n == 0 then MAX_SPEED
    else if n <= 4 then MAX_SPEED - MAX_ACCEL * n as real
    else Left(n - 1) * 0.85
  }

  lemma LeftStep(n: nat, v: real)
    requires 0.0 <= v <= Left(n)
    ensures Slower(v) <= Left(n + 1)
  {
    assert n <= 4 ==> Left(n) == MAX_SPEED - MAX_ACCEL * n as real;
    if n >= 4 {
      LeftSmall(n);
    }
  }

  lemma {:induction false} LeftSmall(n: nat)
    requires n >= 4
    ensures 0.0 <= Left(n) <= 18.0
  {
    if n > 4 {
      LeftSmall(n - 1);
    }
  }

  lemma LeftLittle()
    ensures Left(30) < MIN_SPEED
  {
    assert Left(4) == 18.0;
    assert Left(8) <= 9.4;
    assert Left(12) <= 4.91;
    assert Left(16) <= 2.57;
    assert Left(20) <= 1.35;
    assert Left(24) <= 0.71;
    assert Left(28) <= 0.38;
  }

  // The speed after n steps without a force.
  function Coast(kind: Kind, v: real, n: nat): real {
    if n == 0 then v else NextSpeed(kind, Coast(kind, v, n - 1), 0.0)
  }

  lemma {:induction false} CoastLeft(kind: Kind, v: real, n: nat)
    requires Steady(v)
    ensures Steady(Coast(kind, v, n)) && -Left(n) <= Coast(kind, v, n) <= Left(n)
  {
    hide NextSpeed, Slower;
    if n == 0 {
      assert Left(0) == MAX_SPEED;
    } else {
      CoastLeft(kind, v, n - 1);
      var u := Coast(kind, v, n - 1);
      Slows(kind, u);
      LeftStep(n - 1, if u < 0.0 then -u else u);
    }
  }

  // An item that no force acts on comes to rest within 30 steps, whatever its
  // kind and its speed, and stays there.
  lemma {:induction false} ComesToRest(kind: Kind, v: real, n: nat)
    requires Steady(v) && n >= 30
    ensures Coast(kind, v, n) == 0.0
  {
    hide NextSpeed, Left;
    if n == 30 {
      CoastLeft(kind, v, n);
      LeftLittle();
    } else {
      ComesToRest(kind, v, n - 1);
      Slows(kind, 0.0);
    }
  }
}
