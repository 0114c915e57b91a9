// Keeping the server informed of where items are: a cache of the layouts last
// sent or received, compared every second with the live positions.  Lans and
// satellites have a list and a static buffer each, treated alike; this is one
// of the two.
module LayoutSync {
  import opened Sequences
  import opened Affine
  import opened Viewport

  // ends: xa, ya, xb, yb of a satellite, zeros for a lan
  datatype Layout = Layout(name: string, pos: Point, endA: Point, endB: Point, hidden: bool)

  // A displayed item: its matrix places its anchor.
  datatype Item = Item(name: string, matrix: Matrix, anchor: Point, hidden: bool)

  const ORIGIN := Point(0.0, 0.0)

  function Position(i: Item): Point {
    Apply(i.matrix, i.anchor)
  }

  // make_layout_lan; make_layout_sat for an item that is not an a2b
  function LayoutOf(i: Item): Layout {
    Layout(i.name, Position(i), ORIGIN, ORIGIN, i.hidden)
  }

  function Moved(i: Item, d: Point): Item {
    i.(matrix := Translate(i.matrix, d))
  }

  // Items are placed by translations only.
  predicate Placed(i: Item) {
    i.matrix.xx == i.matrix.yy == 1.0 && i.matrix.yx == i.matrix.xy == 0.0
  }

  lemma MovedPosition(i: Item, d: Point)
    requires Placed(i)
    ensures Position(Moved(i, d)) == Plus(Position(i), d) && Placed(Moved(i, d))
  {
    hide Apply, Mul;
    TranslateShifts(i.matrix, d, i.anchor);
    ApplyPlus(i.matrix, i.anchor, d);
    UnitDistance(i.matrix, d);
    TranslateLinear(i.matrix, d);
  }

  lemma UnitDistance(m: Matrix, d: Point)
    requires m.xx == m.yy == 1.0 && m.yx == m.xy == 0.0
    ensures Distance(m, d) == d
  {
  }

  predicate Far(a: Point, b: Point) {
    a.x - b.x > 1.0 || b.x - a.x > 1.0 || a.y - b.y > 1.0 || b.y - a.y > 1.0
  }

  // diff_lan, diff_sat
  predicate Differs(cached: Layout, live: Layout) {
    Far(cached.pos, live.pos) || Far(cached.endA, live.endA) || Far(cached.endB, live.endB)
    || cached.hidden != live.hidden
  }

  function Find(cache: seq<Layout>, name: string): nat {
    if cache == [] || cache[0].name == name then 0 else 1 + Find(cache[1..], name)
  }

  function FindItem(items: seq<Item>, name: string): nat {
    if items == [] || items[0].name == name then 0 else 1 + FindItem(items[1..], name)
  }

  ghost predicate OnePerName(cache: seq<Layout>) {
    forall i, j :: 0 <= i < j < |cache| ==> cache[i].name != cache[j].name
  }

  ghost predicate ItemsOk(items: seq<Item>) {
    && (forall i, j :: 0 <= i < j < |items| ==> items[i].name != items[j].name)
    && (forall i :: 0 <= i < |items| ==> Placed(items[i]))
  }

  lemma {:induction false} FindIs(cache: seq<Layout>, name: string)
    ensures var k := Find(cache, name);
            && k <= |cache| && (k < |cache| ==> cache[k].name == name)
            && forall i :: 0 <= i < k ==> cache[i].name != name
  {
    if cache != [] && cache[0].name != name {
      FindIs(cache[1..], name);
      assert forall i :: 0 < i < Find(cache, name) ==> cache[i] == cache[1..][i - 1];
    }
  }

  lemma {:induction false} FindItemIs(items: seq<Item>, name: string)
    ensures var k := FindItem(items, name);
            && k <= |items| && (k < |items| ==> items[k].name == name)
            && forall i :: 0 <= i < k ==> items[i].name != name
  {
    if items != [] && items[0].name != name {
      FindItemIs(items[1..], name);
      assert forall i :: 0 < i < FindItem(items, name) ==> items[i] == items[1..][i - 1];
    }
  }

  // The cache after a layout is taken up: newest first, one per name.
  function Taken(cache: seq<Layout>, l: Layout): seq<Layout> {
    var k := Find(cache, l.name);
    FindIs(cache, l.name);
    [l] + (if k < |cache| then Drop(cache, k) else cache)
  }

  lemma WithoutMembers(cache: seq<Layout>, k: nat)
    requires OnePerName(cache) && k < |cache|
    ensures OnePerName(Drop(cache, k))
    ensures forall x :: x in Drop(cache, k) <==> x in cache && x.name != cache[k].name
  {
    var w := Drop(cache, k);
    forall x | x in cache && x.name != cache[k].name
      ensures x in w
    {
      var i :| 0 <= i < |cache| && cache[i] == x;
      assert w[if i < k then i else i - 1] == x;
    }
    forall i | 0 <= i < |w|
      ensures w[i] == cache[if i < k then i else i + 1]
    {
    }
  }

  lemma TakenOk(cache: seq<Layout>, l: Layout)
    requires OnePerName(cache)
    ensures OnePerName(Taken(cache, l))
    ensures forall x :: x in Taken(cache, l) <==> x == l || (x in cache && x.name != l.name)
  {
    hide Drop;
    var k := Find(cache, l.name);
    FindIs(cache, l.name);
    if k < |cache| {
      WithoutMembers(cache, k);
    }
  }

  // The server's picture of a live layout is within the tolerance.
  ghost predicate InSync(cache: seq<Layout>, live: Layout) {
    exists l :: l in cache && l.name == live.name && !Differs(l, live)
  }

  // Both end points are within one unit of the origin on each axis.
  predicate NearEnds(l: Layout) {
    && -1.0 <= l.endA.x <= 1.0 && -1.0 <= l.endA.y <= 1.0
    && -1.0 <= l.endB.x <= 1.0 && -1.0 <= l.endB.y <= 1.0
  }

  // The same in coordinates, for an item as displayed.
  ghost predicate Pictured(cache: seq<Layout>, i: Item) {
    exists l :: l in cache && l.name == i.name && l.hidden == i.hidden && NearEnds(l)
             && -1.0 <= l.pos.x - Apply(i.matrix, i.anchor).x <= 1.0
             && -1.0 <= l.pos.y - Apply(i.matrix, i.anchor).y <= 1.0
  }

  lemma PicturedIs(cache: seq<Layout>, i: Item)
    ensures Pictured(cache, i) <==> InSync(cache, LayoutOf(i))
  {
    hide Apply;
    forall l: Layout
      ensures l.name == i.name && !Differs(l, LayoutOf(i)) <==>
              l.name == i.name && l.hidden == i.hidden && NearEnds(l)
              && -1.0 <= l.pos.x - Apply(i.matrix, i.anchor).x <= 1.0
              && -1.0 <= l.pos.y - Apply(i.matrix, i.anchor).y <= 1.0
    {
    }
  }

  // b is displayed where a is.
  predicate SameDisplay(a: Item, b: Item) {
    b.name == a.name && b.hidden == a.hidden && Apply(b.matrix, b.anchor) == Apply(a.matrix, a.anchor)
  }

  // What the code tests: the first cached record of the name.
  lemma InSyncTest(cache: seq<Layout>, live: Layout)
    requires OnePerName(cache)
    ensures var k := Find(cache, live.name);
            InSync(cache, live) <==> k < |cache| && !Differs(cache[k], live)
  {
    FindIs(cache, live.name);
    var k := Find(cache, live.name);
    if InSync(cache, live) {
      var l :| l in cache && l.name == live.name && !Differs(l, live);
      var i :| 0 <= i < |cache| && cache[i] == l;
      assert i == k;
    }
  }

  lemma NotDifferent(l: Layout)
    ensures !Differs(l, l)
  {
  }

  // Taking up one layout leaves the others as they are.
  lemma TakenInSync(cache: seq<Layout>, l: Layout, live: Layout)
    requires OnePerName(cache)
    ensures l.name != live.name ==> (InSync(Taken(cache, l), live) <==> InSync(cache, live))
    ensures l.name == live.name ==> (InSync(Taken(cache, l), live) <==> !Differs(l, live))
  {
    hide Taken, Differs;
    TakenOk(cache, l);
  }

  // ----- taking up a layout --------------------------------------------------------

  // The argument of add_layout: the static buffer itself, or a message.
  datatype Arg = Buffer | Message(layout: Layout)

  // The item after add_layout: its own layout is put in the buffer first,
  // which is the argument's memory when the argument is the buffer.
  function Adjusted(i: Item, a: Arg): Item {
    var live := LayoutOf(i);
    var l := if a.Buffer? then live else a.layout;
    Moved(i, Minus(l.pos, live.pos)).(hidden := l.hidden)
  }

  // An item is moved only if it was cached before.
  function AddedItems(cache: seq<Layout>, items: seq<Item>, name: string, a: Arg): seq<Item> {
    var k := FindItem(items, name);
    if Find(cache, name) < |cache| && k < |items| then items[k := Adjusted(items[k], a)] else items
  }

  lemma AdjustedLayout(i: Item, a: Arg)
    requires Placed(i)
    ensures Placed(Adjusted(i, a)) && Adjusted(i, a).name == i.name
    ensures a.Buffer? ==> LayoutOf(Adjusted(i, a)) == LayoutOf(i)
    ensures a.Message? ==> LayoutOf(Adjusted(i, a)) == Layout(i.name, a.layout.pos, ORIGIN, ORIGIN, a.layout.hidden)
  {
    hide Apply, Mul;
    var live := LayoutOf(i);
    var l := if a.Buffer? then live else a.layout;
    MovedPosition(i, Minus(l.pos, live.pos));
  }

  lemma AddedItemsOk(cache: seq<Layout>, items: seq<Item>, name: string, a: Arg)
    requires ItemsOk(items)
    ensures var r := AddedItems(cache, items, name, a); var k := FindItem(items, name);
            && ItemsOk(r) && |r| == |items|
            && (forall i :: 0 <= i < |r| && i != k ==> r[i] == items[i])
            && (a.Buffer? ==> forall i :: 0 <= i < |r| ==> LayoutOf(r[i]) == LayoutOf(items[i]))
            && (a.Message? && k < |items| && Find(cache, name) < |cache| ==>
                  LayoutOf(r[k]) == Layout(items[k].name, a.layout.pos, ORIGIN, ORIGIN, a.layout.hidden))
  {
    hide Adjusted, Position;
    FindItemIs(items, name);
    var k := FindItem(items, name);
    if k < |items| {
      AdjustedLayout(items[k], a);
    }
  }

  // A message for a cached item puts the item exactly where it says, and the
  // next pass does not send it back, unless the message carries end points
  // that such an item does not have.
  lemma NoEcho(cache: seq<Layout>, items: seq<Item>, l: Layout)
    requires OnePerName(cache) && ItemsOk(items) && FindItem(items, l.name) < |items|
    ensures var r := AddedItems(cache, items, l.name, Message(l)); var k := FindItem(items, l.name);
            && |r| == |items| && r[k].name == l.name
            && (Find(cache, l.name) < |cache| ==>
                  && Position(r[k]) == l.pos && r[k].hidden == l.hidden
                  && (Pictured(Taken(cache, l), r[k]) <==> NearEnds(l)))
            && (Find(cache, l.name) == |cache| ==>
                  && r == items
                  && (Pictured(Taken(cache, l), r[k]) <==> Pictured([l], items[k])))
  {
    hide Adjusted, Taken, Apply, InSync, Pictured, Differs, NearEnds;
    var r := AddedItems(cache, items, l.name, Message(l));
    var k := FindItem(items, l.name);
    FindItemIs(items, l.name);
    FindIs(cache, l.name);
    AddedItemsOk(cache, items, l.name, Message(l));
    TakenInSync(cache, l, LayoutOf(r[k]));
    PicturedIs(Taken(cache, l), r[k]);
    PicturedIs([l], r[k]);
    AloneInSync(l, LayoutOf(r[k]));
    if Find(cache, l.name) < |cache| { NearEndsIs(l, LayoutOf(r[k])); }
  }

  lemma AloneInSync(l: Layout, live: Layout)
    requires l.name == live.name
    ensures InSync([l], live) <==> !Differs(l, live)
  {
    hide Differs;
    assert l in [l];
  }

  lemma NearEndsIs(l: Layout, live: Layout)
    requires live.pos == l.pos && live.hidden == l.hidden && live.endA == live.endB == ORIGIN
    ensures !Differs(l, live) <==> NearEnds(l)
  {
  }

  // A peer that runs the same program sends no end points for such an item, so
  // its messages are not sent back.
  lemma PeerNotEchoed(cache: seq<Layout>, items: seq<Item>, peer: Item)
    requires OnePerName(cache) && ItemsOk(items) && FindItem(items, peer.name) < |items|
    requires Find(cache, peer.name) < |cache|
    ensures var l := LayoutOf(peer); var r := AddedItems(cache, items, l.name, Message(l));
            var k := FindItem(items, l.name);
            |r| == |items| && Pictured(Taken(cache, l), r[k])
  {
    hide Taken, Pictured, Position, AddedItems, Find, FindItem, Differs, ItemsOk, OnePerName;
    NoEcho(cache, items, LayoutOf(peer));
  }

  // A message with an end point five units away, for an item in place: the
  // next pass would send the item.
  lemma FarEndEchoed()
    ensures var o := Layout("s", ORIGIN, ORIGIN, ORIGIN, false); var l := o.(endA := Point(5.0, 0.0));
            var items := [Item("s", IDENTITY, ORIGIN, false)];
            var r := AddedItems([o], items, "s", Message(l));
            |r| == 1 && !Pictured(Taken([o], l), r[0])
  {
    hide Taken, Pictured, Adjusted;
    var o := Layout("s", ORIGIN, ORIGIN, ORIGIN, false);
    var l := o.(endA := Point(5.0, 0.0));
    var items := [Item("s", IDENTITY, ORIGIN, false)];
    assert FindItem(items, "s") == 0 && Find([o], "s") == 0;
    NoEcho([o], items, l);
  }

  // ----- a pass ---------------------------------------------------------------------

  // The layouts a pass sends: those of the items without such a picture.
  ghost function Unsynced(cache: seq<Layout>, items: seq<Item>): seq<Layout> {
    if items == [] then []
    else Unsynced(cache, items[..|items| - 1]) + ToSend(cache, items[|items| - 1])
  }

  ghost function ToSend(cache: seq<Layout>, i: Item): seq<Layout> {
    if Pictured(cache, i) then []
    else [Layout(i.name, Apply(i.matrix, i.anchor), Point(0.0, 0.0), Point(0.0, 0.0), i.hidden)]
  }

  lemma {:induction false} NothingUnsynced(cache: seq<Layout>, items: seq<Item>)
    requires forall i :: 0 <= i < |items| ==> Pictured(cache, items[i])
    ensures Unsynced(cache, items) == []
  {
    hide Pictured;
    if items != [] {
      NothingUnsynced(cache, items[..|items| - 1]);
    }
  }

  ghost predicate Mentions(ls: seq<Layout>, name: string) {
    exists i :: 0 <= i < |ls| && ls[i].name == name
  }

  ghost predicate Stale(cache: seq<Layout>, items: seq<Item>, name: string) {
    exists i :: 0 <= i < |items| && items[i].name == name && !Pictured(cache, items[i])
  }

  // A pass sends a name exactly when an item of that name is out of sync.
  lemma {:induction false} UnsyncedNames(cache: seq<Layout>, items: seq<Item>, name: string)
    ensures Mentions(Unsynced(cache, items), name) <==> Stale(cache, items, name)
  {
    hide Pictured, Apply, Mentions, Stale;
    if items == [] {
      assert !Mentions([], name) && !Stale(cache, [], name) by { NothingStale(cache, name); }
    } else {
      var last := |items| - 1;
      var out := ToSend(cache, items[last]);
      UnsyncedNames(cache, items[..last], name);
      MentionsPlus(Unsynced(cache, items[..last]), out, name);
      StaleSnoc(cache, items, name);
      if out != [] { MentionsOne(out[0], name); }
      NothingStale(cache, name);
    }
  }

  lemma NothingStale(cache: seq<Layout>, name: string)
    ensures !Mentions([], name) && !Stale(cache, [], name)
  {
  }

  lemma MentionsOne(l: Layout, name: string)
    ensures Mentions([l], name) <==> l.name == name
  {
    if l.name == name { assert [l][0].name == name; }
  }

  lemma StaleSnoc(cache: seq<Layout>, items: seq<Item>, name: string)
    requires items != []
    ensures var last := |items| - 1;
            Stale(cache, items, name) <==>
            Stale(cache, items[..last], name) || (items[last].name == name && !Pictured(cache, items[last]))
  {
    hide Pictured;
    var last := |items| - 1;
    if Stale(cache, items[..last], name) {
      var i :| 0 <= i < last && items[..last][i].name == name && !Pictured(cache, items[..last][i]);
      assert items[i].name == name && !Pictured(cache, items[i]);
    }
    if Stale(cache, items, name) {
      var i :| 0 <= i < |items| && items[i].name == name && !Pictured(cache, items[i]);
      if i < last { assert items[..last][i].name == name; }
    }
  }

  lemma StaleOne(cache: seq<Layout>, items: seq<Item>, k: nat)
    requires ItemsOk(items) && k < |items|
    ensures Stale(cache, items, items[k].name) <==> !Pictured(cache, items[k])
  {
    hide Pictured;
  }

  lemma MentionsPlus(a: seq<Layout>, b: seq<Layout>, name: string)
    ensures Mentions(a + b, name) <==> Mentions(a, name) || Mentions(b, name)
  {
    if Mentions(a, name) {
      var i :| 0 <= i < |a| && a[i].name == name;
      assert (a + b)[i].name == name;
    }
    if Mentions(b, name) {
      var i :| 0 <= i < |b| && b[i].name == name;
      assert (a + b)[|a| + i].name == name;
    }
  }

  class SyncList {
    var cache: seq<Layout>       // glob_layout_xml->lan_xml, newest first
    var items: seq<Item>         // the live items, in global order
    var buffer: Layout           // the static buffer of make_layout
    var sent: seq<Layout>        // layouts sent to the server, in order

    ghost predicate Valid()
      reads this
    {
      OnePerName(cache) && ItemsOk(items)
    }

    constructor (items: seq<Item>)
      requires ItemsOk(items)
      ensures Valid() && cache == [] && this.items == items && sent == []
    {
      cache, sent := [], [];
      buffer := Layout("", ORIGIN, ORIGIN, ORIGIN, false);
      this.items := items;
    }

    function Read(a: Arg): Layout
      reads this
    {
      if a.Buffer? then buffer else a.layout
    }

    method MakeLayout(i: Item)
      modifies `buffer
      ensures buffer == LayoutOf(i)
    {
      buffer := LayoutOf(i);
    }

    method FindCached(name: string) returns (k: nat)
      ensures k == Find(cache, name)
    {
      k := 0;
      while k < |cache| && cache[k].name != name
        invariant k <= |cache| && Find(cache, name) == k + Find(cache[k..], name)
      {
        assert cache[k..][1..] == cache[k + 1..];
        k := k + 1;
      }
    }

    method LookFor(name: string) returns (k: nat)
      ensures k == FindItem(items, name)
    {
      k := 0;
      while k < |items| && items[k].name != name
        invariant k <= |items| && FindItem(items, name) == k + FindItem(items[k..], name)
      {
        assert items[k..][1..] == items[k + 1..];
        k := k + 1;
      }
    }

    // add_layout: the record is copied before the buffer is filled again.
    method AddLayout(a: Arg)
      requires Valid()
      modifies `cache, `items, `buffer
      ensures Valid()
      ensures cache == Taken(old(cache), old(Read(a)))
      ensures items == AddedItems(old(cache), old(items), old(Read(a)).name, a)
      ensures var k := FindItem(old(items), old(Read(a)).name);
              buffer == if Find(old(cache), old(Read(a)).name) < |old(cache)| && k < |old(items)|
                        then LayoutOf(old(items)[k]) else old(buffer)
    {
      hide Position, Moved;
      var xml := Read(a);
      var name := xml.name;
      var k := FindCached(name);
      FindIs(cache, name);
      TakenOk(cache, xml);
      FindItemIs(items, name);
      AddedItemsOk(cache, items, name, a);
      if k < |cache| {
        var j := LookFor(name);
        if j < |items| {
          MakeLayout(items[j]);
          var d := Minus(Read(a).pos, buffer.pos);
          items := items[j := Moved(items[j], d).(hidden := Read(a).hidden)];
        }
        cache := Drop(cache, k);
      }
      cache := [xml] + cache;
    }

    // recv_layout_lan, recv_layout_sat
    method Receive(l: Layout)
      requires Valid()
      modifies `cache, `items, `buffer
      ensures Valid() && cache == Taken(old(cache), l)
      ensures items == AddedItems(old(cache), old(items), l.name, Message(l))
    {
      AddLayout(Message(l));
    }

    // layout_send_layout_lan, layout_send_layout_sat, on the static buffer
    method SendBuffer()
      requires Valid() && FindItem(items, buffer.name) < |items|
      requires buffer == LayoutOf(items[FindItem(items, buffer.name)])
      modifies this
      ensures Valid() && cache == Taken(old(cache), old(buffer)) && sent == old(sent) + [old(buffer)]
      ensures |items| == |old(items)| && forall i :: 0 <= i < |items| ==> LayoutOf(items[i]) == LayoutOf(old(items)[i])
    {
      hide Position, Taken, Adjusted;
      FindItemIs(items, buffer.name);
      AddedItemsOk(cache, items, buffer.name, Buffer);
      AddLayout(Buffer);
      sent := sent + [buffer];
    }

    // One turn of timer_synchro: the i-th item is sent when the server's
    // picture of it is out of tolerance; no other picture changes.
    method SyncOne(i: nat)
      requires Valid() && i < |items|
      modifies this
      ensures Valid() && |items| == |old(items)|
      ensures forall j :: 0 <= j < |items| ==> SameDisplay(old(items)[j], items[j])
      ensures Pictured(cache, items[i])
      ensures forall j :: 0 <= j < |items| && j != i ==> (Pictured(cache, items[j]) <==> Pictured(old(cache), old(items)[j]))
      ensures sent == old(sent) + ToSend(old(cache), old(items)[i])
    {
      hide Apply, Taken, InSync, Differs, Pictured, SameDisplay;
      ghost var live := LayoutOf(items[i]);
      ghost var cache0, items0 := cache, items;
      PicturedAll(cache, items);
      var name := items[i].name;
      var k := FindCached(name);
      FindIs(cache, name);
      InSyncTest(cache, live);
      MakeLayout(items[i]);
      if k == |cache| || Differs(cache[k], buffer) {
        FindItemIs(items, name);
        assert FindItem(items, name) == i;
        forall j | 0 <= j < |items|
          ensures j != i ==> (InSync(Taken(cache, live), LayoutOf(items[j])) <==> InSync(cache, LayoutOf(items[j])))
          ensures j == i ==> InSync(Taken(cache, live), LayoutOf(items[j]))
        {
          NotDifferent(live);
          TakenInSync(cache, live, LayoutOf(items[j]));
        }
        SendBuffer();
      }
      PicturedAll(cache, items);
      SameDisplays(cache, items0, items);
    }

    // timer_synchro: afterwards the server's picture of every item is within
    // the tolerance; exactly the items for which it was not were sent, and no
    // item moved.
    method TimerSynchro()
      requires Valid()
      modifies this
      ensures Valid() && |items| == |old(items)|
      ensures forall i :: 0 <= i < |items| ==> SameDisplay(old(items)[i], items[i])
      ensures forall i :: 0 <= i < |items| ==> Pictured(cache, items[i])
      ensures sent == old(sent) + Unsynced(old(cache), old(items))
    {
      hide Apply, Pictured, Valid, ToSend;
      ghost var start := items;
      ghost var first := cache;
      var i := 0;
      while i < |items|
        invariant 0 <= i <= |items| == |start| && Valid()
        invariant forall j :: 0 <= j < |items| ==> SameDisplay(start[j], items[j])
        invariant forall j :: 0 <= j < i ==> Pictured(cache, items[j])
        invariant forall j :: i <= j < |items| ==> (Pictured(cache, items[j]) <==> Pictured(first, start[j]))
        invariant sent == old(sent) + Unsynced(first, start[..i])
      {
        assert start[..i + 1][..i] == start[..i];
        SameToSend(cache, items[i], first, start[i]);
        SyncOne(i);
        i := i + 1;
      }
      assert start[..i] == start;
    }

    // Without movement in between, the second pass sends nothing.
    method TwoPasses()
      requires Valid()
      modifies this
      ensures Valid() && sent == old(sent) + Unsynced(old(cache), old(items))
    {
      hide Apply, Pictured;
      TimerSynchro();
      NothingUnsynced(cache, items);
      TimerSynchro();
    }

    // A message for a cached item, then a pass: the item is where the message
    // says, and the pass does not send it unless the message has far ends.
    method ReceiveThenPass(l: Layout)
      requires Valid() && Find(cache, l.name) < |cache| && FindItem(items, l.name) < |items|
      modifies this
      ensures Valid() && |items| == |old(items)| && |old(sent)| <= |sent| && sent[..|old(sent)|] == old(sent)
      ensures var i := items[FindItem(old(items), l.name)];
              i.name == l.name && Apply(i.matrix, i.anchor) == l.pos && i.hidden == l.hidden
      ensures !Mentions(sent[|old(sent)|..], l.name) <==> NearEnds(l)
    {
      hide Apply, Placed, Taken, InSync, Pictured, NearEnds, Unsynced, Mentions, Stale, AddedItems, Find, FindItem;
      ghost var k := FindItem(items, l.name);
      Landed(cache, items, l);
      Receive(l);
      StaleOne(cache, items, k);
      UnsyncedNames(cache, items, l.name);
      ghost var sent0 := sent;
      ghost var out := Unsynced(cache, items);
      TimerSynchro();
      assert sent[|sent0|..] == out;
    }
  }

  lemma PicturedAll(cache: seq<Layout>, items: seq<Item>)
    ensures forall i :: 0 <= i < |items| ==> (Pictured(cache, items[i]) <==> InSync(cache, LayoutOf(items[i])))
  {
    hide Pictured, InSync;
    forall i | 0 <= i < |items|
      ensures Pictured(cache, items[i]) <==> InSync(cache, LayoutOf(items[i]))
    {
      PicturedIs(cache, items[i]);
    }
  }

  lemma SameDisplays(cache: seq<Layout>, before: seq<Item>, after: seq<Item>)
    requires |before| == |after| && forall j :: 0 <= j < |after| ==> LayoutOf(after[j]) == LayoutOf(before[j])
    ensures forall j :: 0 <= j < |after| ==> SameDisplay(before[j], after[j])
  {
    hide Apply;
  }

  lemma SameToSend(cache: seq<Layout>, i: Item, first: seq<Layout>, start: Item)
    requires SameDisplay(start, i) && (Pictured(cache, i) <==> Pictured(first, start))
    ensures ToSend(cache, i) == ToSend(first, start)
  {
    hide Pictured;
  }

  lemma Landed(cache: seq<Layout>, items: seq<Item>, l: Layout)
    requires OnePerName(cache) && ItemsOk(items) && FindItem(items, l.name) < |items| && Find(cache, l.name) < |cache|
    ensures var r := AddedItems(cache, items, l.name, Message(l)); var k := FindItem(items, l.name);
            && |r| == |items| && r[k].name == l.name
            && LayoutOf(r[k]) == Layout(l.name, l.pos, ORIGIN, ORIGIN, l.hidden)
            && (Pictured(Taken(cache, l), r[k]) <==> NearEnds(l))
  {
    hide Taken, Pictured, NearEnds, Adjusted, Position;
    NoEcho(cache, items, l);
  }
}
