// Releasing members and nets: the forms stay in step; exactly the release of
// the last member of a category whose title row has a later sibling leaves
// cached paths stale; releasing a net repairs every remaining path.
module StoreRelease {
  import opened Sequences
  import opened PathText
  import opened TreeStore
  import opened HyperStore
  import opened StoreInvariants

  // Deleting the action rows and then the member row is one removal.
  // The rows that go: the member's, or the title's with the last member.
  function Gone(n: Net, c: Category, j: nat): Handle
    requires j < |n.Get(c).members|
  {
    if n.Get(c).nb == 1 then n.Get(c).title.iter else n.Get(c).members[j].top.iter
  }

  lemma GoneIsRemoved(t: Tree, n: Net, c: Category, j: nat)
    requires NetShape(t, n) && j < |n.Get(c).members|
    ensures Gone(n, c, j).Child?
    ensures var g := n.Get(c); var m := g.members[j];
            var t1 := DelLeaf(DelLeaves(t, m.subs), m.top);
            (if g.nb == 1 then DelLeaf(t1, g.title) else t1) == Remove(t, Gone(n, c, j))
  {
    hide Remove, TitlesShape;
    var g := n.Get(c);
    var m := g.members[j];
    assert GroupShape(t, n.top.iter, c, g);
    assert MemberShape(t, g.title.iter, c, m);
    forall i | 0 <= i < |m.subs|
      ensures m.subs[i].iter.Child? && m.subs[i].iter.parent == m.top.iter
    {
      assert LeafAt(t, m.top.iter, i, m.subs[i], SubNames(c)[i]);
    }
    DelLeavesBelow(t, m.subs, m.top.iter);
    if g.nb == 1 {
      RemoveAbsorb(t, m.top.iter, g.title.iter);
    }
  }

  // ----- refreshing cached paths keeps everything else -----------------------

  lemma RefreshMemberOk(t: Tree, title: Handle, c: Category, m: Member)
    requires MemberShape(t, title, c, m)
    ensures MemberShape(t, title, c, RefreshMember(t, m)) && MemberSids(t, RefreshMember(t, m))
  {
    hide PathOf, Text;
    var m' := RefreshMember(t, m);
    forall i | 0 <= i < |m'.subs|
      ensures LeafAt(t, m'.top.iter, i, m'.subs[i], SubNames(c)[i])
    {
      assert LeafAt(t, m.top.iter, i, m.subs[i], SubNames(c)[i]);
    }
  }

  lemma RefreshMembersOk(t: Tree, top: Handle, c: Category, title: Handle, ms: seq<Member>)
    requires MembersBelow(t, top, c, title, ms)
    ensures MembersBelow(t, top, c, title, RefreshMembers(t, ms))
    ensures forall j :: 0 <= j < |ms| ==> MemberSids(t, RefreshMembers(t, ms)[j])
  {
    hide MemberShape, MemberSids, Text;
    forall j | 0 <= j < |ms|
      ensures MemberShape(t, title, c, RefreshMembers(t, ms)[j])
      ensures MemberSids(t, RefreshMembers(t, ms)[j])
    {
      RefreshMemberOk(t, title, c, ms[j]);
    }
  }

  lemma RefreshNetOk(t: Tree, n: Net)
    requires NetShape(t, n)
    ensures NetShape(t, RefreshNet(t, n)) && NetSids(t, RefreshNet(t, n))
  {
    hide MembersBelow, MemberShape, MemberSids, TitlesShape, Text, PathOf;
    var n' := RefreshNet(t, n);
    forall c: Category
      ensures GroupShape(t, n.top.iter, c, n'.Get(c)) && GroupSids(t, n'.Get(c))
      ensures n'.Get(c).title.iter == n.Get(c).title.iter && |n'.Get(c).members| == |n.Get(c).members|
    {
      var g := n.Get(c);
      assert GroupShape(t, n.top.iter, c, g) && n'.Get(c) == RefreshGroup(t, g);
      if g.members != [] {
        RefreshMembersOk(t, n.top.iter, c, g.title.iter, g.members);
      }
    }
    assert Titles(n') == Titles(n);
  }

  // ----- the list and the rows after a removal -------------------------------

  lemma MemberLeft(t: Tree, top: Handle, c: Category, title: Handle, ms: seq<Member>, j: nat, i: nat)
    requires TreeOk(t) && MembersBelow(t, top, c, title, ms) && i < |ms| && j < |ms| && i != j
    ensures MemberShape(Remove(t, ms[j].top.iter), title, c, ms[i])
  {
    hide Remove, MemberShape;
    var a, r := ms[i].top.iter, ms[j].top.iter;
    MemberTop(t, top, c, title, ms, i);
    MemberTop(t, top, c, title, ms, j);
    assert RowOk(t, title);
    SiblingsDisjoint(a, a, r);
    RemoveSame(t, r, a);
    MemberFrame(t, Remove(t, r), title, c, ms[i]);
  }

  lemma MemberTop(t: Tree, top: Handle, c: Category, title: Handle, ms: seq<Member>, i: nat)
    requires MembersBelow(t, top, c, title, ms) && i < |ms|
    ensures MemberShape(t, title, c, ms[i]) && |Kids(t, title)| == |ms|
    ensures ms[i].top.iter == Child(title, Kids(t, title)[|ms| - 1 - i]) && ms[i].top.iter in t.kids
  {
  }

  lemma MembersLeft(t: Tree, top: Handle, c: Category, title: Handle, ms: seq<Member>, j: nat)
    requires TreeOk(t) && MembersBelow(t, top, c, title, ms) && j < |ms|
    ensures MembersBelow(Remove(t, ms[j].top.iter), top, c, title, Drop(ms, j))
  {
    hide MemberShape, Remove;
    var r := ms[j].top.iter;
    MemberTop(t, top, c, title, ms, j);
    var k := |ms| - 1 - j;
    RemoveKids(t, r, k);
    var u, rest := Remove(t, r), Drop(ms, j);
    forall i | 0 <= i < |rest|
      ensures MemberShape(u, title, c, rest[i])
      ensures rest[i].top.iter == Child(title, Kids(u, title)[|rest| - 1 - i])
    {
      var i' := if i < j then i else i + 1;
      assert rest[i] == ms[i'];
      MemberLeft(t, top, c, title, ms, j, i');
      MemberTop(t, top, c, title, ms, i');
    }
  }

  // Rows neither removed nor parent of the removed row do not change.
  lemma RemoveOther(t: Tree, r: Handle, h: Handle)
    requires r.Child? && h != r.parent && !Within(h, r)
    ensures SameAt(t, Remove(t, r), h)
  {
  }

  // Every row of the net that does not lie in category c.
  lemma BesideCategory(t: Tree, n: Net, c: Category, r: Handle, h: Handle)
    requires TreeOk(t) && NetShape(t, n) && n.Get(c).members != []
    requires Within(r, n.Get(c).title.iter)
    requires h == n.graph.iter || h == n.kill.iter
          || exists d: Category :: d != c && n.Get(d).members != [] && h == n.Get(d).title.iter
    ensures h.Child? && h.parent == n.top.iter && h != n.Get(c).title.iter
    ensures !Within(h, r) && !Within(r, h)
  {
    hide MemberShape;
    var title := n.Get(c).title.iter;
    TitleNotLeaf(t, n, c);
    forall d: Category
      ensures GroupShape(t, n.top.iter, d, n.Get(d))
      ensures d != c && n.Get(d).members != [] ==> n.Get(d).title.iter != title
    {
      assert c in Titles(n) && (n.Get(d).members != [] ==> d in Titles(n));
    }
    SiblingsDisjoint(r, title, h);
  }

  lemma OtherGroupLeft(t: Tree, n: Net, c: Category, r: Handle, d: Category)
    requires TreeOk(t) && NetShape(t, n) && n.Get(c).members != [] && d != c
    requires r.Child? && Within(r, n.Get(c).title.iter)
    ensures GroupShape(Remove(t, r), n.top.iter, d, n.Get(d))
    ensures n.Get(d).members != [] ==> SameWithin(t, Remove(t, r), n.Get(d).title.iter)
  {
    hide Remove, MemberShape, TitlesShape, LeafAt;
    assert GroupShape(t, n.top.iter, d, n.Get(d));
    if n.Get(d).members != [] {
      BesideCategory(t, n, c, r, n.Get(d).title.iter);
      RemoveSame(t, r, n.Get(d).title.iter);
    }
    GroupFrame(t, Remove(t, r), n.top.iter, d, n.Get(d));
  }

  lemma CountOk(t: Tree, n: Net, c: Category)
    requires NetShape(t, n)
    ensures n.Get(c).nb == |n.Get(c).members|
  {
    assert GroupShape(t, n.top.iter, c, n.Get(c));
  }

  lemma GoneWithin(t: Tree, n: Net, c: Category, j: nat)
    requires TreeOk(t) && NetShape(t, n) && j < |n.Get(c).members|
    ensures var g := n.Get(c); var r := Gone(n, c, j);
            && MembersBelow(t, n.top.iter, c, g.title.iter, g.members)
            && g.title.iter.Child? && g.title.iter.parent == n.top.iter && g.nb == |g.members|
            && r.Child? && r in t.kids && Within(r, g.title.iter)
            && !Within(n.top.iter, r) && !Within(Root, r) && r.parent != Root
  {
    hide MemberShape, TitlesShape, LeafAt;
    var g := n.Get(c);
    assert GroupShape(t, n.top.iter, c, g);
    MemberTop(t, n.top.iter, c, g.title.iter, g.members, j);
    var r := Gone(n, c, j);
    if Within(n.top.iter, r) { WithinSize(n.top.iter, r); }
    if Within(Root, r) { WithinSize(Root, r); }
  }

  // A member goes and others of its category remain.
  lemma OneOfMany(t: Tree, n: Net, c: Category, j: nat)
    requires TreeOk(t) && NetShape(t, n) && j < |n.Get(c).members| && n.Get(c).nb > 1
    ensures var u := Remove(t, Gone(n, c, j)); var g := n.Get(c);
            && TreeOk(u) && Kids(u, Root) == Kids(t, Root) && Kids(u, n.top.iter) == Kids(t, n.top.iter)
            && NetShape(u, n.Set(c, Group(g.title, g.nb - 1, RefreshMembers(u, Drop(g.members, j)))))
  {
    hide Remove, MembersBelow, MemberShape, TitlesShape, LeafAt, RefreshMembers, RefreshMember;
    var g := n.Get(c);
    var title := g.title.iter;
    GoneWithin(t, n, c, j);
    MemberTop(t, n.top.iter, c, title, g.members, j);
    var r := Gone(n, c, j);
    var u := Remove(t, r);
    RemoveOk(t, r, |g.members| - 1 - j);
    RemoveOther(t, r, Root);
    RemoveOther(t, r, n.top.iter);
    LeafLeft(t, n, c, r, 0, n.graph, "graph");
    LeafLeft(t, n, c, r, 1, n.kill, "kill");
    MembersLeft(t, n.top.iter, c, title, g.members, j);
    RefreshMembersOk(u, n.top.iter, c, title, Drop(g.members, j));
    forall d: Category | d != c
      ensures GroupShape(u, n.top.iter, d, n.Get(d))
    {
      OtherGroupLeft(t, n, c, r, d);
    }
    assert Titles(n)[c := title] == Titles(n);
    RefreshLength(u, Drop(g.members, j));
    NetAssembled(u, n, c, g.title, RefreshMembers(u, Drop(g.members, j)));
  }

  lemma RefreshLength(t: Tree, ms: seq<Member>)
    ensures |RefreshMembers(t, ms)| == |ms|
  {
  }

  lemma LeafLeft(t: Tree, n: Net, c: Category, r: Handle, i: nat, x: RowRef, cap: string)
    requires TreeOk(t) && NetShape(t, n) && n.Get(c).members != [] && LeafAt(t, n.top.iter, i, x, cap)
    requires x == n.graph || x == n.kill
    requires r.Child? && Within(r, n.Get(c).title.iter) && SameAt(t, Remove(t, r), n.top.iter)
    ensures LeafAt(Remove(t, r), n.top.iter, i, x, cap)
  {
    hide Remove, TitlesShape, GroupShape;
    BesideCategory(t, n, c, r, x.iter);
    RemoveSame(t, r, x.iter);
    assert SameAt(t, Remove(t, r), x.iter);
  }

  // The position of a category's title among the rows of its net.
  function TitlePosition(t: Tree, n: Net, c: Category): nat {
    if n.Get(c).title.iter.Child? then IndexOf(Kids(t, n.top.iter), n.Get(c).title.iter.serial) else 0
  }

  lemma TitlePositionOk(t: Tree, n: Net, c: Category)
    requires TreeOk(t) && NetShape(t, n) && n.Get(c).members != []
    ensures var kids := Kids(t, n.top.iter); var p := TitlePosition(t, n, c);
            2 <= p < |kids| && n.Get(c).title.iter == Child(n.top.iter, kids[p])
  {
    hide GroupShape, LeafAt;
    var kids := Kids(t, n.top.iter);
    var x := n.Get(c).title.iter;
    assert Titles(n)[c] == x;
    assert AfterKill(kids, x.serial);
    var i :| 2 <= i < |kids| && kids[i] == x.serial;
    assert RowOk(t, n.top.iter);
    IndexOfAt(kids, i, t.next);
  }

  lemma TitlesLeftSize(titles: map<Category, Handle>, c: Category)
    requires c in titles
    ensures |titles - {c}| == |titles| - 1
  {
    assert titles == (titles - {c})[c := titles[c]];
  }

  lemma TitleStays(kids: seq<nat>, p: nat, x: nat)
    requires AfterKill(kids, x) && 2 <= p < |kids| && kids[p] != x
    ensures AfterKill(kids[..p] + kids[p + 1..], x)
  {
    var i :| 2 <= i < |kids| && kids[i] == x;
    assert (kids[..p] + kids[p + 1..])[if i < p then i else i - 1] == x;
  }

  lemma RowStaysTitle(kids: seq<nat>, top: Handle, titles: map<Category, Handle>, c: Category, p: nat, i: nat)
    requires TitlesShape(kids, top, titles) && c in titles && p < |kids| && titles[c] == Child(top, kids[p])
    requires 2 <= i < |kids| && kids[i] != kids[p]
    ensures TitleIn(titles - {c}, Child(top, kids[i]))
  {
    assert TitleIn(titles, Child(top, kids[i]));
    var d :| d in titles && titles[d] == Child(top, kids[i]);
    assert (titles - {c})[d] == Child(top, kids[i]);
  }

  lemma TitlesLeft(kids: seq<nat>, top: Handle, titles: map<Category, Handle>, c: Category, p: nat, bound: nat)
    requires TitlesShape(kids, top, titles) && Ascending(kids, bound)
    requires c in titles && 2 <= p < |kids| && titles[c] == Child(top, kids[p])
    ensures TitlesShape(kids[..p] + kids[p + 1..], top, titles - {c})
  {
    hide AfterKill, TitleIn;
    var kids', titles' := kids[..p] + kids[p + 1..], titles - {c};
    TitlesLeftSize(titles, c);
    forall d | d in titles'
      ensures AfterKill(kids', titles'[d].serial)
    {
      TitleStays(kids, p, titles[d].serial);
    }
    forall i | 2 <= i < |kids'|
      ensures TitleIn(titles', Child(top, kids'[i]))
    {
      var i' := if i < p then i else i + 1;
      assert kids'[i] == kids[i'];
      RowStaysTitle(kids, top, titles, c, p, i');
    }
  }

  // The last member of a category goes, and its title row with it.
  lemma LastOfCategory(t: Tree, n: Net, c: Category)
    requires TreeOk(t) && NetShape(t, n) && n.Get(c).nb == 1
    ensures var u := Remove(t, n.Get(c).title.iter); var p := TitlePosition(t, n, c);
            var kids := Kids(t, n.top.iter);
            && TreeOk(u) && Kids(u, Root) == Kids(t, Root) && n.top.iter in u.kids
            && p < |kids| && Kids(u, n.top.iter) == kids[..p] + kids[p + 1..]
            && NetShape(u, n.Set(c, Group(n.Get(c).title.(sid := ""), 0, [])))
  {
    hide Remove, MembersBelow, TitlesShape;
    assert GroupShape(t, n.top.iter, c, n.Get(c));
    var r := n.Get(c).title.iter;
    var kids := Kids(t, n.top.iter);
    var p := TitlePosition(t, n, c);
    GoneWithin(t, n, c, 0);
    TitlePositionOk(t, n, c);
    RemoveKids(t, r, p);
    RemoveOk(t, r, p);
    var u := Remove(t, r);
    RemoveOther(t, r, Root);
    assert LeafAt(u, n.top.iter, 0, n.graph, "graph") && LeafAt(u, n.top.iter, 1, n.kill, "kill") by {
      BesideCategory(t, n, c, r, n.graph.iter);
      BesideCategory(t, n, c, r, n.kill.iter);
      RemoveSame(t, r, n.graph.iter);
      RemoveSame(t, r, n.kill.iter);
      assert SameAt(t, u, n.graph.iter) && SameAt(t, u, n.kill.iter);
    }
    forall d: Category | d != c
      ensures GroupShape(u, n.top.iter, d, n.Get(d))
    {
      OtherGroupLeft(t, n, c, r, d);
    }
    assert RowOk(t, n.top.iter);
    TitlesLeft(kids, n.top.iter, Titles(n), c, p, t.next);
    EmptiedNet(u, n, c);
  }

  lemma EmptiedNet(t: Tree, n: Net, c: Category)
    requires n.top.iter.Child? && n.top.iter.parent == Root && n.top.iter in t.kids
    requires Caption(t, n.top.iter) == n.name
    requires LeafAt(t, n.top.iter, 0, n.graph, "graph") && LeafAt(t, n.top.iter, 1, n.kill, "kill")
    requires forall d: Category :: d != c ==> GroupShape(t, n.top.iter, d, n.Get(d))
    requires TitlesShape(Kids(t, n.top.iter), n.top.iter, Titles(n) - {c})
    ensures NetShape(t, n.Set(c, Group(n.Get(c).title.(sid := ""), 0, [])))
  {
    hide LeafAt, MembersBelow, TitlesShape;
    var n' := n.Set(c, Group(n.Get(c).title.(sid := ""), 0, []));
    assert Titles(n') == Titles(n) - {c};
    forall d: Category
      ensures GroupShape(t, n.top.iter, d, n'.Get(d))
    {
      if d != c { assert n'.Get(d) == n.Get(d); }
    }
  }

  // The net after one of its members went, given the tree after it.
  function NetWithout(n: Net, c: Category, j: nat, u: Tree): Net
    requires j < |n.Get(c).members|
  {
    var g := n.Get(c);
    n.Set(c, Group(if g.nb == 1 then g.title.(sid := "") else g.title, g.nb - 1,
                   RefreshMembers(u, Drop(g.members, j))))
  }

  lemma FreeMemberForm(s: Store, net: string, c: Category, name: string)
    requires Shape(s) && FreeMember(s, net, c, name).Some?
    ensures var k := NetIndex(s.nets, net);
            k < |s.nets| && NetShape(s.tree, s.nets[k]) &&
            var j := MemberIndex(s.nets[k].Get(c).members, name);
            j < |s.nets[k].Get(c).members| && Gone(s.nets[k], c, j).Child? &&
            var u := Remove(s.tree, Gone(s.nets[k], c, j));
            FreeMember(s, net, c, name).value == Store(u, s.nets[k := NetWithout(s.nets[k], c, j, u)])
  {
    hide NetShape, Remove, RefreshMembers, DelLeaves;
    var n := s.nets[NetIndex(s.nets, net)];
    GoneIsRemoved(s.tree, n, c, MemberIndex(n.Get(c).members, name));
  }

  lemma NetAfter(t: Tree, n: Net, c: Category, j: nat)
    requires TreeOk(t) && NetShape(t, n) && j < |n.Get(c).members|
    ensures Gone(n, c, j).Child?
    ensures var u := Remove(t, Gone(n, c, j));
            TreeOk(u) && Kids(u, Root) == Kids(t, Root) && NetShape(u, NetWithout(n, c, j, u))
  {
    hide NetShape, Remove, GroupShape;
    GoneWithin(t, n, c, j);
    if n.Get(c).nb == 1 {
      LastOfCategory(t, n, c);
      var ms := Drop(n.Get(c).members, j);
      assert |ms| == 0 && RefreshMembers(Remove(t, n.Get(c).title.iter), ms) == [] by {
        RefreshLength(Remove(t, n.Get(c).title.iter), ms);
      }
    } else {
      OneOfMany(t, n, c, j);
    }
  }

  // Another net sees nothing of the release.
  lemma OtherNetLeft(t: Tree, n: Net, c: Category, j: nat, b: Net)
    requires TreeOk(t) && NetShape(t, n) && j < |n.Get(c).members| && NetShape(t, b) && b.top.iter != n.top.iter
    ensures Gone(n, c, j).Child?
    ensures var u := Remove(t, Gone(n, c, j)); NetShape(u, b) && (NetSids(t, b) ==> NetSids(u, b))
  {
    hide Remove, MembersBelow, TitlesShape, LeafAt, GroupShape, Text;
    GoneWithin(t, n, c, j);
    var r := Gone(n, c, j);
    var u := Remove(t, r);
    WithinTrans(r, n.Get(c).title.iter, n.top.iter);
    SiblingsDisjoint(r, n.top.iter, b.top.iter);
    RemoveSame(t, r, b.top.iter);
    RemoveOther(t, r, Root);
    NetFrame(t, u, b);
    SubtreeUnmoved(t, u, b.top.iter);
    if NetSids(t, b) { NetSidsFrame(t, u, b); }
  }

  lemma FreeMemberShape(s: Store, net: string, c: Category, name: string)
    requires Shape(s) && FreeMember(s, net, c, name).Some?
    ensures Shape(FreeMember(s, net, c, name).value)
  {
    hide NetShape, Remove, RefreshMembers, FreeMember, Gone;
    var k := NetIndex(s.nets, net);
    FreeMemberForm(s, net, c, name);
    var n := s.nets[k];
    var j := MemberIndex(n.Get(c).members, name);
    var s' := FreeMember(s, net, c, name).value;
    NetAfter(s.tree, n, c, j);
    forall i | 0 <= i < |s.nets|
      ensures NetShape(s'.tree, s'.nets[i])
    {
      if i != k {
        DistinctTops(s, i, k);
        OtherNetLeft(s.tree, n, c, j, s.nets[i]);
      }
    }
    ReplaceNet(s, s', k);
  }

  // ----- which cached paths survive ------------------------------------------

  lemma IndexAfter(kids: seq<nat>, p: nat, q: nat, bound: nat)
    requires Ascending(kids, bound) && p < |kids| && q < |kids| && p != q
    ensures IndexOf(kids, kids[q]) == q
    ensures IndexOf(kids[..p] + kids[p + 1..], kids[q]) == if q < p then q else q - 1
  {
    hide IndexOf;
    var rest := kids[..p] + kids[p + 1..];
    IndexOfAt(kids, q, bound);
    assert rest[if q < p then q else q - 1] == kids[q];
    IndexOfAt(rest, if q < p then q else q - 1, bound);
  }

  lemma TopPath(t: Tree, u: Tree, top: Handle)
    requires top.Child? && top.parent == Root && Kids(u, Root) == Kids(t, Root)
    ensures PathOf(u, top) == PathOf(t, top)
  {
    assert PathOf(u, Root) == PathOf(t, Root) == [];
  }

  lemma RowPath(t: Tree, u: Tree, top: Handle, h: Handle)
    requires h.Child? && h.parent == top && PathOf(u, top) == PathOf(t, top)
    ensures IndexOf(Kids(u, top), h.serial) == IndexOf(Kids(t, top), h.serial) <==> PathOf(u, h) == PathOf(t, h)
  {
    var p, q := PathOf(t, h), PathOf(u, h);
    assert p[|p| - 1] == IndexOf(Kids(t, top), h.serial) && q[|q| - 1] == IndexOf(Kids(u, top), h.serial);
  }

  lemma OneOfManySids(t: Tree, n: Net, c: Category, j: nat)
    requires TreeOk(t) && NetShape(t, n) && j < |n.Get(c).members| && n.Get(c).nb > 1 && NetSids(t, n)
    ensures Gone(n, c, j).Child?
    ensures var u := Remove(t, Gone(n, c, j)); NetSids(u, NetWithout(n, c, j, u))
  {
    hide Remove, MembersBelow, TitlesShape, LeafAt, MemberSids, RefreshMembers, Text, GroupShape;
    GoneWithin(t, n, c, j);
    OneOfMany(t, n, c, j);
    var r := Gone(n, c, j);
    var u := Remove(t, r);
    var n' := NetWithout(n, c, j, u);
    FixedRows(t, n);
    TopPath(t, u, n.top.iter);
    RowPath(t, u, n.top.iter, n.graph.iter);
    RowPath(t, u, n.top.iter, n.kill.iter);
    RowPath(t, u, n.top.iter, n.Get(c).title.iter);
    forall d: Category
      ensures GroupSids(u, n'.Get(d))
    {
      if d != c {
        assert n'.Get(d) == n.Get(d);
        OtherGroupLeft(t, n, c, r, d);
        if n.Get(d).members != [] { RowPath(t, u, n.top.iter, n.Get(d).title.iter); }
        OtherGroupSids(t, u, n, d);
      } else {
        RefreshedSids(u, Drop(n.Get(c).members, j));
        RefreshLength(u, Drop(n.Get(c).members, j));
        assert RefOk(u, n.Get(c).title);
      }
    }
  }

  lemma FixedRows(t: Tree, n: Net)
    requires NetShape(t, n)
    ensures n.top.iter.Child? && n.top.iter.parent == Root
    ensures |Kids(t, n.top.iter)| >= 2
    ensures n.graph.iter == Child(n.top.iter, Kids(t, n.top.iter)[0])
    ensures n.kill.iter == Child(n.top.iter, Kids(t, n.top.iter)[1])
    ensures forall d: Category :: n.Get(d).members != [] ==>
              n.Get(d).title.iter.Child? && n.Get(d).title.iter.parent == n.top.iter
  {
    forall d: Category | n.Get(d).members != []
      ensures n.Get(d).title.iter.Child? && n.Get(d).title.iter.parent == n.top.iter
    {
      assert GroupShape(t, n.top.iter, d, n.Get(d));
    }
  }

  lemma RefreshedSids(t: Tree, ms: seq<Member>)
    ensures forall j :: 0 <= j < |ms| ==> MemberSids(t, RefreshMembers(t, ms)[j])
  {
  }

  // A category whose subtree and title row stayed in place.
  lemma OtherGroupSids(t: Tree, u: Tree, n: Net, d: Category)
    requires NetShape(t, n) && GroupSids(t, n.Get(d))
    requires n.Get(d).members != [] ==> SameWithin(t, u, n.Get(d).title.iter)
    requires n.Get(d).members != [] ==> PathOf(u, n.Get(d).title.iter) == PathOf(t, n.Get(d).title.iter)
    ensures GroupSids(u, n.Get(d))
  {
    hide MemberShape, TitlesShape, Text, LeafAt;
    assert GroupShape(t, n.top.iter, d, n.Get(d));
    if n.Get(d).members != [] {
      SubtreeUnmoved(t, u, n.Get(d).title.iter);
    }
    GroupSidsFrame(t, u, n.top.iter, d, n.Get(d));
  }

  // Released with its title row: paths stay right exactly when the title was
  // the last row of its net.
  lemma LastOfCategorySids(t: Tree, n: Net, c: Category)
    requires TreeOk(t) && NetShape(t, n) && n.Get(c).nb == 1 && NetSids(t, n)
    ensures n.Get(c).title.iter.Child?
    ensures var u := Remove(t, n.Get(c).title.iter);
            NetSids(u, NetWithout(n, c, 0, u)) <==> TitlePosition(t, n, c) + 1 == |Kids(t, n.top.iter)|
  {
    hide Remove, MembersBelow, TitlesShape, LeafAt, MemberSids, RefreshMembers, Text, GroupShape;
    CountOk(t, n, c);
    GoneWithin(t, n, c, 0);
    var r := n.Get(c).title.iter;
    var u := Remove(t, r);
    var top := n.top.iter;
    var kids, p := Kids(t, top), TitlePosition(t, n, c);
    var n' := NetWithout(n, c, 0, u);
    LastOfCategory(t, n, c);
    FixedRows(t, n);
    TopPath(t, u, top);
    if p + 1 == |kids| {
      LastTitleSids(t, n, c);
    } else {
      TitlePositionOk(t, n, c);
      var d := LaterTitle(t, n, c);
      StaleTitle(t, u, n, c, d);
      assert n'.Get(d) == n.Get(d);
    }
  }

  // Some category's title row follows the one that goes.
  lemma LaterTitle(t: Tree, n: Net, c: Category) returns (d: Category)
    requires TreeOk(t) && NetShape(t, n) && n.Get(c).members != []
    requires TitlePosition(t, n, c) + 1 < |Kids(t, n.top.iter)|
    ensures d != c && n.Get(d).members != []
    ensures TitlePosition(t, n, c) < TitlePosition(t, n, d)
  {
    hide TreeOk, NetShape, TitlesShape;
    var kids, p := Kids(t, n.top.iter), TitlePosition(t, n, c);
    TitlePositionOk(t, n, c);
    NetTitles(t, n);
    d := TitleOfRow(kids, n.top.iter, Titles(n), p + 1);
    IndexOfAt(kids, p, t.next);
    IndexOfAt(kids, p + 1, t.next);
  }

  // The rows after graph and kill are titles.
  lemma TitleOfRow(kids: seq<nat>, top: Handle, titles: map<Category, Handle>, i: nat) returns (d: Category)
    requires TitlesShape(kids, top, titles) && 2 <= i < |kids|
    ensures d in titles && titles[d] == Child(top, kids[i])
  {
    assert TitleIn(titles, Child(top, kids[i]));
    d :| d in titles && titles[d] == Child(top, kids[i]);
  }

  lemma NetTitles(t: Tree, n: Net)
    requires TreeOk(t) && NetShape(t, n)
    ensures TitlesShape(Kids(t, n.top.iter), n.top.iter, Titles(n))
    ensures Ascending(Kids(t, n.top.iter), t.next)
  {
    hide GroupShape, LeafAt, TitlesShape;
    assert RowOk(t, n.top.iter);
  }

  lemma StaleTitle(t: Tree, u: Tree, n: Net, c: Category, d: Category)
    requires TreeOk(t) && NetShape(t, n) && n.Get(c).members != [] && n.Get(d).members != []
    requires var kids := Kids(t, n.top.iter); var p := TitlePosition(t, n, c);
             p < TitlePosition(t, n, d) && p < |kids| && Kids(u, n.top.iter) == kids[..p] + kids[p + 1..]
    requires PathOf(u, n.top.iter) == PathOf(t, n.top.iter) && RefOk(t, n.Get(d).title)
    ensures !RefOk(u, n.Get(d).title)
  {
    hide TreeOk, NetShape, TitlesShape, TitlePosition, Text;
    var h := n.Get(d).title.iter;
    TitlePositionOk(t, n, c);
    TitlePositionOk(t, n, d);
    NetTitles(t, n);
    IndexAfter(Kids(t, n.top.iter), TitlePosition(t, n, c), TitlePosition(t, n, d), t.next);
    RowPath(t, u, n.top.iter, h);
    if RefOk(u, n.Get(d).title) {
      TextInjective(PathOf(u, h), PathOf(t, h));
    }
  }

  lemma LastTitleSids(t: Tree, n: Net, c: Category)
    requires TreeOk(t) && NetShape(t, n) && n.Get(c).nb == 1 && NetSids(t, n)
    requires TitlePosition(t, n, c) + 1 == |Kids(t, n.top.iter)|
    ensures n.Get(c).title.iter.Child?
    ensures var u := Remove(t, n.Get(c).title.iter); NetSids(u, NetWithout(n, c, 0, u))
  {
    hide Remove, MembersBelow, TitlesShape, LeafAt, MemberSids, RefreshMembers, Text, GroupShape;
    CountOk(t, n, c);
    GoneWithin(t, n, c, 0);
    var r := n.Get(c).title.iter;
    var u := Remove(t, r);
    var top := n.top.iter;
    var kids, p := Kids(t, top), TitlePosition(t, n, c);
    var n' := NetWithout(n, c, 0, u);
    LastOfCategory(t, n, c);
    FixedRows(t, n);
    TopPath(t, u, top);
    TitlePositionOk(t, n, c);
    assert RowOk(t, top);
    EarlierRow(t, u, top, p, 0, n.graph.iter);
    EarlierRow(t, u, top, p, 1, n.kill.iter);
    RefreshLength(u, Drop(n.Get(c).members, 0));
    forall d: Category
      ensures GroupSids(u, n'.Get(d))
    {
      if d != c {
        assert n'.Get(d) == n.Get(d);
        EarlierTitleSids(t, u, n, c, d);
      }
    }
  }

  lemma EarlierTitleSids(t: Tree, u: Tree, n: Net, c: Category, d: Category)
    requires TreeOk(t) && NetShape(t, n) && n.Get(c).nb == 1 && NetSids(t, n) && d != c
    requires TitlePosition(t, n, c) + 1 == |Kids(t, n.top.iter)|
    requires n.Get(c).title.iter.Child? && u == Remove(t, n.Get(c).title.iter)
    requires var p := TitlePosition(t, n, c); Kids(u, n.top.iter) == Kids(t, n.top.iter)[..p] + Kids(t, n.top.iter)[p + 1..]
    requires PathOf(u, n.top.iter) == PathOf(t, n.top.iter)
    ensures GroupSids(u, n.Get(d))
  {
    hide Remove, TitlesShape, MemberSids, Text, GroupShape, TitlePosition;
    CountOk(t, n, c);
    var p := TitlePosition(t, n, c);
    OtherGroupLeft(t, n, c, n.Get(c).title.iter, d);
    if n.Get(d).members != [] {
      TitlePositionOk(t, n, c);
      TitlePositionOk(t, n, d);
      DistinctTitles(t, n, c, d);
      EarlierRow(t, u, n.top.iter, p, TitlePosition(t, n, d), n.Get(d).title.iter);
    }
    OtherGroupSids(t, u, n, d);
  }

  lemma DistinctTitles(t: Tree, n: Net, c: Category, d: Category)
    requires NetShape(t, n) && c != d && n.Get(c).members != [] && n.Get(d).members != []
    ensures n.Get(c).title.iter != n.Get(d).title.iter
  {
    assert c in Titles(n) && d in Titles(n);
  }

  lemma EarlierRow(t: Tree, u: Tree, top: Handle, p: nat, q: nat, h: Handle)
    requires TreeOk(t) && top in t.kids && q < p < |Kids(t, top)| && h == Child(top, Kids(t, top)[q])
    requires Kids(u, top) == Kids(t, top)[..p] + Kids(t, top)[p + 1..] && PathOf(u, top) == PathOf(t, top)
    ensures PathOf(u, h) == PathOf(t, h)
  {
    assert RowOk(t, top);
    IndexAfter(Kids(t, top), p, q, t.next);
    RowPath(t, u, top, h);
  }

  // What a caller can check beforehand: the last member of its category goes
  // while another title row follows the category's title row.
  predicate Harmful(s: Store, net: string, c: Category) {
    var k := NetIndex(s.nets, net);
    && k < |s.nets| && s.nets[k].Get(c).nb == 1
    && TitlePosition(s.tree, s.nets[k], c) + 1 < |Kids(s.tree, s.nets[k].top.iter)|
  }

  lemma NetWithoutSids(t: Tree, n: Net, c: Category, j: nat)
    requires TreeOk(t) && NetShape(t, n) && j < |n.Get(c).members| && NetSids(t, n)
    ensures Gone(n, c, j).Child?
    ensures var u := Remove(t, Gone(n, c, j));
            NetSids(u, NetWithout(n, c, j, u)) <==>
            !(n.Get(c).nb == 1 && TitlePosition(t, n, c) + 1 < |Kids(t, n.top.iter)|)
  {
    hide NetShape, NetSids, Remove, RefreshMembers;
    CountOk(t, n, c);
    TitlePositionOk(t, n, c);
    if n.Get(c).nb == 1 {
      LastOfCategorySids(t, n, c);
    } else {
      OneOfManySids(t, n, c, j);
    }
  }

  // A release keeps all cached paths right if and only if it is not harmful.
  lemma FreeMemberAgree(s: Store, net: string, c: Category, name: string)
    requires Shape(s) && Agree(s) && FreeMember(s, net, c, name).Some?
    ensures Agree(FreeMember(s, net, c, name).value) <==> !Harmful(s, net, c)
  {
    hide NetShape, NetSids, Remove, RefreshMembers, FreeMember, Gone, NetWithout;
    var k := NetIndex(s.nets, net);
    FreeMemberForm(s, net, c, name);
    var n := s.nets[k];
    var j := MemberIndex(n.Get(c).members, name);
    var s' := FreeMember(s, net, c, name).value;
    NetWithoutSids(s.tree, n, c, j);
    forall i | 0 <= i < |s.nets| && i != k
      ensures NetSids(s'.tree, s'.nets[i])
    {
      DistinctTops(s, i, k);
      OtherNetLeft(s.tree, n, c, j, s.nets[i]);
    }
    assert s'.nets[k] == NetWithout(n, c, j, s'.tree);
    assert Agree(s') <==> NetSids(s'.tree, s'.nets[k]);
  }

  // ----- releasing a net -------------------------------------------------------

  // All rows of the record lie below the net's row.
  ghost predicate GroupIn(g: Group, top: Handle) {
    && (g.members != [] ==> g.title.iter.Child? && Within(g.title.iter.parent, top))
    && forall j :: 0 <= j < |g.members| ==> MemberIn(g.members[j], top)
  }

  ghost predicate MemberIn(m: Member, top: Handle) {
    && m.top.iter.Child? && Within(m.top.iter.parent, top)
    && forall i :: 0 <= i < |m.subs| ==> m.subs[i].iter.Child? && m.subs[i].iter.parent == m.top.iter
  }

  lemma NetRowsIn(t: Tree, n: Net)
    requires NetShape(t, n)
    ensures n.top.iter.Child?
    ensures n.graph.iter.Child? && n.graph.iter.parent == n.top.iter
    ensures n.kill.iter.Child? && n.kill.iter.parent == n.top.iter
    ensures forall c: Category :: GroupIn(n.Get(c), n.top.iter)
  {
    hide TitlesShape;
    forall c: Category
      ensures GroupIn(n.Get(c), n.top.iter)
    {
      var g := n.Get(c);
      assert GroupShape(t, n.top.iter, c, g);
      forall j | 0 <= j < |g.members|
        ensures MemberIn(g.members[j], n.top.iter)
      {
        var m := g.members[j];
        assert MemberShape(t, g.title.iter, c, m);
        assert Within(g.title.iter, n.top.iter);
        forall i | 0 <= i < |m.subs|
          ensures m.subs[i].iter.Child? && m.subs[i].iter.parent == m.top.iter
        {
          assert LeafAt(t, m.top.iter, i, m.subs[i], SubNames(c)[i]);
        }
      }
    }
  }

  lemma {:induction false} DelLeavesBelow(t: Tree, rs: seq<RowRef>, a: Handle)
    requires a.Child?
    requires forall i :: 0 <= i < |rs| ==> rs[i].iter.Child? && Within(rs[i].iter.parent, a)
    ensures Remove(DelLeaves(t, rs), a) == Remove(t, a)
    decreases |rs|
  {
    if rs != [] {
      RemoveAbsorb(t, rs[0].iter, a);
      DelLeavesBelow(DelLeaf(t, rs[0]), rs[1..], a);
    }
  }

  lemma FreeHeadAbsorb(t: Tree, g: Group, a: Handle)
    requires a.Child? && g.members != [] && GroupIn(g, a)
    ensures var m := g.members[0];
            var t1 := DelLeaf(DelLeaves(t, m.subs), m.top);
            Remove(if g.nb == 1 then DelLeaf(t1, g.title) else t1, a) == Remove(t, a)
  {
    hide Remove;
    var m := g.members[0];
    assert MemberIn(m, a);
    forall i | 0 <= i < |m.subs|
      ensures Within(m.subs[i].iter.parent, a)
    {
    }
    DelLeavesBelow(t, m.subs, a);
    RemoveAbsorb(DelLeaves(t, m.subs), m.top.iter, a);
    RemoveAbsorb(DelLeaf(DelLeaves(t, m.subs), m.top), g.title.iter, a);
  }

  lemma {:induction false} FreeGroupAbsorb(s: Store, k: nat, c: Category, a: Handle)
    requires UniqueNames(s.nets) && k < |s.nets| && a.Child? && GroupIn(s.nets[k].Get(c), a)
    ensures var u := FreeGroup(s, k, c);
            && Remove(u.tree, a) == Remove(s.tree, a) && |u.nets| == |s.nets|
            && u.nets[k].top == s.nets[k].top
            && (forall d: Category :: d != c ==> u.nets[k].Get(d) == s.nets[k].Get(d))
    decreases |s.nets[k].Get(c).members|
  {
    hide Remove, DelLeaves;
    var g := s.nets[k].Get(c);
    if g.members != [] {
      NetIndexAt(s.nets, k);
      var s1 := FreeMember(s, s.nets[k].name, c, g.members[0].name).value;
      FreeHeadAbsorb(s.tree, g, a);
      forall j | 0 <= j < |s1.nets[k].Get(c).members|
        ensures MemberIn(s1.nets[k].Get(c).members[j], a)
      {
        assert MemberIn(g.members[j + 1], a);
      }
      FreeGroupAbsorb(s1, k, c, a);
    }
  }

  // The loops over the members end, and the tree loses exactly the net's row
  // and what is below it; every remaining record is refreshed.
  lemma FreeNetForm(s: Store, name: string)
    requires Shape(s) && FreeNet(s, name).Some?
    ensures var k := NetIndex(s.nets, name);
            k < |s.nets| && s.nets[k].top.iter.Child? &&
            var u := Remove(s.tree, s.nets[k].top.iter);
            FreeNet(s, name).value == Store(u, RefreshNets(u, Drop(s.nets, k)))
  {
    hide Remove, NetShape, RefreshNets, FreeGroup;
    var k := NetIndex(s.nets, name);
    var n := s.nets[k];
    var a := n.top.iter;
    NetRowsIn(s.tree, n);
    RemoveAbsorb(s.tree, n.graph.iter, a);
    RemoveAbsorb(DelLeaf(s.tree, n.graph), n.kill.iter, a);
    var n0 := n.(graph := n.graph.(sid := ""), kill := n.kill.(sid := ""));
    var s0 := Store(DelLeaf(DelLeaf(s.tree, n.graph), n.kill), s.nets[k := n0]);
    assert forall c: Category :: n0.Get(c) == n.Get(c);
    FreeGroupAbsorb(s0, k, Vm, a);
    FreeGroupNames(s0, k, Vm);
    var s1 := FreeGroup(s0, k, Vm);
    FreeGroupAbsorb(s1, k, Sat, a);
    FreeGroupNames(s1, k, Sat);
    var s2 := FreeGroup(s1, k, Sat);
    FreeGroupAbsorb(s2, k, Lan, a);
    FreeGroupNames(s2, k, Lan);
    var s3 := FreeGroup(s2, k, Lan);
    assert Drop(s3.nets, k) == Drop(s.nets, k);
  }

  lemma NetSurvives(s: Store, k: nat, i: nat)
    requires Shape(s) && k < |s.nets| && i < |s.nets| && i != k
    ensures s.nets[k].top.iter.Child?
    ensures NetShape(Remove(s.tree, s.nets[k].top.iter), s.nets[i])
  {
    hide Remove, NetShape;
    NetRowsIn(s.tree, s.nets[k]);
    FixedRows(s.tree, s.nets[k]);
    FixedRows(s.tree, s.nets[i]);
    DistinctTops(s, i, k);
    var r, a := s.nets[k].top.iter, s.nets[i].top.iter;
    SiblingsDisjoint(a, a, r);
    RemoveSame(s.tree, r, a);
    NetFrame(s.tree, Remove(s.tree, r), s.nets[i]);
  }

  // From any state in which the two forms are in step, however stale its
  // cached paths, releasing a net leaves every cached path right.
  lemma FreeNetRepairs(s: Store, name: string)
    requires Shape(s) && FreeNet(s, name).Some?
    ensures Shape(FreeNet(s, name).value) && Agree(FreeNet(s, name).value)
  {
    hide Remove, NetShape, NetSids, FreeNet, RefreshNet;
    var k := NetIndex(s.nets, name);
    FreeNetForm(s, name);
    var r := s.nets[k].top.iter;
    var u := Remove(s.tree, r);
    var s' := FreeNet(s, name).value;
    FixedRows(s.tree, s.nets[k]);
    assert r in s.tree.kids by { TopInTree(s.tree, s.nets[k]); }
    RemoveKids(s.tree, r, |s.nets| - 1 - k);
    RemoveOk(s.tree, r, |s.nets| - 1 - k);
    forall i | 0 <= i < |s'.nets|
      ensures var b := s.nets[if i < k then i else i + 1];
              && s'.nets[i].name == b.name && s'.nets[i].top.iter == b.top.iter && b.top.iter.Child?
              && NetShape(u, s'.nets[i]) && NetSids(u, s'.nets[i])
    {
      var i' := if i < k then i else i + 1;
      assert s'.nets[i] == RefreshNet(u, s.nets[i']);
      NetSurvives(s, k, i');
      RefreshNetOk(u, s.nets[i']);
      RefreshNetNames(u, s.nets[i']);
      FixedRows(s.tree, s.nets[i']);
    }
    NetDropped(s, k, s');
  }

  // The rows of a store from which net k and its row went, in step again.
  lemma NetDropped(s: Store, k: nat, s': Store)
    requires Shape(s) && TreeOk(s'.tree) && k < |s.nets| == |s'.nets| + 1
    requires var j := |s.nets| - 1 - k; Kids(s'.tree, Root) == Kids(s.tree, Root)[..j] + Kids(s.tree, Root)[j + 1..]
    requires forall i :: 0 <= i < |s'.nets| ==>
               && NetShape(s'.tree, s'.nets[i])
               && s'.nets[i].name == s.nets[if i < k then i else i + 1].name
               && s'.nets[i].top.iter == s.nets[if i < k then i else i + 1].top.iter
    ensures Shape(s')
  {
    hide NetShape, TreeOk;
  }

  lemma TopInTree(t: Tree, n: Net)
    requires NetShape(t, n)
    ensures n.top.iter in t.kids
  {
  }

  lemma RefreshNetNames(t: Tree, n: Net)
    ensures RefreshNet(t, n).name == n.name && RefreshNet(t, n).top.iter == n.top.iter
  {
  }
}
