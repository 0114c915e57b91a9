// Which title rows have moved since their records were last refreshed: an
// exact account of the cached paths over whole runs.
module StoreStale {
  import opened Options
  import opened Sequences
  import opened PathText
  import opened TreeStore
  import opened HyperStore
  import opened StoreInvariants
  import opened StoreRelease
  import opened StoreLookup
  import opened StoreRuns

  datatype Mark = Mark(net: string, c: Category)

  // The path q moved up since it was printed.
  ghost predicate Lags(q: Path, sid: string) {
    |q| > 0 && exists y :: y > q[|q| - 1] && sid == Text(q[..|q| - 1] + [y])
  }

  ghost predicate GroupMarks(t: Tree, g: Group, stale: bool) {
    if g.members == [] then !stale
    else if stale then Lags(PathOf(t, g.title.iter), g.title.sid)
    else GroupSids(t, g)
  }

  // The marked categories of a net have a title that moved; everything else is
  // right.
  ghost predicate NetMarks(t: Tree, n: Net, st: set<Mark>) {
    && RefOk(t, n.top) && RefOk(t, n.graph) && RefOk(t, n.kill)
    && forall c: Category :: GroupMarks(t, n.Get(c), Mark(n.name, c) in st)
  }

  ghost predicate Marks(s: Store, st: set<Mark>) {
    && (forall k :: 0 <= k < |s.nets| ==> NetMarks(s.tree, s.nets[k], st))
    && (forall x :: x in st ==> NetIndex(s.nets, x.net) < |s.nets|)
  }

  lemma NothingMarked(s: Store)
    requires Agree(s)
    ensures Marks(s, {})
  {
    hide MemberSids, Text, PathOf;
    forall k | 0 <= k < |s.nets|
      ensures NetMarks(s.tree, s.nets[k], {})
    {
      assert NetSids(s.tree, s.nets[k]);
    }
  }

  lemma NoMarksAgree(s: Store)
    requires Shape(s) && Marks(s, {})
    ensures Agree(s)
  {
    hide NetShape, MemberSids, Text, PathOf;
    forall k | 0 <= k < |s.nets|
      ensures NetSids(s.tree, s.nets[k])
    {
      var n := s.nets[k];
      assert NetMarks(s.tree, n, {});
      forall c: Category
        ensures GroupSids(s.tree, n.Get(c))
      {
        assert GroupMarks(s.tree, n.Get(c), Mark(n.name, c) in {});
      }
    }
  }

  // ----- the store with every path printed again -------------------------------

  function Refreshed(s: Store): Store {
    Store(s.tree, RefreshNets(s.tree, s.nets))
  }

  lemma RefreshedOk(s: Store)
    requires Shape(s)
    ensures Shape(Refreshed(s)) && Agree(Refreshed(s))
    ensures forall k :: 0 <= k < |s.nets| ==> Refreshed(s).nets[k].name == s.nets[k].name
  {
    hide NetShape, NetSids, RefreshNet, TreeOk;
    var r := Refreshed(s);
    forall k | 0 <= k < |s.nets|
      ensures NetShape(s.tree, r.nets[k]) && NetSids(s.tree, r.nets[k])
      ensures r.nets[k].name == s.nets[k].name && r.nets[k].top.iter == s.nets[k].top.iter
    {
      RefreshNetOk(s.tree, s.nets[k]);
      RefreshNetNames(s.tree, s.nets[k]);
    }
  }

  lemma RightMember(t: Tree, m: Member)
    requires MemberSids(t, m)
    ensures RefreshMember(t, m) == m
  {
    hide Text, PathOf;
    var m' := RefreshMember(t, m);
    forall i | 0 <= i < |m.subs|
      ensures m'.subs[i] == m.subs[i]
    {
      assert RefOk(t, m.subs[i]);
    }
    assert m'.subs == m.subs;
  }

  // Refreshing changes nothing where the paths are right.
  lemma RightGroup(t: Tree, g: Group)
    requires GroupSids(t, g) && g.members != []
    ensures RefreshGroup(t, g) == g
  {
    hide Text, PathOf, MemberSids, RefreshMember;
    forall j | 0 <= j < |g.members|
      ensures RefreshMembers(t, g.members)[j] == g.members[j]
    {
      RightMember(t, g.members[j]);
    }
    assert RefreshMembers(t, g.members) == g.members;
  }

  // A category that an operation leaves as it is keeps its mark, if its
  // refreshed form stays right.
  lemma GroupCarried(t: Tree, u: Tree, g: Group, stale: bool)
    requires GroupMarks(t, g, stale) && g.nb == |g.members|
    requires g.title.iter.Child? || g.members == []
    requires GroupSids(u, RefreshGroup(t, g))
    ensures GroupMarks(u, g, stale)
  {
    hide Text, PathOf, MemberSids, Lags, RefreshMembers;
    if g.members != [] {
      RefreshLength(t, g.members);
      if stale {
        SamePath(t, u, g.title.iter);
      } else {
        RightGroup(t, g);
      }
    }
  }

  // The same printed path is the same path.
  lemma SamePath(t: Tree, u: Tree, h: Handle)
    requires h.Child? && Text(PathOf(t, h)) == Text(PathOf(u, h))
    ensures PathOf(t, h) == PathOf(u, h)
  {
    hide Text;
    TextInjective(PathOf(t, h), PathOf(u, h));
  }

  lemma TitleChild(t: Tree, n: Net, c: Category)
    requires NetShape(t, n)
    ensures n.Get(c).nb == |n.Get(c).members| && (n.Get(c).title.iter.Child? || n.Get(c).members == [])
  {
    hide MemberShape, TitlesShape, LeafAt;
    assert GroupShape(t, n.top.iter, c, n.Get(c));
  }

  lemma NetCarried(t: Tree, u: Tree, n: Net, st: set<Mark>)
    requires NetShape(t, n) && NetMarks(t, n, st) && NetSids(u, RefreshNet(t, n))
    ensures NetMarks(u, n, st)
  {
    hide NetShape, GroupMarks, GroupSids, RefreshGroup, Text, PathOf;
    var r := RefreshNet(t, n);
    assert r.top == n.top && r.graph == n.graph && r.kill == n.kill;
    forall c: Category
      ensures GroupMarks(u, n.Get(c), Mark(n.name, c) in st)
    {
      TitleChild(t, n, c);
      RefreshedGet(t, n, c);
      assert GroupSids(u, r.Get(c));
      GroupCarried(t, u, n.Get(c), Mark(n.name, c) in st);
    }
  }

  lemma RefreshedGet(t: Tree, n: Net, c: Category)
    ensures RefreshNet(t, n).Get(c) == RefreshGroup(t, n.Get(c))
    ensures RefreshGroup(t, n.Get(c)).nb == n.Get(c).nb
    ensures RefreshGroup(t, n.Get(c)).members == RefreshMembers(t, n.Get(c).members)
  {
  }

  // ----- additions ---------------------------------------------------------------

  lemma SameIndex(a: seq<Net>, b: seq<Net>, name: string)
    requires |a| == |b| && forall k :: 0 <= k < |a| ==> a[k].name == b[k].name
    ensures NetIndex(a, name) == NetIndex(b, name)
    decreases |a|
  {
    if a != [] {
      assert forall k :: 0 <= k < |a| - 1 ==> a[1..][k] == a[k + 1] && b[1..][k] == b[k + 1];
      SameIndex(a[1..], b[1..], name);
    }
  }

  lemma AllocNetMarks(s: Store, name: string, st: set<Mark>)
    requires Shape(s) && Marks(s, st) && AllocNet(s, name).Some?
    ensures Marks(AllocNet(s, name).value, st)
  {
    hide NetShape, NetSids, NetMarks, RefreshNet, TreeOk, AddLeaf;
    var r := Refreshed(s);
    RefreshedOk(s);
    SameIndex(s.nets, r.nets, name);
    AllocNetKeeps(r, name);
    var s', r' := AllocNet(s, name).value, AllocNet(r, name).value;
    assert s'.tree == r'.tree && s'.nets[0] == r'.nets[0];
    forall k | 0 <= k < |s'.nets|
      ensures NetMarks(s'.tree, s'.nets[k], st)
    {
      assert NetSids(r'.tree, r'.nets[k]);
      if k == 0 {
        BareMarks(s'.tree, s'.nets[0], st);
      } else {
        assert r'.nets[k] == r.nets[k - 1] == RefreshNet(s.tree, s.nets[k - 1]);
        NetCarried(s.tree, s'.tree, s.nets[k - 1], st);
      }
    }
    forall x | x in st
      ensures NetIndex(s'.nets, x.net) < |s'.nets|
    {
      assert s'.nets[1..] == s.nets;
    }
  }

  lemma BareMarks(t: Tree, n: Net, st: set<Mark>)
    requires NetSids(t, n) && n.vm == n.sat == n.lan == NO_MEMBERS
    requires forall c :: Mark(n.name, c) !in st
    ensures NetMarks(t, n, st)
  {
    hide Text, PathOf;
    assert forall c: Category :: n.Get(c) == NO_MEMBERS;
  }

  // The title row a category has, or gets with its first member, depends on
  // the rows alone.
  lemma TitleRowSame(t: Tree, n: Net, c: Category)
    ensures var r := RefreshNet(t, n);
            && TitleRow(t, r, c).0 == TitleRow(t, n, c).0
            && TitleRow(t, r, c).1.iter == TitleRow(t, n, c).1.iter
            && (n.Get(c).nb == 0 ==> TitleRow(t, r, c).1 == TitleRow(t, n, c).1)
            && (n.Get(c).nb != 0 ==>
                  TitleRow(t, n, c).1 == n.Get(c).title && TitleRow(t, r, c).1 == Fresh(t, n.Get(c).title))
  {
    hide Text, PathOf, Append;
  }

  lemma AllocMemberMarks(s: Store, net: string, c: Category, name: string, tag: int, st: set<Mark>)
    requires Shape(s) && Marks(s, st) && AllocMember(s, net, c, name, tag).Some?
    ensures Marks(AllocMember(s, net, c, name, tag).value, st)
  {
    hide NetShape, NetSids, NetMarks, RefreshNet, TreeOk, TitleRow, MemberRow;
    var r := Refreshed(s);
    RefreshedOk(s);
    SameIndex(s.nets, r.nets, net);
    AllocMemberKeeps(r, net, c, name, tag);
    var s', r' := AllocMember(s, net, c, name, tag).value, AllocMember(r, net, c, name, tag).value;
    var k := NetIndex(s.nets, net);
    var n := s.nets[k];
    TitleRowSame(s.tree, n, c);
    RefreshedGet(s.tree, n, c);
    assert s'.tree == r'.tree;
    forall i | 0 <= i < |s'.nets|
      ensures NetMarks(s'.tree, s'.nets[i], st)
    {
      assert NetSids(r'.tree, r'.nets[i]);
      if i != k {
        assert r'.nets[i] == RefreshNet(s.tree, s.nets[i]);
        NetCarried(s.tree, s'.tree, s.nets[i], st);
      } else {
        var (t1, title) := TitleRow(s.tree, n, c);
        var m := MemberRow(t1, title.iter, c, name, tag).1;
        var title' := TitleRow(s.tree, r.nets[k], c).1;
        assert r'.nets[k] == Grown(RefreshNet(s.tree, n), c, title', m);
        NetGrown(s.tree, s'.tree, n, c, title, title', m, st);
      }
    }
    SameIndexAfter(s.nets, s'.nets, st);
  }

  lemma SameIndexAfter(a: seq<Net>, b: seq<Net>, st: set<Mark>)
    requires |a| == |b| && forall k :: 0 <= k < |a| ==> a[k].name == b[k].name
    requires forall x :: x in st ==> NetIndex(a, x.net) < |a|
    ensures forall x :: x in st ==> NetIndex(b, x.net) < |b|
  {
    forall x | x in st
      ensures NetIndex(b, x.net) < |b|
    {
      SameIndex(a, b, x.net);
    }
  }

  // The net with one more member.
  function Grown(n: Net, c: Category, title: RowRef, m: Member): Net {
    n.Set(c, Group(title, n.Get(c).nb + 1, [m] + n.Get(c).members))
  }

  lemma NetGrown(t: Tree, u: Tree, n: Net, c: Category, title: RowRef, title': RowRef, m: Member, st: set<Mark>)
    requires NetShape(t, n) && NetMarks(t, n, st) && NetSids(u, Grown(RefreshNet(t, n), c, title', m))
    requires if n.Get(c).nb == 0 then title == title' else title == n.Get(c).title && title' == Fresh(t, title)
    ensures NetMarks(u, Grown(n, c, title, m), st)
  {
    hide NetShape, RefreshGroup, RefreshMembers, Text, PathOf, GroupSids, GroupMarks;
    var r := Grown(RefreshNet(t, n), c, title', m);
    var n' := Grown(n, c, title, m);
    assert r.top == n.top && r.graph == n.graph && r.kill == n.kill && n'.name == n.name;
    forall d: Category
      ensures GroupMarks(u, n'.Get(d), Mark(n'.name, d) in st)
    {
      TitleChild(t, n, d);
      RefreshedGet(t, n, d);
      assert GroupSids(u, r.Get(d)) && GroupMarks(t, n.Get(d), Mark(n.name, d) in st);
      if d != c {
        assert n'.Get(d) == n.Get(d) && r.Get(d) == RefreshGroup(t, n.Get(d));
        GroupCarried(t, u, n.Get(d), Mark(n.name, d) in st);
      } else {
        assert r.Get(c) == Group(title', n.Get(c).nb + 1, [m] + RefreshMembers(t, n.Get(c).members));
        GroupGrown(t, u, n.Get(c), title, title', m, Mark(n.name, c) in st);
      }
    }
  }

  lemma GroupGrown(t: Tree, u: Tree, g: Group, title: RowRef, title': RowRef, m: Member, stale: bool)
    requires GroupMarks(t, g, stale) && g.nb == |g.members| && (g.title.iter.Child? || g.members == [])
    requires GroupSids(u, Group(title', g.nb + 1, [m] + RefreshMembers(t, g.members)))
    requires if g.nb == 0 then title == title' else title == g.title && title' == Fresh(t, title)
    ensures GroupMarks(u, Group(title, g.nb + 1, [m] + g.members), stale)
  {
    hide Text, PathOf, MemberSids, Lags, RefreshMembers;
    RefreshLength(t, g.members);
    if g.members == [] {
      assert RefreshMembers(t, g.members) == g.members;
    } else if stale {
      SamePath(t, u, title.iter);
    } else {
      RightGroup(t, g);
    }
  }

  // ----- releases ----------------------------------------------------------------

  // The titles that move up when the title of c goes.
  function LaterTitles(t: Tree, n: Net, c: Category): set<Mark> {
    set d: Category | d in {Vm, Sat, Lan} && n.Get(d).members != [] && TitlePosition(t, n, d) > TitlePosition(t, n, c) ::
      Mark(n.name, d)
  }

  lemma OtherNetMarks(t: Tree, n: Net, c: Category, j: nat, b: Net, st: set<Mark>)
    requires TreeOk(t) && NetShape(t, n) && j < |n.Get(c).members| && NetShape(t, b) && b.top.iter != n.top.iter
    requires NetMarks(t, b, st)
    ensures Gone(n, c, j).Child?
    ensures NetMarks(Remove(t, Gone(n, c, j)), b, st)
  {
    hide NetShape, NetSids, NetMarks, Remove, RefreshNet;
    RefreshNetOk(t, b);
    RefreshNetNames(t, b);
    OtherNetLeft(t, n, c, j, RefreshNet(t, b));
    NetCarried(t, Remove(t, Gone(n, c, j)), b, st);
  }

  lemma FixedSids(t: Tree, u: Tree, n: Net)
    requires NetShape(t, n) && RefOk(t, n.top) && RefOk(t, n.graph) && RefOk(t, n.kill)
    requires PathOf(u, n.top.iter) == PathOf(t, n.top.iter)
    requires PathOf(u, n.graph.iter) == PathOf(t, n.graph.iter) && PathOf(u, n.kill.iter) == PathOf(t, n.kill.iter)
    ensures RefOk(u, n.top) && RefOk(u, n.graph) && RefOk(u, n.kill)
  {
  }

  // A member goes and others of its category remain: all rows above members
  // stay in place.
  lemma OneOfManyMarks(t: Tree, n: Net, c: Category, j: nat, st: set<Mark>)
    requires TreeOk(t) && NetShape(t, n) && j < |n.Get(c).members| && n.Get(c).nb > 1 && NetMarks(t, n, st)
    ensures Gone(n, c, j).Child?
    ensures var u := Remove(t, Gone(n, c, j)); NetMarks(u, NetWithout(n, c, j, u), st)
  {
    hide Remove, NetShape, RefreshMembers, Text, GroupMarks;
    GoneWithin(t, n, c, j);
    OneOfMany(t, n, c, j);
    var r := Gone(n, c, j);
    var u := Remove(t, r);
    var n' := NetWithout(n, c, j, u);
    FixedRows(t, n);
    TopPath(t, u, n.top.iter);
    RowPath(t, u, n.top.iter, n.graph.iter);
    RowPath(t, u, n.top.iter, n.kill.iter);
    FixedSids(t, u, n);
    forall d: Category
      ensures GroupMarks(u, n'.Get(d), Mark(n'.name, d) in st)
    {
      TitleChild(t, n, d);
      assert GroupMarks(t, n.Get(d), Mark(n.name, d) in st);
      if n.Get(d).members != [] { RowPath(t, u, n.top.iter, n.Get(d).title.iter); }
      if d != c {
        assert n'.Get(d) == n.Get(d);
        OtherGroupLeft(t, n, c, r, d);
        StillMarks(t, u, n, d, Mark(n.name, d) in st);
      } else {
        RefreshLength(u, Drop(n.Get(c).members, j));
        RefreshedSids(u, Drop(n.Get(c).members, j));
        RefreshedMarks(t, u, n.Get(c), n'.Get(c), Mark(n.name, c) in st);
      }
    }
  }

  lemma RefreshedMarks(t: Tree, u: Tree, g: Group, g': Group, stale: bool)
    requires GroupMarks(t, g, stale) && g.members != [] && g'.members != [] && g'.title == g.title
    requires PathOf(u, g.title.iter) == PathOf(t, g.title.iter)
    requires forall j :: 0 <= j < |g'.members| ==> MemberSids(u, g'.members[j])
    ensures GroupMarks(u, g', stale)
  {
    hide Text, MemberSids, Lags;
  }

  // A category whose title row and subtree stayed in place.
  lemma StillMarks(t: Tree, u: Tree, n: Net, d: Category, stale: bool)
    requires NetShape(t, n) && GroupMarks(t, n.Get(d), stale)
    requires n.Get(d).members != [] ==> SameWithin(t, u, n.Get(d).title.iter)
    requires n.Get(d).members != [] ==> PathOf(u, n.Get(d).title.iter) == PathOf(t, n.Get(d).title.iter)
    ensures GroupMarks(u, n.Get(d), stale)
  {
    hide NetShape, GroupSids, Lags, Text, SameWithin;
    if !stale && n.Get(d).members != [] {
      OtherGroupSids(t, u, n, d);
    }
  }

  // The last member of a category goes: later titles move up.
  lemma LastMarks(t: Tree, n: Net, c: Category, st: set<Mark>)
    requires TreeOk(t) && NetShape(t, n) && n.Get(c).nb == 1 && NetMarks(t, n, st)
    ensures n.Get(c).title.iter.Child?
    ensures var u := Remove(t, n.Get(c).title.iter);
            |n.Get(c).members| == 1 &&
            NetMarks(u, NetWithout(n, c, 0, u), (st - {Mark(n.name, c)}) + LaterTitles(t, n, c))
  {
    hide Remove, NetShape, RefreshMembers, Text, GroupMarks, TitlePosition;
    CountOk(t, n, c);
    GoneWithin(t, n, c, 0);
    LastOfCategory(t, n, c);
    var r := n.Get(c).title.iter;
    var u := Remove(t, r);
    var top, p := n.top.iter, TitlePosition(t, n, c);
    var n' := NetWithout(n, c, 0, u);
    var st' := (st - {Mark(n.name, c)}) + LaterTitles(t, n, c);
    FixedRows(t, n);
    TopPath(t, u, top);
    TitlePositionOk(t, n, c);
    TopInTree(t, n);
    EarlierRow(t, u, top, p, 0, n.graph.iter);
    EarlierRow(t, u, top, p, 1, n.kill.iter);
    FixedSids(t, u, n);
    RefreshLength(u, Drop(n.Get(c).members, 0));
    forall d: Category
      ensures GroupMarks(u, n'.Get(d), Mark(n'.name, d) in st')
    {
      assert GroupMarks(t, n.Get(d), Mark(n.name, d) in st);
      if d == c {
        assert Mark(n.name, c) !in st';
        NoGroupMarks(u, n'.Get(c));
      } else {
        assert n'.Get(d) == n.Get(d);
        LastMarksOther(t, n, c, d, st, st');
      }
    }
  }

  lemma NoGroupMarks(u: Tree, g: Group)
    requires g.members == []
    ensures GroupMarks(u, g, false)
  {
  }

  lemma LastMarksOther(t: Tree, n: Net, c: Category, d: Category, st: set<Mark>, st': set<Mark>)
    requires TreeOk(t) && NetShape(t, n) && n.Get(c).nb == 1 && d != c
    requires GroupMarks(t, n.Get(d), Mark(n.name, d) in st)
    requires st' == (st - {Mark(n.name, c)}) + LaterTitles(t, n, c)
    ensures n.Get(c).title.iter.Child?
    ensures GroupMarks(Remove(t, n.Get(c).title.iter), n.Get(d), Mark(n.name, d) in st')
  {
    hide Remove, NetShape, Text, GroupMarks, TitlePosition;
    CountOk(t, n, c);
    GoneWithin(t, n, c, 0);
    LastOfCategory(t, n, c);
    var r := n.Get(c).title.iter;
    var u := Remove(t, r);
    var top, p := n.top.iter, TitlePosition(t, n, c);
    FixedRows(t, n);
    TopPath(t, u, top);
    TitlePositionOk(t, n, c);
    TopInTree(t, n);
    OtherGroupLeft(t, n, c, r, d);
    if n.Get(d).members == [] {
      EmptyMarks(t, u, n.Get(d), Mark(n.name, d) in st);
    } else {
      var q := TitlePosition(t, n, d);
      TitlePositionOk(t, n, d);
      DistinctTitles(t, n, c, d);
      if q < p {
        EarlierRow(t, u, top, p, q, n.Get(d).title.iter);
        StillMarks(t, u, n, d, Mark(n.name, d) in st);
      } else {
        assert Mark(n.name, d) in LaterTitles(t, n, c);
        LaterRow(t, u, top, p, q, n.Get(d).title.iter);
        MovedMarks(t, u, n.Get(d), Mark(n.name, d) in st);
      }
    }
  }

  lemma EmptyMarks(t: Tree, u: Tree, g: Group, stale: bool)
    requires GroupMarks(t, g, stale) && g.members == []
    ensures GroupMarks(u, g, stale)
  {
  }

  // The path of a row behind a removed sibling.
  lemma LaterRow(t: Tree, u: Tree, top: Handle, p: nat, q: nat, h: Handle)
    requires TreeOk(t) && top in t.kids && p < q < |Kids(t, top)| && h == Child(top, Kids(t, top)[q])
    requires Kids(u, top) == Kids(t, top)[..p] + Kids(t, top)[p + 1..] && PathOf(u, top) == PathOf(t, top)
    ensures PathOf(t, h) == PathOf(t, top) + [q] && PathOf(u, h) == PathOf(t, top) + [q - 1]
  {
    assert RowOk(t, top);
    IndexAfter(Kids(t, top), p, q, t.next);
  }

  lemma MovedMarks(t: Tree, u: Tree, g: Group, stale: bool)
    requires GroupMarks(t, g, stale) && g.members != []
    requires var a, b := PathOf(t, g.title.iter), PathOf(u, g.title.iter);
             |a| > 0 && |a| == |b| && a[..|a| - 1] == b[..|b| - 1] && b[|b| - 1] < a[|a| - 1]
    ensures GroupMarks(u, g, true)
  {
    hide Text, MemberSids;
    var a, b := PathOf(t, g.title.iter), PathOf(u, g.title.iter);
    if stale {
      var y :| y > a[|a| - 1] && g.title.sid == Text(a[..|a| - 1] + [y]);
      assert y > b[|b| - 1] && g.title.sid == Text(b[..|b| - 1] + [y]);
    } else {
      assert a == b[..|b| - 1] + [a[|a| - 1]];
      assert g.title.sid == Text(b[..|b| - 1] + [a[|a| - 1]]);
    }
  }

  lemma MarksLocal(t: Tree, n: Net, st: set<Mark>, st': set<Mark>)
    requires NetMarks(t, n, st) && forall c :: Mark(n.name, c) in st <==> Mark(n.name, c) in st'
    ensures NetMarks(t, n, st')
  {
    hide GroupMarks, Text, PathOf;
  }

  // The marks after a release.
  function Released(s: Store, net: string, c: Category, st: set<Mark>): set<Mark> {
    var k := NetIndex(s.nets, net);
    if k < |s.nets| && s.nets[k].Get(c).nb == 1
    then (st - {Mark(net, c)}) + LaterTitles(s.tree, s.nets[k], c)
    else st
  }

  lemma FreeMemberMarks(s: Store, net: string, c: Category, name: string, st: set<Mark>)
    requires Shape(s) && Marks(s, st) && FreeMember(s, net, c, name).Some?
    ensures Marks(FreeMember(s, net, c, name).value, Released(s, net, c, st))
  {
    hide NetShape, NetMarks, Remove, RefreshMembers, FreeMember, Gone, NetWithout, LaterTitles;
    var k := NetIndex(s.nets, net);
    FreeMemberForm(s, net, c, name);
    NetIndexFound(s.nets, net);
    var n := s.nets[k];
    var j := MemberIndex(n.Get(c).members, name);
    var s' := FreeMember(s, net, c, name).value;
    var st' := Released(s, net, c, st);
    ReleasedNet(s.tree, n, c, j, st);
    ReleasedNames(s, net, c, st);
    forall i | 0 <= i < |s'.nets|
      ensures NetMarks(s'.tree, s'.nets[i], st') && s'.nets[i].name == s.nets[i].name
    {
      if i != k {
        DistinctTops(s, i, k);
        OtherNetMarks(s.tree, n, c, j, s.nets[i], st);
        MarksLocal(s'.tree, s.nets[i], st, st');
      } else {
        WithoutName(n, c, j, s'.tree);
      }
    }
    SameIndexAfter(s.nets, s'.nets, st');
  }

  lemma WithoutName(n: Net, c: Category, j: nat, u: Tree)
    requires j < |n.Get(c).members|
    ensures NetWithout(n, c, j, u).name == n.name
  {
  }

  lemma ReleasedNames(s: Store, net: string, c: Category, st: set<Mark>)
    requires forall x: Mark :: x in st ==> NetIndex(s.nets, x.net) < |s.nets|
    requires NetIndex(s.nets, net) < |s.nets| && s.nets[NetIndex(s.nets, net)].name == net
    ensures forall x :: x in Released(s, net, c, st) ==> NetIndex(s.nets, x.net) < |s.nets|
    ensures forall x: Mark :: x.net != net ==> (x in Released(s, net, c, st) <==> x in st)
  {
    hide TitlePosition, NetIndex;
  }

  lemma ReleasedNet(t: Tree, n: Net, c: Category, j: nat, st: set<Mark>)
    requires TreeOk(t) && NetShape(t, n) && j < |n.Get(c).members| && NetMarks(t, n, st)
    ensures Gone(n, c, j).Child?
    ensures NetMarks(Remove(t, Gone(n, c, j)), NetWithout(n, c, j, Remove(t, Gone(n, c, j))),
                     if n.Get(c).nb == 1 then (st - {Mark(n.name, c)}) + LaterTitles(t, n, c) else st)
  {
    hide NetShape, NetMarks, Remove, RefreshMembers, NetWithout, LaterTitles;
    CountOk(t, n, c);
    if n.Get(c).nb == 1 {
      LastMarks(t, n, c, st);
    } else {
      OneOfManyMarks(t, n, c, j, st);
    }
  }

  // ----- a marked title is lost -----------------------------------------------------

  // No other record owns the row of a title.
  lemma OnlyTitle(s: Store, k: nat, c: Category, p: Place)
    requires Shape(s) && k < |s.nets| && s.nets[k].Get(c).members != []
    requires ValidPlace(s, p) && RowAt(s, p) == s.nets[k].Get(c).title.iter
    ensures p == AtTitle(k, c)
  {
    hide Shape, PathOf, TitlePosition;
    PlacePathOk(s, p);
    TitleAt(s, k, c);
    PlaceDepth(s, p);
    if p.AtTitle? {
      TitleAt(s, p.k, p.c);
      if p.c != c && p.k == k { TitlesDiffer(s, k, c, p.c); }
    }
  }

  lemma PlaceDepth(s: Store, p: Place)
    requires ValidPlace(s, p)
    ensures var q := PlacePath(s, p);
            && |q| > 0 && q[0] == |s.nets| - 1 - p.k
            && (|q| == 2 ==> if p.AtTitle? then q[1] == TitlePosition(s.tree, s.nets[p.k], p.c) else q[1] < 2)
            && (p.AtTitle? ==> |q| == 2)
  {
  }

  lemma GroupKinds(d: Category, g: Group, str: string, c: Category)
    ensures FindInGroup(d, g, str).0 == TitleKind(c) ==> d == c && g.title.sid == str
  {
    var r := FindInGroup(d, g, str);
    if g.nb != 0 && PrefixOf(g.title.sid, str) && |g.title.sid| == |str| {
      assert str[..|str|] == str;
    }
  }

  lemma NetKinds(n: Net, str: string, c: Category)
    requires n.Get(c).title.sid != str
    ensures FindInNet(n, str).0 != TitleKind(c)
  {
    hide FindInGroup;
    GroupKinds(Vm, n.vm, str, c);
    GroupKinds(Sat, n.sat, str, c);
    GroupKinds(Lan, n.lan, str, c);
  }

  lemma StaleLoses(s: Store, st: set<Mark>, x: Mark)
    requires Shape(s) && Marks(s, st) && x in st
    ensures !AllRowsResolve(s)
  {
    hide Shape, NetShape, Text, PathOf, FindInNet, TitlePosition, RowAt, Meaning;
    var k := NetIndex(s.nets, x.net);
    NetIndexFound(s.nets, x.net);
    var n := s.nets[k];
    var g := n.Get(x.c);
    assert NetMarks(s.tree, n, st) && GroupMarks(s.tree, g, true);
    TitleAt(s, k, x.c);
    var h := g.title.iter;
    var q := PathOf(s.tree, h);
    assert h.Child? by { NetAt(s, k); FixedRows(s.tree, n); }
    forall i | 0 <= i < |s.nets|
      ensures RefOk(s.tree, s.nets[i].top)
    {
      assert NetMarks(s.tree, s.nets[i], st);
    }
    NetMatchAt(s, k, q);
    LagsDiffer(q, g.title.sid);
    NetKinds(n, Text(q), x.c);
    if Resolves(s, h) {
      var p :| ValidPlace(s, p) && RowAt(s, p) == h && Lookup(s.nets, Text(q)) == Meaning(s, p);
      assert RowAt(s, p) == h;
      OnlyTitle(s, k, x.c, p);
      TitleMeaning(s, k, x.c);
    }
  }

  lemma TitleMeaning(s: Store, k: nat, c: Category)
    requires ValidPlace(s, AtTitle(k, c))
    ensures Meaning(s, AtTitle(k, c)).kind == TitleKind(c)
  {
  }

  lemma LagsDiffer(q: Path, sid: string)
    requires Lags(q, sid)
    ensures sid != Text(q)
  {
    hide Text;
    var y :| y > q[|q| - 1] && sid == Text(q[..|q| - 1] + [y]);
    var r := q[..|q| - 1] + [y];
    assert r[|q| - 1] != q[|q| - 1];
    if Text(r) == Text(q) {
      TextInjective(r, q);
    }
  }

  // Every row resolves if and only if no title is marked.
  lemma MarksDecide(s: Store, st: set<Mark>)
    requires Shape(s) && Marks(s, st)
    ensures AllRowsResolve(s) <==> st == {}
  {
    hide Shape, Marks, AllRowsResolve;
    if st == {} {
      NoMarksAgree(s);
      AgreeResolves(s);
    } else {
      var x :| x in st;
      StaleLoses(s, st, x);
    }
  }

  // ----- what the paths of moved rows resolve to -------------------------------------

  // After the last member of a category was released, every path outside it
  // still resolves to what stood there before, whatever stands there now.
  lemma OldPathsStay(s: Store, net: string, c: Category, name: string, p: Place)
    requires Shape(s) && Agree(s) && FreeMember(s, net, c, name).Some? && ValidPlace(s, p)
    requires p.k == NetIndex(s.nets, net) && s.nets[p.k].Get(c).nb == 1 && !InCategory(p, c)
    requires p.AtSub? ==> p.i < |SUB_KINDS|
    ensures Lookup(FreeMember(s, net, c, name).value.nets, Click(s, p)) == Meaning(s, p)
  {
    hide NetShape, NetSids, Remove, RefreshMembers, FreeMember, Text, PathOf, TitlePosition, FindFixed, FindInGroup;
    var k := p.k;
    FreeMemberForm(s, net, c, name);
    FreeMemberShape(s, net, c, name);
    var n := s.nets[k];
    var s' := FreeMember(s, net, c, name).value;
    CountOk(s.tree, n, c);
    var u := Remove(s.tree, n.Get(c).title.iter);
    assert s' == Store(u, s.nets[k := NetWithout(n, c, 0, u)]);
    forall x | 0 <= x < |s'.nets|
      ensures RefOk(u, s'.nets[x].top)
    {
      TopsStayRight(s, k, c, x);
    }
    PlacePathHead(s, p);
    NetMatchAt(s', k, PlacePath(s, p));
    WithoutFinds(s, k, c, u, p);
  }

  lemma PlacePathHead(s: Store, p: Place)
    requires Shape(s) && ValidPlace(s, p)
    ensures |PlacePath(s, p)| > 0 && PlacePath(s, p)[0] == |s.nets| - 1 - p.k
    ensures Click(s, p) == Text(PlacePath(s, p))
  {
    hide Shape, Text, PathOf, TitlePosition;
    PlacePathOk(s, p);
  }

  lemma WithoutFinds(s: Store, k: nat, c: Category, u: Tree, p: Place)
    requires Shape(s) && Agree(s) && k < |s.nets| && |s.nets[k].Get(c).members| == 1 == s.nets[k].Get(c).nb
    requires ValidPlace(s, p) && p.k == k && !InCategory(p, c) && (p.AtSub? ==> p.i < |SUB_KINDS|)
    ensures FindInNet(NetWithout(s.nets[k], c, 0, u), Click(s, p)) == (Meaning(s, p).kind, Meaning(s, p).name)
  {
    hide Shape, Agree, Text, PlacePath, FindMember, RefreshMembers, TitlePosition;
    var n := s.nets[k];
    var n' := NetWithout(n, c, 0, u);
    FixedMatch(s, p);
    assert FindFixed(n', Click(s, p)) == FindFixed(n, Click(s, p));
    if p.AtTitle? || p.AtMember? || p.AtSub? {
      OwnCategory(s, p);
      forall d: Category | d != p.c
        ensures FindInGroup(d, n'.Get(d), Click(s, p)) == (NoKind, "")
      {
        if d != c {
          assert n'.Get(d) == n.Get(d);
          OtherCategory(s, p, d);
        }
      }
      assert n'.Get(p.c) == n.Get(p.c);
      assert n'.Get(Vm) == n'.vm && n'.Get(Sat) == n'.sat && n'.Get(Lan) == n'.lan;
    }
  }

  // Category c is about to be emptied, and the titles of d and then e follow.
  predicate Behind(t: Tree, n: Net, c: Category, d: Category, e: Category) {
    && n.Get(c).nb == 1 && n.Get(d).members != [] && n.Get(e).members != [] && d != c && e != c
    && TitlePosition(t, n, c) < TitlePosition(t, n, d)
    && TitlePosition(t, n, e) == TitlePosition(t, n, d) + 1
  }

  // The title of e takes the path that the title of d had.
  lemma TitleMovedUp(t: Tree, n: Net, c: Category, d: Category, e: Category)
    requires TreeOk(t) && NetShape(t, n) && Behind(t, n, c, d, e)
    ensures n.Get(c).title.iter.Child?
    ensures var u := Remove(t, n.Get(c).title.iter); var h := n.Get(e).title.iter;
            && TreeOk(u) && SameAt(t, u, h)
            && PathOf(u, h) == PathOf(t, n.top.iter) + [TitlePosition(t, n, d)]
  {
    hide NetShape, Remove, RefreshMembers, Text, TitlePosition, PathOf;
    CountOk(t, n, c);
    GoneWithin(t, n, c, 0);
    LastOfCategory(t, n, c);
    var r := n.Get(c).title.iter;
    var u := Remove(t, r);
    FixedRows(t, n);
    TopPath(t, u, n.top.iter);
    TitlePositionOk(t, n, c);
    TitlePositionOk(t, n, e);
    TopInTree(t, n);
    LaterRow(t, u, n.top.iter, TitlePosition(t, n, c), TitlePosition(t, n, e), n.Get(e).title.iter);
    OtherGroupLeft(t, n, c, r, e);
    assert SameAt(t, u, n.Get(e).title.iter);
  }

  // And its members those of the members of d with the same place.
  lemma MemberMovedUp(s: Store, k: nat, c: Category, d: Category, e: Category, i: nat, j: nat)
    requires Shape(s) && k < |s.nets| && Behind(s.tree, s.nets[k], c, d, e)
    requires i < |s.nets[k].Get(d).members| && j < |s.nets[k].Get(e).members|
    requires |s.nets[k].Get(d).members| - i == |s.nets[k].Get(e).members| - j
    ensures s.nets[k].Get(c).title.iter.Child?
    ensures PathOf(Remove(s.tree, s.nets[k].Get(c).title.iter), s.nets[k].Get(e).members[j].top.iter)
         == PlacePath(s, AtMember(k, d, i))
  {
    hide NetShape, Remove, Text, TitlePosition, PathOf, TreeOk;
    var n, t := s.nets[k], s.tree;
    TitleMovedUp(t, n, c, d, e);
    var u := Remove(t, n.Get(c).title.iter);
    NetAt(s, k);
    TitleAt(s, k, e);
    MemberAt(s, k, e, j);
    KidPath(u, n.Get(e).title.iter, |n.Get(e).members| - 1 - j);
  }

  // So when two titles follow the emptied category, a click on the second one,
  // and on each row below it, names the first one's category instead.
  lemma Misnamed(s: Store, net: string, c: Category, name: string, d: Category, e: Category)
    requires Shape(s) && Agree(s) && FreeMember(s, net, c, name).Some?
    requires NetIndex(s.nets, net) < |s.nets| && Behind(s.tree, s.nets[NetIndex(s.nets, net)], c, d, e)
    ensures var n := s.nets[NetIndex(s.nets, net)]; var s' := FreeMember(s, net, c, name).value;
            Lookup(s'.nets, Text(PathOf(s'.tree, n.Get(e).title.iter))) == Hit(TitleKind(d), n.name, "")
  {
    hide Shape, Agree, NetShape, Remove, FreeMember, Text, PathOf, TitlePosition, Lookup, TreeOk;
    var k := NetIndex(s.nets, net);
    ReleasedTree(s, net, c, name);
    assert TreeOk(s.tree) && NetShape(s.tree, s.nets[k]) by { NetAt(s, k); ShapeTree(s); }
    TitleMovedUp(s.tree, s.nets[k], c, d, e);
    NetAt(s, k);
    OldPathsStay(s, net, c, name, AtTitle(k, d));
    PlacePathHead(s, AtTitle(k, d));
  }

  lemma MisnamedMember(s: Store, net: string, c: Category, name: string, d: Category, e: Category, i: nat, j: nat)
    requires Shape(s) && Agree(s) && FreeMember(s, net, c, name).Some?
    requires NetIndex(s.nets, net) < |s.nets| && Behind(s.tree, s.nets[NetIndex(s.nets, net)], c, d, e)
    requires i < |s.nets[NetIndex(s.nets, net)].Get(d).members| && j < |s.nets[NetIndex(s.nets, net)].Get(e).members|
    requires |s.nets[NetIndex(s.nets, net)].Get(d).members| - i == |s.nets[NetIndex(s.nets, net)].Get(e).members| - j
    ensures var n := s.nets[NetIndex(s.nets, net)]; var s' := FreeMember(s, net, c, name).value;
            Lookup(s'.nets, Text(PathOf(s'.tree, n.Get(e).members[j].top.iter))) ==
            Hit(MemberKind(d), n.name, n.Get(d).members[i].name)
  {
    hide Shape, Agree, NetShape, Remove, FreeMember, Text, PathOf, TitlePosition, Lookup, TreeOk;
    var k := NetIndex(s.nets, net);
    ReleasedTree(s, net, c, name);
    MemberMovedUp(s, k, c, d, e, i, j);
    OldPathsStay(s, net, c, name, AtMember(k, d, i));
    PlacePathHead(s, AtMember(k, d, i));
  }

  lemma ShapeTree(s: Store)
    requires Shape(s)
    ensures TreeOk(s.tree)
  {
  }

  lemma ReleasedTree(s: Store, net: string, c: Category, name: string)
    requires Shape(s) && FreeMember(s, net, c, name).Some? && NetIndex(s.nets, net) < |s.nets|
    requires s.nets[NetIndex(s.nets, net)].Get(c).nb == 1
    ensures s.nets[NetIndex(s.nets, net)].Get(c).title.iter.Child?
    ensures FreeMember(s, net, c, name).value.tree ==
            Remove(s.tree, s.nets[NetIndex(s.nets, net)].Get(c).title.iter)
  {
    hide NetShape, Remove, RefreshMembers, FreeMember, TreeOk;
    FreeMemberForm(s, net, c, name);
  }

  // ----- runs ----------------------------------------------------------------------

  function StepMarks(s: Store, op: Op, st: set<Mark>): set<Mark> {
    match op
    case NetAlloc(_) => st
    case MemberAlloc(_, _, _, _) => st
    case MemberFree(net, c, _) => Released(s, net, c, st)
    case NetFree(_) => {}
  }

  // The titles that moved since their records were last refreshed: a release
  // that empties a category adds the later titles of the net and takes its
  // own, the release of a net takes all.
  function RunMarks(s: Store, ops: seq<Op>, st: set<Mark>): set<Mark>
    requires Shape(s)
    decreases |ops|
  {
    hide Shape, Step;
    if ops == [] then st
    else
      match Step(s, ops[0])
      case None => st
      case Some(u) => StepShape(s, ops[0]); RunMarks(u, ops[1..], StepMarks(s, ops[0], st))
  }

  lemma StepMarked(s: Store, op: Op, st: set<Mark>)
    requires Shape(s) && Marks(s, st) && Step(s, op).Some?
    ensures Marks(Step(s, op).value, StepMarks(s, op, st))
  {
    hide Shape, Marks, Agree, AllocNet, AllocMember, FreeMember, FreeNet, Released;
    Unique(s);
    match op
    case NetAlloc(net) => AllocNetMarks(s, net, st);
    case MemberAlloc(net, c, name, tag) => AllocMemberMarks(s, net, c, name, tag, st);
    case MemberFree(net, c, name) => FreeMemberMarks(s, net, c, name, st);
    case NetFree(net) =>
      FreeNetRepairs(s, net);
      NothingMarked(FreeNet(s, net).value);
  }

  lemma {:induction false} RunMarked(s: Store, ops: seq<Op>, st: set<Mark>)
    requires Shape(s) && Marks(s, st) && Run(s, ops).Some?
    ensures Marks(Run(s, ops).value, RunMarks(s, ops, st))
    decreases |ops|
  {
    hide Shape, Marks, Step, StepMarks;
    if ops != [] {
      StepShape(s, ops[0]);
      StepMarked(s, ops[0], st);
      RunMarked(Step(s, ops[0]).value, ops[1..], StepMarks(s, ops[0], st));
    }
  }

  // Main result over runs, both ways: after any run from the empty store every
  // row resolves to its record if and only if no title is left that moved
  // since it was refreshed.
  lemma EveryRunExact(ops: seq<Op>)
    requires Shape(INITIAL) && Run(INITIAL, ops).Some?
    ensures AllRowsResolve(Run(INITIAL, ops).value) <==> RunMarks(INITIAL, ops, {}) == {}
  {
    hide Shape, Marks, Agree, Run, RunMarks, AllRowsResolve;
    InitialShape();
    NothingMarked(INITIAL);
    RunMarked(INITIAL, ops, {});
    RunShape(INITIAL, ops);
    MarksDecide(Run(INITIAL, ops).value, RunMarks(INITIAL, ops, {}));
  }

  lemma {:induction false} RunShape(s: Store, ops: seq<Op>)
    requires Shape(s) && Run(s, ops).Some?
    ensures Shape(Run(s, ops).value)
    decreases |ops|
  {
    hide Shape, Step;
    if ops != [] {
      StepShape(s, ops[0]);
      RunShape(Step(s, ops[0]).value, ops[1..]);
    }
  }
}
