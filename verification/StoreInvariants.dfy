// Every allocation and release keeps the two forms of the store in step, and
// exactly one kind of release leaves cached paths stale.
module StoreInvariants {
  import opened PathText
  import opened TreeStore
  import opened HyperStore

  // ----- rows that did not change ------------------------------------------

  lemma MemberFrame(t: Tree, u: Tree, title: Handle, c: Category, m: Member)
    requires MemberShape(t, title, c, m) && SameWithin(t, u, m.top.iter)
    ensures MemberShape(u, title, c, m)
  {
    assert SameAt(t, u, m.top.iter);
    forall i | 0 <= i < |m.subs|
      ensures LeafAt(u, m.top.iter, i, m.subs[i], SubNames(c)[i])
    {
      assert LeafAt(t, m.top.iter, i, m.subs[i], SubNames(c)[i]);
      assert Within(m.subs[i].iter, m.top.iter);
    }
  }

  lemma SameBelow(t: Tree, u: Tree, a: Handle, h: Handle)
    requires SameWithin(t, u, a) && Within(h, a)
    ensures SameWithin(t, u, h)
  {
    forall x | Within(x, h)
      ensures SameAt(t, u, x)
    {
      WithinTrans(x, h, a);
    }
  }

  lemma GroupFrame(t: Tree, u: Tree, top: Handle, c: Category, g: Group)
    requires GroupShape(t, top, c, g)
    requires g.members != [] ==> SameWithin(t, u, g.title.iter)
    ensures GroupShape(u, top, c, g)
  {
    if g.members != [] {
      assert SameAt(t, u, g.title.iter);
      forall j | 0 <= j < |g.members|
        ensures MemberShape(u, g.title.iter, c, g.members[j])
      {
        assert Within(g.members[j].top.iter, g.title.iter);
        SameBelow(t, u, g.title.iter, g.members[j].top.iter);
        MemberFrame(t, u, g.title.iter, c, g.members[j]);
      }
    }
  }

  lemma NetFrame(t: Tree, u: Tree, n: Net)
    requires NetShape(t, n) && SameWithin(t, u, n.top.iter)
    ensures NetShape(u, n)
  {
    assert SameAt(t, u, n.top.iter);
    assert Within(n.graph.iter, n.top.iter) && Within(n.kill.iter, n.top.iter);
    forall c: Category
      ensures GroupShape(u, n.top.iter, c, n.Get(c))
    {
      if n.Get(c).members != [] {
        assert Within(n.Get(c).title.iter, n.top.iter);
        SameBelow(t, u, n.top.iter, n.Get(c).title.iter);
      }
      GroupFrame(t, u, n.top.iter, c, n.Get(c));
    }
  }

  // Cached paths stay right when no row they belong to moved.
  ghost predicate Unmoved(t: Tree, u: Tree) {
    forall h :: h in t.kids ==> PathOf(u, h) == PathOf(t, h)
  }

  ghost predicate UnmovedIn(t: Tree, u: Tree, a: Handle) {
    forall h :: h in t.kids && Within(h, a) ==> PathOf(u, h) == PathOf(t, h)
  }

  lemma {:induction false} PathBelow(t: Tree, u: Tree, a: Handle, h: Handle)
    requires PathOf(u, a) == PathOf(t, a) && SameWithin(t, u, a) && Within(h, a)
    ensures PathOf(u, h) == PathOf(t, h)
  {
    if h != a {
      PathBelow(t, u, a, h.parent);
      assert SameAt(t, u, h.parent);
    }
  }

  lemma SubtreeUnmoved(t: Tree, u: Tree, a: Handle)
    requires PathOf(u, a) == PathOf(t, a) && SameWithin(t, u, a)
    ensures UnmovedIn(t, u, a)
  {
    forall h | Within(h, a)
      ensures PathOf(u, h) == PathOf(t, h)
    {
      PathBelow(t, u, a, h);
    }
  }

  lemma NetSidsFrame(t: Tree, u: Tree, n: Net)
    requires NetShape(t, n) && NetSids(t, n) && UnmovedIn(t, u, n.top.iter)
    ensures NetSids(u, n)
  {
    hide TitlesShape, MemberShape, Text;
    assert Within(n.graph.iter, n.top.iter) && Within(n.kill.iter, n.top.iter);
    forall c: Category
      ensures GroupSids(u, n.Get(c))
    {
      var g := n.Get(c);
      assert GroupShape(t, n.top.iter, c, g) && GroupSids(t, g);
      if g.members != [] {
        forall h | Within(h, g.title.iter)
          ensures Within(h, n.top.iter)
        {
          WithinTrans(h, g.title.iter, n.top.iter);
        }
      }
      GroupSidsFrame(t, u, n.top.iter, c, g);
    }
  }

  lemma GroupSidsFrame(t: Tree, u: Tree, top: Handle, c: Category, g: Group)
    requires GroupShape(t, top, c, g) && GroupSids(t, g)
    requires g.members != [] ==> UnmovedIn(t, u, g.title.iter)
    ensures GroupSids(u, g)
  {
    hide Text, MemberShape, MemberSids;
    forall j | 0 <= j < |g.members|
      ensures MemberSids(u, g.members[j])
    {
      MemberSidsFrame(t, u, g.title.iter, c, g.members[j]);
    }
  }

  lemma MemberSidsFrame(t: Tree, u: Tree, title: Handle, c: Category, m: Member)
    requires MemberShape(t, title, c, m) && MemberSids(t, m) && UnmovedIn(t, u, title)
    ensures MemberSids(u, m)
  {
    hide Text;
    assert Within(m.top.iter, title);
    forall i | 0 <= i < |m.subs|
      ensures RefOk(u, m.subs[i])
    {
      assert LeafAt(t, m.top.iter, i, m.subs[i], SubNames(c)[i]);
      assert Within(m.subs[i].iter, title);
    }
  }

  // Distinct nets own distinct top rows.
  lemma DistinctTops(s: Store, i: nat, j: nat)
    requires Shape(s) && i < |s.nets| && j < |s.nets| && i != j
    ensures s.nets[i].top.iter != s.nets[j].top.iter
  {
    assert RowOk(s.tree, Root);
  }

  // ----- new leaves ---------------------------------------------------------

  lemma AddLeafGrown(t: Tree, p: Handle, caption: string)
    requires TreeOk(t) && p in t.kids
    ensures var (u, r) := AddLeaf(t, p, caption);
            && GrownAt(t, u, p) && RefOk(u, r) && r.iter !in t.kids && r.iter.Child?
            && Kids(u, p) == Kids(t, p) + [r.iter.serial]
            && LeafAt(u, p, |Kids(t, p)|, r, caption)
  {
    AppendOk(t, p, caption);
    AppendGrown(t, p, caption);
  }

  lemma LeafKept(t: Tree, u: Tree, p: Handle, q: Handle, i: nat, r: RowRef, caption: string)
    requires GrownAt(t, u, p) && LeafAt(t, q, i, r, caption) && r.iter != p && q in t.kids
    ensures LeafAt(u, q, i, r, caption)
    ensures RefOk(t, r) ==> RefOk(u, r)
  {
    assert Kids(u, q)[i] == Kids(t, q)[i] && |Kids(u, q)| >= |Kids(t, q)|;
  }

  ghost predicate LeavesAt(t: Tree, p: Handle, base: nat, rs: seq<RowRef>, captions: seq<string>) {
    && |rs| == |captions| && |Kids(t, p)| == base + |rs|
    && forall i :: 0 <= i < |rs| ==> LeafAt(t, p, base + i, rs[i], captions[i]) && RefOk(t, rs[i])
  }

  lemma LeavesCons(t: Tree, p: Handle, base: nat, r: RowRef, rest: seq<RowRef>, captions: seq<string>)
    requires captions != [] && LeavesAt(t, p, base + 1, rest, captions[1..])
    requires LeafAt(t, p, base, r, captions[0]) && RefOk(t, r)
    ensures LeavesAt(t, p, base, [r] + rest, captions)
  {
    forall i | 0 <= i < |[r] + rest|
      ensures LeafAt(t, p, base + i, ([r] + rest)[i], captions[i]) && RefOk(t, ([r] + rest)[i])
    {
      if i > 0 {
        assert LeafAt(t, p, base + 1 + (i - 1), rest[i - 1], captions[1..][i - 1]);
      }
    }
  }

  lemma {:induction false} AddLeavesGrown(t: Tree, p: Handle, captions: seq<string>)
    requires TreeOk(t) && p in t.kids
    ensures var (u, rs) := AddLeaves(t, p, captions);
            GrownAt(t, u, p) && LeavesAt(u, p, |Kids(t, p)|, rs, captions)
    decreases |captions|
  {
    if captions == [] {
      GrownRefl(t, p);
    } else {
      var (u, r) := AddLeaf(t, p, captions[0]);
      AddLeafGrown(t, p, captions[0]);
      AddLeavesGrown(u, p, captions[1..]);
      var (v, rest) := AddLeaves(u, p, captions[1..]);
      assert AddLeaves(t, p, captions) == (v, [r] + rest);
      assert GrownAt(t, v, p) by { GrownTrans(t, u, v, p); }
      assert LeafAt(v, p, |Kids(t, p)|, r, captions[0]) && RefOk(v, r) by {
        LeafKept(u, v, p, p, |Kids(t, p)|, r, captions[0]);
      }
      LeavesCons(v, p, |Kids(t, p)|, r, rest, captions);
    }
  }

  lemma NetKept(t: Tree, u: Tree, p: Handle, n: Net)
    requires GrownAt(t, u, p) && NetShape(t, n) && !Within(p, n.top.iter)
    ensures NetShape(u, n)
    ensures NetSids(t, n) ==> NetSids(u, n)
  {
    GrownSame(t, u, p, n.top.iter);
    NetFrame(t, u, n);
    if NetSids(t, n) {
      NetSidsFrame(t, u, n);
    }
  }

  lemma FirstNet(t: Tree, name: string)
    requires TreeOk(t)
    ensures var (t1, top) := AddLeaf(t, Root, name);
            var (t2, graph) := AddLeaf(t1, top.iter, "graph");
            var (t3, kill) := AddLeaf(t2, top.iter, "kill");
            && GrownAt(t, t1, Root) && GrownAt(t1, t2, top.iter) && GrownAt(t2, t3, top.iter)
            && top.iter == Child(Root, t.next) && top.iter in t3.kids && Caption(t3, top.iter) == name
            && Kids(t3, Root) == Kids(t, Root) + [t.next] && |Kids(t3, top.iter)| == 2
            && LeafAt(t3, top.iter, 0, graph, "graph") && LeafAt(t3, top.iter, 1, kill, "kill")
            && RefOk(t3, top) && RefOk(t3, graph) && RefOk(t3, kill)
  {
    hide Text;
    var (t1, top) := AddLeaf(t, Root, name);
    var (t2, graph) := AddLeaf(t1, top.iter, "graph");
    AddLeafGrown(t, Root, name);
    AddLeafGrown(t1, top.iter, "graph");
    AddLeafGrown(t2, top.iter, "kill");
    LeafKept(t2, AddLeaf(t2, top.iter, "kill").0, top.iter, top.iter, 0, graph, "graph");
  }

  lemma BareNet(t: Tree, name: string, top: RowRef, graph: RowRef, kill: RowRef)
    requires top.iter.Child? && top.iter.parent == Root && top.iter in t.kids && Caption(t, top.iter) == name
    requires |Kids(t, top.iter)| == 2
    requires LeafAt(t, top.iter, 0, graph, "graph") && LeafAt(t, top.iter, 1, kill, "kill")
    ensures NetShape(t, Net(name, top, graph, kill, NO_MEMBERS, NO_MEMBERS, NO_MEMBERS))
  {
    var n := Net(name, top, graph, kill, NO_MEMBERS, NO_MEMBERS, NO_MEMBERS);
    forall c: Category
      ensures n.Get(c) == NO_MEMBERS
    {
    }
    assert Titles(n) == map[];
  }

  lemma OldNetKept(s: Store, name: string, k: nat)
    requires Shape(s) && AllocNet(s, name).Some? && k < |s.nets|
    ensures NetShape(AllocNet(s, name).value.tree, s.nets[k])
    ensures NetSids(s.tree, s.nets[k]) ==> NetSids(AllocNet(s, name).value.tree, s.nets[k])
  {
    var (t1, top) := AddLeaf(s.tree, Root, name);
    var (t2, graph) := AddLeaf(t1, top.iter, "graph");
    var (t3, kill) := AddLeaf(t2, top.iter, "kill");
    FirstNet(s.tree, name);
    var n := s.nets[k];
    assert NetShape(s.tree, n);
    AppendOk(s.tree, Root, name);
    SiblingsDisjoint(top.iter, top.iter, n.top.iter);
    NetKept(s.tree, t1, Root, n);
    NetKept(t1, t2, top.iter, n);
    NetKept(t2, t3, top.iter, n);
  }

  lemma NewNetOk(s: Store, name: string)
    requires Shape(s) && AllocNet(s, name).Some?
    ensures var s' := AllocNet(s, name).value;
            && TreeOk(s'.tree) && Kids(s'.tree, Root) == Kids(s.tree, Root) + [s.tree.next]
            && |s'.nets| == |s.nets| + 1 && s'.nets[1..] == s.nets && s'.nets[0].name == name
            && s'.nets[0].top.iter == Child(Root, s.tree.next)
            && NetShape(s'.tree, s'.nets[0]) && NetSids(s'.tree, s'.nets[0])
  {
    hide NetShape, Text;
    FirstNet(s.tree, name);
    var s' := AllocNet(s, name).value;
    var n := s'.nets[0];
    BareNet(s'.tree, name, n.top, n.graph, n.kill);
    forall c: Category
      ensures n.Get(c) == NO_MEMBERS
    {
    }
  }

  lemma ConsNet(s: Store, s': Store)
    requires Shape(s) && TreeOk(s'.tree) && |s'.nets| == |s.nets| + 1 && s'.nets[1..] == s.nets
    requires s'.nets[0].top.iter.Child?
    requires Kids(s'.tree, Root) == Kids(s.tree, Root) + [s'.nets[0].top.iter.serial]
    requires NetShape(s'.tree, s'.nets[0])
    requires forall k :: 0 <= k < |s.nets| ==> NetShape(s'.tree, s.nets[k])
    requires forall k :: 0 <= k < |s.nets| ==> s.nets[k].name != s'.nets[0].name
    ensures Shape(s')
  {
    hide NetShape;
    forall k | 0 < k < |s'.nets|
      ensures s'.nets[k] == s.nets[k - 1]
    {
      assert s'.nets[k] == s'.nets[1..][k - 1];
    }
  }

  // A new net: the two forms stay in step and every cached path stays right.
  lemma AllocNetKeeps(s: Store, name: string)
    requires Shape(s) && AllocNet(s, name).Some?
    ensures Shape(AllocNet(s, name).value)
    ensures Agree(s) ==> Agree(AllocNet(s, name).value)
  {
    var s' := AllocNet(s, name).value;
    NewNetOk(s, name);
    NetIndexFound(s.nets, name);
    forall k | 0 <= k < |s.nets|
      ensures NetShape(s'.tree, s.nets[k])
      ensures Agree(s) ==> NetSids(s'.tree, s.nets[k])
    {
      OldNetKept(s, name, k);
    }
    ConsNet(s, s');
    if Agree(s) {
      forall k | 0 <= k < |s'.nets|
        ensures NetSids(s'.tree, s'.nets[k])
      {
        assert k > 0 ==> s'.nets[k] == s'.nets[1..][k - 1];
      }
    }
  }

  lemma GroupKept(t: Tree, u: Tree, p: Handle, top: Handle, c: Category, g: Group)
    requires GrownAt(t, u, p) && GroupShape(t, top, c, g)
    requires g.members != [] ==> !Within(p, g.title.iter)
    ensures GroupShape(u, top, c, g)
    ensures GroupSids(t, g) ==> GroupSids(u, g)
  {
    if g.members != [] {
      GrownSame(t, u, p, g.title.iter);
      if GroupSids(t, g) {
        GroupSidsFrame(t, u, top, c, g);
      }
    }
    GroupFrame(t, u, top, c, g);
  }

  lemma MemberKept(t: Tree, u: Tree, p: Handle, title: Handle, c: Category, m: Member)
    requires GrownAt(t, u, p) && MemberShape(t, title, c, m) && !Within(p, m.top.iter)
    ensures MemberShape(u, title, c, m)
    ensures MemberSids(t, m) ==> MemberSids(u, m)
  {
    GrownSame(t, u, p, m.top.iter);
    MemberFrame(t, u, title, c, m);
    forall i | 0 <= i < |m.subs|
      ensures m.subs[i].iter in t.kids
    {
      assert LeafAt(t, m.top.iter, i, m.subs[i], SubNames(c)[i]);
    }
  }

  // The new row and its action rows below an existing title.
  lemma NewMember(t: Tree, title: Handle, c: Category, name: string, tag: int)
    requires TreeOk(t) && title in t.kids
    ensures var t2 := Append(t, title, name);
            var (t3, m) := MemberRow(t, title, c, name, tag);
            && GrownAt(t, t2, title) && GrownAt(t2, t3, m.top.iter)
            && m.top.iter == Child(title, t.next)
            && Kids(t3, title) == Kids(t, title) + [t.next]
            && MemberShape(t3, title, c, m) && MemberSids(t3, m)
  {
    var (t2, top) := AddLeaf(t, title, name);
    var (t3, subs) := AddLeaves(t2, top.iter, SubNames(c));
    AddLeafGrown(t, title, name);
    AddLeavesGrown(t2, top.iter, SubNames(c));
    assert top.iter != title;
    assert |Kids(t2, top.iter)| == 0;
    forall i | 0 <= i < |subs|
      ensures LeafAt(t3, top.iter, i, subs[i], SubNames(c)[i]) && RefOk(t3, subs[i])
    {
      assert LeafAt(t3, top.iter, 0 + i, subs[i], SubNames(c)[i]);
    }
  }

  lemma ConsMember(t: Tree, top: Handle, c: Category, title: Handle, m: Member, ms: seq<Member>)
    requires title.Child? && title.parent == top && title in t.kids && Caption(t, title) == TitleName(c)
    requires MemberShape(t, title, c, m)
    requires |Kids(t, title)| == |ms| + 1 && Kids(t, title)[|ms|] == m.top.iter.serial
    requires forall j :: 0 <= j < |ms| ==>
               MemberShape(t, title, c, ms[j]) && Kids(t, title)[|ms| - 1 - j] == ms[j].top.iter.serial
    ensures MembersBelow(t, top, c, title, [m] + ms)
  {
  }

  // Head insertion into the list matches appending the row.
  lemma MemberAdded(t: Tree, top: Handle, c: Category, title: Handle, ms: seq<Member>, name: string, tag: int)
    requires TreeOk(t) && MembersBelow(t, top, c, title, ms)
    ensures var (t3, m) := MemberRow(t, title, c, name, tag);
            && MembersBelow(t3, top, c, title, [m] + ms)
            && MemberSids(t3, m)
            && (forall j :: 0 <= j < |ms| && MemberSids(t, ms[j]) ==> MemberSids(t3, ms[j]))
  {
    var t2 := Append(t, title, name);
    var (t3, m) := MemberRow(t, title, c, name, tag);
    NewMember(t, title, c, name, tag);
    forall j | 0 <= j < |ms|
      ensures MemberShape(t3, title, c, ms[j])
      ensures MemberSids(t, ms[j]) ==> MemberSids(t3, ms[j])
    {
      var h := ms[j].top.iter;
      assert MemberShape(t, title, c, ms[j]);
      WithinProper(title, h);
      FreshSibling(t, title, h);
      SiblingsDisjoint(m.top.iter, m.top.iter, h);
      MemberKept(t, t2, title, title, c, ms[j]);
      MemberKept(t2, t3, m.top.iter, title, c, ms[j]);
    }
    ConsMember(t3, top, c, title, m, ms);
  }

  lemma FreshSibling(t: Tree, p: Handle, h: Handle)
    requires TreeOk(t) && h in t.kids && h.Child? && h.parent == p
    ensures h != Child(p, t.next)
  {
    assert RowOk(t, h) && RowOk(t, p);
  }

  // Rows outside the title's subtree survive the new member untouched.
  lemma MemberRowSame(t: Tree, title: Handle, c: Category, name: string, tag: int, a: Handle)
    requires TreeOk(t) && title in t.kids && a in t.kids && !Within(title, a)
    ensures SameWithin(t, MemberRow(t, title, c, name, tag).0, a)
    ensures Unmoved(t, MemberRow(t, title, c, name, tag).0)
  {
    MemberRowUnmoved(t, title, c, name, tag);
    var t2 := Append(t, title, name);
    var (t3, m) := MemberRow(t, title, c, name, tag);
    NewMember(t, title, c, name, tag);
    GrownSame(t, t2, title, a);
    AppendOk(t, title, name);
    GrownSame(t2, t3, m.top.iter, a);
    forall x | Within(x, a)
      ensures SameAt(t, t3, x)
    {
      assert SameAt(t, t2, x) && SameAt(t2, t3, x);
    }
  }

  lemma MemberRowUnmoved(t: Tree, title: Handle, c: Category, name: string, tag: int)
    requires TreeOk(t) && title in t.kids
    ensures Unmoved(t, MemberRow(t, title, c, name, tag).0)
    ensures TreeOk(MemberRow(t, title, c, name, tag).0)
  {
    NewMember(t, title, c, name, tag);
  }

  lemma MemberRowOthers(t: Tree, title: Handle, c: Category, name: string, tag: int, h: Handle)
    requires TreeOk(t) && title in t.kids && h in t.kids && h != title
    ensures SameAt(t, MemberRow(t, title, c, name, tag).0, h)
  {
    var t2 := Append(t, title, name);
    var (t3, m) := MemberRow(t, title, c, name, tag);
    NewMember(t, title, c, name, tag);
    AppendOk(t, title, name);
    assert h in t2.kids && h != m.top.iter;
    assert Kids(t3, h) == Kids(t2, h) == Kids(t, h);
  }

  // After the title phase: the category's rows hang below title, and every
  // other row of the net is as before.
  ghost predicate TitleReady(t: Tree, n: Net, c: Category, title: RowRef) {
    var top := n.top.iter;
    && TreeOk(t) && top.Child? && top.parent == Root && top in t.kids && Caption(t, top) == n.name
    && MembersBelow(t, top, c, title.iter, n.Get(c).members)
    && LeafAt(t, top, 0, n.graph, "graph") && LeafAt(t, top, 1, n.kill, "kill")
    && title.iter != n.graph.iter && title.iter != n.kill.iter
    && (forall d: Category :: d != c ==> GroupShape(t, top, d, n.Get(d)))
    && TitlesShape(Kids(t, top), top, Titles(n)[c := title.iter])
  }

  ghost predicate TitleSids(t: Tree, n: Net, c: Category, title: RowRef) {
    && RefOk(t, title) && RefOk(t, n.top) && RefOk(t, n.graph) && RefOk(t, n.kill)
    && (forall d: Category :: d != c ==> GroupSids(t, n.Get(d)))
    && (forall j :: 0 <= j < |n.Get(c).members| ==> MemberSids(t, n.Get(c).members[j]))
  }

  lemma TitleNotLeaf(t: Tree, n: Net, c: Category)
    requires TreeOk(t) && NetShape(t, n) && n.Get(c).members != []
    ensures n.Get(c).title.iter != n.graph.iter && n.Get(c).title.iter != n.kill.iter
  {
    hide GroupShape;
    var kids := Kids(t, n.top.iter);
    assert RowOk(t, n.top.iter);
    assert AfterKill(kids, Titles(n)[c].serial);
  }

  lemma TitleKept(t: Tree, n: Net, c: Category)
    requires TreeOk(t) && NetShape(t, n) && n.Get(c).nb != 0
    ensures TitleReady(t, n, c, n.Get(c).title)
  {
    hide MembersBelow, LeafAt, TitlesShape;
    assert GroupShape(t, n.top.iter, c, n.Get(c));
    TitleNotLeaf(t, n, c);
    assert Titles(n)[c := n.Get(c).title.iter] == Titles(n);
  }

  lemma TitleKeptSids(t: Tree, n: Net, c: Category)
    requires GroupShape(t, n.top.iter, c, n.Get(c)) && n.Get(c).nb != 0 && NetSids(t, n)
    ensures TitleSids(t, n, c, n.Get(c).title)
  {
    assert GroupSids(t, n.Get(c));
  }

  lemma GroupsKept(t: Tree, u: Tree, n: Net, d: Category)
    requires NetShape(t, n) && GrownAt(t, u, n.top.iter)
    ensures GroupShape(u, n.top.iter, d, n.Get(d))
    ensures GroupSids(t, n.Get(d)) ==> GroupSids(u, n.Get(d))
  {
    hide MemberShape, MemberSids, TitlesShape;
    assert GroupShape(t, n.top.iter, d, n.Get(d));
    if n.Get(d).members != [] {
      WithinProper(n.top.iter, n.Get(d).title.iter);
    }
    GroupKept(t, u, n.top.iter, n.top.iter, d, n.Get(d));
  }

  lemma TitleMadeRows(t: Tree, n: Net, c: Category)
    requires TreeOk(t) && NetShape(t, n) && n.Get(c).nb == 0
    ensures var (u, title) := AddLeaf(t, n.top.iter, TitleName(c)); var top := n.top.iter;
            && GrownAt(t, u, top) && top in u.kids && Caption(u, top) == n.name
            && LeafAt(u, top, 0, n.graph, "graph") && LeafAt(u, top, 1, n.kill, "kill")
            && title.iter != n.graph.iter && title.iter != n.kill.iter
            && MembersBelow(u, top, c, title.iter, n.Get(c).members)
            && TitlesShape(Kids(u, top), top, Titles(n)[c := title.iter])
  {
    hide MemberShape, Text, TitlesShape;
    var top := n.top.iter;
    var (u, title) := AddLeaf(t, top, TitleName(c));
    AddLeafGrown(t, top, TitleName(c));
    assert GroupShape(t, top, c, n.Get(c));
    LeafKept(t, u, top, top, 0, n.graph, "graph");
    LeafKept(t, u, top, top, 1, n.kill, "kill");
    assert title.iter.serial !in Kids(t, top) by { assert RowOk(t, top); }
    TitleAppended(Kids(t, top), top, Titles(n), c, title.iter);
  }

  lemma TitleMade(t: Tree, n: Net, c: Category)
    requires TreeOk(t) && NetShape(t, n) && n.Get(c).nb == 0
    ensures var (u, title) := AddLeaf(t, n.top.iter, TitleName(c));
            GrownAt(t, u, n.top.iter) && TitleReady(u, n, c, title)
  {
    hide MembersBelow, Text, TitlesShape, LeafAt;
    var (u, title) := AddLeaf(t, n.top.iter, TitleName(c));
    TitleMadeRows(t, n, c);
    forall d: Category
      ensures GroupShape(u, n.top.iter, d, n.Get(d))
    {
      GroupsKept(t, u, n, d);
    }
  }

  lemma TitleMadeSids(t: Tree, n: Net, c: Category)
    requires TreeOk(t) && NetShape(t, n) && n.Get(c).nb == 0 && NetSids(t, n)
    ensures var (u, title) := AddLeaf(t, n.top.iter, TitleName(c)); TitleSids(u, n, c, title)
  {
    hide MemberShape, Text, TitlesShape;
    var (u, title) := AddLeaf(t, n.top.iter, TitleName(c));
    AddLeafGrown(t, n.top.iter, TitleName(c));
    assert GroupShape(t, n.top.iter, c, n.Get(c));
    forall d: Category
      ensures GroupSids(u, n.Get(d))
    {
      GroupsKept(t, u, n, d);
    }
  }

  lemma TitleAppended(kids: seq<nat>, top: Handle, titles: map<Category, Handle>, c: Category, h: Handle)
    requires TitlesShape(kids, top, titles) && c !in titles
    requires h.Child? && h.parent == top && h.serial !in kids
    ensures TitlesShape(kids + [h.serial], top, titles[c := h])
  {
    var kids', titles' := kids + [h.serial], titles[c := h];
    forall d | d in titles'
      ensures AfterKill(kids', titles'[d].serial)
      ensures d != c ==> titles'[d] != h
    {
      if d != c {
        var i :| 2 <= i < |kids| && kids[i] == titles[d].serial;
        assert kids'[i] == titles[d].serial;
      } else {
        assert kids'[|kids|] == h.serial;
      }
    }
    forall i | 2 <= i < |kids'|
      ensures TitleIn(titles', Child(top, kids'[i]))
    {
      if i < |kids| {
        assert TitleIn(titles, Child(top, kids[i]));
        var d :| d in titles && titles[d] == Child(top, kids[i]);
        assert titles'[d] == Child(top, kids[i]);
      } else {
        assert titles'[c] == h;
      }
    }
  }

  // A leaf of the net beside the title is untouched by the new member.
  lemma LeafBeside(t: Tree, n: Net, c: Category, title: RowRef, name: string, tag: int, i: nat, r: RowRef, cap: string)
    requires TitleReady(t, n, c, title) && LeafAt(t, n.top.iter, i, r, cap) && r.iter != title.iter
    ensures var t2 := MemberRow(t, title.iter, c, name, tag).0;
            LeafAt(t2, n.top.iter, i, r, cap) && (RefOk(t, r) ==> RefOk(t2, r))
  {
    hide TitlesShape, GroupShape, MemberShape, Text, MemberRow;
    SiblingsDisjoint(title.iter, title.iter, r.iter);
    MemberRowSame(t, title.iter, c, name, tag, r.iter);
    MemberRowOthers(t, title.iter, c, name, tag, r.iter);
    MemberRowOthers(t, title.iter, c, name, tag, n.top.iter);
  }

  lemma GroupBeside(t: Tree, n: Net, c: Category, title: RowRef, name: string, tag: int, d: Category)
    requires TitleReady(t, n, c, title) && d != c
    ensures var t2 := MemberRow(t, title.iter, c, name, tag).0;
            && GroupShape(t2, n.top.iter, d, n.Get(d))
            && (GroupSids(t, n.Get(d)) ==> GroupSids(t2, n.Get(d)))
  {
    hide MemberShape, Text, MemberRow, LeafAt;
    var t2 := MemberRow(t, title.iter, c, name, tag).0;
    var g := n.Get(d);
    if g.members != [] {
      var titles := Titles(n)[c := title.iter];
      assert d in titles && c in titles && titles[d] == g.title.iter && titles[c] == title.iter;
      SiblingsDisjoint(title.iter, title.iter, g.title.iter);
      MemberRowSame(t, title.iter, c, name, tag, g.title.iter);
      if GroupSids(t, g) {
        GroupSidsFrame(t, t2, n.top.iter, d, g);
      }
    }
    GroupFrame(t, t2, n.top.iter, d, g);
  }

  lemma NetAssembled(t: Tree, n: Net, c: Category, title: RowRef, ms: seq<Member>)
    requires ms != [] && n.top.iter.Child? && n.top.iter.parent == Root && n.top.iter in t.kids
    requires Caption(t, n.top.iter) == n.name
    requires LeafAt(t, n.top.iter, 0, n.graph, "graph") && LeafAt(t, n.top.iter, 1, n.kill, "kill")
    requires MembersBelow(t, n.top.iter, c, title.iter, ms)
    requires forall d: Category :: d != c ==> GroupShape(t, n.top.iter, d, n.Get(d))
    requires TitlesShape(Kids(t, n.top.iter), n.top.iter, Titles(n)[c := title.iter])
    ensures NetShape(t, n.Set(c, Group(title, |ms|, ms)))
  {
    hide LeafAt, MembersBelow, TitlesShape;
    var n' := n.Set(c, Group(title, |ms|, ms));
    assert Titles(n') == Titles(n)[c := title.iter];
    forall d: Category
      ensures GroupShape(t, n.top.iter, d, n'.Get(d))
    {
      if d != c { assert n'.Get(d) == n.Get(d); }
    }
  }

  lemma ReadyToNet(t: Tree, n: Net, c: Category, title: RowRef, name: string, tag: int)
    requires TitleReady(t, n, c, title)
    ensures var (t2, m) := MemberRow(t, title.iter, c, name, tag);
            NetShape(t2, n.Set(c, Group(title, |n.Get(c).members| + 1, [m] + n.Get(c).members)))
  {
    hide MemberRow, MembersBelow, LeafAt, TitlesShape, GroupShape, NetShape;
    var (t2, m) := MemberRow(t, title.iter, c, name, tag);
    var top := n.top.iter;
    assert title.iter.parent == top && title.iter in t.kids by { TitleParent(t, n, c, title); }
    MemberAdded(t, top, c, title.iter, n.Get(c).members, name, tag);
    LeafBeside(t, n, c, title, name, tag, 0, n.graph, "graph");
    LeafBeside(t, n, c, title, name, tag, 1, n.kill, "kill");
    MemberRowOthers(t, title.iter, c, name, tag, top);
    forall d: Category | d != c
      ensures GroupShape(t2, top, d, n.Get(d))
    {
      GroupBeside(t, n, c, title, name, tag, d);
    }
    NetAssembled(t2, n, c, title, [m] + n.Get(c).members);
  }

  lemma TitleParent(t: Tree, n: Net, c: Category, title: RowRef)
    requires TitleReady(t, n, c, title)
    ensures title.iter.Child? && title.iter.parent == n.top.iter && title.iter in t.kids
  {
  }

  lemma ReadyToSids(t: Tree, n: Net, c: Category, title: RowRef, name: string, tag: int)
    requires TitleReady(t, n, c, title) && TitleSids(t, n, c, title)
    ensures var (t2, m) := MemberRow(t, title.iter, c, name, tag);
            NetSids(t2, n.Set(c, Group(title, |n.Get(c).members| + 1, [m] + n.Get(c).members)))
  {
    hide MemberRow, MemberShape, LeafAt, TitlesShape, GroupShape, Text, MemberSids;
    var (t2, m) := MemberRow(t, title.iter, c, name, tag);
    var ms := n.Get(c).members;
    var g := Group(title, |ms| + 1, [m] + ms);
    TitleParent(t, n, c, title);
    MemberAdded(t, n.top.iter, c, title.iter, ms, name, tag);
    LeafBeside(t, n, c, title, name, tag, 0, n.graph, "graph");
    LeafBeside(t, n, c, title, name, tag, 1, n.kill, "kill");
    MemberRowUnmoved(t, title.iter, c, name, tag);
    forall d: Category
      ensures GroupSids(t2, n.Set(c, g).Get(d))
    {
      if d != c {
        GroupBeside(t, n, c, title, name, tag, d);
      } else {
        assert GroupSids(t2, g);
      }
    }
  }

  // The net the new member belongs to.
  lemma AllocMemberNet(t: Tree, n: Net, c: Category, name: string, tag: int)
    requires TreeOk(t) && NetShape(t, n)
    ensures var (t1, title) := TitleRow(t, n, c);
            var (t2, m) := MemberRow(t1, title.iter, c, name, tag);
            var n' := n.Set(c, Group(title, n.Get(c).nb + 1, [m] + n.Get(c).members));
            && TreeOk(t2) && Kids(t2, Root) == Kids(t, Root)
            && NetShape(t2, n') && (NetSids(t, n) ==> NetSids(t2, n'))
  {
    hide MemberRow, TitleReady, TitleSids, MemberShape, TitlesShape, Text;
    var (t1, title) := TitleRow(t, n, c);
    assert GroupShape(t, n.top.iter, c, n.Get(c));
    TitlePhase(t, n, c);
    if NetSids(t, n) {
      if n.Get(c).nb == 0 { TitleMadeSids(t, n, c); } else { TitleKeptSids(t, n, c); }
      ReadyToSids(t1, n, c, title, name, tag);
    }
    ReadyToNet(t1, n, c, title, name, tag);
    MemberRowUnmoved(t1, title.iter, c, name, tag);
    MemberRowOthers(t1, title.iter, c, name, tag, Root);
  }

  lemma TitlePhase(t: Tree, n: Net, c: Category)
    requires TreeOk(t) && NetShape(t, n)
    ensures var (t1, title) := TitleRow(t, n, c);
            && TitleReady(t1, n, c, title) && TreeOk(t1)
            && title.iter.Child? && title.iter.parent == n.top.iter && title.iter in t1.kids
            && Root in t1.kids && Kids(t1, Root) == Kids(t, Root)
            && (t1 == t || GrownAt(t, t1, n.top.iter))
  {
    hide MemberShape, TitlesShape, Text;
    if n.Get(c).nb == 0 { TitleMade(t, n, c); } else { TitleKept(t, n, c); }
    var (t1, title) := TitleRow(t, n, c);
    TitleParent(t1, n, c, title);
  }

  // Every other net.
  lemma AllocMemberOther(t: Tree, n: Net, c: Category, name: string, tag: int, b: Net)
    requires TreeOk(t) && NetShape(t, n) && NetShape(t, b) && b.top.iter != n.top.iter
    ensures var (t1, title) := TitleRow(t, n, c);
            var (t2, m) := MemberRow(t1, title.iter, c, name, tag);
            NetShape(t2, b) && (NetSids(t, b) ==> NetSids(t2, b))
  {
    hide MemberRow, TitleReady, MemberShape, TitlesShape, GroupShape, LeafAt, Text;
    var (t1, title) := TitleRow(t, n, c);
    var t2 := MemberRow(t1, title.iter, c, name, tag).0;
    TitlePhase(t, n, c);
    SiblingsDisjoint(n.top.iter, n.top.iter, b.top.iter);
    if t1 != t { NetKept(t, t1, n.top.iter, b); }
    assert NetShape(t1, b);
    SiblingsDisjoint(title.iter, n.top.iter, b.top.iter);
    MemberRowSame(t1, title.iter, c, name, tag, b.top.iter);
    NetFrame(t1, t2, b);
    if NetSids(t, b) { NetSidsFrame(t1, t2, b); }
  }

  lemma ReplaceNet(s: Store, s': Store, k: nat)
    requires Shape(s) && k < |s.nets| == |s'.nets| && TreeOk(s'.tree)
    requires Kids(s'.tree, Root) == Kids(s.tree, Root)
    requires s'.nets[k].name == s.nets[k].name && s'.nets[k].top.iter == s.nets[k].top.iter
    requires forall i :: 0 <= i < |s.nets| && i != k ==> s'.nets[i] == s.nets[i]
    requires forall i :: 0 <= i < |s.nets| ==> NetShape(s'.tree, s'.nets[i])
    ensures Shape(s')
  {
    hide NetShape;
    forall i | 0 <= i < |s.nets|
      ensures s'.nets[i].name == s.nets[i].name && s'.nets[i].top.iter == s.nets[i].top.iter
    {
    }
  }

  // A new member: the two forms stay in step and every cached path stays right.
  lemma AllocMemberKeeps(s: Store, net: string, c: Category, name: string, tag: int)
    requires Shape(s) && AllocMember(s, net, c, name, tag).Some?
    ensures Shape(AllocMember(s, net, c, name, tag).value)
    ensures Agree(s) ==> Agree(AllocMember(s, net, c, name, tag).value)
  {
    hide NetShape, NetSids, TitleRow, MemberRow;
    var s' := AllocMember(s, net, c, name, tag).value;
    var k := NetIndex(s.nets, net);
    var n := s.nets[k];
    AllocMemberNet(s.tree, n, c, name, tag);
    forall i | 0 <= i < |s.nets|
      ensures NetShape(s'.tree, s'.nets[i])
      ensures Agree(s) ==> NetSids(s'.tree, s'.nets[i])
    {
      if i != k {
        DistinctTops(s, i, k);
        AllocMemberOther(s.tree, n, c, name, tag, s.nets[i]);
      }
    }
    ReplaceNet(s, s', k);
  }
}
