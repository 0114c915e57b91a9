// The hyperzor store: nets with their virtual machines, satellites and lans,
// kept as head-inserted lists beside the tree rows that show them.  Every
// record caches the printed path (sid) of each row it owns.
module HyperStore {
  import opened PathText
  import opened TreeStore
  import opened Options
  import opened Sequences

  // One of the three member categories; the source has one copy of each
  // routine per category.
  datatype Category = Vm | Sat | Lan

  datatype RowRef = RowRef(iter: Handle, sid: string)

  // tag: vm_id of a machine, type of a satellite; subs: the four action rows
  // of a machine (spice, ssh, sys, kil), none for the others.
  datatype Member = Member(name: string, tag: int, top: RowRef, subs: seq<RowRef>)

  datatype Group = Group(title: RowRef, nb: int, members: seq<Member>)

  datatype Net = Net(name: string, top: RowRef, graph: RowRef, kill: RowRef,
                     vm: Group, sat: Group, lan: Group)
  {
    function Get(c: Category): Group {
      match c case Vm => vm case Sat => sat case Lan => lan
    }

    function Set(c: Category, g: Group): Net {
      match c
      case Vm => this.(vm := g)
      case Sat => this.(sat := g)
      case Lan => this.(lan := g)
    }
  }

  // nets: the linked list from g_head_net, newest first
  datatype Store = Store(tree: Tree, nets: seq<Net>)

  const INITIAL := Store(EMPTY, [])
  const NO_ROW := RowRef(Root, "")
  const NO_MEMBERS := Group(NO_ROW, 0, [])

  function TitleName(c: Category): string {
    match c case Vm => "vm" case Sat => "sat" case Lan => "lan"
  }

  function SubNames(c: Category): seq<string> {
    if c == Vm then ["spice_desktop", "cloonix_ssh", "sysinfo", "kill"] else []
  }

  // ----- operations on values -------------------------------------------

  function Fresh(t: Tree, r: RowRef): RowRef {
    RowRef(r.iter, Text(PathOf(t, r.iter)))
  }

  function AddLeaf(t: Tree, parent: Handle, caption: string): (Tree, RowRef) {
    var u := Append(t, parent, caption);
    (u, Fresh(u, RowRef(Child(parent, t.next), "")))
  }

  function AddLeaves(t: Tree, parent: Handle, captions: seq<string>): (Tree, seq<RowRef>)
    decreases |captions|
  {
    if captions == [] then (t, [])
    else
      var (u, r) := AddLeaf(t, parent, captions[0]);
      var (v, rest) := AddLeaves(u, parent, captions[1..]);
      (v, [r] + rest)
  }

  function DelLeaf(t: Tree, r: RowRef): Tree {
    if r.iter.Child? then Remove(t, r.iter) else t
  }

  function DelLeaves(t: Tree, rs: seq<RowRef>): Tree
    decreases |rs|
  {
    if rs == [] then t else DelLeaves(DelLeaf(t, rs[0]), rs[1..])
  }

  function NetIndex(nets: seq<Net>, name: string): nat {
    if nets == [] || nets[0].name == name then 0 else 1 + NetIndex(nets[1..], name)
  }

  function MemberIndex(ms: seq<Member>, name: string): nat {
    if ms == [] || ms[0].name == name then 0 else 1 + MemberIndex(ms[1..], name)
  }

  function RefreshMember(t: Tree, m: Member): Member {
    m.(top := Fresh(t, m.top), subs := seq(|m.subs|, i requires 0 <= i < |m.subs| => Fresh(t, m.subs[i])))
  }

  function RefreshMembers(t: Tree, ms: seq<Member>): seq<Member> {
    seq(|ms|, j requires 0 <= j < |ms| => RefreshMember(t, ms[j]))
  }

  function RefreshGroup(t: Tree, g: Group): Group {
    Group(if g.nb != 0 then Fresh(t, g.title) else g.title, g.nb, RefreshMembers(t, g.members))
  }

  function RefreshNet(t: Tree, n: Net): Net {
    Net(n.name, Fresh(t, n.top), Fresh(t, n.graph), Fresh(t, n.kill),
        RefreshGroup(t, n.vm), RefreshGroup(t, n.sat), RefreshGroup(t, n.lan))
  }

  function RefreshNets(t: Tree, nets: seq<Net>): seq<Net> {
    seq(|nets|, k requires 0 <= k < |nets| => RefreshNet(t, nets[k]))
  }

  // None: the program reports a fatal error and exits.

  function AllocNet(s: Store, name: string): Option<Store> {
    if NetIndex(s.nets, name) < |s.nets| then None
    else
      var (t1, top) := AddLeaf(s.tree, Root, name);
      var (t2, graph) := AddLeaf(t1, top.iter, "graph");
      var (t3, kill) := AddLeaf(t2, top.iter, "kill");
      Some(Store(t3, [Net(name, top, graph, kill, NO_MEMBERS, NO_MEMBERS, NO_MEMBERS)] + s.nets))
  }

  // The title row of a category: made with its first member.
  function TitleRow(t: Tree, n: Net, c: Category): (Tree, RowRef) {
    if n.Get(c).nb == 0 then AddLeaf(t, n.top.iter, TitleName(c)) else (t, n.Get(c).title)
  }

  // A member row below title, with its action rows.
  function MemberRow(t: Tree, title: Handle, c: Category, name: string, tag: int): (Tree, Member) {
    var (t1, top) := AddLeaf(t, title, name);
    var (t2, subs) := AddLeaves(t1, top.iter, SubNames(c));
    (t2, Member(name, tag, top, subs))
  }

  function AllocMember(s: Store, net: string, c: Category, name: string, tag: int): Option<Store> {
    var k := NetIndex(s.nets, net);
    if k >= |s.nets| then None
    else
      var n := s.nets[k];
      var (t1, title) := TitleRow(s.tree, n, c);
      var (t2, m) := MemberRow(t1, title.iter, c, name, tag);
      var g := Group(title, n.Get(c).nb + 1, [m] + n.Get(c).members);
      Some(Store(t2, s.nets[k := n.Set(c, g)]))
  }

  function FreeMember(s: Store, net: string, c: Category, name: string): Option<Store> {
    var k := NetIndex(s.nets, net);
    if k >= |s.nets| then None
    else
      var n := s.nets[k];
      var g := n.Get(c);
      var j := MemberIndex(g.members, name);
      if j >= |g.members| then None
      else
        var m := g.members[j];
        var t1 := DelLeaf(DelLeaves(s.tree, m.subs), m.top);
        var (t2, title) :=
          if g.nb == 1 then (DelLeaf(t1, g.title), g.title.(sid := "")) else (t1, g.title);
        var g' := Group(title, g.nb - 1, RefreshMembers(t2, Drop(g.members, j)));
        Some(Store(t2, s.nets[k := n.Set(c, g')]))
  }

  ghost predicate UniqueNames(nets: seq<Net>) {
    forall i, j :: 0 <= i < j < |nets| ==> nets[i].name != nets[j].name
  }

  lemma {:induction false} NetIndexAt(nets: seq<Net>, k: nat)
    requires UniqueNames(nets) && k < |nets|
    ensures NetIndex(nets, nets[k].name) == k
  {
    if k > 0 {
      assert nets[1..][k - 1] == nets[k];
      NetIndexAt(nets[1..], k - 1);
    }
  }

  lemma {:induction false} NetIndexFound(nets: seq<Net>, name: string)
    ensures NetIndex(nets, name) <= |nets|
    ensures NetIndex(nets, name) < |nets| ==> nets[NetIndex(nets, name)].name == name
    ensures NetIndex(nets, name) == |nets| ==> forall k :: 0 <= k < |nets| ==> nets[k].name != name
  {
    if nets != [] && nets[0].name != name {
      NetIndexFound(nets[1..], name);
    }
  }

  // while (cur->head_x) free_store_x(cur->net_name, cur->head_x->name)
  function FreeGroup(s: Store, k: nat, c: Category): Store
    requires UniqueNames(s.nets) && k < |s.nets|
    decreases |s.nets[k].Get(c).members|
  {
    var ms := s.nets[k].Get(c).members;
    if ms == [] then s
    else
      NetIndexAt(s.nets, k);
      FreeGroup(FreeMember(s, s.nets[k].name, c, ms[0].name).value, k, c)
  }

  lemma {:induction false} FreeGroupNames(s: Store, k: nat, c: Category)
    requires UniqueNames(s.nets) && k < |s.nets|
    ensures var u := FreeGroup(s, k, c);
            && UniqueNames(u.nets) && |u.nets| == |s.nets| && u.nets[k].name == s.nets[k].name
            && (forall i :: 0 <= i < |s.nets| && i != k ==> u.nets[i] == s.nets[i])
    decreases |s.nets[k].Get(c).members|
  {
    var ms := s.nets[k].Get(c).members;
    if ms != [] {
      NetIndexAt(s.nets, k);
      FreeGroupNames(FreeMember(s, s.nets[k].name, c, ms[0].name).value, k, c);
    }
  }

  function FreeNet(s: Store, name: string): Option<Store>
    requires UniqueNames(s.nets)
  {
    var k := NetIndex(s.nets, name);
    if k >= |s.nets| then None
    else
      var n := s.nets[k];
      var s0 := Store(DelLeaf(DelLeaf(s.tree, n.graph), n.kill),
                      s.nets[k := n.(graph := n.graph.(sid := ""), kill := n.kill.(sid := ""))]);
      var s1 := FreeGroup(s0, k, Vm);
      FreeGroupNames(s0, k, Vm);
      var s2 := FreeGroup(s1, k, Sat);
      FreeGroupNames(s1, k, Sat);
      var s3 := FreeGroup(s2, k, Lan);
      FreeGroupNames(s2, k, Lan);
      var t := DelLeaf(s3.tree, s3.nets[k].top);
      Some(Store(t, RefreshNets(t, Drop(s3.nets, k))))
  }

  // ----- what every run keeps --------------------------------------------

  ghost predicate LeafAt(t: Tree, parent: Handle, i: nat, r: RowRef, caption: string) {
    && i < |Kids(t, parent)| && r.iter == Child(parent, Kids(t, parent)[i])
    && r.iter in t.kids && Kids(t, r.iter) == [] && Caption(t, r.iter) == caption
  }

  ghost predicate MemberShape(t: Tree, title: Handle, c: Category, m: Member) {
    && m.top.iter.Child? && m.top.iter.parent == title && m.top.iter in t.kids
    && Caption(t, m.top.iter) == m.name
    && |m.subs| == |SubNames(c)| == |Kids(t, m.top.iter)|
    && forall i :: 0 <= i < |m.subs| ==> LeafAt(t, m.top.iter, i, m.subs[i], SubNames(c)[i])
  }

  // The list is the reverse of the rows below the title.
  ghost predicate MembersBelow(t: Tree, top: Handle, c: Category, title: Handle, ms: seq<Member>) {
    && title.Child? && title.parent == top && title in t.kids
    && Caption(t, title) == TitleName(c)
    && |Kids(t, title)| == |ms|
    && forall j :: 0 <= j < |ms| ==>
         && MemberShape(t, title, c, ms[j])
         && Kids(t, title)[|ms| - 1 - j] == ms[j].top.iter.serial
  }

  // nb counts both; there is a title row exactly when there are members.
  ghost predicate GroupShape(t: Tree, top: Handle, c: Category, g: Group) {
    && g.nb == |g.members|
    && (g.members != [] ==> MembersBelow(t, top, c, g.title.iter, g.members))
  }

  // The title rows of the nonempty categories.
  function Titles(n: Net): map<Category, Handle> {
    map c: Category | n.Get(c).members != [] :: n.Get(c).title.iter
  }

  ghost predicate AfterKill(kids: seq<nat>, x: nat) {
    exists i :: 2 <= i < |kids| && kids[i] == x
  }

  ghost predicate TitleIn(titles: map<Category, Handle>, h: Handle) {
    exists c :: c in titles && titles[c] == h
  }

  // They follow graph and kill, in the order in which the categories last
  // became nonempty, and no other rows do.
  ghost predicate TitlesShape(kids: seq<nat>, top: Handle, titles: map<Category, Handle>) {
    && |kids| == 2 + |titles|
    && (forall c :: c in titles ==>
         titles[c].Child? && titles[c].parent == top && AfterKill(kids, titles[c].serial))
    && (forall i :: 2 <= i < |kids| ==> TitleIn(titles, Child(top, kids[i])))
    && (forall c, d :: c in titles && d in titles && c != d ==> titles[c] != titles[d])
  }

  ghost predicate NetShape(t: Tree, n: Net) {
    && n.top.iter.Child? && n.top.iter.parent == Root && n.top.iter in t.kids
    && Caption(t, n.top.iter) == n.name
    && LeafAt(t, n.top.iter, 0, n.graph, "graph")
    && LeafAt(t, n.top.iter, 1, n.kill, "kill")
    && (forall c: Category :: GroupShape(t, n.top.iter, c, n.Get(c)))
    && TitlesShape(Kids(t, n.top.iter), n.top.iter, Titles(n))
  }

  ghost predicate Shape(s: Store) {
    && TreeOk(s.tree)
    && |Kids(s.tree, Root)| == |s.nets|
    && UniqueNames(s.nets)
    && forall k :: 0 <= k < |s.nets| ==>
         && NetShape(s.tree, s.nets[k])
         && Kids(s.tree, Root)[|s.nets| - 1 - k] == s.nets[k].top.iter.serial
  }

  // ----- when the cached paths are right ----------------------------------

  ghost predicate RefOk(t: Tree, r: RowRef) {
    r.sid == Text(PathOf(t, r.iter))
  }

  ghost predicate MemberSids(t: Tree, m: Member) {
    RefOk(t, m.top) && forall i :: 0 <= i < |m.subs| ==> RefOk(t, m.subs[i])
  }

  ghost predicate GroupSids(t: Tree, g: Group) {
    && (g.members != [] ==> RefOk(t, g.title))
    && forall j :: 0 <= j < |g.members| ==> MemberSids(t, g.members[j])
  }

  ghost predicate NetSids(t: Tree, n: Net) {
    && RefOk(t, n.top) && RefOk(t, n.graph) && RefOk(t, n.kill)
    && forall c: Category :: GroupSids(t, n.Get(c))
  }

  ghost predicate Agree(s: Store) {
    forall k :: 0 <= k < |s.nets| ==> NetSids(s.tree, s.nets[k])
  }
}
