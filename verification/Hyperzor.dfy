// The store as the program runs it: fields updated step by step, lists
// walked by loops.  Every method is tied to its function on values.
module Hyperzor {
  import opened Sequences
  import opened PathText
  import opened TreeStore
  import opened HyperStore
  import opened StoreRelease
  import opened StoreLookup
  import opened StoreRuns
  import opened StoreKinds
  import opened StoreNames

  class HyperzorStore {
    var tree: Tree
    var nets: seq<Net>

    ghost function State(): Store
      reads this
    {
      Store(tree, nets)
    }

    constructor ()
      ensures State() == INITIAL && Shape(State())
    {
      tree, nets := EMPTY, [];
      InitialShape();
    }

    method FindNet(name: string) returns (k: nat)
      ensures k == NetIndex(nets, name)
    {
      k := 0;
      while k < |nets| && nets[k].name != name
        invariant k <= |nets|
        invariant NetIndex(nets, name) == k + NetIndex(nets[k..], name)
      {
        assert nets[k..][1..] == nets[k + 1..];
        k := k + 1;
      }
    }

    method FindMemberNamed(g: Group, name: string) returns (j: nat)
      ensures j == MemberIndex(g.members, name)
    {
      j := 0;
      while j < |g.members| && g.members[j].name != name
        invariant j <= |g.members|
        invariant MemberIndex(g.members, name) == j + MemberIndex(g.members[j..], name)
      {
        assert g.members[j..][1..] == g.members[j + 1..];
        j := j + 1;
      }
    }

    method AddRow(parent: Handle, caption: string) returns (r: RowRef)
      modifies `tree
      ensures (tree, r) == AddLeaf(old(tree), parent, caption)
    {
      var h := Child(parent, tree.next);
      tree := Append(tree, parent, caption);
      r := RowRef(h, Text(PathOf(tree, h)));
    }

    method AddRows(parent: Handle, captions: seq<string>) returns (rs: seq<RowRef>)
      modifies `tree
      ensures (tree, rs) == AddLeaves(old(tree), parent, captions)
    {
      hide AddLeaf;
      rs := [];
      var i := 0;
      assert captions[0..] == captions;
      while i < |captions|
        invariant i <= |captions|
        invariant AddLeaves(old(tree), parent, captions).0 == AddLeaves(tree, parent, captions[i..]).0
        invariant AddLeaves(old(tree), parent, captions).1 == rs + AddLeaves(tree, parent, captions[i..]).1
      {
        assert captions[i..][1..] == captions[i + 1..];
        var r := AddRow(parent, captions[i]);
        ghost var rest := AddLeaves(tree, parent, captions[i + 1..]).1;
        assert rs + ([r] + rest) == (rs + [r]) + rest;
        rs := rs + [r];
        i := i + 1;
      }
      assert AddLeaves(tree, parent, captions[i..]) == (tree, []);
      assert rs + [] == rs;
    }

    method AddMemberRow(title: Handle, c: Category, name: string, tag: int) returns (m: Member)
      modifies `tree
      ensures (tree, m) == MemberRow(old(tree), title, c, name, tag)
    {
      hide AddLeaf, AddLeaves;
      var top := AddRow(title, name);
      var subs := AddRows(top.iter, SubNames(c));
      m := Member(name, tag, top, subs);
    }

    method DelRow(r: RowRef) returns (cleared: RowRef)
      modifies `tree
      ensures tree == DelLeaf(old(tree), r) && cleared == r.(sid := "")
    {
      if r.iter.Child? {
        tree := Remove(tree, r.iter);
      }
      cleared := r.(sid := "");
    }

    method DelRows(rs: seq<RowRef>)
      modifies `tree
      ensures tree == DelLeaves(old(tree), rs)
    {
      var i := 0;
      while i < |rs|
        invariant i <= |rs|
        invariant DelLeaves(old(tree), rs) == DelLeaves(tree, rs[i..])
      {
        assert rs[i..][1..] == rs[i + 1..];
        var _ := DelRow(rs[i]);
        i := i + 1;
      }
    }

    // recompute_vm_item_sid and its siblings: walk the list in place
    method Recompute(ms: seq<Member>) returns (renewed: seq<Member>)
      ensures renewed == RefreshMembers(tree, ms)
    {
      renewed := ms;
      var j := 0;
      while j < |renewed|
        invariant j <= |renewed| == |ms|
        invariant forall i :: 0 <= i < j ==> renewed[i] == RefreshMember(tree, ms[i])
        invariant forall i :: j <= i < |ms| ==> renewed[i] == ms[i]
      {
        renewed := renewed[j := RefreshMember(tree, renewed[j])];
        j := j + 1;
      }
    }

    method RecomputeNets()
      modifies `nets
      ensures nets == RefreshNets(tree, old(nets))
    {
      var k := 0;
      while k < |nets|
        invariant k <= |nets| == |old(nets)|
        invariant forall i :: 0 <= i < k ==> nets[i] == RefreshNet(tree, old(nets)[i])
        invariant forall i :: k <= i < |nets| ==> nets[i] == old(nets)[i]
      {
        nets := nets[k := RefreshNet(tree, nets[k])];
        k := k + 1;
      }
    }

    // alive: false when the program reports a fatal error and exits.

    method NetAlloc(name: string) returns (alive: bool)
      requires Shape(State())
      modifies this
      ensures !alive <==> exists k :: 0 <= k < |old(nets)| && old(nets)[k].name == name
      ensures alive ==> NetAdded(old(State()), State(), name)
      ensures alive <==> AllocNet(old(State()), name).Some?
      ensures State() == if alive then AllocNet(old(State()), name).value else old(State())
      ensures Shape(State())
    {
      ghost var s := State();
      var k := FindNet(name);
      NetIndexFound(nets, name);
      if k < |nets| {
        return false;
      }
      var top := AddRow(Root, name);
      var graph := AddRow(top.iter, "graph");
      var kill := AddRow(top.iter, "kill");
      nets := [Net(name, top, graph, kill, NO_MEMBERS, NO_MEMBERS, NO_MEMBERS)] + nets;
      alive := true;
      StepShape(s, Op.NetAlloc(name));
      AllocNetNames(s, name);
    }

    method MemberAlloc(net: string, c: Category, name: string, tag: int) returns (alive: bool)
      requires Shape(State())
      modifies this
      ensures !alive <==> forall k :: 0 <= k < |old(nets)| ==> old(nets)[k].name != net
      ensures alive ==> MemberAdded(old(State()), State(), net, c, name, tag)
      ensures alive <==> AllocMember(old(State()), net, c, name, tag).Some?
      ensures State() == if alive then AllocMember(old(State()), net, c, name, tag).value else old(State())
      ensures Shape(State())
    {
      hide Shape, AddLeaf, MemberRow, MemberAdded;
      ghost var s := State();
      AllocMemberNames(s, net, c, name, tag);
      var k := FindNet(net);
      if k >= |nets| {
        return false;
      }
      var n := nets[k];
      var title := n.Get(c).title;
      if n.Get(c).nb == 0 {
        title := AddRow(n.top.iter, TitleName(c));
      }
      var m := AddMemberRow(title.iter, c, name, tag);
      var g := Group(title, n.Get(c).nb + 1, [m] + n.Get(c).members);
      nets := nets[k := n.Set(c, g)];
      alive := true;
      StepShape(s, Op.MemberAlloc(net, c, name, tag));
    }

    method MemberFree(net: string, c: Category, name: string) returns (alive: bool)
      modifies this
      ensures alive <==> exists k :: FirstNet(old(nets), net, k) && HasMember(old(nets)[k].Get(c).members, name)
      ensures alive ==> MemberGone(old(State()), State(), net, c, name)
      ensures alive <==> FreeMember(old(State()), net, c, name).Some?
      ensures State() == if alive then FreeMember(old(State()), net, c, name).value else old(State())
    {
      hide Remove, FirstNet, HasMember, MemberGone;
      FreeMemberNames(State(), net, c, name);
      var k := FindNet(net);
      if k >= |nets| {
        return false;
      }
      var n := nets[k];
      var g := n.Get(c);
      var j := FindMemberNamed(g, name);
      if j >= |g.members| {
        return false;
      }
      var m := g.members[j];
      DelRows(m.subs);
      var _ := DelRow(m.top);
      var title := g.title;
      if g.nb == 1 {
        title := DelRow(g.title);
      }
      var rest := Recompute(Drop(g.members, j));
      nets := nets[k := n.Set(c, Group(title, g.nb - 1, rest))];
      alive := true;
    }

    // while (cur->head_x) free_store_x(cur->net_name, cur->head_x->name)
    method FreeAll(k: nat, c: Category)
      requires UniqueNames(nets) && k < |nets|
      modifies this
      ensures UniqueNames(old(nets)) && k < |old(nets)|
      ensures State() == FreeGroup(old(State()), k, c)
      ensures UniqueNames(nets) && |nets| == |old(nets)|
    {
      hide FreeMember;
      while nets[k].Get(c).members != []
        invariant UniqueNames(nets) && k < |nets| == |old(nets)|
        invariant FreeGroup(old(State()), k, c) == FreeGroup(State(), k, c)
        decreases |nets[k].Get(c).members|
      {
        ghost var s := State();
        HeadFree(s, k, c);
        var _ := MemberFree(nets[k].name, c, nets[k].Get(c).members[0].name);
      }
    }

    method NetFree(name: string) returns (alive: bool)
      requires Shape(State())
      modifies this
      ensures UniqueNames(old(nets))
      ensures !alive <==> forall k :: 0 <= k < |old(nets)| ==> old(nets)[k].name != name
      ensures alive ==> NetGone(old(State()), State(), name)
      ensures alive <==> FreeNet(old(State()), name).Some?
      ensures State() == if alive then FreeNet(old(State()), name).value else old(State())
      ensures Shape(State()) && (alive ==> Agree(State()))
    {
      hide Shape, Agree, Remove, NetGone;
      ghost var s := State();
      Unique(s);
      FreeNetNames(s, name);
      var k := FindNet(name);
      if k >= |nets| {
        return false;
      }
      var n := nets[k];
      var graph := DelRow(n.graph);
      var kill := DelRow(n.kill);
      nets := nets[k := n.(graph := graph, kill := kill)];
      FreeAll(k, Vm);
      FreeAll(k, Sat);
      FreeAll(k, Lan);
      var _ := DelRow(nets[k].top);
      nets := Drop(nets, k);
      RecomputeNets();
      alive := true;
      FreeNetRepairs(s, name);
    }

    // find_names_with_str_iter
    method FindNames(str: string) returns (hit: Hit)
      ensures hit == Lookup(nets, str)
      ensures Shape(State()) && Agree(State()) ==>
                forall h :: h in tree.kids && h.Child? && str == Text(PathOf(tree, h)) ==> Shows(tree, h, hit)
    {
      var k := 0;
      while k < |nets| && !PrefixOf(nets[k].top.sid, str)
        invariant k <= |nets|
        invariant FirstNetWith(nets, str) == k + FirstNetWith(nets[k..], str)
      {
        assert nets[k..][1..] == nets[k + 1..];
        k := k + 1;
      }
      hit := Hit(NoKind, "", "");
      if k < |nets| {
        var found := FindFixed(nets[k], str);
        if found.0 == NoKind { found := Search(Vm, nets[k].vm, str); }
        if found.0 == NoKind { found := Search(Sat, nets[k].sat, str); }
        if found.0 == NoKind { found := Search(Lan, nets[k].lan, str); }
        hit := Hit(found.0, nets[k].name, found.1);
      }
      FoundShows(State(), str);
    }

    method Search(c: Category, g: Group, str: string) returns (found: (Kind, string))
      ensures found == FindInGroup(c, g, str)
    {
      if !(g.nb != 0 && PrefixOf(g.title.sid, str)) {
        return (NoKind, "");
      }
      if |g.title.sid| == |str| {
        return (TitleKind(c), "");
      }
      var ms := g.members;
      var j := 0;
      while j < |ms| && !PrefixOf(ms[j].top.sid, str)
        invariant j <= |ms|
        invariant FirstMemberWith(ms, str) == j + FirstMemberWith(ms[j..], str)
      {
        assert ms[j..][1..] == ms[j + 1..];
        j := j + 1;
      }
      if j == |ms| {
        return (NoKind, "");
      }
      var i := SubIndex(ms[j].subs, str);
      found := (if i < |ms[j].subs| && i < |SUB_KINDS| then SUB_KINDS[i] else MemberKind(c), ms[j].name);
    }

    // A click on any row of an agreeing store names the record owning the row,
    // and returns what the row shows.
    method Clicked(h: Handle) returns (hit: Hit)
      requires Shape(State()) && Agree(State()) && h in tree.kids && h.Child?
      ensures Owns(State(), h, hit) && Shows(tree, h, hit)
    {
      hide Shape, Agree, RowAt, Meaning, Lookup, Shows;
      hit := FindNames(Text(PathOf(tree, h)));
      ghost var p := LookupExact(State(), h);
    }
  }

  lemma FoundShows(s: Store, str: string)
    ensures Shape(s) && Agree(s) ==>
              forall h :: h in s.tree.kids && h.Child? && str == Text(PathOf(s.tree, h)) ==>
                Shows(s.tree, h, Lookup(s.nets, str))
  {
    hide Shape, Agree, Text, PathOf, Lookup, Shows;
    if Shape(s) && Agree(s) {
      forall h | h in s.tree.kids && h.Child? && str == Text(PathOf(s.tree, h))
        ensures Shows(s.tree, h, Lookup(s.nets, str))
      {
        LookupShows(s, h);
      }
    }
  }

  lemma HeadFree(s: Store, k: nat, c: Category)
    requires UniqueNames(s.nets) && k < |s.nets| && s.nets[k].Get(c).members != []
    ensures var r := FreeMember(s, s.nets[k].name, c, s.nets[k].Get(c).members[0].name);
            && r.Some? && UniqueNames(r.value.nets) && |r.value.nets| == |s.nets|
            && |r.value.nets[k].Get(c).members| < |s.nets[k].Get(c).members|
            && FreeGroup(s, k, c) == FreeGroup(r.value, k, c)
  {
    hide Remove, DelLeaves;
    NetIndexAt(s.nets, k);
  }
}
