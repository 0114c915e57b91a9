// The operations of the store by names alone: when they succeed, and which
// nets and members the store lists afterwards.
module StoreNames {
  import opened Options
  import opened Sequences
  import opened TreeStore
  import opened HyperStore
  import opened StoreRelease

  // What a list shows of its members, in order.
  function Listed(ms: seq<Member>): seq<(string, int)> {
    seq(|ms|, j requires 0 <= j < |ms| => (ms[j].name, ms[j].tag))
  }

  // The same net with the same members.
  ghost predicate SameLists(a: Net, b: Net) {
    a.name == b.name && forall c: Category :: Listed(a.Get(c).members) == Listed(b.Get(c).members)
  }

  // Net k is the first one of the name.
  ghost predicate FirstNet(nets: seq<Net>, name: string, k: int) {
    0 <= k < |nets| && nets[k].name == name && forall i :: 0 <= i < k ==> nets[i].name != name
  }

  ghost predicate HasMember(ms: seq<Member>, name: string) {
    exists j :: 0 <= j < |ms| && ms[j].name == name
  }

  // after is before without its first entry of the name.
  ghost predicate FirstGone(before: seq<(string, int)>, after: seq<(string, int)>, name: string) {
    exists j :: 0 <= j < |before| && before[j].0 == name
             && (forall i :: 0 <= i < j ==> before[i].0 != name)
             && after == before[..j] + before[j + 1..]
  }

  // ----- adding ---------------------------------------------------------------------

  // A net without members stands before the others.
  ghost predicate NetAdded(s: Store, u: Store, name: string) {
    && |u.nets| == |s.nets| + 1 && u.nets[0].name == name
    && (forall c: Category :: u.nets[0].Get(c).members == [])
    && u.nets[1..] == s.nets
  }

  lemma AllocNetNames(s: Store, name: string)
    ensures AllocNet(s, name).None? <==> exists k :: 0 <= k < |s.nets| && s.nets[k].name == name
    ensures AllocNet(s, name).Some? ==> NetAdded(s, AllocNet(s, name).value, name)
  {
    hide AddLeaf;
    NetIndexFound(s.nets, name);
  }

  // A member stands before the others of its category in the net.
  ghost predicate MemberAdded(s: Store, u: Store, net: string, c: Category, name: string, tag: int) {
    && |u.nets| == |s.nets|
    && (forall k :: 0 <= k < |s.nets| && !FirstNet(s.nets, net, k) ==> u.nets[k] == s.nets[k])
    && (forall k :: FirstNet(s.nets, net, k) ==>
          && u.nets[k].name == net
          && Listed(u.nets[k].Get(c).members) == [(name, tag)] + Listed(s.nets[k].Get(c).members)
          && forall d: Category :: d != c ==> u.nets[k].Get(d) == s.nets[k].Get(d))
  }

  lemma AllocMemberNames(s: Store, net: string, c: Category, name: string, tag: int)
    ensures AllocMember(s, net, c, name, tag).None? <==> forall k :: 0 <= k < |s.nets| ==> s.nets[k].name != net
    ensures AllocMember(s, net, c, name, tag).Some? ==>
              MemberAdded(s, AllocMember(s, net, c, name, tag).value, net, c, name, tag)
  {
    hide TitleRow, MemberRow, FirstNet, Listed;
    var k := NetIndex(s.nets, net);
    NetIndexFound(s.nets, net);
    NetIndexFirst(s.nets, net);
    if k < |s.nets| {
      var n := s.nets[k];
      var (t1, title) := TitleRow(s.tree, n, c);
      MemberRowNamed(t1, title.iter, c, name, tag);
      ListedCons(MemberRow(t1, title.iter, c, name, tag).1, n.Get(c).members);
    }
  }

  lemma MemberRowNamed(t: Tree, title: Handle, c: Category, name: string, tag: int)
    ensures MemberRow(t, title, c, name, tag).1.name == name && MemberRow(t, title, c, name, tag).1.tag == tag
  {
    hide AddLeaf, AddLeaves;
  }

  lemma ListedCons(m: Member, ms: seq<Member>)
    ensures Listed([m] + ms) == [(m.name, m.tag)] + Listed(ms)
  {
  }

  lemma {:induction false} NetIndexFirst(nets: seq<Net>, name: string)
    ensures forall k :: FirstNet(nets, name, k) <==> 0 <= k < |nets| && k == NetIndex(nets, name)
  {
    NetIndexFound(nets, name);
    if nets != [] && nets[0].name != name {
      NetIndexFirst(nets[1..], name);
      forall k
        ensures FirstNet(nets, name, k) <==> FirstNet(nets[1..], name, k - 1)
      {
        assert forall i :: 0 < i < |nets| ==> nets[i] == nets[1..][i - 1];
        assert FirstNet(nets, name, k) ==> forall i :: 0 <= i < k - 1 ==> nets[1..][i] == nets[i + 1];
      }
    }
  }

  // ----- releasing ------------------------------------------------------------------

  // The first member of the name leaves its net and category.
  ghost predicate MemberGone(s: Store, u: Store, net: string, c: Category, name: string) {
    && |u.nets| == |s.nets|
    && (forall k :: 0 <= k < |s.nets| && !FirstNet(s.nets, net, k) ==> u.nets[k] == s.nets[k])
    && (forall k :: FirstNet(s.nets, net, k) ==>
          && u.nets[k].name == net
          && FirstGone(Listed(s.nets[k].Get(c).members), Listed(u.nets[k].Get(c).members), name)
          && forall d: Category :: d != c ==> u.nets[k].Get(d) == s.nets[k].Get(d))
  }

  lemma {:induction false} MemberIndexIs(ms: seq<Member>, name: string)
    ensures var j := MemberIndex(ms, name);
            && j <= |ms| && (j < |ms| <==> HasMember(ms, name)) && (j < |ms| ==> ms[j].name == name)
            && forall i :: 0 <= i < j ==> ms[i].name != name
  {
    if ms != [] && ms[0].name != name {
      MemberIndexIs(ms[1..], name);
      assert forall i :: 0 < i < |ms| ==> ms[i] == ms[1..][i - 1];
    }
  }

  lemma ListedWithout(t: Tree, ms: seq<Member>, j: nat, name: string)
    requires j < |ms| && ms[j].name == name && forall i :: 0 <= i < j ==> ms[i].name != name
    ensures FirstGone(Listed(ms), Listed(RefreshMembers(t, Drop(ms, j))), name)
  {
    var a, b := Listed(ms), Listed(RefreshMembers(t, Drop(ms, j)));
    assert b == a[..j] + a[j + 1..];
    assert a[j].0 == name;
  }

  lemma FreeMemberNames(s: Store, net: string, c: Category, name: string)
    ensures FreeMember(s, net, c, name).Some? <==>
            exists k :: FirstNet(s.nets, net, k) && HasMember(s.nets[k].Get(c).members, name)
    ensures FreeMember(s, net, c, name).Some? ==> MemberGone(s, FreeMember(s, net, c, name).value, net, c, name)
  {
    hide DelLeaf, DelLeaves, FirstNet, HasMember, FirstGone, RefreshMembers, Listed;
    var k := NetIndex(s.nets, net);
    NetIndexFound(s.nets, net);
    NetIndexFirst(s.nets, net);
    if k < |s.nets| {
      var ms := s.nets[k].Get(c).members;
      MemberIndexIs(ms, name);
      if HasMember(ms, name) {
        assert FirstNet(s.nets, net, k);
        ListedWithout(FreeMember(s, net, c, name).value.tree, ms, MemberIndex(ms, name), name);
      }
    }
  }

  // The net leaves the list; the others keep their members.
  ghost predicate NetGone(s: Store, u: Store, name: string) {
    && |u.nets| == |s.nets| - 1
    && forall k :: FirstNet(s.nets, name, k) ==>
         forall i :: 0 <= i < |u.nets| ==> SameLists(u.nets[i], s.nets[if i < k then i else i + 1])
  }

  lemma RefreshNetLists(t: Tree, n: Net)
    ensures SameLists(RefreshNet(t, n), n)
  {
    forall c: Category
      ensures Listed(RefreshNet(t, n).Get(c).members) == Listed(n.Get(c).members)
    {
      assert RefreshNet(t, n).Get(c).members == RefreshMembers(t, n.Get(c).members);
    }
  }

  lemma FreeNetNames(s: Store, name: string)
    requires Shape(s)
    ensures FreeNet(s, name).None? <==> forall k :: 0 <= k < |s.nets| ==> s.nets[k].name != name
    ensures FreeNet(s, name).Some? ==> NetGone(s, FreeNet(s, name).value, name)
  {
    hide Remove, NetShape, RefreshNet, SameLists, FirstNet, FreeGroup, TreeOk;
    NetIndexFound(s.nets, name);
    NetIndexFirst(s.nets, name);
    if FreeNet(s, name).Some? {
      FreeNetForm(s, name);
      var k, u := NetIndex(s.nets, name), FreeNet(s, name).value;
      forall i | 0 <= i < |u.nets|
        ensures SameLists(u.nets[i], s.nets[if i < k then i else i + 1])
      {
        RefreshNetLists(u.tree, s.nets[if i < k then i else i + 1]);
      }
    }
  }
}
