// What a click returns, read off the tree that the user sees: the depth of the
// row clicked and the captions on the way to it.
module StoreKinds {
  import opened PathText
  import opened TreeStore
  import opened HyperStore
  import opened StoreRelease
  import opened StoreLookup

  // The rows by depth: nets; graph, kill and titles; members; actions.
  predicate NetRow(h: Handle) {
    h.Child? && h.parent.Root?
  }

  predicate UnderNet(h: Handle) {
    h.Child? && NetRow(h.parent)
  }

  predicate UnderTitle(h: Handle) {
    h.Child? && UnderNet(h.parent)
  }

  predicate UnderMember(h: Handle) {
    h.Child? && UnderTitle(h.parent)
  }

  // The net's row above a row, or the row itself.
  function NetOf(h: Handle): Handle {
    if h.Child? && h.parent.Child? then NetOf(h.parent) else h
  }

  // hit is what row h of the tree shows: its kind ...
  ghost predicate ShowsKind(t: Tree, h: Handle, kind: Kind) {
    && (kind == Network <==> NetRow(h))
    && (kind == GraphRow <==> UnderNet(h) && Caption(t, h) == "graph")
    && (kind == KillRow <==> UnderNet(h) && Caption(t, h) == "kill")
    && (kind == VmTitle <==> UnderNet(h) && Caption(t, h) == "vm" && Kids(t, h) != [])
    && (kind == SatTitle <==> UnderNet(h) && Caption(t, h) == "sat" && Kids(t, h) != [])
    && (kind == LanTitle <==> UnderNet(h) && Caption(t, h) == "lan" && Kids(t, h) != [])
    && (kind == VmRow <==> UnderTitle(h) && Caption(t, h.parent) == "vm")
    && (kind == SatRow <==> UnderTitle(h) && Caption(t, h.parent) == "sat")
    && (kind == LanRow <==> UnderTitle(h) && Caption(t, h.parent) == "lan")
    && (kind == VmSpice <==> UnderMember(h) && Caption(t, h.parent.parent) == "vm" && Caption(t, h) == "spice_desktop")
    && (kind == VmSsh <==> UnderMember(h) && Caption(t, h.parent.parent) == "vm" && Caption(t, h) == "cloonix_ssh")
    && (kind == VmSys <==> UnderMember(h) && Caption(t, h.parent.parent) == "vm" && Caption(t, h) == "sysinfo")
    && (kind == VmKil <==> UnderMember(h) && Caption(t, h.parent.parent) == "vm" && Caption(t, h) == "kill")
  }

  // ... and its names: those on the rows of its net and of its member.
  ghost predicate ShowsNames(t: Tree, h: Handle, hit: Hit) {
    && hit.net == Caption(t, NetOf(h))
    && (NetRow(h) ==> hit.name == "")
    && (UnderNet(h) ==>
          if Caption(t, h) == "graph" || Caption(t, h) == "kill" then hit.name == Caption(t, h) else hit.name == "")
    && (UnderTitle(h) ==> hit.name == Caption(t, h))
    && (UnderMember(h) ==> hit.name == Caption(t, h.parent))
  }

  ghost predicate Shows(t: Tree, h: Handle, hit: Hit) {
    hit.kind != NoKind && ShowsKind(t, h, hit.kind) && ShowsNames(t, h, hit)
  }

  lemma Captions()
    ensures "vm" != "sat" && "vm" != "lan" && "sat" != "lan"
    ensures forall c: Category :: TitleName(c) != "graph" && TitleName(c) != "kill"
    ensures "graph" != "kill" && "kill" != "sysinfo"
    ensures "spice_desktop" != "cloonix_ssh" && "spice_desktop" != "sysinfo" && "cloonix_ssh" != "sysinfo"
    ensures "spice_desktop" != "kill" && "cloonix_ssh" != "kill"
  {
    assert "sat"[0] != "lan"[0];
    assert |"graph"| == 5 && |"kill"| == 4 && |"vm"| == 2 && |"sat"| == |"lan"| == 3;
    assert |"spice_desktop"| == 13 && |"cloonix_ssh"| == 11 && |"sysinfo"| == 7;
  }

  // Where the row of a place hangs, and what it shows.
  lemma FixedShown(s: Store, k: nat)
    requires Shape(s) && k < |s.nets|
    ensures var n := s.nets[k]; var t := s.tree;
            && NetRow(n.top.iter) && Caption(t, n.top.iter) == n.name
            && n.graph.iter.Child? && n.graph.iter.parent == n.top.iter && Caption(t, n.graph.iter) == "graph"
            && n.kill.iter.Child? && n.kill.iter.parent == n.top.iter && Caption(t, n.kill.iter) == "kill"
            && Kids(t, n.graph.iter) == [] == Kids(t, n.kill.iter)
  {
    hide GroupShape, TitlesShape, TreeOk;
    assert NetShape(s.tree, s.nets[k]);
  }

  lemma TitleShown(s: Store, k: nat, c: Category)
    requires Shape(s) && k < |s.nets| && s.nets[k].Get(c).members != []
    ensures var h := s.nets[k].Get(c).title.iter;
            && h.Child? && h.parent == s.nets[k].top.iter
            && Caption(s.tree, h) == TitleName(c) && Kids(s.tree, h) != []
  {
    hide TitlesShape, TreeOk, LeafAt, MemberShape;
    assert NetShape(s.tree, s.nets[k]);
    assert GroupShape(s.tree, s.nets[k].top.iter, c, s.nets[k].Get(c));
  }

  lemma MemberShown(s: Store, k: nat, c: Category, j: nat)
    requires Shape(s) && k < |s.nets| && j < |s.nets[k].Get(c).members|
    ensures var g := s.nets[k].Get(c); var m := g.members[j];
            && m.top.iter.Child? && m.top.iter.parent == g.title.iter && Caption(s.tree, m.top.iter) == m.name
            && |m.subs| == |SubNames(c)|
            && forall i :: 0 <= i < |m.subs| ==>
                 && m.subs[i].iter.Child? && m.subs[i].iter.parent == m.top.iter
                 && Caption(s.tree, m.subs[i].iter) == SubNames(c)[i]
  {
    hide NetShape, GroupShape, TreeOk;
    MemberAt(s, k, c, j);
    var m := s.nets[k].Get(c).members[j];
    forall i | 0 <= i < |m.subs|
      ensures m.subs[i].iter.Child? && m.subs[i].iter.parent == m.top.iter
      ensures Caption(s.tree, m.subs[i].iter) == SubNames(c)[i]
    {
      assert LeafAt(s.tree, m.top.iter, i, m.subs[i], SubNames(c)[i]);
    }
  }

  lemma PlaceShown(s: Store, p: Place)
    requires Shape(s) && ValidPlace(s, p)
    ensures Shows(s.tree, RowAt(s, p), Meaning(s, p))
  {
    hide Shape, ShowsKind, ShowsNames, Caption, Kids;
    var t, h, hit := s.tree, RowAt(s, p), Meaning(s, p);
    FixedShown(s, p.k);
    if p.AtTitle? || p.AtMember? || p.AtSub? {
      TitleShown(s, p.k, p.c);
    }
    if p.AtMember? || p.AtSub? {
      MemberShown(s, p.k, p.c, p.j);
    }
    Captions();
    match p {
      case AtNet(_) =>
        NetKind(t, h);
        NamesShown(t, h, hit);
      case AtGraph(_) =>
        FixedKind(t, h);
        NamesShown(t, h, hit);
      case AtKill(_) =>
        FixedKind(t, h);
        NamesShown(t, h, hit);
      case AtTitle(_, c) =>
        TitleKinds(t, h, c);
        NamesShown(t, h, hit);
      case AtMember(_, c, _) =>
        MemberKinds(t, h, c);
        assert NetOf(h.parent) == h.parent.parent;
        NamesShown(t, h, hit);
      case AtSub(_, c, _, i) =>
        ActionKinds(t, h, c, i);
        assert NetOf(h.parent.parent) == h.parent.parent.parent == NetOf(h.parent);
        NamesShown(t, h, hit);
    }
  }

  lemma NamesShown(t: Tree, h: Handle, hit: Hit)
    requires h.Child? && hit.net == Caption(t, NetOf(h))
    requires NetRow(h) ==> hit.name == ""
    requires UnderNet(h) ==>
               if Caption(t, h) == "graph" || Caption(t, h) == "kill" then hit.name == Caption(t, h) else hit.name == ""
    requires UnderTitle(h) ==> hit.name == Caption(t, h)
    requires UnderMember(h) ==> hit.name == Caption(t, h.parent)
    ensures ShowsNames(t, h, hit)
  {
  }

  lemma NetKind(t: Tree, h: Handle)
    requires NetRow(h)
    ensures ShowsKind(t, h, Network)
  {
  }

  lemma FixedKind(t: Tree, h: Handle)
    requires UnderNet(h) && Kids(t, h) == []
    ensures Caption(t, h) == "graph" ==> ShowsKind(t, h, GraphRow)
    ensures Caption(t, h) == "kill" ==> ShowsKind(t, h, KillRow)
  {
    hide Caption, Kids;
    Captions();
  }

  lemma TitleKinds(t: Tree, h: Handle, c: Category)
    requires UnderNet(h) && Kids(t, h) != [] && Caption(t, h) == TitleName(c)
    ensures ShowsKind(t, h, TitleKind(c))
  {
    hide Caption, Kids;
    Captions();
  }

  lemma MemberKinds(t: Tree, h: Handle, c: Category)
    requires UnderTitle(h) && Caption(t, h.parent) == TitleName(c)
    ensures ShowsKind(t, h, MemberKind(c))
  {
    hide Caption, Kids;
    Captions();
  }

  // The four action rows, by their captions.
  lemma ActionKinds(t: Tree, h: Handle, c: Category, i: nat)
    requires UnderMember(h) && Caption(t, h.parent.parent) == TitleName(c)
    requires i < |SubNames(c)| && Caption(t, h) == SubNames(c)[i]
    ensures i < |SUB_KINDS| && ShowsKind(t, h, SUB_KINDS[i])
  {
    hide Caption, Kids;
    Captions();
    assert c == Vm && (i == 0 || i == 1 || i == 2 || i == 3);
  }

  // While the cached paths are right, a click on any row of the tree returns
  // what the row shows.
  lemma LookupShows(s: Store, h: Handle)
    requires Shape(s) && Agree(s) && h in s.tree.kids && h.Child?
    ensures Shows(s.tree, h, Lookup(s.nets, Text(PathOf(s.tree, h))))
  {
    hide Shape, Agree, Text, PathOf, Lookup, Meaning, RowAt, Shows;
    var p := LookupExact(s, h);
    PlaceShown(s, p);
  }
}
