// Resolving a clicked row: GTK hands over the printed path of the row, and
// the store walks its lists with raw string-prefix tests.
module StoreLookup {
  import opened PathText
  import opened TreeStore
  import opened HyperStore
  import opened StoreRelease

  // NoKind is the result -1.
  datatype Kind =
    | NoKind | Network | GraphRow | KillRow
    | VmSpice | VmSsh | VmSys | VmKil
    | VmTitle | SatTitle | LanTitle | VmRow | SatRow | LanRow

  datatype Hit = Hit(kind: Kind, net: string, name: string)

  const SUB_KINDS := [VmSpice, VmSsh, VmSys, VmKil]

  function TitleKind(c: Category): Kind {
    match c case Vm => VmTitle case Sat => SatTitle case Lan => LanTitle
  }

  function MemberKind(c: Category): Kind {
    match c case Vm => VmRow case Sat => SatRow case Lan => LanRow
  }

  function SubIndex(subs: seq<RowRef>, str: string): nat {
    if subs == [] || subs[0].sid == str then 0 else 1 + SubIndex(subs[1..], str)
  }

  function FirstNetWith(nets: seq<Net>, str: string): nat {
    if nets == [] || PrefixOf(nets[0].top.sid, str) then 0 else 1 + FirstNetWith(nets[1..], str)
  }

  function FirstMemberWith(ms: seq<Member>, str: string): nat {
    if ms == [] || PrefixOf(ms[0].top.sid, str) then 0 else 1 + FirstMemberWith(ms[1..], str)
  }

  // find_vm_with_str_iter and its two siblings
  function FindMember(c: Category, ms: seq<Member>, str: string): (Kind, string) {
    var j := FirstMemberWith(ms, str);
    if j >= |ms| then (NoKind, "")
    else
      var i := SubIndex(ms[j].subs, str);
      (if i < |ms[j].subs| && i < |SUB_KINDS| then SUB_KINDS[i] else MemberKind(c), ms[j].name)
  }

  // find_iter_vm, find_iter_sat, find_iter_lan
  function FindInGroup(c: Category, g: Group, str: string): (Kind, string) {
    if g.nb != 0 && PrefixOf(g.title.sid, str) then
      if |g.title.sid| == |str| then (TitleKind(c), "") else FindMember(c, g.members, str)
    else (NoKind, "")
  }

  function FindFixed(n: Net, str: string): (Kind, string) {
    if |str| == |n.top.sid| then (Network, "")
    else if n.graph.sid == str then (GraphRow, "graph")
    else if n.kill.sid == str then (KillRow, "kill")
    else (NoKind, "")
  }

  function OrElse(a: (Kind, string), b: (Kind, string)): (Kind, string) {
    if a.0 != NoKind then a else b
  }

  function FindInNet(n: Net, str: string): (Kind, string) {
    OrElse(FindFixed(n, str),
      OrElse(FindInGroup(Vm, n.vm, str),
        OrElse(FindInGroup(Sat, n.sat, str), FindInGroup(Lan, n.lan, str))))
  }

  // find_names_with_str_iter
  function Lookup(nets: seq<Net>, str: string): Hit {
    var k := FirstNetWith(nets, str);
    if k >= |nets| then Hit(NoKind, "", "")
    else var (kind, name) := FindInNet(nets[k], str); Hit(kind, nets[k].name, name)
  }

  // ----- which record a row of the tree belongs to ---------------------------

  datatype Place =
    | AtNet(k: nat) | AtGraph(k: nat) | AtKill(k: nat)
    | AtTitle(k: nat, c: Category)
    | AtMember(k: nat, c: Category, j: nat)
    | AtSub(k: nat, c: Category, j: nat, i: nat)

  predicate ValidPlace(s: Store, p: Place) {
    && p.k < |s.nets|
    && (p.AtTitle? ==> s.nets[p.k].Get(p.c).members != [])
    && (p.AtMember? || p.AtSub? ==> p.j < |s.nets[p.k].Get(p.c).members|)
    && (p.AtSub? ==> p.i < |s.nets[p.k].Get(p.c).members[p.j].subs|)
  }

  function RowAt(s: Store, p: Place): Handle
    requires ValidPlace(s, p)
  {
    var n := s.nets[p.k];
    match p
    case AtNet(_) => n.top.iter
    case AtGraph(_) => n.graph.iter
    case AtKill(_) => n.kill.iter
    case AtTitle(_, c) => n.Get(c).title.iter
    case AtMember(_, c, j) => n.Get(c).members[j].top.iter
    case AtSub(_, c, j, i) => n.Get(c).members[j].subs[i].iter
  }

  // What the user clicked on.
  function Meaning(s: Store, p: Place): Hit
    requires ValidPlace(s, p)
  {
    var n := s.nets[p.k];
    match p
    case AtNet(_) => Hit(Network, n.name, "")
    case AtGraph(_) => Hit(GraphRow, n.name, "graph")
    case AtKill(_) => Hit(KillRow, n.name, "kill")
    case AtTitle(_, c) => Hit(TitleKind(c), n.name, "")
    case AtMember(_, c, j) => Hit(MemberKind(c), n.name, n.Get(c).members[j].name)
    case AtSub(_, c, j, i) =>
      Hit(if i < |SUB_KINDS| then SUB_KINDS[i] else NoKind, n.name, n.Get(c).members[j].name)
  }

  // hit is what the record that owns the row is.
  ghost predicate Owns(s: Store, h: Handle, hit: Hit) {
    exists p :: ValidPlace(s, p) && RowAt(s, p) == h && hit == Meaning(s, p)
  }

  // Every row of the tree is some record's row: by its depth and its parent.
  lemma {:induction false} Locate(s: Store, h: Handle) returns (p: Place)
    requires Shape(s) && h in s.tree.kids && h.Child?
    ensures ValidPlace(s, p) && RowAt(s, p) == h
    ensures p.AtSub? ==> p.i < |SUB_KINDS|
  {
    hide NetShape;
    assert RowOk(s.tree, h);
    if h.parent.Root? {
      var x :| 0 <= x < |Kids(s.tree, Root)| && Kids(s.tree, Root)[x] == h.serial;
      var k := |s.nets| - 1 - x;
      FixedRows(s.tree, s.nets[k]);
      p := AtNet(k);
    } else {
      var q := Locate(s, h.parent);
      FixedRows(s.tree, s.nets[q.k]);
      var kids := Kids(s.tree, h.parent);
      var x: nat :| x < |kids| && kids[x] == h.serial;
      match q {
        case AtNet(k) => p := BelowNet(s, k, x);
        case AtTitle(k, c) => p := BelowTitle(s, k, c, x);
        case AtMember(k, c, j) => p := BelowMember(s, k, c, j, x);
        case AtGraph(k) => NoRowBelow(s, q);
        case AtKill(k) => NoRowBelow(s, q);
        case AtSub(k, c, j, i) => NoRowBelow(s, q);
      }
    }
  }

  lemma BelowNet(s: Store, k: nat, x: nat) returns (p: Place)
    requires Shape(s) && k < |s.nets| && x < |Kids(s.tree, s.nets[k].top.iter)|
    ensures ValidPlace(s, p) && !p.AtSub?
    ensures RowAt(s, p) == Child(s.nets[k].top.iter, Kids(s.tree, s.nets[k].top.iter)[x])
  {
    hide GroupShape, TreeOk;
    var n := s.nets[k];
    assert NetShape(s.tree, n);
    if x == 0 {
      p := AtGraph(k);
    } else if x == 1 {
      p := AtKill(k);
    } else {
      var h := Child(n.top.iter, Kids(s.tree, n.top.iter)[x]);
      assert TitleIn(Titles(n), h);
      var c :| c in Titles(n) && Titles(n)[c] == h;
      p := AtTitle(k, c);
    }
  }

  lemma BelowTitle(s: Store, k: nat, c: Category, x: nat) returns (p: Place)
    requires Shape(s) && k < |s.nets| && s.nets[k].Get(c).members != []
    requires x < |Kids(s.tree, s.nets[k].Get(c).title.iter)|
    ensures ValidPlace(s, p) && !p.AtSub?
    ensures RowAt(s, p) == Child(s.nets[k].Get(c).title.iter, Kids(s.tree, s.nets[k].Get(c).title.iter)[x])
  {
    hide TitlesShape, TreeOk, LeafAt, MemberShape;
    var n := s.nets[k];
    assert NetShape(s.tree, n);
    assert GroupShape(s.tree, n.top.iter, c, n.Get(c));
    var ms := n.Get(c).members;
    MemberTop(s.tree, n.top.iter, c, n.Get(c).title.iter, ms, |ms| - 1 - x);
    p := AtMember(k, c, |ms| - 1 - x);
  }

  lemma MemberAt(s: Store, k: nat, c: Category, j: nat)
    requires Shape(s) && k < |s.nets| && j < |s.nets[k].Get(c).members|
    ensures var g := s.nets[k].Get(c);
            && GroupShape(s.tree, s.nets[k].top.iter, c, g)
            && MemberShape(s.tree, g.title.iter, c, g.members[j])
            && |Kids(s.tree, g.title.iter)| == |g.members|
            && g.members[j].top.iter == Child(g.title.iter, Kids(s.tree, g.title.iter)[|g.members| - 1 - j])
  {
    hide TitlesShape, TreeOk, LeafAt, MemberShape;
    var n := s.nets[k];
    assert NetShape(s.tree, n);
    assert GroupShape(s.tree, n.top.iter, c, n.Get(c));
    MemberTop(s.tree, n.top.iter, c, n.Get(c).title.iter, n.Get(c).members, j);
  }

  lemma BelowMember(s: Store, k: nat, c: Category, j: nat, x: nat) returns (p: Place)
    requires Shape(s) && k < |s.nets| && j < |s.nets[k].Get(c).members|
    requires x < |Kids(s.tree, s.nets[k].Get(c).members[j].top.iter)|
    ensures ValidPlace(s, p) && (p.AtSub? ==> p.i < |SUB_KINDS|)
    ensures RowAt(s, p) == Child(s.nets[k].Get(c).members[j].top.iter,
                                 Kids(s.tree, s.nets[k].Get(c).members[j].top.iter)[x])
  {
    hide NetShape;
    MemberAt(s, k, c, j);
    var m := s.nets[k].Get(c).members[j];
    assert LeafAt(s.tree, m.top.iter, x, m.subs[x], SubNames(c)[x]);
    p := AtSub(k, c, j, x);
  }

  lemma NoRowBelow(s: Store, p: Place)
    requires Shape(s) && ValidPlace(s, p) && (p.AtGraph? || p.AtKill? || p.AtSub?)
    ensures Kids(s.tree, RowAt(s, p)) == []
  {
    assert NetShape(s.tree, s.nets[p.k]);
    if p.AtSub? {
      MemberAt(s, p.k, p.c, p.j);
      var m := s.nets[p.k].Get(p.c).members[p.j];
      assert LeafAt(s.tree, m.top.iter, p.i, m.subs[p.i], SubNames(p.c)[p.i]);
    }
  }

  // ----- paths of the places --------------------------------------------------

  function PlacePath(s: Store, p: Place): Path
    requires ValidPlace(s, p)
  {
    var n := s.nets[p.k];
    var net: Path := [|s.nets| - 1 - p.k];
    match p
    case AtNet(_) => net
    case AtGraph(_) => net + [0]
    case AtKill(_) => net + [1]
    case AtTitle(_, c) => net + [TitlePosition(s.tree, n, c)]
    case AtMember(_, c, j) => net + [TitlePosition(s.tree, n, c), |n.Get(c).members| - 1 - j]
    case AtSub(_, c, j, i) => net + [TitlePosition(s.tree, n, c), |n.Get(c).members| - 1 - j, i]
  }

  lemma KidPath(t: Tree, a: Handle, x: nat)
    requires TreeOk(t) && a in t.kids && x < |Kids(t, a)|
    ensures PathOf(t, Child(a, Kids(t, a)[x])) == PathOf(t, a) + [x]
  {
    assert RowOk(t, a);
    IndexOfAt(Kids(t, a), x, t.next);
  }

  lemma NetAt(s: Store, k: nat)
    requires Shape(s) && k < |s.nets|
    ensures NetShape(s.tree, s.nets[k]) && s.nets[k].top.iter in s.tree.kids
    ensures PathOf(s.tree, s.nets[k].top.iter) == [|s.nets| - 1 - k]
    ensures LeafAt(s.tree, s.nets[k].top.iter, 0, s.nets[k].graph, "graph")
    ensures LeafAt(s.tree, s.nets[k].top.iter, 1, s.nets[k].kill, "kill")
  {
    KidPath(s.tree, Root, |s.nets| - 1 - k);
    FixedRows(s.tree, s.nets[k]);
  }

  lemma TitleAt(s: Store, k: nat, c: Category)
    requires Shape(s) && k < |s.nets| && s.nets[k].Get(c).members != []
    ensures s.nets[k].Get(c).title.iter in s.tree.kids && s.nets[k].Get(c).nb == |s.nets[k].Get(c).members|
    ensures 2 <= TitlePosition(s.tree, s.nets[k], c) < 5
    ensures PathOf(s.tree, s.nets[k].Get(c).title.iter) ==
            [|s.nets| - 1 - k, TitlePosition(s.tree, s.nets[k], c)]
  {
    hide GroupShape, LeafAt;
    NetAt(s, k);
    var n := s.nets[k];
    TitlePositionOk(s.tree, n, c);
    KidPath(s.tree, n.top.iter, TitlePosition(s.tree, n, c));
    MemberAt(s, k, c, 0);
    TitleInTree(s.tree, n, c);
    AtMostThree(Titles(n));
  }

  lemma TitleInTree(t: Tree, n: Net, c: Category)
    requires GroupShape(t, n.top.iter, c, n.Get(c)) && n.Get(c).members != []
    ensures n.Get(c).title.iter in t.kids && n.Get(c).nb == |n.Get(c).members|
  {
  }

  lemma AtMostThree(titles: map<Category, Handle>)
    ensures |titles| <= 3
  {
    var all := {Vm, Sat, Lan};
    forall c | c in titles
      ensures c in all
    {
      match c case Vm => case Sat => case Lan =>
    }
    SubsetSize(titles.Keys, all);
  }

  lemma {:induction false} SubsetSize(a: set<Category>, b: set<Category>)
    requires a <= b
    ensures |a| <= |b|
  {
    if a != {} {
      var x :| x in a;
      SubsetSize(a - {x}, b - {x});
    }
  }

  lemma PlacePathOk(s: Store, p: Place)
    requires Shape(s) && ValidPlace(s, p)
    ensures PathOf(s.tree, RowAt(s, p)) == PlacePath(s, p)
  {
    hide NetShape, PathOf, TitlePosition, LeafAt;
    var t, n := s.tree, s.nets[p.k];
    NetAt(s, p.k);
    match p {
      case AtNet(_) =>
      case AtGraph(_) => GraphRowPath(t, n);
      case AtKill(_) => GraphRowPath(t, n);
      case AtTitle(k, c) => TitleAt(s, k, c);
      case AtMember(k, c, j) => MemberPath(s, k, c, j);
      case AtSub(k, c, j, i) => SubPath(s, k, c, j, i);
    }
  }

  lemma GraphRowPath(t: Tree, n: Net)
    requires TreeOk(t) && n.top.iter in t.kids
    requires LeafAt(t, n.top.iter, 0, n.graph, "graph") && LeafAt(t, n.top.iter, 1, n.kill, "kill")
    ensures PathOf(t, n.graph.iter) == PathOf(t, n.top.iter) + [0]
    ensures PathOf(t, n.kill.iter) == PathOf(t, n.top.iter) + [1]
  {
    KidPath(t, n.top.iter, 0);
    KidPath(t, n.top.iter, 1);
  }

  lemma MemberPath(s: Store, k: nat, c: Category, j: nat)
    requires Shape(s) && k < |s.nets| && j < |s.nets[k].Get(c).members|
    ensures var g := s.nets[k].Get(c);
            PathOf(s.tree, g.members[j].top.iter) ==
            [|s.nets| - 1 - k, TitlePosition(s.tree, s.nets[k], c), |g.members| - 1 - j]
  {
    hide NetShape, GroupShape, MemberShape, TitlePosition, PathOf;
    var g := s.nets[k].Get(c);
    TitleAt(s, k, c);
    MemberAt(s, k, c, j);
    KidPath(s.tree, g.title.iter, |g.members| - 1 - j);
  }

  lemma SubPath(s: Store, k: nat, c: Category, j: nat, i: nat)
    requires Shape(s) && k < |s.nets| && j < |s.nets[k].Get(c).members|
    requires i < |s.nets[k].Get(c).members[j].subs|
    ensures var m := s.nets[k].Get(c).members[j];
            PathOf(s.tree, m.subs[i].iter) == PathOf(s.tree, m.top.iter) + [i]
    ensures PathOf(s.tree, s.nets[k].Get(c).members[j].subs[i].iter) == PlacePath(s, AtSub(k, c, j, i))
  {
    hide NetShape, GroupShape, TitlePosition, PathOf;
    MemberPath(s, k, c, j);
    MemberAt(s, k, c, j);
    var m := s.nets[k].Get(c).members[j];
    assert LeafAt(s.tree, m.top.iter, i, m.subs[i], SubNames(c)[i]);
    KidPath(s.tree, m.top.iter, i);
  }

  // ----- the walk finds the right record ---------------------------------------

  lemma {:induction false} FirstNetAt(nets: seq<Net>, str: string, k: nat)
    requires k < |nets| && PrefixOf(nets[k].top.sid, str)
    requires forall x :: 0 <= x < k ==> !PrefixOf(nets[x].top.sid, str)
    ensures FirstNetWith(nets, str) == k
  {
    if k > 0 {
      forall x | 0 <= x < k - 1
        ensures !PrefixOf(nets[1..][x].top.sid, str)
      {
        assert nets[1..][x] == nets[x + 1];
      }
      FirstNetAt(nets[1..], str, k - 1);
    }
  }

  lemma {:induction false} FirstMemberAt(ms: seq<Member>, str: string, j: nat)
    requires j < |ms| && PrefixOf(ms[j].top.sid, str)
    requires forall x :: 0 <= x < j ==> !PrefixOf(ms[x].top.sid, str)
    ensures FirstMemberWith(ms, str) == j
  {
    if j > 0 {
      forall x | 0 <= x < j - 1
        ensures !PrefixOf(ms[1..][x].top.sid, str)
      {
        assert ms[1..][x] == ms[x + 1];
      }
      FirstMemberAt(ms[1..], str, j - 1);
    }
  }

  lemma {:induction false} SubIndexAt(subs: seq<RowRef>, str: string, i: nat)
    requires i <= |subs| && (i < |subs| ==> subs[i].sid == str)
    requires forall x :: 0 <= x < i ==> subs[x].sid != str
    ensures SubIndex(subs, str) == i
  {
    if i > 0 {
      forall x | 0 <= x < i - 1
        ensures subs[1..][x].sid != str
      {
        assert subs[1..][x] == subs[x + 1];
      }
      SubIndexAt(subs[1..], str, i - 1);
    }
  }

  // The printed path of a place, as the click delivers it.
  function Click(s: Store, p: Place): string
    requires ValidPlace(s, p)
  {
    Text(PlacePath(s, p))
  }

  lemma NetTopPath(s: Store, k: nat)
    requires Shape(s) && k < |s.nets|
    ensures PathOf(s.tree, s.nets[k].top.iter) == [|s.nets| - 1 - k]
  {
    NetAt(s, k);
  }

  // Descending tree order of the list makes the first raw prefix match the
  // exact one, however many nets there are.
  lemma NetMatchAt(s: Store, k: nat, q: Path)
    requires Shape(s) && k < |s.nets| && |q| > 0 && q[0] == |s.nets| - 1 - k
    requires forall x :: 0 <= x < |s.nets| ==> RefOk(s.tree, s.nets[x].top)
    ensures FirstNetWith(s.nets, Text(q)) == k
  {
    hide Shape, Text, PathOf, PrefixOf;
    NetTopPath(s, k);
    AncestorPrefix([|s.nets| - 1 - k], q);
    assert RefOk(s.tree, s.nets[k].top);
    forall x | 0 <= x < k
      ensures !PrefixOf(s.nets[x].top.sid, Text(q))
    {
      NetMiss(s, x, k, q);
    }
    FirstNetAt(s.nets, Text(q), k);
  }

  lemma NetMiss(s: Store, x: nat, k: nat, q: Path)
    requires Shape(s) && x < k < |s.nets| && |q| > 0 && q[0] == |s.nets| - 1 - k
    requires RefOk(s.tree, s.nets[x].top)
    ensures !PrefixOf(s.nets[x].top.sid, Text(q))
  {
    hide Shape, Text, PathOf, PrefixOf, Decimal;
    NetTopPath(s, x);
    if PrefixOf(s.nets[x].top.sid, Text(q)) {
      PrefixMeaning([|s.nets| - 1 - x], q);
    }
  }

  lemma NetMatch(s: Store, p: Place)
    requires Shape(s) && Agree(s) && ValidPlace(s, p)
    ensures FirstNetWith(s.nets, Click(s, p)) == p.k
  {
    hide Shape, Text, PathOf;
    forall x | 0 <= x < |s.nets|
      ensures RefOk(s.tree, s.nets[x].top)
    {
      assert NetSids(s.tree, s.nets[x]);
    }
    NetMatchAt(s, p.k, PlacePath(s, p));
  }

  predicate InCategory(p: Place, c: Category) {
    (p.AtTitle? || p.AtMember? || p.AtSub?) && p.c == c
  }

  lemma TitleSid(s: Store, k: nat, c: Category)
    requires Shape(s) && Agree(s) && k < |s.nets| && s.nets[k].Get(c).members != []
    ensures s.nets[k].Get(c).title.sid == Text([|s.nets| - 1 - k, TitlePosition(s.tree, s.nets[k], c)])
  {
    hide Shape, Text, TitlePosition, MemberSids, PathOf;
    TitleAt(s, k, c);
    assert NetSids(s.tree, s.nets[k]);
    assert GroupSids(s.tree, s.nets[k].Get(c));
  }

  lemma GroupCount(s: Store, k: nat, c: Category)
    requires Shape(s) && k < |s.nets|
    ensures s.nets[k].Get(c).nb == |s.nets[k].Get(c).members|
  {
    hide LeafAt, TitlesShape, MembersBelow;
    assert NetShape(s.tree, s.nets[k]);
    assert GroupShape(s.tree, s.nets[k].top.iter, c, s.nets[k].Get(c));
  }

  lemma TitlesDiffer(s: Store, k: nat, c: Category, d: Category)
    requires Shape(s) && k < |s.nets| && c != d
    requires s.nets[k].Get(c).members != [] && s.nets[k].Get(d).members != []
    ensures TitlePosition(s.tree, s.nets[k], c) != TitlePosition(s.tree, s.nets[k], d)
  {
    hide NetShape;
    assert NetShape(s.tree, s.nets[k]);
    TitlePositionOk(s.tree, s.nets[k], c);
    TitlePositionOk(s.tree, s.nets[k], d);
    DistinctTitles(s.tree, s.nets[k], c, d);
  }

  // Titles are single digits, so a category whose row was not clicked never
  // captures the click.
  lemma OtherCategory(s: Store, p: Place, d: Category)
    requires Shape(s) && Agree(s) && ValidPlace(s, p) && !p.AtNet? && !InCategory(p, d)
    ensures FindInGroup(d, s.nets[p.k].Get(d), Click(s, p)) == (NoKind, "")
  {
    hide Shape, Agree, Text, TitlePosition, FindMember;
    var g := s.nets[p.k].Get(d);
    var q := PlacePath(s, p);
    GroupCount(s, p.k, d);
    if g.nb != 0 && PrefixOf(g.title.sid, Text(q)) {
      TitleAt(s, p.k, d);
      TitleSid(s, p.k, d);
      var r := [|s.nets| - 1 - p.k, TitlePosition(s.tree, s.nets[p.k], d)];
      PrefixMeaning(r, q);
      if !p.AtGraph? && !p.AtKill? {
        TitleAt(s, p.k, p.c);
        TitlesDiffer(s, p.k, p.c, d);
      }
    }
  }

  lemma MemberSid(s: Store, k: nat, c: Category, j: nat)
    requires Shape(s) && Agree(s) && k < |s.nets| && j < |s.nets[k].Get(c).members|
    ensures var m := s.nets[k].Get(c).members[j];
            && m.top.sid == Text(PlacePath(s, AtMember(k, c, j)))
            && (forall i :: 0 <= i < |m.subs| ==> m.subs[i].sid == Text(PlacePath(s, AtSub(k, c, j, i))))
  {
    hide Shape, Text, TitlePosition, PathOf;
    var m := s.nets[k].Get(c).members[j];
    MemberPath(s, k, c, j);
    assert NetSids(s.tree, s.nets[k]);
    assert GroupSids(s.tree, s.nets[k].Get(c));
    assert MemberSids(s.tree, m);
    var q: Path := [|s.nets| - 1 - k, TitlePosition(s.tree, s.nets[k], c), |s.nets[k].Get(c).members| - 1 - j];
    assert PlacePath(s, AtMember(k, c, j)) == q;
    forall i | 0 <= i < |m.subs|
      ensures m.subs[i].sid == Text(PlacePath(s, AtSub(k, c, j, i)))
    {
      SubPath(s, k, c, j, i);
    }
  }

  lemma MemberMatch(s: Store, p: Place)
    requires Shape(s) && Agree(s) && ValidPlace(s, p) && (p.AtMember? || p.AtSub?)
    ensures FirstMemberWith(s.nets[p.k].Get(p.c).members, Click(s, p)) == p.j
  {
    hide Shape, Agree, Text, TitlePosition;
    var ms := s.nets[p.k].Get(p.c).members;
    var q := PlacePath(s, p);
    MemberSid(s, p.k, p.c, p.j);
    AncestorPrefix(PlacePath(s, AtMember(p.k, p.c, p.j)), q);
    forall x | 0 <= x < p.j
      ensures !PrefixOf(ms[x].top.sid, Text(q))
    {
      MemberSid(s, p.k, p.c, x);
      if PrefixOf(ms[x].top.sid, Text(q)) {
        PrefixMeaning(PlacePath(s, AtMember(p.k, p.c, x)), q);
      }
    }
    FirstMemberAt(ms, Text(q), p.j);
  }

  lemma SubMatch(s: Store, p: Place)
    requires Shape(s) && Agree(s) && ValidPlace(s, p) && (p.AtMember? || p.AtSub?)
    ensures var m := s.nets[p.k].Get(p.c).members[p.j];
            SubIndex(m.subs, Click(s, p)) == if p.AtSub? then p.i else |m.subs|
  {
    hide Shape, Agree, Text, TitlePosition;
    var m := s.nets[p.k].Get(p.c).members[p.j];
    var q := PlacePath(s, p);
    var last := if p.AtSub? then p.i else |m.subs|;
    MemberSid(s, p.k, p.c, p.j);
    forall x | 0 <= x < last
      ensures m.subs[x].sid != Text(q)
    {
      var r := PlacePath(s, AtSub(p.k, p.c, p.j, x));
      assert |r| == 4 && r[3] == x && (p.AtSub? ==> q[3] == p.i);
      if m.subs[x].sid == Text(q) {
        TextInjective(r, q);
      }
    }
    SubIndexAt(m.subs, Text(q), last);
  }

  lemma OwnCategory(s: Store, p: Place)
    requires Shape(s) && Agree(s) && ValidPlace(s, p) && (p.AtTitle? || p.AtMember? || p.AtSub?)
    requires p.AtSub? ==> p.i < |SUB_KINDS|
    ensures FindInGroup(p.c, s.nets[p.k].Get(p.c), Click(s, p)) == (Meaning(s, p).kind, Meaning(s, p).name)
    ensures Meaning(s, p).kind != NoKind
  {
    hide Shape, Agree, Text, TitlePosition;
    var g := s.nets[p.k].Get(p.c);
    var q := PlacePath(s, p);
    GroupCount(s, p.k, p.c);
    TitleSid(s, p.k, p.c);
    var title: Path := [|s.nets| - 1 - p.k, TitlePosition(s.tree, s.nets[p.k], p.c)];
    assert title == q[..2] && (p.AtTitle? ==> title == q);
    AncestorPrefix(title, q);
    if !p.AtTitle? {
      MemberMatch(s, p);
      SubMatch(s, p);
      SubCount(s, p.k, p.c, p.j);
    }
  }

  lemma SubCount(s: Store, k: nat, c: Category, j: nat)
    requires Shape(s) && k < |s.nets| && j < |s.nets[k].Get(c).members|
    ensures |s.nets[k].Get(c).members[j].subs| <= |SUB_KINDS|
  {
    hide NetShape, GroupShape;
    MemberAt(s, k, c, j);
  }

  lemma FixedMatch(s: Store, p: Place)
    requires Shape(s) && Agree(s) && ValidPlace(s, p)
    ensures FindFixed(s.nets[p.k], Click(s, p)) ==
            if p.AtNet? || p.AtGraph? || p.AtKill? then (Meaning(s, p).kind, Meaning(s, p).name)
            else (NoKind, "")
  {
    hide NetShape, Text, TitlePosition, PathOf, LeafAt;
    var n := s.nets[p.k];
    var q := PlacePath(s, p);
    var net: Path := [|s.nets| - 1 - p.k];
    NetAt(s, p.k);
    GraphRowPath(s.tree, n);
    assert NetSids(s.tree, n);
    AncestorPrefix(net, q);
    assert n.graph.sid == Text(net + [0]) && n.kill.sid == Text(net + [1]);
    if InCategory(p, Vm) || InCategory(p, Sat) || InCategory(p, Lan) {
      TitleAt(s, p.k, p.c);
      assert q[1] >= 2;
    }
    assert p.AtGraph? ==> q[1] == 0;
    assert p.AtKill? ==> q[1] == 1;
    assert (net + [0])[1] == 0 && (net + [1])[1] == 1;
    if n.graph.sid == Text(q) { TextInjective(net + [0], q); }
    if n.kill.sid == Text(q) { TextInjective(net + [1], q); }
  }

  // The walk resolves the click on any place to what was clicked.
  lemma LookupPlace(s: Store, p: Place)
    requires Shape(s) && Agree(s) && ValidPlace(s, p)
    requires p.AtSub? ==> p.i < |SUB_KINDS|
    ensures Lookup(s.nets, Click(s, p)) == Meaning(s, p)
  {
    hide Shape, Agree, Text, PlacePath, FindFixed, FindInGroup;
    NetMatch(s, p);
    FixedMatch(s, p);
    if p.AtTitle? || p.AtMember? || p.AtSub? {
      OwnCategory(s, p);
      forall d: Category | d != p.c
        ensures FindInGroup(d, s.nets[p.k].Get(d), Click(s, p)) == (NoKind, "")
      {
        OtherCategory(s, p, d);
      }
      var n := s.nets[p.k];
      assert n.Get(Vm) == n.vm && n.Get(Sat) == n.sat && n.Get(Lan) == n.lan;
    }
  }

  // Main result: while the cached paths are right, the string of any row of
  // the tree resolves to exactly the record that owns the row.
  lemma LookupExact(s: Store, h: Handle) returns (p: Place)
    requires Shape(s) && Agree(s) && h in s.tree.kids && h.Child?
    ensures ValidPlace(s, p) && RowAt(s, p) == h
    ensures Lookup(s.nets, Text(PathOf(s.tree, h))) == Meaning(s, p)
    ensures Meaning(s, p).kind != NoKind
  {
    hide Shape, Agree, Text, PathOf, Lookup;
    p := Locate(s, h);
    PlacePathOk(s, p);
    LookupPlace(s, p);
  }
}
