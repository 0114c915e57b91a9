// Whole runs of the store.
module StoreRuns {
  import opened PathText
  import opened TreeStore
  import opened Options
  import opened HyperStore
  import opened StoreInvariants
  import opened StoreRelease
  import opened StoreLookup

  // Every row of the tree resolves to the record that owns it.
  ghost predicate Resolves(s: Store, h: Handle) {
    Owns(s, h, Lookup(s.nets, Text(PathOf(s.tree, h))))
  }

  ghost predicate AllRowsResolve(s: Store) {
    forall h :: h in s.tree.kids && h.Child? ==> Resolves(s, h)
  }

  lemma AgreeResolves(s: Store)
    requires Shape(s) && Agree(s)
    ensures AllRowsResolve(s)
  {
    hide Shape, Agree, Text, PathOf, Lookup, RowAt, Meaning;
    forall h | h in s.tree.kids && h.Child?
      ensures Resolves(s, h)
    {
      var p := LookupExact(s, h);
    }
  }

  lemma NoKindLost(s: Store, h: Handle)
    requires Shape(s) && Lookup(s.nets, Text(PathOf(s.tree, h))).kind == NoKind
    ensures !Resolves(s, h)
  {
    hide Shape, Text, PathOf, Lookup;
    if Resolves(s, h) {
      var p :| ValidPlace(s, p) && RowAt(s, p) == h && Lookup(s.nets, Text(PathOf(s.tree, h))) == Meaning(s, p);
      if p.AtSub? { SubCount(s, p.k, p.c, p.j); }
    }
  }

  // After a harmful release, the row that took the vacated place is lost: its
  // click resolves to nothing.
  lemma HarmfulLosesRow(s: Store, net: string, c: Category, name: string) returns (h: Handle)
    requires Shape(s) && Agree(s) && FreeMember(s, net, c, name).Some? && Harmful(s, net, c)
    ensures var s' := FreeMember(s, net, c, name).value;
            && h in s'.tree.kids && h.Child?
            && PathOf(s'.tree, h) == PathOf(s.tree, s.nets[NetIndex(s.nets, net)].Get(c).title.iter)
            && Lookup(s'.nets, Text(PathOf(s'.tree, h))).kind == NoKind
  {
    hide NetShape, NetSids, Remove, RefreshMembers, FreeMember, Text, PathOf, TitlePosition, FindInNet;
    var k := NetIndex(s.nets, net);
    FreeMemberForm(s, net, c, name);
    FreeMemberShape(s, net, c, name);
    var n := s.nets[k];
    var t := s.tree;
    var s' := FreeMember(s, net, c, name).value;
    CountOk(t, n, c);
    var u := Remove(t, n.Get(c).title.iter);
    assert s' == Store(u, s.nets[k := NetWithout(n, c, 0, u)]);
    LastOfCategory(t, n, c);
    NetAt(s, k);
    FixedRows(t, n);
    TopPath(t, u, n.top.iter);
    var p := TitlePosition(t, n, c);
    TitleAt(s, k, c);
    h := Child(n.top.iter, Kids(u, n.top.iter)[p]);
    KidPath(u, n.top.iter, p);
    assert RowOk(u, n.top.iter);
    var q: Path := [|s.nets| - 1 - k, p];
    assert PathOf(u, h) == q;
    forall x | 0 <= x < |s'.nets|
      ensures RefOk(u, s'.nets[x].top)
    {
      TopsStayRight(s, k, c, x);
    }
    NetMatchAt(s', k, q);
    VacatedMiss(s, k, c, u);
  }

  lemma TopsStayRight(s: Store, k: nat, c: Category, x: nat)
    requires Shape(s) && Agree(s) && k < |s.nets| && x < |s.nets|
    requires s.nets[k].Get(c).nb == 1 && s.nets[k].Get(c).title.iter.Child?
    ensures RefOk(Remove(s.tree, s.nets[k].Get(c).title.iter), s.nets[x].top)
  {
    hide Remove, NetShape, Text;
    var u := Remove(s.tree, s.nets[k].Get(c).title.iter);
    NetAt(s, x);
    NetAt(s, k);
    LastOfCategory(s.tree, s.nets[k], c);
    FixedRows(s.tree, s.nets[x]);
    TopPath(s.tree, u, s.nets[x].top.iter);
    assert NetSids(s.tree, s.nets[x]);
  }

  lemma VacatedMiss(s: Store, k: nat, c: Category, u: Tree)
    requires Shape(s) && Agree(s) && k < |s.nets| && s.nets[k].Get(c).nb == 1
    requires s.nets[k].Get(c).members != []
    ensures var q: Path := [|s.nets| - 1 - k, TitlePosition(s.tree, s.nets[k], c)];
            FindInNet(NetWithout(s.nets[k], c, 0, u), Text(q)) == (NoKind, "")
  {
    hide Shape, Agree, Text, TitlePosition, FindMember, RefreshMembers;
    var n := s.nets[k];
    var n' := NetWithout(n, c, 0, u);
    var p := TitlePosition(s.tree, n, c);
    TitleAt(s, k, c);
    FixedMatch(s, AtTitle(k, c));
    assert PlacePath(s, AtTitle(k, c)) == [|s.nets| - 1 - k, p];
    assert FindFixed(n', Text([|s.nets| - 1 - k, p])) == (NoKind, "");
    forall d: Category
      ensures FindInGroup(d, n'.Get(d), Text([|s.nets| - 1 - k, p])) == (NoKind, "")
    {
      if d != c {
        assert n'.Get(d) == n.Get(d);
        OtherCategory(s, AtTitle(k, c), d);
      }
    }
    assert n'.Get(Vm) == n'.vm && n'.Get(Sat) == n'.sat && n'.Get(Lan) == n'.lan;
  }

  // Releasing a member leaves every remaining row resolvable if and only if
  // the release is not harmful.
  lemma ReleaseResolves(s: Store, net: string, c: Category, name: string)
    requires Shape(s) && Agree(s) && FreeMember(s, net, c, name).Some?
    ensures AllRowsResolve(FreeMember(s, net, c, name).value) <==> !Harmful(s, net, c)
  {
    hide Shape, Agree, FreeMember, Resolves, Harmful, Lookup;
    var s' := FreeMember(s, net, c, name).value;
    FreeMemberShape(s, net, c, name);
    if Harmful(s, net, c) {
      var h := HarmfulLosesRow(s, net, c, name);
      NoKindLost(s', h);
    } else {
      FreeMemberAgree(s, net, c, name);
      AgreeResolves(s');
    }
  }

  // ----- runs -------------------------------------------------------------------

  datatype Op =
    | NetAlloc(net: string)
    | MemberAlloc(net: string, c: Category, name: string, tag: int)
    | MemberFree(net: string, c: Category, name: string)
    | NetFree(net: string)

  function Step(s: Store, op: Op): Option<Store>
    requires Shape(s)
  {
    hide NetShape, TreeOk;
    match op
    case NetAlloc(net) => AllocNet(s, net)
    case MemberAlloc(net, c, name, tag) => AllocMember(s, net, c, name, tag)
    case MemberFree(net, c, name) => FreeMember(s, net, c, name)
    case NetFree(net) => FreeNet(s, net)
  }

  lemma Unique(s: Store)
    requires Shape(s)
    ensures UniqueNames(s.nets)
  {
  }

  lemma StepShape(s: Store, op: Op)
    requires Shape(s) && Step(s, op).Some?
    ensures Shape(Step(s, op).value)
  {
    hide Shape, AllocNet, AllocMember, FreeMember, FreeNet;
    assert UniqueNames(s.nets) by { Unique(s); }
    match op
    case NetAlloc(net) => AllocNetKeeps(s, net);
    case MemberAlloc(net, c, name, tag) => AllocMemberKeeps(s, net, c, name, tag);
    case MemberFree(net, c, name) => FreeMemberShape(s, net, c, name);
    case NetFree(net) => FreeNetRepairs(s, net);
  }

  // None: some operation of the run was a fatal error.
  function Run(s: Store, ops: seq<Op>): Option<Store>
    requires Shape(s)
    decreases |ops|
  {
    hide Shape, Step;
    if ops == [] then Some(s)
    else
      match Step(s, ops[0])
      case None => None
      case Some(u) => StepShape(s, ops[0]); Run(u, ops[1..])
  }

  // Whether the cached paths are known right after the run: a harmful release
  // spoils them, the release of a net restores them.
  predicate Clean(s: Store, ops: seq<Op>, clean: bool)
    requires Shape(s)
    decreases |ops|
  {
    hide Shape, Step, Harmful;
    if ops == [] then clean
    else
      match Step(s, ops[0])
      case None => clean
      case Some(u) =>
        StepShape(s, ops[0]);
        var op := ops[0];
        Clean(u, ops[1..], op.NetFree? || (clean && !(op.MemberFree? && Harmful(s, op.net, op.c))))
  }

  lemma {:induction false} RunKeeps(s: Store, ops: seq<Op>, clean: bool)
    requires Shape(s) && (clean ==> Agree(s)) && Run(s, ops).Some?
    ensures Shape(Run(s, ops).value)
    ensures Clean(s, ops, clean) ==> Agree(Run(s, ops).value)
    decreases |ops|
  {
    hide Shape, Agree, Harmful, AllocNet, AllocMember, FreeMember, FreeNet;
    if ops != [] {
      var op := ops[0];
      Unique(s);
      var u := Step(s, op).value;
      StepShape(s, op);
      match op {
        case NetAlloc(net) => AllocNetKeeps(s, net);
        case MemberAlloc(net, c, name, tag) => AllocMemberKeeps(s, net, c, name, tag);
        case MemberFree(net, c, name) => if clean { FreeMemberAgree(s, net, c, name); }
        case NetFree(net) => FreeNetRepairs(s, net);
      }
      RunKeeps(u, ops[1..], op.NetFree? || (clean && !(op.MemberFree? && Harmful(s, op.net, op.c))));
    }
  }

  lemma InitialShape()
    ensures Shape(INITIAL) && Agree(INITIAL)
  {
    assert RowOk(INITIAL.tree, Root);
  }

  // Main result over runs: from the empty store the lists and the tree are in
  // step after any run, and every row resolves after any clean one.
  lemma EveryRun(ops: seq<Op>)
    requires Shape(INITIAL) && Run(INITIAL, ops).Some?
    ensures Shape(Run(INITIAL, ops).value)
    ensures Clean(INITIAL, ops, true) ==> AllRowsResolve(Run(INITIAL, ops).value)
  {
    hide Shape, Agree, Run, Clean, Resolves;
    InitialShape();
    RunKeeps(INITIAL, ops, true);
    if Clean(INITIAL, ops, true) {
      AgreeResolves(Run(INITIAL, ops).value);
    }
  }

  // ----- a run that goes wrong ----------------------------------------------------

  // The only machine of a net is released while the satellites' title row
  // follows the machines' title row.
  const SPOILING := [NetAlloc("n"), MemberAlloc("n", Vm, "a", 1), MemberAlloc("n", Sat, "b", 2)]

  lemma KidsAppend(t: Tree, p: Handle, caption: string, h: Handle)
    requires h != Child(p, t.next)
    ensures Kids(Append(t, p, caption), h) == if h == p then Kids(t, p) + [t.next] else Kids(t, h)
  {
  }

  lemma {:induction false} KidsLeaves(t: Tree, p: Handle, captions: seq<string>, h: Handle)
    requires h != p && !(h.Child? && h.parent == p)
    ensures Kids(AddLeaves(t, p, captions).0, h) == Kids(t, h)
    decreases |captions|
  {
    hide Append, Kids, Fresh;
    if captions != [] {
      KidsAppend(t, p, captions[0], h);
      KidsLeaves(Append(t, p, captions[0]), p, captions[1..], h);
    }
  }

  // The first member of a category appends its title row to the net's rows.
  lemma FirstMember(s: Store, net: string, c: Category, name: string, tag: int)
    requires |s.nets| == 1 && s.nets[0].name == net && s.nets[0].Get(c).nb == 0
    requires s.nets[0].top.iter != Child(s.nets[0].top.iter, s.tree.next)
    ensures var u := AllocMember(s, net, c, name, tag);
            u.Some? && |u.value.nets| == 1 && u.value.nets[0].Get(c).members != []
            && u.value.nets[0].Get(c).members[0].name == name
    ensures var n := s.nets[0];
            var u := AllocMember(s, net, c, name, tag);
            && u.Some? && |u.value.nets| == 1 && u.value.nets[0].name == net
            && u.value.nets[0].top == n.top && u.value.nets[0].Get(c).nb == 1
            && u.value.nets[0].Get(c).title.iter == Child(n.top.iter, s.tree.next)
            && (forall d :: d != c ==> u.value.nets[0].Get(d) == n.Get(d))
            && Kids(u.value.tree, n.top.iter) == Kids(s.tree, n.top.iter) + [s.tree.next]
  {
    hide Append, Kids, Text, PathOf, AddLeaves;
    var top := s.nets[0].top.iter;
    assert NetIndex(s.nets, net) == 0;
    match c { case Vm => case Sat => case Lan => }
    KidsAppend(s.tree, top, TitleName(c), top);
    var t1 := Append(s.tree, top, TitleName(c));
    var title := Child(top, s.tree.next);
    NotBelow(top, s.tree.next, t1.next);
    KidsAppend(t1, title, name, top);
    var t2 := Append(t1, title, name);
    KidsLeaves(t2, Child(title, t1.next), SubNames(c), top);
  }

  lemma NotBelow(top: Handle, a: nat, b: nat)
    ensures top != Child(top, a) && top != Child(Child(top, a), b)
    ensures top.Child? ==> top.parent != Child(Child(top, a), b)
  {
    assert Depth(Child(Child(top, a), b)) == 2 + Depth(top);
    assert Depth(Child(top, a)) == 1 + Depth(top);
  }

  lemma RunThree(s: Store, ops: seq<Op>)
    requires Shape(s) && |ops| == 3 && (forall i :: 0 <= i < 3 ==> ops[i].NetAlloc? || ops[i].MemberAlloc?)
    requires Step(s, ops[0]).Some? && Shape(Step(s, ops[0]).value)
    requires Step(Step(s, ops[0]).value, ops[1]).Some? && Shape(Step(Step(s, ops[0]).value, ops[1]).value)
    requires Step(Step(Step(s, ops[0]).value, ops[1]).value, ops[2]).Some?
    ensures Run(s, ops) == Step(Step(Step(s, ops[0]).value, ops[1]).value, ops[2])
    ensures Clean(s, ops, true)
  {
    hide Shape, Step, Harmful;
    StepShape(s, ops[0]);
    var a := Step(s, ops[0]).value;
    StepShape(a, ops[1]);
    var b := Step(a, ops[1]).value;
    StepShape(b, ops[2]);
    var c := Step(b, ops[2]).value;
    assert Run(c, ops[3..]) == Some(c) && Clean(c, ops[3..], true);
    assert ops[2..][0] == ops[2] && ops[2..][1..] == ops[3..];
    assert Run(b, ops[2..]) == Some(c) && Clean(b, ops[2..], true);
    assert ops[1..][0] == ops[1] && ops[1..][1..] == ops[2..];
    assert Run(a, ops[1..]) == Some(c) && Clean(a, ops[1..], true);
  }

  lemma NewNet()
    ensures var s := AllocNet(INITIAL, "n");
            && s.Some? && |s.value.nets| == 1 && s.value.nets[0].name == "n"
            && s.value.nets[0].top.iter == Child(Root, 0) && s.value.tree.next == 3
            && Kids(s.value.tree, Child(Root, 0)) == [1, 2]
            && forall c :: s.value.nets[0].Get(c) == NO_MEMBERS
  {
    hide Append, Kids, Text, PathOf;
    var net := Child(Root, 0);
    var t1 := Append(EMPTY, Root, "n");
    var t2 := Append(t1, net, "graph");
    NextSerial(EMPTY, Root, "n");
    NextSerial(t1, net, "graph");
    NextSerial(t2, net, "kill");
    KidsAppend(t1, net, "graph", net);
    KidsAppend(t2, net, "kill", net);
    assert EMPTY.next == 0 && t1.next == 1 && t2.next == 2;
    assert Kids(t2, net) == [1];
    assert Kids(Append(t2, net, "kill"), net) == [1, 2];
    assert NetIndex(INITIAL.nets, "n") == 0;
    var s := AllocNet(INITIAL, "n").value;
    var n := s.nets[0];
    assert s.tree == Append(t2, net, "kill");
    assert n.Get(Vm) == n.Get(Sat) == n.Get(Lan) == NO_MEMBERS;
  }

  lemma NextSerial(t: Tree, p: Handle, caption: string)
    ensures Append(t, p, caption).next == t.next + 1
    ensures p != Child(p, t.next) && Kids(Append(t, p, caption), Child(p, t.next)) == []
  {
    assert Depth(Child(p, t.next)) == 1 + Depth(p);
  }

  lemma SecondTitle(s1: Store, s2: Store, s3: Store)
    requires |s1.nets| == |s2.nets| == |s3.nets| == 1 && s3.nets[0].name == "n"
    requires s1.nets[0].top.iter == s2.nets[0].top.iter == s3.nets[0].top.iter == Child(Root, 0)
    requires Kids(s1.tree, Child(Root, 0)) == [1, 2] && s1.tree.next == 3
    requires Kids(s2.tree, Child(Root, 0)) == [1, 2, 3]
    requires Kids(s3.tree, Child(Root, 0)) == [1, 2, 3] + [s2.tree.next]
    requires s3.nets[0].Get(Vm).nb == 1 && s3.nets[0].Get(Vm).title.iter == Child(Child(Root, 0), 3)
    ensures Harmful(s3, "n", Vm)
  {
    var x := s2.tree.next;
    assert IndexOf([3, x], 3) == 0;
    assert [2, 3, x][1..] == [3, x];
    assert IndexOf([2, 3, x], 3) == 1;
    assert [1, 2, 3, x][1..] == [2, 3, x];
    assert [1, 2, 3] + [x] == [1, 2, 3, x];
  }

  // The run reaches, with every row resolving, a state in which the
  // release of the machine leaves a row that no click finds.
  lemma SpoilingRun()
    ensures Shape(INITIAL) && Run(INITIAL, SPOILING).Some? && Shape(Run(INITIAL, SPOILING).value)
    ensures AllRowsResolve(Run(INITIAL, SPOILING).value)
    ensures FreeMember(Run(INITIAL, SPOILING).value, "n", Vm, "a").Some?
    ensures !AllRowsResolve(FreeMember(Run(INITIAL, SPOILING).value, "n", Vm, "a").value)
  {
    hide Shape, AllocNet, AllocMember, Append, Kids, Fresh, Harmful, Clean, Run, Agree, AllRowsResolve;
    InitialShape();
    NewNet();
    var s1 := AllocNet(INITIAL, "n").value;
    StepShape(INITIAL, SPOILING[0]);
    FirstMember(s1, "n", Vm, "a", 1);
    StepShape(s1, SPOILING[1]);
    var s2 := AllocMember(s1, "n", Vm, "a", 1).value;
    FirstMember(s2, "n", Sat, "b", 2);
    StepShape(s2, SPOILING[2]);
    var s3 := AllocMember(s2, "n", Sat, "b", 2).value;
    RunThree(INITIAL, SPOILING);
    assert s3.nets[0].Get(Vm) == s2.nets[0].Get(Vm);
    SecondTitle(s1, s2, s3);
    RunKeeps(INITIAL, SPOILING, true);
    AgreeResolves(s3);
    assert FreeMember(s3, "n", Vm, "a").Some?;
    ReleaseResolves(s3, "n", Vm, "a");
  }
}
