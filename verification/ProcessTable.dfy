// The table of cloned processes: slots with a high-water mark, and death
// callbacks that may launch further clones before their own slot is freed.
module ProcessTable {
  import opened Options
  import opened Sequences

  const MAX_FORK_IDENT := 500

  // launch: the serial number of the launch, standing for its callback and
  // the data the callback is called with; death: whether it has one.
  datatype Ctx = Ctx(used: nat, pid: int, launch: nat, death: bool)

  const CLEARED := Ctx(0, 0, 0, false)

  // dying: the slot whose death callback is being run, 0 if none.  launches:
  // the number of launches so far; called: the launches whose death callback
  // was called, in order.
  datatype Table = Table(ctx: seq<Ctx>, maxPid: nat, running: int, dying: nat, launches: nat, called: seq<nat>)

  function Initial(): Table {
    Table(seq(MAX_FORK_IDENT, _ => CLEARED), 0, 0, 0, 0, [])
  }

  // ----- scans -------------------------------------------------------------------

  function FirstFree(ctx: seq<Ctx>, i: nat): nat
    decreases |ctx| - i
  {
    if i >= |ctx| then 0 else if ctx[i].used == 0 then i else FirstFree(ctx, i + 1)
  }

  predicate Holds(c: Ctx, i: nat, pid: int) {
    c.used == i && c.pid == pid
  }

  // pid_find_ident, for a scan that ends before hi
  function Find(ctx: seq<Ctx>, i: nat, hi: nat, pid: int): nat
    requires hi <= |ctx|
    decreases hi - i
  {
    if i >= hi then 0 else if Holds(ctx[i], i, pid) then i else Find(ctx, i + 1, hi, pid)
  }

  // The last used slot before hi, or keep.
  function LastUsed(ctx: seq<Ctx>, hi: nat, keep: nat): nat
    requires hi <= |ctx|
  {
    if hi <= 1 then keep else if ctx[hi - 1].used != 0 then hi - 1 else LastUsed(ctx, hi - 1, keep)
  }

  function Count(ctx: seq<Ctx>): nat {
    if ctx == [] then 0 else Count(ctx[..|ctx| - 1]) + (if ctx[|ctx| - 1].used != 0 then 1 else 0)
  }

  lemma {:induction false} FirstFreeIs(ctx: seq<Ctx>, i: nat)
    requires i > 0
    ensures var f := FirstFree(ctx, i);
            if f == 0 then forall j :: i <= j < |ctx| ==> ctx[j].used != 0
            else i <= f < |ctx| && ctx[f].used == 0 && forall j :: i <= j < f ==> ctx[j].used != 0
    decreases |ctx| - i
  {
    if i < |ctx| && ctx[i].used != 0 {
      FirstFreeIs(ctx, i + 1);
    }
  }

  lemma {:induction false} FindIs(ctx: seq<Ctx>, i: nat, hi: nat, pid: int)
    requires 0 < i && hi <= |ctx|
    ensures var f := Find(ctx, i, hi, pid);
            if f == 0 then forall j :: i <= j < hi ==> !Holds(ctx[j], j, pid)
            else i <= f < hi && Holds(ctx[f], f, pid) && forall j :: i <= j < f ==> !Holds(ctx[j], j, pid)
    decreases hi - i
  {
    if i < hi && !Holds(ctx[i], i, pid) {
      FindIs(ctx, i + 1, hi, pid);
    }
  }

  lemma {:induction false} LastUsedIs(ctx: seq<Ctx>, hi: nat, keep: nat)
    requires hi <= |ctx|
    ensures var l := LastUsed(ctx, hi, keep);
            && (forall j :: 0 < j < hi && ctx[j].used != 0 ==> j <= l)
            && (l == keep || (0 < l < hi && ctx[l].used != 0))
  {
    if hi > 1 && ctx[hi - 1].used == 0 {
      LastUsedIs(ctx, hi - 1, keep);
    }
  }

  lemma {:induction false} CountUpdate(ctx: seq<Ctx>, i: nat, c: Ctx)
    requires i < |ctx|
    ensures Count(ctx[i := c]) == Count(ctx) + (if c.used != 0 then 1 else 0) - (if ctx[i].used != 0 then 1 else 0)
  {
    var last := |ctx| - 1;
    if i == last {
      assert ctx[i := c][..last] == ctx[..last];
    } else {
      assert ctx[i := c][..last] == ctx[..last][i := c];
      CountUpdate(ctx[..last], i, c);
    }
  }

  lemma {:induction false} CountBlank(n: nat)
    ensures Count(seq(n, _ => CLEARED)) == 0
  {
    if n > 0 {
      var s := seq(n, _ => CLEARED);
      assert s[..n - 1] == seq(n - 1, _ => CLEARED);
      CountBlank(n - 1);
    }
  }

  // ----- what every run keeps -------------------------------------------------------

  predicate Called(t: Table, launch: nat) {
    launch in t.called
  }

  // The launch of a slot was not called yet, unless its callback is running.
  ghost predicate SlotOk(t: Table, i: nat)
    requires i < |t.ctx|
  {
    && (t.ctx[i].used == 0 || t.ctx[i].used == i)
    && (t.ctx[i].used != 0 ==> i <= t.maxPid && t.ctx[i].launch < t.launches)
    && (t.ctx[i].used != 0 && i != t.dying ==> !Called(t, t.ctx[i].launch))
  }

  ghost predicate Inv(t: Table) {
    && |t.ctx| == MAX_FORK_IDENT && t.maxPid < MAX_FORK_IDENT && t.ctx[0].used == 0
    && (forall i :: 0 <= i < MAX_FORK_IDENT ==> SlotOk(t, i))
    && t.running == Count(t.ctx)
    && (t.dying != 0 ==> t.dying < MAX_FORK_IDENT && t.ctx[t.dying].used != 0)
    && Distinct(t.called) && (forall x :: x in t.called ==> x < t.launches)
    && (forall i, j :: 0 <= i < j < MAX_FORK_IDENT && t.ctx[i].used != 0 && t.ctx[j].used != 0 ==>
          t.ctx[i].launch != t.ctx[j].launch)
  }

  lemma InvSized(t: Table)
    requires Inv(t)
    ensures |t.ctx| == MAX_FORK_IDENT && t.maxPid < MAX_FORK_IDENT
  {
  }

  lemma InitialInv()
    ensures Inv(Initial())
  {
    CountBlank(MAX_FORK_IDENT);
  }

  // A scan up to the high-water mark finds what a scan of the whole table does.
  lemma BoundedScan(t: Table, pid: int)
    requires Inv(t)
    ensures Find(t.ctx, 1, t.maxPid + 1, pid) == Find(t.ctx, 1, MAX_FORK_IDENT, pid)
  {
    FindIs(t.ctx, 1, t.maxPid + 1, pid);
    FindIs(t.ctx, 1, MAX_FORK_IDENT, pid);
    var f := Find(t.ctx, 1, MAX_FORK_IDENT, pid);
    if f != 0 {
      assert SlotOk(t, f);
    }
  }

  // ----- operations on values ---------------------------------------------------------

  // pid_clone_launch; the pid comes from the system.  None: the table is full
  // and the program exits.
  function Launch(t: Table, pid: int, death: bool): Option<Table>
    requires |t.ctx| == MAX_FORK_IDENT
  {
    var f := FirstFree(t.ctx, 1);
    if f == 0 || f >= |t.ctx| then None
    else
      Some(t.(ctx := t.ctx[f := Ctx(f, pid, t.launches, death)], launches := t.launches + 1,
              maxPid := if f > t.maxPid then f else t.maxPid, running := t.running + 1))
  }

  // pid_dead_clone up to the call of the callback
  function Die(t: Table, pid: int): Table
    requires t.maxPid < |t.ctx|
  {
    var f := Find(t.ctx, 1, t.maxPid + 1, pid);
    if f == 0 || f >= |t.ctx| then t
    else t.(dying := f, called := if t.ctx[f].death then t.called + [t.ctx[f].launch] else t.called)
  }

  // ... and pid_clone_free_ident on its slot
  function Free(t: Table): Table
    requires 0 < t.dying < |t.ctx| == MAX_FORK_IDENT
  {
    var ctx := t.ctx[t.dying := CLEARED];
    t.(ctx := ctx, running := t.running - 1, dying := 0,
       maxPid := if t.dying == t.maxPid then LastUsed(ctx, MAX_FORK_IDENT, t.maxPid) else t.maxPid)
  }

  // after is before with the clone in its first free slot from 1 on.
  ghost predicate OneLaunched(before: seq<Ctx>, after: seq<Ctx>, pid: int, launch: nat, death: bool) {
    exists f :: 1 <= f < |before| && before[f].used == 0 && (forall j :: 1 <= j < f ==> before[j].used != 0)
             && after == before[f := Ctx(f, pid, launch, death)]
  }

  lemma LaunchKeeps(t: Table, pid: int, death: bool)
    requires Inv(t) && Launch(t, pid, death).Some?
    ensures var u := Launch(t, pid, death).value;
            && Inv(u) && u.called == t.called && u.dying == t.dying && u.launches == t.launches + 1
            && OneLaunched(t.ctx, u.ctx, pid, t.launches, death)
            && (forall i :: 0 <= i < MAX_FORK_IDENT && t.ctx[i].used != 0 ==> u.ctx[i] == t.ctx[i])
            && (forall i :: 0 <= i < MAX_FORK_IDENT && u.ctx[i] != t.ctx[i] ==>
                  u.ctx[i].pid == pid && u.ctx[i].launch == t.launches)
  {
    hide Count, FirstFree;
    var f := FirstFree(t.ctx, 1);
    var u := Launch(t, pid, death).value;
    FirstFreeIs(t.ctx, 1);
    CountUpdate(t.ctx, f, u.ctx[f]);
    assert OneLaunched(t.ctx, u.ctx, pid, t.launches, death) by {
      assert u.ctx == t.ctx[f := Ctx(f, pid, t.launches, death)];
    }
    forall i | 0 <= i < MAX_FORK_IDENT
      ensures SlotOk(u, i)
    {
      assert SlotOk(t, i);
    }
    forall i | 0 <= i < MAX_FORK_IDENT && t.ctx[i].used != 0
      ensures t.ctx[i].launch < t.launches
    {
      assert SlotOk(t, i);
    }
  }

  // A launch fails exactly when no slot from 1 on is free.
  lemma LaunchFails(t: Table, pid: int, death: bool)
    requires Inv(t)
    ensures Launch(t, pid, death).None? <==> forall i :: 1 <= i < MAX_FORK_IDENT ==> t.ctx[i].used != 0
  {
    FirstFreeIs(t.ctx, 1);
  }

  // The callback of a dead clone is called with the data of its own launch,
  // and it had not been called before.
  lemma DieKeeps(t: Table, pid: int)
    requires Inv(t) && t.dying == 0
    ensures var u := Die(t, pid); var f := Find(t.ctx, 1, MAX_FORK_IDENT, pid);
            && Inv(u) && u.ctx == t.ctx && u.dying == f && u.launches == t.launches
            && u.called == (if f != 0 && t.ctx[f].death then t.called + [t.ctx[f].launch] else t.called)
            && (f != 0 ==> f < MAX_FORK_IDENT && t.ctx[f].launch !in t.called)
  {
    hide Count;
    BoundedScan(t, pid);
    FindIs(t.ctx, 1, MAX_FORK_IDENT, pid);
    var f := Find(t.ctx, 1, MAX_FORK_IDENT, pid);
    var u := Die(t, pid);
    if f != 0 {
      assert SlotOk(t, f);
      forall i | 0 <= i < MAX_FORK_IDENT
        ensures SlotOk(u, i)
      {
        assert SlotOk(t, i);
        assert i != f && t.ctx[i].used != 0 ==> t.ctx[i].launch != t.ctx[f].launch;
      }
    }
  }

  // Only the slot of the dead clone is cleared: clones that its callback
  // launched stay, and the high-water mark stays above all of them.
  lemma FreeKeeps(t: Table)
    requires Inv(t) && t.dying != 0
    ensures var u := Free(t);
            && Inv(u) && u.called == t.called && u.launches == t.launches && u.dying == 0
            && (forall i :: 0 <= i < MAX_FORK_IDENT && i != t.dying ==> u.ctx[i] == t.ctx[i])
            && u.ctx[t.dying] == CLEARED
  {
    hide Count;
    var u := Free(t);
    CountUpdate(t.ctx, t.dying, CLEARED);
    LastUsedIs(u.ctx, MAX_FORK_IDENT, t.maxPid);
    forall i | 0 <= i < MAX_FORK_IDENT
      ensures SlotOk(u, i)
    {
      assert SlotOk(t, i);
    }
  }

  // ----- whole runs ---------------------------------------------------------------------

  // Launches may come at any time, also while a death callback is being run.
  datatype Act = Launched(pid: int, death: bool) | Died(pid: int) | Freed

  // The table is an array of fixed size, indexed within its bounds.
  predicate Sized(t: Table) {
    |t.ctx| == MAX_FORK_IDENT && t.maxPid < MAX_FORK_IDENT && t.dying < MAX_FORK_IDENT
  }

  ghost predicate Step(t: Table, a: Act, u: Table) {
    && Sized(t)
    && match a
       case Launched(pid, death) => Launch(t, pid, death) == Some(u)
       case Died(pid) => t.dying == 0 && u == Die(t, pid)
       case Freed => t.dying != 0 && u == Free(t)
  }

  ghost predicate Run(tables: seq<Table>, acts: seq<Act>) {
    && |tables| == |acts| + 1 && tables[0] == Initial()
    && forall i :: 0 <= i < |acts| ==> Step(tables[i], acts[i], tables[i + 1])
  }

  // In every reachable state a bounded scan finds what a full one does, and no
  // launch had its death callback called twice.
  lemma {:induction false} EveryRun(tables: seq<Table>, acts: seq<Act>, i: nat)
    requires Run(tables, acts) && i < |tables|
    ensures Inv(tables[i]) && Distinct(tables[i].called)
    ensures forall pid :: Find(tables[i].ctx, 1, tables[i].maxPid + 1, pid) == Find(tables[i].ctx, 1, MAX_FORK_IDENT, pid)
  {
    hide Launch, Die, Free, Find, SlotOk, Count, Called;
    if i == 0 {
      InitialInv();
    } else {
      EveryRun(tables, acts, i - 1);
      var t := tables[i - 1];
      assert Step(t, acts[i - 1], tables[i]);
      match acts[i - 1] {
        case Launched(pid, death) => LaunchKeeps(t, pid, death);
        case Died(pid) => DieKeeps(t, pid);
        case Freed => FreeKeeps(t);
      }
    }
    forall pid
      ensures Find(tables[i].ctx, 1, tables[i].maxPid + 1, pid) == Find(tables[i].ctx, 1, MAX_FORK_IDENT, pid)
    {
      BoundedScan(tables[i], pid);
    }
  }

  // ----- what becomes of a launch -------------------------------------------------------

  // The launch is in its slot as it was made; its callback was called exactly
  // if it is the one being run.
  ghost predicate InSlot(t: Table, pid: int, launch: nat, death: bool) {
    exists f :: 1 <= f < |t.ctx| && t.ctx[f] == Ctx(f, pid, launch, death)
             && (launch in t.called <==> death && t.dying == f)
  }

  // It has left its slot; its callback was called exactly if it has one.
  ghost predicate Gone(t: Table, launch: nat, death: bool) {
    && (forall i :: 0 <= i < |t.ctx| && t.ctx[i].used != 0 ==> t.ctx[i].launch != launch)
    && (launch in t.called <==> death)
  }

  lemma LaunchedInSlot(t: Table, pid: int, death: bool)
    requires Inv(t) && Launch(t, pid, death).Some?
    ensures InSlot(Launch(t, pid, death).value, pid, t.launches, death)
  {
    hide Count, FirstFree, Launch, SlotOk;
    LaunchKeeps(t, pid, death);
    var u := Launch(t, pid, death).value;
    var f :| 1 <= f < |t.ctx| && t.ctx[f].used == 0 && u.ctx == t.ctx[f := Ctx(f, pid, t.launches, death)];
    assert u.ctx[f] == Ctx(f, pid, t.launches, death);
  }

  lemma FateKept(t: Table, a: Act, u: Table, pid: int, launch: nat, death: bool)
    requires Inv(t) && Step(t, a, u) && launch < t.launches
    requires InSlot(t, pid, launch, death) || Gone(t, launch, death)
    ensures InSlot(u, pid, launch, death) || Gone(u, launch, death)
    ensures launch < u.launches
  {
    hide Count, Launch, Die, Free, Find, SlotOk;
    match a {
      case Launched(p, d) =>
        LaunchKeeps(t, p, d);
        FateOverLaunch(t, p, d, pid, launch, death);
      case Died(p) =>
        DieKeeps(t, p);
        FindIs(t.ctx, 1, MAX_FORK_IDENT, p);
        FateOverDeath(t, u, pid, launch, death);
      case Freed =>
        FreeKeeps(t);
        FateOverFree(t, u, pid, launch, death);
    }
  }

  lemma FateOverLaunch(t: Table, p: int, d: bool, pid: int, launch: nat, death: bool)
    requires Inv(t) && Launch(t, p, d).Some? && launch < t.launches
    requires InSlot(t, pid, launch, death) || Gone(t, launch, death)
    ensures InSlot(Launch(t, p, d).value, pid, launch, death) || Gone(Launch(t, p, d).value, launch, death)
  {
    hide Count, Launch, SlotOk, OneLaunched;
    LaunchKeeps(t, p, d);
    var u := Launch(t, p, d).value;
    if InSlot(t, pid, launch, death) {
      var f :| 1 <= f < |t.ctx| && t.ctx[f] == Ctx(f, pid, launch, death) && (launch in t.called <==> death && t.dying == f);
      assert u.ctx[f] == t.ctx[f];
    }
  }

  lemma FateOverDeath(t: Table, u: Table, pid: int, launch: nat, death: bool)
    requires Inv(t) && t.dying == 0 && u.ctx == t.ctx && u.dying < |t.ctx|
    requires u.dying != 0 ==> t.ctx[u.dying].used != 0
    requires u.called == if u.dying != 0 && t.ctx[u.dying].death then t.called + [t.ctx[u.dying].launch] else t.called
    requires InSlot(t, pid, launch, death) || Gone(t, launch, death)
    ensures InSlot(u, pid, launch, death) || Gone(u, launch, death)
  {
    hide Count, SlotOk;
    if InSlot(t, pid, launch, death) {
      var f :| 1 <= f < |t.ctx| && t.ctx[f] == Ctx(f, pid, launch, death) && (launch in t.called <==> death && t.dying == f);
      assert launch !in t.called;
      if u.dying == f {
        assert u.ctx[f] == Ctx(f, pid, launch, death) && (launch in u.called <==> death);
      } else {
        assert u.dying != 0 ==> t.ctx[u.dying].launch != launch;
        assert u.ctx[f] == Ctx(f, pid, launch, death) && launch !in u.called;
      }
    }
  }

  lemma FateOverFree(t: Table, u: Table, pid: int, launch: nat, death: bool)
    requires Inv(t) && t.dying != 0 && |u.ctx| == |t.ctx| && u.called == t.called && u.dying == 0
    requires u.ctx[t.dying] == CLEARED && forall i :: 0 <= i < |t.ctx| && i != t.dying ==> u.ctx[i] == t.ctx[i]
    requires InSlot(t, pid, launch, death) || Gone(t, launch, death)
    ensures InSlot(u, pid, launch, death) || Gone(u, launch, death)
  {
    hide Count, SlotOk;
    if InSlot(t, pid, launch, death) {
      var f :| 1 <= f < |t.ctx| && t.ctx[f] == Ctx(f, pid, launch, death) && (launch in t.called <==> death && t.dying == f);
      if f == t.dying {
        assert forall i :: 0 <= i < |t.ctx| && i != f && t.ctx[i].used != 0 ==> t.ctx[i].launch != launch;
        assert Gone(u, launch, death);
      } else {
        assert u.ctx[f] == t.ctx[f];
      }
    }
  }

  // Over every run: a launch stays in its slot with its pid and its callback
  // until it is reported, and then the callback is called, once, if it has one.
  lemma {:induction false} EveryLaunch(tables: seq<Table>, acts: seq<Act>, i: nat, j: nat)
    requires Run(tables, acts) && i < j < |tables| && acts[i].Launched?
    ensures var a, launch := acts[i], tables[i].launches;
            && Distinct(tables[j].called)
            && (InSlot(tables[j], a.pid, launch, a.death) || Gone(tables[j], launch, a.death))
    decreases j
  {
    hide Launch, Inv, InSlot, Gone;
    EveryRun(tables, acts, j);
    Fate(tables, acts, i, j);
  }

  lemma {:induction false} Fate(tables: seq<Table>, acts: seq<Act>, i: nat, j: nat)
    requires Run(tables, acts) && i < j < |tables| && acts[i].Launched?
    ensures tables[i].launches < tables[j].launches
    ensures var a, launch := acts[i], tables[i].launches;
            InSlot(tables[j], a.pid, launch, a.death) || Gone(tables[j], launch, a.death)
    decreases j
  {
    hide Launch, Inv, InSlot, Gone, Die, Free;
    EveryRun(tables, acts, j - 1);
    assert Step(tables[j - 1], acts[j - 1], tables[j]);
    var a := acts[i];
    if i == j - 1 {
      LaunchedInSlot(tables[i], a.pid, a.death);
      LaunchKeeps(tables[i], a.pid, a.death);
    } else {
      Fate(tables, acts, i, j - 1);
      FateKept(tables[j - 1], acts[j - 1], tables[j], a.pid, tables[i].launches, a.death);
    }
  }

  // A clone that dies while no smaller slot holds its pid is the one reported:
  // its callback is called if it has one, and no other is.
  lemma LaunchThenDie(t: Table, pid: int, launch: nat, death: bool, f: nat)
    requires Inv(t) && t.dying == 0 && 1 <= f < MAX_FORK_IDENT && t.ctx[f] == Ctx(f, pid, launch, death)
    requires forall i :: 1 <= i < f && t.ctx[i].used != 0 ==> t.ctx[i].pid != pid
    ensures Die(t, pid).dying == f && launch !in t.called
    ensures Die(t, pid).called == if death then t.called + [launch] else t.called
  {
    hide Count, SlotOk, Die, Find;
    DieKeeps(t, pid);
    FindIs(t.ctx, 1, MAX_FORK_IDENT, pid);
    assert Holds(t.ctx[f], f, pid);
  }

  // ----- when the mark is exact ---------------------------------------------------------

  predicate MarkIsMax(t: Table)
    requires t.maxPid < |t.ctx|
  {
    t.maxPid == 0 || t.ctx[t.maxPid].used != 0
  }

  // Then the mark is the largest used slot, or no slot is used at all.
  lemma MarkMeans(t: Table)
    requires Inv(t) && MarkIsMax(t)
    ensures forall i :: 0 <= i < MAX_FORK_IDENT && t.ctx[i].used != 0 ==> i <= t.maxPid && t.ctx[t.maxPid].used != 0
  {
    forall i | 0 <= i < MAX_FORK_IDENT && t.ctx[i].used != 0
      ensures i <= t.maxPid && t.ctx[t.maxPid].used != 0
    {
      assert SlotOk(t, i) && SlotOk(t, 0);
    }
  }

  predicate AnyUsed(ctx: seq<Ctx>, hi: nat)
    requires hi <= |ctx|
  {
    exists i :: 0 < i < hi && ctx[i].used != 0
  }

  lemma {:induction false} LastUsedFound(ctx: seq<Ctx>, hi: nat, keep: nat)
    requires hi <= |ctx|
    ensures var l := LastUsed(ctx, hi, keep);
            if AnyUsed(ctx, hi) then l < hi && ctx[l].used != 0 else l == keep
  {
    if hi > 1 && ctx[hi - 1].used == 0 {
      LastUsedFound(ctx, hi - 1, keep);
      assert AnyUsed(ctx, hi) <==> AnyUsed(ctx, hi - 1);
    }
  }

  // Clearing the slot at the mark makes the mark exact if and only if another
  // slot is used; clearing another slot changes nothing.
  lemma FreeMark(t: Table)
    requires Inv(t) && t.dying != 0
    ensures Free(t).maxPid < MAX_FORK_IDENT == |Free(t).ctx|
    ensures MarkIsMax(Free(t)) <==>
            if t.dying == t.maxPid
            then exists i :: 0 <= i < MAX_FORK_IDENT && i != t.dying && t.ctx[i].used != 0
            else MarkIsMax(t)
  {
    hide Count, LastUsed;
    FreeKeeps(t);
    var u := Free(t);
    LastUsedFound(u.ctx, MAX_FORK_IDENT, t.maxPid);
    if i :| 0 <= i < MAX_FORK_IDENT && i != t.dying && t.ctx[i].used != 0 {
      assert u.ctx[i] == t.ctx[i] && SlotOk(t, 0);
      assert AnyUsed(u.ctx, MAX_FORK_IDENT);
    }
  }

  // A launch leaves the mark exact if and only if it was exact for a used
  // slot, or the new slot reaches it.
  lemma LaunchMark(t: Table, pid: int, death: bool)
    requires Inv(t) && Launch(t, pid, death).Some?
    ensures var u := Launch(t, pid, death).value;
            && u.maxPid < MAX_FORK_IDENT == |u.ctx|
            && (MarkIsMax(u) <==> (MarkIsMax(t) && t.maxPid != 0) || FirstFree(t.ctx, 1) >= t.maxPid)
  {
    hide Count, FirstFree;
    LaunchKeeps(t, pid, death);
    FirstFreeIs(t.ctx, 1);
  }

  // Two clones come and go, the higher one last: the mark stays at its slot
  // although the table is empty, and also over the next launch.
  lemma StaleMark() returns (tables: seq<Table>, acts: seq<Act>)
    ensures Run(tables, acts) && |acts| == 7 && Sized(tables[6]) && Sized(tables[7])
    ensures tables[6].running == 0 && !MarkIsMax(tables[6]) && !MarkIsMax(tables[7])
  {
    hide Count, LastUsed, Inv;
    var t0 := Initial();
    assert FirstFree(t0.ctx, 1) == 1;
    var t1 := Launch(t0, 1, false).value;
    assert t1 == Table(t0.ctx[1 := Ctx(1, 1, 0, false)], 1, 1, 0, 1, []);
    assert FirstFree(t1.ctx, 2) == 2;
    var t2 := Launch(t1, 2, false).value;
    assert t2 == Table(t1.ctx[2 := Ctx(2, 2, 1, false)], 2, 2, 0, 2, []);
    var t3 := Die(t2, 1);
    var t4 := Free(t3);
    assert t4.ctx[1] == CLEARED && t4.ctx[2] == t2.ctx[2];
    assert Find(t4.ctx, 2, 3, 2) == 2;
    var t5 := Die(t4, 2);
    var t6 := Free(t5);
    assert t6.ctx == t0.ctx;
    LastUsedFound(t6.ctx, MAX_FORK_IDENT, 2);
    assert !AnyUsed(t6.ctx, MAX_FORK_IDENT);
    assert FirstFree(t6.ctx, 1) == 1;
    var t7 := Launch(t6, 3, false).value;
    tables := [t0, t1, t2, t3, t4, t5, t6, t7];
    acts := [Launched(1, false), Launched(2, false), Died(1), Freed, Died(2), Freed, Launched(3, false)];
    assert Step(t0, acts[0], t1) && Step(t1, acts[1], t2) && Step(t2, acts[2], t3) && Step(t3, acts[3], t4);
    assert Step(t4, acts[4], t5) && Step(t5, acts[5], t6) && Step(t6, acts[6], t7);
  }

  // ----- the table in place ---------------------------------------------------------

  // What a death callback does to the table: it launches clones, to which the
  // system gives these pids.
  datatype Start = Start(pid: int, death: bool)

  predicate Started(starts: seq<Start>, pid: int) {
    exists k :: 0 <= k < |starts| && starts[k].pid == pid
  }

  // What the death callback of slot f starts.
  function Own(t: Table, f: nat, starts: nat -> seq<Start>): seq<Start>
    requires f < |t.ctx|
  {
    if t.ctx[f].death then starts(t.ctx[f].launch) else []
  }

  // The clone of slot f of t is reported: its callback was called and the slot
  // cleared; all other clones stay, beside those that the callback started.
  ghost predicate Reaped(t: Table, u: Table, f: nat, own: seq<Start>) {
    && f < |t.ctx| == |u.ctx| && u.ctx[f] == CLEARED && u.launches >= t.launches
    && u.called == (if t.ctx[f].death then t.called + [t.ctx[f].launch] else t.called)
    && (forall j :: 0 <= j < |u.ctx| && j != f && t.ctx[j].used != 0 ==> u.ctx[j] == t.ctx[j])
    && (forall j :: 0 <= j < |u.ctx| && j != f && u.ctx[j] != t.ctx[j] ==>
          Started(own, u.ctx[j].pid) && u.ctx[j].launch >= t.launches)
  }

  // What becomes of the slots in use when the processes in gone are reported:
  // the others stay, and of these every death callback was called.
  predicate Reported(before: seq<Ctx>, after: seq<Ctx>, called: seq<nat>, gone: set<int>)
    requires |before| == |after|
  {
    forall j :: 0 <= j < |before| && before[j].used != 0 ==>
      || after[j] == before[j]
      || (before[j].pid in gone && (before[j].death ==> before[j].launch in called))
  }

  // No slot before hi holds a process that is gone.
  predicate NoneGone(ctx: seq<Ctx>, hi: nat, gone: set<int>) {
    forall j :: 0 <= j < hi && j < |ctx| && ctx[j].used != 0 ==> ctx[j].pid !in gone
  }

  lemma SweepStart(t: Table, gone: set<int>)
    requires Inv(t)
    ensures Reported(t.ctx, t.ctx, t.called, gone) && NoneGone(t.ctx, 1, gone)
  {
  }

  lemma SweepSkip(t: Table, i: nat, gone: set<int>)
    requires Inv(t) && i < MAX_FORK_IDENT && NoneGone(t.ctx, i, gone)
    requires !(t.ctx[i].used == i && t.ctx[i].pid in gone)
    ensures NoneGone(t.ctx, i + 1, gone)
  {
    assert SlotOk(t, i);
  }

  lemma SweepEnd(t: Table, i: nat, gone: set<int>)
    requires Inv(t) && i > t.maxPid && NoneGone(t.ctx, i, gone)
    ensures NoneGone(t.ctx, MAX_FORK_IDENT, gone)
  {
    forall j | 0 <= j < MAX_FORK_IDENT && t.ctx[j].used != 0
      ensures t.ctx[j].pid !in gone
    {
      assert SlotOk(t, j);
    }
  }

  // While the slots before it hold none that is gone, the slot reported is the
  // one the sweep stands at.
  lemma SweepOne(before: seq<Ctx>, t: Table, u: Table, i: nat, f: nat, starts: seq<Start>, gone: set<int>)
    requires |before| == |t.ctx| == |u.ctx| && 0 < i < |t.ctx|
    requires Reported(before, t.ctx, t.called, gone)
    requires Holds(t.ctx[i], i, t.ctx[i].pid) && t.ctx[i].pid in gone
    requires f == Find(t.ctx, 1, |t.ctx|, t.ctx[i].pid) && Reaped(t, u, f, starts)
    ensures Reported(before, u.ctx, u.called, gone)
    ensures NoneGone(t.ctx, i, gone) && (forall pid :: pid in gone ==> !Started(starts, pid)) ==>
              NoneGone(u.ctx, i + 1, gone)
  {
    hide Started;
    FindIs(t.ctx, 1, |t.ctx|, t.ctx[i].pid);
    assert NoneGone(t.ctx, i, gone) ==> f == i;
  }

  // What the callbacks that were called started exists.
  ghost predicate StartsExist(starts: nat -> seq<Start>, calls: seq<nat>, gone: set<int>) {
    forall x, pid :: x in calls && pid in gone ==> !Started(starts(x), pid)
  }

  // The launch was in use when the sweep began, and its process is gone.
  predicate WasGone(before: seq<Ctx>, gone: set<int>, x: nat) {
    exists j :: 0 <= j < |before| && before[j].used != 0 && before[j].launch == x && before[j].death && before[j].pid in gone
  }

  // The calls of a sweep that began with the slots before and so many launches.
  ghost predicate CallsRight(before: seq<Ctx>, launches0: nat, calls: seq<nat>, gone: set<int>) {
    forall x :: x in calls ==> WasGone(before, gone, x) || x >= launches0
  }

  // A slot that changed during the sweep is empty or holds a later launch.
  ghost predicate Later(before: seq<Ctx>, after: seq<Ctx>, launches0: nat)
    requires |before| == |after|
  {
    forall j :: 0 <= j < |after| && after[j].used != 0 ==> after[j] == before[j] || after[j].launch >= launches0
  }

  lemma GoneAt(before: seq<Ctx>, gone: set<int>, f: nat)
    requires f < |before| && before[f].used != 0 && before[f].death && before[f].pid in gone
    ensures WasGone(before, gone, before[f].launch)
  {
  }

  lemma SweepCall(before: seq<Ctx>, launches0: nat, t: Table, u: Table, f: nat, own: seq<Start>, calls: seq<nat>,
                  gone: set<int>)
    requires Reaped(t, u, f, own) && |before| == |t.ctx|
    requires t.ctx[f].used != 0 && t.ctx[f].pid in gone && t.launches >= launches0
    requires Later(before, t.ctx, launches0) && CallsRight(before, launches0, calls, gone)
    ensures Later(before, u.ctx, launches0)
    ensures CallsRight(before, launches0, if t.ctx[f].death then calls + [t.ctx[f].launch] else calls, gone)
  {
    hide WasGone, Started;
    if t.ctx[f].death && t.ctx[f].launch < launches0 {
      GoneAt(before, gone, f);
    }
  }

  lemma NoCalls(before: seq<Ctx>, launches0: nat, gone: set<int>)
    ensures CallsRight(before, launches0, [], gone) && Later(before, before, launches0)
  {
  }

  // One clone of the sweep reported, with what its callback started.
  lemma SweepTurn(before: seq<Ctx>, launches0: nat, t: Table, u: Table, i: nat, f: nat,
                  starts: nat -> seq<Start>, calls: seq<nat>, gone: set<int>)
    requires |before| == |t.ctx| == |u.ctx| && 0 < i < |t.ctx| && t.launches >= launches0
    requires Reported(before, t.ctx, t.called, gone) && Later(before, t.ctx, launches0)
    requires CallsRight(before, launches0, calls, gone)
    requires StartsExist(starts, calls, gone) ==> NoneGone(t.ctx, i, gone)
    requires Holds(t.ctx[i], i, t.ctx[i].pid) && t.ctx[i].pid in gone
    requires f == Find(t.ctx, 1, |t.ctx|, t.ctx[i].pid) && f < |t.ctx| && Reaped(t, u, f, Own(t, f, starts))
    ensures Reported(before, u.ctx, u.called, gone) && Later(before, u.ctx, launches0)
    ensures var calls' := if t.ctx[f].death then calls + [t.ctx[f].launch] else calls;
            && CallsRight(before, launches0, calls', gone)
            && (StartsExist(starts, calls', gone) ==> NoneGone(u.ctx, i + 1, gone))
  {
    hide Reported, NoneGone, Later, CallsRight, Find, Started, StartsExist, Reaped;
    FindIs(t.ctx, 1, |t.ctx|, t.ctx[i].pid);
    var own := Own(t, f, starts);
    SweepCall(before, launches0, t, u, f, own, calls, gone);
    SweepOne(before, t, u, i, f, own, gone);
    var calls' := if t.ctx[f].death then calls + [t.ctx[f].launch] else calls;
    if StartsExist(starts, calls', gone) {
      FewerCalls(starts, calls, calls', gone);
      OwnStarts(starts, calls', own, t.ctx[f].launch, gone);
    }
  }

  lemma FewerCalls(starts: nat -> seq<Start>, calls: seq<nat>, calls': seq<nat>, gone: set<int>)
    requires StartsExist(starts, calls', gone) && calls <= calls'
    ensures StartsExist(starts, calls, gone)
  {
    hide Started;
    assert forall x :: x in calls ==> x in calls';
  }

  lemma OwnStarts(starts: nat -> seq<Start>, calls: seq<nat>, own: seq<Start>, x: nat, gone: set<int>)
    requires StartsExist(starts, calls, gone) && (own == [] || (own == starts(x) && x in calls))
    ensures forall pid :: pid in gone ==> !Started(own, pid)
  {
  }

  class Clones {
    var ctx: array<Ctx>
    var currentMaxPid: nat
    var nbRunningPids: int
    ghost var dying: nat
    ghost var called: seq<nat>
    var launches: nat

    ghost function State(): Table
      reads this, ctx
    {
      Table(ctx[..], currentMaxPid, nbRunningPids, dying, launches, called)
    }

    ghost predicate Valid()
      reads this, ctx
    {
      Inv(State())
    }

    constructor ()
      ensures Valid() && State() == Initial() && fresh(ctx)
    {
      ctx := new Ctx[MAX_FORK_IDENT](_ => CLEARED);
      currentMaxPid, nbRunningPids, dying, launches, called := 0, 0, 0, 0, [];
      new;
      InitialInv();
      assert ctx[..] == Initial().ctx;
    }

    method PidFindIdent(pid: int) returns (ident: nat)
      requires Valid()
      ensures ident == Find(ctx[..], 1, currentMaxPid + 1, pid) == Find(ctx[..], 1, MAX_FORK_IDENT, pid)
    {
      hide Count, Distinct, Called;
      BoundedScan(State(), pid);
      ident := 0;
      var i := 1;
      while i <= currentMaxPid
        invariant 1 <= i <= currentMaxPid + 1 && ident == 0
        invariant Find(ctx[..], 1, currentMaxPid + 1, pid) == Find(ctx[..], i, currentMaxPid + 1, pid)
      {
        if ctx[i].used == i && ctx[i].pid == pid {
          ident := i;
          break;
        }
        i := i + 1;
      }
    }

    method PidCloneLaunch(pid: int, death: bool) returns (alive: bool)
      requires Valid()
      modifies this, ctx
      ensures Valid() && ctx == old(ctx)
      ensures !alive <==> forall i :: 1 <= i < MAX_FORK_IDENT ==> old(ctx[i]).used != 0
      ensures alive ==> OneLaunched(old(ctx[..]), ctx[..], pid, old(launches), death) && launches == old(launches) + 1
      ensures alive <==> Launch(old(State()), pid, death).Some?
      ensures State() == if alive then Launch(old(State()), pid, death).value else old(State())
    {
      hide Count, Distinct, Called, SlotOk, OneLaunched;
      ghost var t := State();
      LaunchFails(t, pid, death);
      var freeIdent, i := 0, 1;
      while i < MAX_FORK_IDENT
        invariant 1 <= i <= MAX_FORK_IDENT && freeIdent == 0
        invariant FirstFree(ctx[..], 1) == FirstFree(ctx[..], i)
      {
        if ctx[i].used == 0 {
          freeIdent := i;
          break;
        }
        i := i + 1;
      }
      if freeIdent == 0 {
        return false;
      }
      ctx[freeIdent] := Ctx(freeIdent, pid, launches, death);
      if freeIdent > currentMaxPid {
        currentMaxPid := freeIdent;
      }
      launches := launches + 1;
      nbRunningPids := nbRunningPids + 1;
      alive := true;
      assert State() == Launch(t, pid, death).value;
      LaunchKeeps(t, pid, death);
    }

    method PidCloneFreeIdent(ident: nat)
      requires Valid() && ident == dying != 0
      modifies this, ctx
      ensures Valid() && ctx == old(ctx) && State() == Free(old(State()))
    {
      hide Count, Distinct, Called, SlotOk;
      ghost var t := State();
      FreeKeeps(t);
      ctx[ident] := CLEARED;
      nbRunningPids := nbRunningPids - 1;
      dying := 0;
      ghost var table := ctx[..];
      assert table == t.ctx[ident := CLEARED];
      if ident == currentMaxPid {
        ghost var keep := currentMaxPid;
        var i := 1;
        while i < MAX_FORK_IDENT
          invariant 1 <= i <= MAX_FORK_IDENT
          invariant currentMaxPid == LastUsed(table, i, keep)
          modifies `currentMaxPid
        {
          if ctx[i].used != 0 {
            currentMaxPid := i;
          }
          i := i + 1;
        }
      }
      assert ctx[..] == table == Free(t).ctx;
      assert State() == Free(t);
    }

    // ctx->death, with the launches it makes
    method RunCallback(starts: seq<Start>) returns (alive: bool)
      requires Valid() && dying != 0
      modifies this, ctx
      ensures ctx == old(ctx) && Valid() && dying == old(dying) && called == old(called)
      ensures forall i :: 0 <= i < MAX_FORK_IDENT && old(ctx[i]).used != 0 ==> ctx[i] == old(ctx[i])
      ensures forall i :: 0 <= i < MAX_FORK_IDENT && ctx[i] != old(ctx[i]) ==>
                Started(starts, ctx[i].pid) && ctx[i].launch >= old(launches)
      ensures launches >= old(launches)
    {
      hide Count, Distinct, Called, SlotOk;
      ghost var before := ctx[..];
      alive := true;
      var k := 0;
      while k < |starts|
        invariant 0 <= k <= |starts| && Valid() && dying == old(dying) && ctx == old(ctx) && called == old(called)
        invariant forall i :: 0 <= i < MAX_FORK_IDENT && before[i].used != 0 ==> ctx[i] == before[i]
        invariant launches >= old(launches)
        invariant forall i :: 0 <= i < MAX_FORK_IDENT && ctx[i] != before[i] ==>
                    Started(starts, ctx[i].pid) && ctx[i].launch >= old(launches)
      {
        ghost var s := State();
        alive := PidCloneLaunch(starts[k].pid, starts[k].death);
        if !alive {
          return;
        }
        LaunchKeeps(s, starts[k].pid, starts[k].death);
        k := k + 1;
      }
    }

    // pid_dead_clone, with the launches its callback makes
    method PidDeadClone(pid: int, starts: nat -> seq<Start>) returns (result: nat, alive: bool)
      requires Valid() && dying == 0
      modifies this, ctx
      ensures ctx == old(ctx) && Valid()
      ensures result < MAX_FORK_IDENT == |old(ctx[..])|
      ensures result == Find(old(ctx[..]), 1, MAX_FORK_IDENT, pid)
      ensures alive ==> dying == 0
      ensures result == 0 ==> alive && State() == old(State())
      ensures alive && result != 0 ==>
                Reaped(old(State()), State(), result, Own(old(State()), result, starts))
      ensures called == if result != 0 && old(ctx[..])[result].death then old(called) + [old(ctx[..])[result].launch]
                        else old(called)
      ensures result != 0 ==> old(ctx[..])[result].launch !in old(called)
      ensures launches >= old(launches)
    {
      hide Count, Distinct, Called, SlotOk, Find, Started;
      alive := true;
      result := PidFindIdent(pid);
      FindIs(ctx[..], 1, MAX_FORK_IDENT, pid);
      if result != 0 {
        DieKeeps(State(), pid);
        dying := result;
        if ctx[result].death {
          called := called + [ctx[result].launch];
          alive := RunCallback(starts(ctx[result].launch));
          if !alive {
            return;
          }
        }
        FreeKeeps(State());
        PidCloneFreeIdent(result);
      }
    }

    // What holds while the sweep stands at slot i.
    ghost predicate Sweeping(i: nat, before: seq<Ctx>, launches0: nat, called0: seq<nat>, calls: seq<nat>,
                             gone: set<int>, starts: nat -> seq<Start>)
      reads this, ctx
    {
      && Valid() && dying == 0 && ctx.Length == MAX_FORK_IDENT == |before| && launches >= launches0
      && called == called0 + calls
      && Reported(before, ctx[..], called, gone) && Later(before, ctx[..], launches0)
      && CallsRight(before, launches0, calls, gone)
      && (StartsExist(starts, calls, gone) ==> NoneGone(ctx[..], i, gone))
    }

    // One turn of the loop below.
    method CheckSlot(i: nat, gone: set<int>, starts: nat -> seq<Start>,
                     ghost before: seq<Ctx>, ghost launches0: nat, ghost called0: seq<nat>, ghost calls: seq<nat>)
      returns (alive: bool, ghost calls': seq<nat>)
      requires 1 <= i < MAX_FORK_IDENT && Sweeping(i, before, launches0, called0, calls, gone, starts)
      modifies this, ctx
      ensures ctx == old(ctx) && Valid()
      ensures alive ==> Sweeping(i + 1, before, launches0, called0, calls', gone, starts)
    {
      hide Count, Called, SlotOk, Distinct, Started, Reported, NoneGone, Find, Later, CallsRight, StartsExist, Inv, Reaped;
      alive, calls' := true, calls;
      ghost var t := State();
      InvSized(t);
      if ctx[i].used == i && ctx[i].pid in gone {
        FindIs(ctx[..], 1, MAX_FORK_IDENT, ctx[i].pid);
        assert Holds(ctx[..][i], i, ctx[i].pid);
        var result;
        result, alive := PidDeadClone(ctx[i].pid, starts);
        if alive {
          SweepTurn(before, launches0, t, State(), i, result, starts, calls, gone);
          calls' := if t.ctx[result].death then calls + [t.ctx[result].launch] else calls;
        }
      } else {
        if NoneGone(ctx[..], i, gone) { SweepSkip(t, i, gone); }
      }
    }

    // timer_clones_check after the harvest: every slot whose process is gone
    // is reported, while callbacks move the bound of the loop.  starts: what
    // the callback of each launch starts.  calls: the callbacks it called.
    method TimerClonesCheck(gone: set<int>, starts: nat -> seq<Start>) returns (alive: bool, ghost calls: seq<nat>)
      requires Valid() && dying == 0
      modifies this, ctx
      ensures ctx == old(ctx) && Valid() && (alive ==> dying == 0)
      ensures alive ==> called == old(called) + calls
      ensures alive ==> Reported(old(ctx[..]), ctx[..], called, gone)
      ensures alive ==> CallsRight(old(ctx[..]), old(launches), calls, gone)
      ensures alive && StartsExist(starts, calls, gone) ==> NoneGone(ctx[..], MAX_FORK_IDENT, gone)
    {
      hide Called, Started, Reported, NoneGone, Find, Later, CallsRight, StartsExist, Inv;
      alive := true;
      calls := [];
      ghost var before, launches0 := ctx[..], launches;
      InvSized(State());
      SweepStart(State(), gone);
      NoCalls(before, launches0, gone);
      var i := 1;
      while i <= currentMaxPid
        invariant 1 <= i <= MAX_FORK_IDENT && ctx == old(ctx)
        invariant Sweeping(i, before, launches0, old(called), calls, gone, starts)
        decreases MAX_FORK_IDENT - i
      {
        InvSized(State());
        alive, calls := CheckSlot(i, gone, starts, before, launches0, old(called), calls);
        if !alive {
          return;
        }
        i := i + 1;
      }
      if NoneGone(ctx[..], i, gone) { SweepEnd(State(), i, gone); }
    }
  }
}
