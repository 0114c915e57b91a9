// One batch of endpoint statistics: bits are collected on the live entries,
// then shown and cleared in one walk of the global list.
module BlinkBatch {
  import opened BlinkLists
  import opened BlinkRegistry

  // num: interface number; prx, ptx: packet counts
  datatype Endp = Endp(name: Name, num: int, prx: int, ptx: int)

  // The bit positions of an entry that have something to show them on: its
  // interfaces, or position 0 of a satellite without interface.
  predicate Used(e: Entry, i: int)
    reads e`nbEth
  {
    if e.nbEth == 0 then i == 0 else 0 <= i < e.nbEth
  }

  predicate SeenRx(recs: seq<Endp>, name: Name, i: int) {
    exists k :: 0 <= k < |recs| && recs[k].name == name && recs[k].num == i && recs[k].prx != 0
  }

  predicate SeenTx(recs: seq<Endp>, name: Name, i: int) {
    exists k :: 0 <= k < |recs| && recs[k].name == name && recs[k].num == i && recs[k].ptx != 0
  }

  lemma SeenSnoc(recs: seq<Endp>, r: Endp, name: Name, i: int)
    ensures SeenRx(recs + [r], name, i) <==> SeenRx(recs, name, i) || (r.name == name && r.num == i && r.prx != 0)
    ensures SeenTx(recs + [r], name, i) <==> SeenTx(recs, name, i) || (r.name == name && r.num == i && r.ptx != 0)
  {
    var s := recs + [r];
    assert s[|recs|] == r;
    assert forall k :: 0 <= k < |recs| ==> s[k] == recs[k];
  }

  // The waiting bits of e are exactly those the records call for.
  ghost predicate Collected(e: Entry, recs: seq<Endp>)
    reads e
  {
    e.Sized() &&
    if e.dying then e.Clear()
    else forall i :: 0 <= i < MAX_ETH_VM ==>
           && e.rx[i] == (Used(e, i) && SeenRx(recs, e.name, i))
           && e.tx[i] == (Used(e, i) && SeenTx(recs, e.name, i))
  }

  // The displayed bits of e are exactly those the records call for.
  ghost predicate Shown(e: Entry, recs: seq<Endp>)
    reads e
  {
    e.Sized() && forall i :: 0 <= i < MAX_ETH_VM && Used(e, i) ==>
      && e.shownRx[i] == SeenRx(recs, e.name, i)
      && e.shownTx[i] == SeenTx(recs, e.name, i)
  }

  predicate BadNumber(r: Endp) {
    r.num < 0 || r.num > MAX_ETH_VM
  }

  // body of the loop of eventfull_arrival, for an entry that was found
  method Note(cur: Entry, r: Endp, ghost recs: seq<Endp>)
    requires !cur.dying && cur.name == r.name && Collected(cur, recs) && 0 <= r.num < MAX_ETH_VM
    modifies cur`rx, cur`tx
    ensures Collected(cur, recs + [r])
  {
    var i := r.num;
    if (i == 0 && cur.nbEth == 0) || i < cur.nbEth {
      if r.prx != 0 { cur.rx := cur.rx[i := true]; }
      if r.ptx != 0 { cur.tx := cur.tx[i := true]; }
    }
    forall j | 0 <= j < MAX_ETH_VM
      ensures cur.rx[j] == (Used(cur, j) && SeenRx(recs + [r], cur.name, j))
      ensures cur.tx[j] == (Used(cur, j) && SeenTx(recs + [r], cur.name, j))
    {
      SeenSnoc(recs, r, cur.name, j);
    }
  }

  // transfert_blink_on_sat, transfert_blink_on_eth_bitem for each interface
  method Transfer(cur: Entry, ghost recs: seq<Endp>)
    requires !cur.dying && Collected(cur, recs)
    modifies cur`rx, cur`tx, cur`shownRx, cur`shownTx
    ensures Shown(cur, recs) && cur.Sized() && cur.Clear()
    ensures forall i :: 0 <= i < MAX_ETH_VM && !Used(cur, i) ==>
              cur.shownRx[i] == old(cur.shownRx[i]) && cur.shownTx[i] == old(cur.shownTx[i])
  {
    var n := if cur.nbEth == 0 then 1 else cur.nbEth;
    var i := 0;
    while i < n
      invariant i <= n && cur.Sized()
      invariant forall j :: 0 <= j < i ==>
                  && cur.shownRx[j] == old(cur.rx[j]) && cur.shownTx[j] == old(cur.tx[j])
                  && !cur.rx[j] && !cur.tx[j]
      invariant forall j :: i <= j < MAX_ETH_VM ==>
                  && cur.shownRx[j] == old(cur.shownRx[j]) && cur.shownTx[j] == old(cur.shownTx[j])
                  && cur.rx[j] == old(cur.rx[j]) && cur.tx[j] == old(cur.tx[j])
    {
      cur.shownRx := cur.shownRx[i := cur.rx[i]];
      cur.rx := cur.rx[i := false];
      cur.shownTx := cur.shownTx[i := cur.tx[i]];
      cur.tx := cur.tx[i := false];
      i := i + 1;
    }
  }

  lemma Missed(e: Entry, recs: seq<Endp>, r: Endp)
    requires Collected(e, recs) && (e.dying || e.name != r.name)
    ensures Collected(e, recs + [r])
  {
    forall i | 0 <= i < MAX_ETH_VM
      ensures SeenRx(recs + [r], e.name, i) == SeenRx(recs, e.name, i) || e.dying
      ensures SeenTx(recs + [r], e.name, i) == SeenTx(recs, e.name, i) || e.dying
    {
      SeenSnoc(recs, r, e.name, i);
    }
  }

  lemma OthersMiss(s: seq<Entry>, name: Name, cur: Entry)
    requires Ordered(s) && Live(s, name, cur)
    ensures forall e :: e in s && e != cur ==> e.dying || e.name != name
  {
    forall e | e in s && !e.dying && e.name == name
      ensures e == cur
    {
      LiveUnique(s, name, cur, e);
    }
  }

  ghost predicate AllCollected(s: seq<Entry>, recs: seq<Endp>)
    reads s
  {
    forall e :: e in s ==> Collected(e, recs)
  }

  lemma Begin(s: seq<Entry>)
    requires Settled(s)
    ensures AllCollected(s, [])
  {
  }

  // One record: a record for no live entry is skipped.
  method Receive(reg: Registry, r: Endp, ghost recs: seq<Endp>) returns (alive: bool)
    requires reg.Threaded() && Ordered(reg.glob) && AllCollected(reg.glob, recs)
    requires r.num == MAX_ETH_VM ==> Live(reg.glob, r.name, null)
    modifies reg.glob`rx, reg.glob`tx
    ensures alive <==> Live(reg.glob, r.name, null) || 0 <= r.num <= 15
    ensures alive ==> AllCollected(reg.glob, recs + [r])
  {
    hide Registry.Threaded, SlotOf, Collected;
    var cur := reg.Lookup(r.name);
    if cur == null {
      forall e | e in reg.glob
        ensures Collected(e, recs + [r])
      {
        Missed(e, recs, r);
      }
      return true;
    }
    if BadNumber(r) {
      return false;
    }
    alive := true;
    OthersMiss(reg.glob, r.name, cur);
    forall e | e in reg.glob && e != cur
      ensures Collected(e, recs + [r])
    {
      Missed(e, recs, r);
    }
    Note(cur, r, recs);
  }

  // eventfull_arrival.  The guard admits number 15, which has no slot; the
  // records of live names are taken not to use it.
  method Arrival(reg: Registry, batch: seq<Endp>) returns (alive: bool)
    requires reg.Threaded() && Ordered(reg.glob) && Settled(reg.glob)
    requires forall k :: 0 <= k < |batch| && batch[k].num == MAX_ETH_VM ==> Live(reg.glob, batch[k].name, null)
    modifies reg.glob`rx, reg.glob`tx
    ensures alive <==> forall k :: 0 <= k < |batch| && !(0 <= batch[k].num <= 15) ==> Live(reg.glob, batch[k].name, null)
    ensures alive ==> AllCollected(reg.glob, batch)
  {
    hide Registry.Threaded, Ordered, Live, AllCollected;
    Begin(reg.glob);
    var k := 0;
    assert batch[..0] == [];
    while k < |batch|
      invariant 0 <= k <= |batch|
      invariant reg.Threaded() && Ordered(reg.glob) && AllCollected(reg.glob, batch[..k])
      invariant forall j :: 0 <= j < k && !(0 <= batch[j].num <= 15) ==> Live(reg.glob, batch[j].name, null)
    {
      assert batch[..k + 1] == batch[..k] + [batch[k]];
      alive := Receive(reg, batch[k], batch[..k]);
      if !alive {
        return;
      }
      k := k + 1;
    }
    assert batch[..k] == batch;
    alive := true;
  }

  // blink_on_obj
  method BlinkOnObj(reg: Registry, ghost batch: seq<Endp>)
    requires reg.Threaded() && AllCollected(reg.glob, batch)
    modifies reg.glob`rx, reg.glob`tx, reg.glob`shownRx, reg.glob`shownTx
    ensures Settled(reg.glob)
    ensures forall e :: e in reg.glob && !e.dying ==> Shown(e, batch)
    ensures forall e :: e in reg.glob && e.dying ==> e.shownRx == old(e.shownRx) && e.shownTx == old(e.shownTx)
  {
    hide Registry.ChainsLinked, Collected, Shown;
    ghost var s := reg.glob;
    var cur := reg.headGlob;
    ghost var i := 0;
    while cur != null
      invariant 0 <= i <= |s| && cur == At(s, i)
      invariant forall j :: 0 <= j < i ==> s[j].Sized() && s[j].Clear()
      invariant forall j :: 0 <= j < i && !s[j].dying ==> Shown(s[j], batch)
      invariant forall j :: 0 <= j < |s| && s[j].dying ==>
                  s[j].shownRx == old(s[j].shownRx) && s[j].shownTx == old(s[j].shownTx)
      invariant forall j :: i <= j < |s| ==> Collected(s[j], batch)
      decreases |s| - i
    {
      if !cur.dying {
        Transfer(cur, batch);
      } else {
        DyingClear(cur, batch);
      }
      assert s[i].globNext == At(s, i + 1);
      cur := cur.globNext;
      i := i + 1;
    }
  }

  lemma DyingClear(e: Entry, recs: seq<Endp>)
    requires Collected(e, recs) && e.dying
    ensures e.Sized() && e.Clear()
  {
  }

  // eventfull_packets_data: what is displayed after a batch depends on that
  // batch alone, whatever happened before.
  method PacketsData(reg: Registry, batch: seq<Endp>) returns (alive: bool)
    requires reg.Valid()
    requires forall k :: 0 <= k < |batch| && batch[k].num == MAX_ETH_VM ==> Live(reg.glob, batch[k].name, null)
    modifies reg.glob`rx, reg.glob`tx, reg.glob`shownRx, reg.glob`shownTx
    ensures alive <==> forall k :: 0 <= k < |batch| && !(0 <= batch[k].num <= 15) ==> Live(reg.glob, batch[k].name, null)
    ensures alive ==> reg.Valid()
    ensures alive ==> forall e :: e in reg.glob && !e.dying ==> Shown(e, batch)
    ensures alive ==> forall e :: e in reg.glob && e.dying ==> e.shownRx == old(e.shownRx) && e.shownTx == old(e.shownTx)
  {
    hide Registry.Threaded, Ordered, Live, AllCollected, DeathsTimed, Settled, Shown;
    alive := Arrival(reg, batch);
    if alive {
      BlinkOnObj(reg, batch);
    }
  }
}
