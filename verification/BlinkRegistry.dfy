// The blink registry: creation and deletion are deferred to timers, an entry
// whose deletion is pending keeps its place in both lists, and lookup stops
// at the first entry of the chain that bears the name.
module BlinkRegistry {
  import opened Sequences
  import opened BlinkLists

  class Registry {
    var headGlob: Entry?
    var headHash: array<Entry?>
    var nb: int                      // glob_current_obj_nb
    var creating: seq<Entry>         // data of the pending create timers
    var deleting: seq<Entry>         // data of the pending delete timers
    ghost var glob: seq<Entry>       // the entries, newest first

    // The two list structures thread the same entries.
    ghost predicate Threaded()
      reads `headGlob, `headHash, `nb, `glob, headHash
      reads glob`globNext, glob`globPrev, glob`hashNext, glob`hashPrev
    {
      Distinct(glob) && nb == |glob| && GlobLinked(glob, headGlob) && ChainsLinked(glob)
    }

    // Each chain threads the entries of s with its hash value, in order.
    ghost predicate ChainsLinked(s: seq<Entry>)
      reads `headHash, headHash, s`hashNext, s`hashPrev
    {
      headHash.Length == NB_HASH &&
      forall h :: 0 <= h < NB_HASH ==> ChainOf(s, h)
    }

    ghost predicate ChainOf(s: seq<Entry>, h: nat)
      requires h < headHash.Length
      reads `headHash, headHash, s`hashNext, s`hashPrev
    {
      ChainMembers(s, h);
      HashLinked(Chain(s, h), headHash[h])
    }

    ghost predicate Valid()
      reads this, headHash, glob, creating
    {
      && Threaded() && Ordered(glob) && Settled(glob)
      && DeathsTimed(glob, deleting) && BirthsTimed(glob, creating)
    }

    constructor ()
      ensures Valid() && glob == [] && creating == [] && deleting == []
      ensures fresh(headHash)
    {
      headGlob, nb, creating, deleting, glob := null, 0, [], [], [];
      headHash := new Entry?[NB_HASH](_ => null);
    }

    // get_obj_blinks_with_name: the first match of the chain decides.
    method Lookup(name: Name) returns (e: Entry?)
      requires Threaded() && Ordered(glob)
      ensures Live(glob, name, e)
    {
      hide SlotOf, Threaded;
      var idx := GetHashOfName(name);
      ghost var i;
      e, i := Walk(idx, name);
      if e != null && e.dying {
        FirstDecides(glob, idx, i);
        e := null;
      } else {
        ChainMembers(glob, idx);
      }
    }

    method Walk(h: nat, name: Name) returns (e: Entry?, ghost i: nat)
      requires Threaded() && h < NB_HASH
      ensures i <= |Chain(glob, h)| && e == At(Chain(glob, h), i)
      ensures forall x :: 0 <= x < i ==> Chain(glob, h)[x].name != name
      ensures e != null ==> e.name == name
    {
      hide SlotOf, GlobLinked, Distinct;
      ghost var chain := Chain(glob, h);
      assert ChainOf(glob, h);
      e, i := headHash[h], 0;
      while e != null && e.name != name
        invariant 0 <= i <= |chain| && e == At(chain, i)
        invariant forall x :: 0 <= x < i ==> chain[x].name != name
        decreases |chain| - i
      {
        e := e.hashNext;
        i := i + 1;
      }
    }

    // ----- linking and unlinking ------------------------------------------------

    method PushFront(cur: Entry, idx: nat, ghost chain: seq<Entry>)
      requires idx < headHash.Length && HashLinked(chain, headHash[idx]) && cur !in chain && cur.hashPrev == null
      modifies headHash, chain`hashPrev, cur`hashNext
      ensures HashLinked([cur] + chain, headHash[idx])
      ensures forall h :: 0 <= h < headHash.Length && h != idx ==> headHash[h] == old(headHash[h])
    {
      var first := headHash[idx];
      if first != null {
        first.hashPrev := cur;
      }
      cur.hashNext := first;
      headHash[idx] := cur;
      ghost var s := [cur] + chain;
      forall i | 0 <= i < |s|
        ensures s[i].hashNext == At(s, i + 1) && s[i].hashPrev == At(s, i - 1)
      {
        if i > 0 {
          assert s[i] == chain[i - 1];
          assert old(chain[i - 1].hashNext) == At(chain, i) == At(s, i + 1);
          assert old(chain[i - 1].hashPrev) == At(chain, i - 2);
        }
      }
    }

    method PushHash(cur: Entry)
      requires ChainsLinked(glob) && cur !in glob && cur.hashPrev == null
      modifies headHash, glob`hashPrev, cur`hashNext
      ensures ChainsLinked([cur] + glob)
    {
      hide SlotOf;
      var idx := GetHashOfName(cur.name);
      ghost var chain := Chain(glob, idx);
      ChainMembers(glob, idx);
      assert ChainOf(glob, idx);
      PushFront(cur, idx, chain);
      forall h | 0 <= h < NB_HASH
        ensures ChainOf([cur] + glob, h)
      {
        ChainCons(cur, glob, h);
        if h != idx {
          ChainMembers(glob, h);
          assert old(ChainOf(glob, h));
        }
      }
    }

    lemma ChainCons(cur: Entry, s: seq<Entry>, h: nat)
      ensures Chain([cur] + s, h) == if Slot(cur) == h then [cur] + Chain(s, h) else Chain(s, h)
    {
      assert ([cur] + s)[1..] == s;
    }

    method PushGlob(cur: Entry)
      requires GlobLinked(glob, headGlob) && cur !in glob && cur.globPrev == null
      modifies `headGlob, `glob, glob`globPrev, cur`globNext
      ensures glob == [cur] + old(glob) && GlobLinked(glob, headGlob)
    {
      if headGlob != null {
        headGlob.globPrev := cur;
      }
      cur.globNext := headGlob;
      headGlob := cur;
      ghost var s := [cur] + glob;
      forall i | 0 <= i < |s|
        ensures s[i].globNext == At(s, i + 1) && s[i].globPrev == At(s, i - 1)
      {
        if i > 0 {
          assert s[i] == glob[i - 1];
          assert old(glob[i - 1].globNext) == At(glob, i) == At(s, i + 1);
          assert old(glob[i - 1].globPrev) == At(glob, i - 2);
        }
      }
      glob := s;
    }
  
    method DropFrom(cur: Entry, idx: nat, ghost chain: seq<Entry>, ghost j: nat)
      requires idx < headHash.Length && HashLinked(chain, headHash[idx]) && Distinct(chain)
      requires j < |chain| && chain[j] == cur
      modifies headHash, chain`hashPrev, chain`hashNext
      ensures HashLinked(Drop(chain, j), headHash[idx])
      ensures forall h :: 0 <= h < headHash.Length && h != idx ==> headHash[h] == old(headHash[h])
    {
      assert cur.hashPrev == chain[j].hashPrev && cur.hashNext == chain[j].hashNext;
      if cur.hashPrev != null {
        cur.hashPrev.hashNext := cur.hashNext;
      }
      if cur.hashNext != null {
        cur.hashNext.hashPrev := cur.hashPrev;
      }
      if cur == headHash[idx] {
        headHash[idx] := cur.hashNext;
      }
      ghost var s := Drop(chain, j);
      forall i | 0 <= i < |s|
        ensures s[i].hashNext == At(s, i + 1) && s[i].hashPrev == At(s, i - 1)
      {
        var x := if i < j then i else i + 1;
        assert s[i] == chain[x];
        assert old(chain[x].hashNext) == At(chain, x + 1);
        assert old(chain[x].hashPrev) == At(chain, x - 1);
      }
    }

    method DropHash(cur: Entry, ghost k: nat)
      requires ChainsLinked(glob) && Distinct(glob) && k < |glob| && glob[k] == cur
      modifies headHash, glob`hashPrev, glob`hashNext
      ensures ChainsLinked(Drop(glob, k))
    {
      hide SlotOf, HashLinked, Drop, Chain, Distinct;
      var idx := GetHashOfName(cur.name);
      ghost var chain := Chain(glob, idx);
      ghost var j := ChainWithout(glob, k);
      ChainMembers(glob, idx);
      ChainDistinct(glob, idx);
      assert ChainOf(glob, idx);
      DropFrom(cur, idx, chain, j);
      forall h | 0 <= h < NB_HASH
        ensures HashLinked(Chain(Drop(glob, k), h), headHash[h])
      {
        if h != idx {
          ChainMembers(glob, h);
          ChainsApart(glob, h, idx);
          assert old(ChainOf(glob, h));
          OtherChain(glob, k, h);
        }
      }
    }

    method DropGlob(cur: Entry, ghost k: nat)
      requires GlobLinked(glob, headGlob) && Distinct(glob) && k < |glob| && glob[k] == cur
      modifies `headGlob, `glob, glob`globPrev, glob`globNext
      ensures glob == Drop(old(glob), k) && GlobLinked(glob, headGlob)
    {
      assert cur.globPrev == glob[k].globPrev && cur.globNext == glob[k].globNext;
      if cur.globPrev != null {
        cur.globPrev.globNext := cur.globNext;
      }
      if cur.globNext != null {
        cur.globNext.globPrev := cur.globPrev;
      }
      if cur == headGlob {
        headGlob := cur.globNext;
      }
      ghost var s := Drop(glob, k);
      forall i | 0 <= i < |s|
        ensures s[i].globNext == At(s, i + 1) && s[i].globPrev == At(s, i - 1)
      {
        var x := if i < k then i else i + 1;
        assert s[i] == glob[x];
        assert old(glob[x].globNext) == At(glob, x + 1);
        assert old(glob[x].globPrev) == At(glob, x - 1);
      }
      glob := s;
    }

    method Link(cur: Entry)
      requires Threaded() && cur !in glob && cur.hashPrev == cur.globPrev == null
      modifies `headGlob, `nb, `glob, headHash, glob`hashPrev, glob`globPrev, cur`hashNext, cur`globNext
      ensures Threaded() && glob == [cur] + old(glob)
    {
      hide ChainsLinked, GlobLinked, SlotOf;
      PushHash(cur);
      PushGlob(cur);
      nb := nb + 1;
    }

    method Unlink(cur: Entry, ghost k: nat)
      requires Threaded() && k < |glob| && glob[k] == cur
      modifies `headGlob, `nb, `glob, headHash
      modifies glob`hashPrev, glob`hashNext, glob`globPrev, glob`globNext
      ensures Threaded() && glob == Drop(old(glob), k)
    {
      hide ChainsLinked, GlobLinked, SlotOf;
      DropHash(cur, k);
      DropGlob(cur, k);
      nb := nb - 1;
      WithoutOne(old(glob), k);
    }

    // ----- operations -----------------------------------------------------------

    // alive: false when the program reports a fatal error and exits.

    // eventfull_obj_create
    method ObjCreate(name: Name) returns (alive: bool)
      requires Valid()
      modifies `creating
      ensures Valid()
      ensures alive <==> Live(glob, name, null)
      ensures alive ==> |creating| == |old(creating)| + 1 && creating[..|old(creating)|] == old(creating)
      ensures alive ==> creating[|old(creating)|].name == name && fresh(creating[|old(creating)|])
      ensures !alive ==> creating == old(creating)
    {
      hide Threaded, SlotOf;
      var cur := Lookup(name);
      if cur != null {
        return false;
      }
      cur := new Entry(name);
      creating := creating + [cur];
      alive := true;
    }

    // timeout_obj_create, for any pending create timer.  found: one of the two
    // searches for the displayed item succeeded, with nbEth interfaces.
    method CreateFires(n: nat, found: bool, nbEth: nat) returns (alive: bool)
      requires Valid() && n < |creating| && nbEth <= MAX_ETH_VM
      modifies this, headHash, glob`hashPrev, glob`globPrev, creating[n]
      ensures alive <==> old(Live(glob, creating[n].name, null))
      ensures headHash == old(headHash) && deleting == old(deleting)
      ensures alive ==> Valid() && creating == Drop(old(creating), n)
      ensures alive ==> glob == if found then [old(creating[n])] + old(glob) else old(glob)
      ensures alive && found ==> old(creating[n]).nbEth == nbEth
      ensures !alive ==> creating == old(creating) && glob == old(glob)
    {
      hide Threaded, SlotOf, Ordered, DeathsTimed, Settled, Drop, Pristine;
      var nblk := creating[n];
      assert nblk in creating;
      var cur := Lookup(nblk.name);
      if cur != null {
        return false;
      }
      alive := true;
      creating := creating[..n] + creating[n + 1..];
      assert creating == Drop(old(creating), n) by { WithoutIs(old(creating), n); }
      WithoutOne(old(creating), n);
      if found {
        Admit(nblk, nbEth);
      }
    }

    method Admit(nblk: Entry, nbEth: nat)
      requires Valid() && nblk !in glob && nblk !in creating && Pristine(nblk)
      requires Live(glob, nblk.name, null) && nbEth <= MAX_ETH_VM
      modifies `headGlob, `nb, `glob, headHash, glob`hashPrev, glob`globPrev, nblk
      ensures Valid() && glob == [nblk] + old(glob) && nblk.nbEth == nbEth
    {
      hide Threaded, SlotOf, Ordered, DeathsTimed, Settled;
      nblk.nbEth := nbEth;
      ConsOrdered(nblk, glob);
      ConsTimed(nblk, glob, deleting);
      assert BirthsTimed([nblk] + glob, creating);
      Link(nblk);
    }

    // eventfull_obj_delete; an unknown name is only logged.
    method ObjDelete(name: Name)
      requires Valid()
      modifies `deleting, glob`dying
      ensures Valid()
      ensures old(Live(glob, name, null)) ==>
                deleting == old(deleting) && forall e :: e in glob ==> e.dying == old(e.dying)
      ensures !old(Live(glob, name, null)) ==>
                |deleting| == |old(deleting)| + 1 && deleting[..|old(deleting)|] == old(deleting) &&
                var e := deleting[|old(deleting)|];
                e in glob && e.name == name && old(!e.dying) && e.dying &&
                forall x :: x in glob && x != e ==> x.dying == old(x.dying)
    {
      hide Threaded, SlotOf, Settled, Pristine;
      var cur := Lookup(name);
      if cur != null {
        cur.dying := true;
        deleting := deleting + [cur];
        assert deleting[|old(deleting)|] == cur;
        forall i, j | 0 <= i < j < |glob| && glob[i].name == glob[j].name
          ensures glob[j].dying
        {
          assert old(glob[j].dying);
        }
      }
    }

    // timeout_obj_delete, for any pending delete timer: the entry leaves both
    // lists and is freed, and no timer refers to it any more.
    method DeleteFires(n: nat)
      requires Valid() && n < |deleting|
      modifies this, headHash, glob`hashPrev, glob`hashNext, glob`globPrev, glob`globNext
      ensures Valid() && headHash == old(headHash) && creating == old(creating)
      ensures deleting == Drop(old(deleting), n)
      ensures var e := old(deleting[n]);
              && e !in glob && e !in deleting && e !in creating
              && exists k :: 0 <= k < |old(glob)| && old(glob)[k] == e && glob == Drop(old(glob), k)
    {
      hide Threaded, SlotOf, Ordered, Drop;
      var cur := deleting[n];
      assert cur in deleting;
      ghost var k :| 0 <= k < |glob| && glob[k] == cur;
      assert Distinct(glob) by { ThreadedDistinct(); }
      WithoutDeath(glob, deleting, k, n);
      WithoutOrdered(glob, k);
      WithoutOne(glob, k);
      WithoutOne(deleting, n);
      Unlink(cur, k);
      deleting := deleting[..n] + deleting[n + 1..];
      assert deleting == Drop(old(deleting), n) by { WithoutIs(old(deleting), n); }
      assert Settled(glob) && DeathsTimed(glob, deleting);
    }

    lemma ThreadedDistinct()
      requires Threaded()
      ensures Distinct(glob)
    {
    }
  }

  lemma WithoutIs(s: seq<Entry>, k: nat)
    requires k < |s|
    ensures Drop(s, k) == s[..k] + s[k + 1..]
  {
  }

  lemma ConsTimed(e: Entry, s: seq<Entry>, deleting: seq<Entry>)
    requires DeathsTimed(s, deleting) && !e.dying && Settled(s) && e.Sized() && e.Clear()
    ensures DeathsTimed([e] + s, deleting) && Settled([e] + s)
  {
  }
}
