// Entries of the blink registry and the two doubly linked lists that thread
// them: one global list, and one chain for each value of the name hash.
module BlinkLists {
  import opened Sequences

  // A NUL-free C string.
  type Name = seq<bv8>

  const MAX_ETH_VM := 15
  const NB_HASH := 0x100

  class Entry {
    const name: Name
    var dying: bool              // to_be_deleted
    var nbEth: nat
    var rx: seq<bool>            // blink bits collected since the last display
    var tx: seq<bool>
    var shownRx: seq<bool>       // bits on the displayed item of each interface
    var shownTx: seq<bool>
    var hashPrev: Entry?
    var hashNext: Entry?
    var globPrev: Entry?
    var globNext: Entry?

    constructor (name: Name)
      ensures this.name == name && !dying && nbEth == 0 && Clear() && Sized()
      ensures hashPrev == hashNext == globPrev == globNext == null
    {
      this.name := name;
      dying, nbEth := false, 0;
      rx, tx := seq(MAX_ETH_VM, _ => false), seq(MAX_ETH_VM, _ => false);
      shownRx, shownTx := seq(MAX_ETH_VM, _ => false), seq(MAX_ETH_VM, _ => false);
      hashPrev, hashNext, globPrev, globNext := null, null, null, null;
    }

    predicate Sized()
      reads `rx, `tx, `shownRx, `shownTx, `nbEth
    {
      |rx| == |tx| == |shownRx| == |shownTx| == MAX_ETH_VM && nbEth <= MAX_ETH_VM
    }

    // No bit is waiting to be displayed.
    predicate Clear()
      reads `rx, `tx
    {
      forall i :: 0 <= i < |rx| && i < |tx| ==> !rx[i] && !tx[i]
    }
  }

  function Hash(name: Name): bv8 {
    if name == [] then 0 else Hash(name[..|name| - 1]) ^ name[|name| - 1]
  }

  // The hash adds up bytes without carry, in any grouping.
  lemma {:induction false} HashParts(a: Name, b: Name, c: bv8)
    ensures Hash(a + b) == Hash(a) ^ Hash(b)
    ensures Hash([c]) == c
  {
    assert [c][..0] == [];
    if b == [] {
      assert a + b == a;
    } else {
      assert (a + b)[..|a + b| - 1] == a + b[..|b| - 1];
      HashParts(a, b[..|b| - 1], c);
    }
  }

  function SlotOf(name: Name): (h: nat)
    ensures h < NB_HASH
  {
    Hash(name) as nat
  }

  method GetHashOfName(name: Name) returns (h: nat)
    ensures h == SlotOf(name)
  {
    var hash: bv8 := 0;
    for i := 0 to |name|
      invariant hash == Hash(name[..i])
    {
      assert name[..i + 1][..i] == name[..i];
      hash := hash ^ name[i];
    }
    assert name[..|name|] == name;
    h := hash as nat;
  }

  function Slot(e: Entry): nat {
    SlotOf(e.name)
  }

  // The entries of one hash value, in global order.
  ghost function Chain(s: seq<Entry>, h: nat): seq<Entry> {
    if s == [] then []
    else if Slot(s[0]) == h then [s[0]] + Chain(s[1..], h)
    else Chain(s[1..], h)
  }

  function At(s: seq<Entry>, i: int): Entry? {
    if 0 <= i < |s| then s[i] else null
  }

  // The global links thread exactly s.
  ghost predicate GlobLinked(s: seq<Entry>, head: Entry?)
    reads s`globNext, s`globPrev
  {
    && head == At(s, 0)
    && (forall i {:trigger s[i].globNext} :: 0 <= i < |s| ==> s[i].globNext == At(s, i + 1))
    && (forall i {:trigger s[i].globPrev} :: 0 <= i < |s| ==> s[i].globPrev == At(s, i - 1))
  }

  // The hash links thread exactly s.
  ghost predicate HashLinked(s: seq<Entry>, head: Entry?)
    reads s`hashNext, s`hashPrev
  {
    && head == At(s, 0)
    && (forall i {:trigger s[i].hashNext} :: 0 <= i < |s| ==> s[i].hashNext == At(s, i + 1))
    && (forall i {:trigger s[i].hashPrev} :: 0 <= i < |s| ==> s[i].hashPrev == At(s, i - 1))
  }

  lemma {:induction false} ChainHas(s: seq<Entry>, h: nat, e: Entry)
    ensures e in Chain(s, h) <==> e in s && Slot(e) == h
  {
    if s != [] {
      ChainHas(s[1..], h, e);
      assert s == [s[0]] + s[1..];
      assert e in s <==> e == s[0] || e in s[1..];
    }
  }

  lemma ChainMembers(s: seq<Entry>, h: nat)
    ensures forall e {:trigger e in Chain(s, h)} :: e in Chain(s, h) ==> e in s && Slot(e) == h
    ensures forall e {:trigger e in s} :: e in s && Slot(e) == h ==> e in Chain(s, h)
    ensures forall i :: 0 <= i < |Chain(s, h)| ==> Chain(s, h)[i] in s && Slot(Chain(s, h)[i]) == h
  {
    forall e: Entry
      ensures e in Chain(s, h) <==> e in s && Slot(e) == h
    {
      ChainHas(s, h, e);
    }
  }

  // No entry is in two chains.
  lemma ChainsApart(s: seq<Entry>, g: nat, h: nat)
    requires g != h
    ensures forall e :: e in Chain(s, g) ==> e !in Chain(s, h)
  {
    hide Chain;
    ChainMembers(s, g);
    ChainMembers(s, h);
  }

  lemma {:induction false} ChainDistinct(s: seq<Entry>, h: nat)
    requires Distinct(s)
    ensures Distinct(Chain(s, h))
  {
    if s != [] {
      assert forall i :: 0 <= i < |s[1..]| ==> s[1..][i] == s[i + 1];
      ChainDistinct(s[1..], h);
      ChainMembers(s[1..], h);
    }
  }

  // Where entry k of the global list stands in its chain, and what the
  // chains are without it.
  lemma {:induction false} ChainWithout(s: seq<Entry>, k: nat) returns (j: nat)
    requires k < |s|
    ensures j < |Chain(s, Slot(s[k]))| && Chain(s, Slot(s[k]))[j] == s[k]
    ensures Chain(Drop(s, k), Slot(s[k])) == Drop(Chain(s, Slot(s[k])), j)
  {
    var h0 := Slot(s[k]);
    if k == 0 {
      assert Drop(s, 0) == s[1..];
      j := 0;
    } else {
      var i := ChainWithout(s[1..], k - 1);
      assert s[1..][k - 1] == s[k];
      assert Drop(s, k)[1..] == Drop(s[1..], k - 1);
      j := if Slot(s[0]) == h0 then i + 1 else i;
    }
  }

  lemma {:induction false} OtherChain(s: seq<Entry>, k: nat, h: nat)
    requires k < |s| && h != Slot(s[k])
    ensures Chain(Drop(s, k), h) == Chain(s, h)
  {
    if k == 0 {
      assert Drop(s, 0) == s[1..];
    } else {
      assert s[1..][k - 1] == s[k];
      OtherChain(s[1..], k - 1, h);
      assert Drop(s, k)[1..] == Drop(s[1..], k - 1);
    }
  }

  // Order is inherited from the global list.
  lemma {:induction false} ChainOrder(s: seq<Entry>, h: nat, a: nat, b: nat) returns (i: nat, j: nat)
    requires a < b < |Chain(s, h)|
    ensures i < j < |s| && s[i] == Chain(s, h)[a] && s[j] == Chain(s, h)[b]
  {
    if Slot(s[0]) == h && a == 0 {
      ChainMembers(s[1..], h);
      var e := Chain(s[1..], h)[b - 1];
      assert Chain(s, h)[b] == e && e in s[1..];
      var x: nat :| x < |s[1..]| && s[1..][x] == e;
      i, j := 0, x + 1;
    } else {
      var d := if Slot(s[0]) == h then 1 else 0;
      var x, y := ChainOrder(s[1..], h, a - d, b - d);
      i, j := x + 1, y + 1;
    }
  }

  // ----- what holds of the entries between operations -------------------------

  // Of several entries with one name, only the newest may be live.
  ghost predicate Ordered(s: seq<Entry>)
    reads s`dying
  {
    forall i, j :: 0 <= i < j < |s| && s[i].name == s[j].name ==> s[j].dying
  }

  // The specification of lookup: the entry with this name that is not dying.
  ghost predicate Live(s: seq<Entry>, name: Name, e: Entry?)
    reads s`dying
  {
    if e == null then forall x :: x in s && x.name == name ==> x.dying
    else e in s && e.name == name && !e.dying
  }

  predicate Pristine(e: Entry)
    reads e
  {
    && !e.dying && e.Clear() && e.Sized() && e.nbEth == 0
    && e.hashPrev == e.hashNext == e.globPrev == e.globNext == null
  }

  // Each dying entry has exactly one delete timer, and only dying entries
  // have one.
  ghost predicate DeathsTimed(s: seq<Entry>, deleting: seq<Entry>)
    reads s`dying
  {
    && Distinct(deleting)
    && (forall e :: e in deleting ==> e in s && e.dying)
    && (forall e :: e in s && e.dying ==> e in deleting)
  }

  // Entries waiting to be created are in no list.
  ghost predicate BirthsTimed(s: seq<Entry>, creating: seq<Entry>)
    reads creating
  {
    Distinct(creating) && forall e :: e in creating ==> e !in s && Pristine(e)
  }

  ghost predicate Settled(s: seq<Entry>)
    reads s`rx, s`tx, s`shownRx, s`shownTx, s`nbEth
  {
    forall e :: e in s ==> e.Sized() && e.Clear()
  }

  // There is never more than one live entry of a name.
  lemma LiveUnique(s: seq<Entry>, name: Name, e: Entry?, f: Entry?)
    requires Ordered(s) && Live(s, name, e) && Live(s, name, f)
    ensures e == f
  {
    if e != null && f != null {
      var i :| 0 <= i < |s| && s[i] == e;
      var j :| 0 <= j < |s| && s[j] == f;
    }
  }

  // If the first entry of a name in its chain is dying, all of them are.
  lemma FirstDecides(s: seq<Entry>, h: nat, i: nat)
    requires Ordered(s) && i < |Chain(s, h)| && Chain(s, h)[i].dying
    requires forall x :: 0 <= x < i ==> Chain(s, h)[x].name != Chain(s, h)[i].name
    ensures Live(s, Chain(s, h)[i].name, null)
  {
    var chain := Chain(s, h);
    var e := chain[i];
    ChainMembers(s, h);
    assert e in chain;
    forall x | x in s && x.name == e.name
      ensures x.dying
    {
      assert x in chain;
      var j :| 0 <= j < |chain| && chain[j] == x;
      if j != i {
        var a, b := ChainOrder(s, h, i, j);
      }
    }
  }

  lemma ConsOrdered(e: Entry, s: seq<Entry>)
    requires Ordered(s) && Live(s, e.name, null)
    ensures Ordered([e] + s)
  {
    forall i, j | 0 <= i < j < |[e] + s| && ([e] + s)[i].name == ([e] + s)[j].name
      ensures ([e] + s)[j].dying
    {
      assert ([e] + s)[j] == s[j - 1];
      assert i > 0 ==> ([e] + s)[i] == s[i - 1];
    }
  }

  lemma WithoutAt(s: seq<Entry>, k: nat)
    requires k < |s|
    ensures |Drop(s, k)| == |s| - 1
    ensures forall i {:trigger Drop(s, k)[i]} :: 0 <= i < |s| - 1 ==>
              Drop(s, k)[i] == s[if i < k then i else i + 1]
  {
  }

  lemma WithoutOne(s: seq<Entry>, k: nat)
    requires Distinct(s) && k < |s|
    ensures Distinct(Drop(s, k)) && s[k] !in Drop(s, k)
    ensures forall e :: e in Drop(s, k) ==> e in s
    ensures forall e :: e in s && e != s[k] ==> e in Drop(s, k)
  {
    var w := Drop(s, k);
    WithoutAt(s, k);
    forall e | e in s && e != s[k]
      ensures e in w
    {
      var i :| 0 <= i < |s| && s[i] == e;
      assert w[if i < k then i else i - 1] == e;
    }
  }

  lemma WithoutOrdered(s: seq<Entry>, k: nat)
    requires Ordered(s) && k < |s|
    ensures Ordered(Drop(s, k))
  {
    hide Drop;
    WithoutAt(s, k);
  }

  lemma WithoutDeath(s: seq<Entry>, deleting: seq<Entry>, k: nat, n: nat)
    requires DeathsTimed(s, deleting) && Distinct(s) && k < |s| && n < |deleting| && s[k] == deleting[n]
    ensures DeathsTimed(Drop(s, k), Drop(deleting, n))
  {
    hide Drop;
    WithoutOne(s, k);
    WithoutOne(deleting, n);
  }
}
