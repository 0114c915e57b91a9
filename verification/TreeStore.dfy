// The GtkTreeStore behind the hyperzor window.  A row handle (GtkTreeIter)
// stays valid while its row exists: it names the row's parent and a serial
// number that is never reused.  A row's path is read off the sibling lists.
module TreeStore {
  import opened PathText

  datatype Handle = Root | Child(parent: Handle, serial: nat)

  datatype Tree = Tree(kids: map<Handle, seq<nat>>, caption: map<Handle, string>, next: nat)

  const EMPTY := Tree(map[Root := []], map[], 0)

  function Kids(t: Tree, h: Handle): seq<nat> {
    if h in t.kids then t.kids[h] else []
  }

  function Caption(t: Tree, h: Handle): string {
    if h in t.caption then t.caption[h] else ""
  }

  // h is the row a or lies below it.
  predicate Within(h: Handle, a: Handle) {
    h == a || (h.Child? && Within(h.parent, a))
  }

  function IndexOf(s: seq<nat>, x: nat): nat {
    if s == [] || s[0] == x then 0 else 1 + IndexOf(s[1..], x)
  }

  function Without(s: seq<nat>, x: nat): seq<nat> {
    if s == [] then [] else if s[0] == x then s[1..] else [s[0]] + Without(s[1..], x)
  }

  // gtk_tree_model_get_string_from_iter, before it is printed
  function PathOf(t: Tree, h: Handle): Path {
    match h
    case Root => []
    case Child(p, n) => PathOf(t, p) + [IndexOf(Kids(t, p), n)]
  }

  // gtk_tree_store_append followed by gtk_tree_store_set of column 0
  function Append(t: Tree, p: Handle, caption: string): Tree {
    var h := Child(p, t.next);
    Tree(t.kids[p := Kids(t, p) + [t.next]][h := []], t.caption[h := caption], t.next + 1)
  }

  // gtk_tree_store_remove: the row goes, with everything below it
  function Remove(t: Tree, h: Handle): Tree
    requires h.Child?
  {
    var kids := map x | x in t.kids && !Within(x, h) ::
                  if x == h.parent then Without(t.kids[x], h.serial) else t.kids[x];
    Tree(kids, map x | x in t.caption && !Within(x, h) :: t.caption[x], t.next)
  }

  ghost predicate Ascending(s: seq<nat>, bound: nat) {
    && (forall i, j :: 0 <= i < j < |s| ==> s[i] < s[j])
    && (forall i :: 0 <= i < |s| ==> s[i] < bound)
  }

  ghost predicate RowOk(t: Tree, h: Handle)
    requires h in t.kids
  {
    && (h.Child? ==> h.parent in t.kids && h.serial in t.kids[h.parent])
    && Ascending(t.kids[h], t.next)
    && (forall i :: 0 <= i < |t.kids[h]| ==> Child(h, t.kids[h][i]) in t.kids)
  }

  ghost predicate TreeOk(t: Tree) {
    Root in t.kids && forall h {:trigger RowOk(t, h)} :: h in t.kids ==> RowOk(t, h)
  }

  // The rows at and below a are the same in both trees.
  ghost predicate SameAt(t: Tree, u: Tree, h: Handle) {
    && (h in t.kids <==> h in u.kids)
    && (h in t.kids ==> Kids(t, h) == Kids(u, h) && Caption(t, h) == Caption(u, h))
  }

  ghost predicate SameWithin(t: Tree, u: Tree, a: Handle) {
    forall h :: Within(h, a) ==> SameAt(t, u, h)
  }

  lemma {:induction false} IndexOfAt(s: seq<nat>, k: nat, bound: nat)
    requires Ascending(s, bound) && k < |s|
    ensures IndexOf(s, s[k]) == k
  {
    if k > 0 {
      assert s[1..][k - 1] == s[k];
      IndexOfAt(s[1..], k - 1, bound);
    }
  }

  lemma {:induction false} IndexOfAppend(s: seq<nat>, y: nat, x: nat)
    requires x in s
    ensures IndexOf(s + [y], x) == IndexOf(s, x)
  {
    if s[0] != x {
      assert (s + [y])[1..] == s[1..] + [y];
      IndexOfAppend(s[1..], y, x);
    }
  }

  lemma {:induction false} WithoutIs(s: seq<nat>, k: nat, bound: nat)
    requires Ascending(s, bound) && k < |s|
    ensures Without(s, s[k]) == s[..k] + s[k + 1..]
  {
    if k > 0 {
      var rest := s[1..];
      assert rest[k - 1] == s[k];
      assert Ascending(rest, bound);
      WithoutIs(rest, k - 1, bound);
      assert s[0] != s[k];
      assert [s[0]] + (rest[..k - 1] + rest[k..]) == s[..k] + s[k + 1..];
    }
  }

  lemma CutAscending(s: seq<nat>, k: nat, bound: nat)
    requires Ascending(s, bound) && k < |s|
    ensures Ascending(s[..k] + s[k + 1..], bound)
  {
    var t := s[..k] + s[k + 1..];
    assert forall i :: 0 <= i < |t| ==> t[i] == s[if i < k then i else i + 1];
  }

  // Deleting one sibling keeps the order and moves only the later ones up.
  lemma WithoutAt(s: seq<nat>, k: nat, bound: nat)
    requires Ascending(s, bound) && k < |s|
    ensures Without(s, s[k]) == s[..k] + s[k + 1..]
    ensures Ascending(Without(s, s[k]), bound)
  {
    hide Ascending;
    WithoutIs(s, k, bound);
    CutAscending(s, k, bound);
  }

  lemma {:induction false} WithinTrans(h: Handle, a: Handle, b: Handle)
    requires Within(h, a) && Within(a, b)
    ensures Within(h, b)
  {
    if h != a {
      WithinTrans(h.parent, a, b);
    }
  }

  lemma {:induction false} WithinLinear(h: Handle, a: Handle, b: Handle)
    requires Within(h, a) && Within(h, b)
    ensures Within(a, b) || Within(b, a)
  {
    if h != a && h != b {
      WithinLinear(h.parent, a, b);
    }
  }

  lemma AscendingSnoc(s: seq<nat>, bound: nat)
    requires Ascending(s, bound)
    ensures Ascending(s, bound + 1) && Ascending(s + [bound], bound + 1)
  {
  }

  lemma AppendRowOk(t: Tree, p: Handle, caption: string, x: Handle)
    requires TreeOk(t) && p in t.kids && Child(p, t.next) !in t.kids
    requires x in Append(t, p, caption).kids
    ensures RowOk(Append(t, p, caption), x)
  {
    hide Ascending, TreeOk, Append;
    AppendKids(t, p, caption);
    assert RowOk(t, p) && (x in t.kids ==> RowOk(t, x)) by { RowsOk(t); }
    var u := Append(t, p, caption);
    if x == Child(p, t.next) {
      assert u.kids[p][|t.kids[p]|] == t.next;
      assert Ascending([], t.next + 1) by { NoKids(t.next + 1); }
    } else {
      AscendingSnoc(t.kids[x], t.next);
      if x.Child? && x.parent == p {
        var i: nat :| i < |t.kids[p]| && t.kids[p][i] == x.serial;
        assert u.kids[p][i] == x.serial;
      }
    }
  }

  lemma NoKids(bound: nat)
    ensures Ascending([], bound)
  {
  }

  lemma RowsOk(t: Tree)
    requires TreeOk(t)
    ensures forall h {:trigger RowOk(t, h)} :: h in t.kids ==> RowOk(t, h)
  {
  }

  lemma AppendKids(t: Tree, p: Handle, caption: string)
    requires p in t.kids && Child(p, t.next) != p
    ensures var u := Append(t, p, caption);
            && u.kids.Keys == t.kids.Keys + {Child(p, t.next)} && u.next == t.next + 1
            && u.kids[p] == t.kids[p] + [t.next] && u.kids[Child(p, t.next)] == []
            && forall x :: x in t.kids && x != p && x != Child(p, t.next) ==> u.kids[x] == t.kids[x]
  {
  }

  lemma AppendOk(t: Tree, p: Handle, caption: string)
    requires TreeOk(t) && p in t.kids
    ensures var u := Append(t, p, caption); var h := Child(p, t.next);
            && TreeOk(u) && h !in t.kids && h in u.kids
            && Kids(u, h) == [] && Caption(u, h) == caption
            && Kids(u, p) == Kids(t, p) + [t.next]
            && u.kids.Keys == t.kids.Keys + {h}
            && (forall x :: x in t.kids && x != p ==> SameAt(t, u, x))
            && Caption(u, p) == Caption(t, p)
  {
    var u := Append(t, p, caption);
    var h := Child(p, t.next);
    assert h !in t.kids by {
      assert RowOk(t, p);
      assert h in t.kids ==> RowOk(t, h);
    }
    hide RowOk;
    forall x | x in u.kids
      ensures RowOk(u, x)
    {
      AppendRowOk(t, p, caption, x);
    }
  }

  // Appending never moves an existing row.
  lemma {:induction false} AppendPath(t: Tree, p: Handle, caption: string, h: Handle)
    requires TreeOk(t) && p in t.kids && h in t.kids
    ensures PathOf(Append(t, p, caption), h) == PathOf(t, h)
  {
    AppendOk(t, p, caption);
    assert RowOk(t, h);
    if h.Child? {
      AppendPath(t, p, caption, h.parent);
      if h.parent == p {
        IndexOfAppend(t.kids[p], t.next, h.serial);
      } else {
        assert SameAt(t, Append(t, p, caption), h.parent);
      }
    }
  }

  lemma RemoveKids(t: Tree, h: Handle, k: nat)
    requires TreeOk(t) && h.Child? && h in t.kids
    requires k < |Kids(t, h.parent)| && Kids(t, h.parent)[k] == h.serial
    ensures h.parent in Remove(t, h).kids && Caption(Remove(t, h), h.parent) == Caption(t, h.parent)
    ensures Kids(Remove(t, h), h.parent) == Kids(t, h.parent)[..k] + Kids(t, h.parent)[k + 1..]
    ensures Remove(t, h).kids.Keys <= t.kids.Keys
    ensures h !in Remove(t, h).kids
    ensures Ascending(Kids(Remove(t, h), h.parent), t.next)
  {
    assert RowOk(t, h) && RowOk(t, h.parent);
    WithoutAt(t.kids[h.parent], k, t.next);
    WithinProper(h.parent, h);
  }

  lemma RemoveRowOk(t: Tree, h: Handle, k: nat, x: Handle)
    requires TreeOk(t) && h.Child? && h in t.kids
    requires k < |Kids(t, h.parent)| && Kids(t, h.parent)[k] == h.serial
    requires x in Remove(t, h).kids && x != h.parent
    ensures RowOk(Remove(t, h), x)
  {
    RemoveKids(t, h, k);
    var u := Remove(t, h);
    assert RowOk(t, x);
    if x.Child? && x.parent == h.parent {
      var s := t.kids[h.parent];
      var i: nat :| i < |s| && s[i] == x.serial;
      assert u.kids[h.parent][if i < k then i else i - 1] == x.serial;
    }
    forall i | 0 <= i < |u.kids[x]|
      ensures Child(x, u.kids[x][i]) in u.kids
    {
      assert Child(x, t.kids[x][i]) in t.kids;
    }
  }

  lemma RemoveParentOk(t: Tree, h: Handle, k: nat)
    requires TreeOk(t) && h.Child? && h in t.kids
    requires k < |Kids(t, h.parent)| && Kids(t, h.parent)[k] == h.serial
    ensures h.parent in Remove(t, h).kids && RowOk(Remove(t, h), h.parent)
  {
    hide Without;
    var u := Remove(t, h);
    var p := h.parent;
    RemoveKids(t, h, k);
    WithinProper(p, h);
    assert RowOk(t, p);
    forall i | 0 <= i < |u.kids[p]|
      ensures Child(p, u.kids[p][i]) in u.kids
    {
      var i' := if i < k then i else i + 1;
      assert u.kids[p][i] == t.kids[p][i'] && Child(p, t.kids[p][i']) in t.kids;
    }
  }

  lemma RemoveOk(t: Tree, h: Handle, k: nat)
    requires TreeOk(t) && h.Child? && h in t.kids
    requires k < |Kids(t, h.parent)| && Kids(t, h.parent)[k] == h.serial
    ensures TreeOk(Remove(t, h))
  {
    hide Without, RowOk;
    RemoveParentOk(t, h, k);
    if Within(Root, h) { WithinSize(Root, h); }
    forall x | x in Remove(t, h).kids
      ensures RowOk(Remove(t, h), x)
    {
      if x != h.parent {
        RemoveRowOk(t, h, k, x);
      }
    }
  }

  lemma {:induction false} WithinProper(a: Handle, b: Handle)
    requires b.Child? && Within(b.parent, a)
    ensures !Within(a, b)
  {
    if Within(a, b) {
      WithinSize(a, b);
      WithinSize(b.parent, a);
    }
  }

  function Depth(h: Handle): nat {
    if h.Root? then 0 else 1 + Depth(h.parent)
  }

  lemma {:induction false} WithinSize(a: Handle, b: Handle)
    requires Within(a, b)
    ensures Depth(a) >= Depth(b)
  {
    if a != b {
      WithinSize(a.parent, b);
    }
  }

  lemma RemoveSame(t: Tree, h: Handle, a: Handle)
    requires h.Child? && !Within(h, a) && !Within(a, h)
    ensures SameWithin(t, Remove(t, h), a)
  {
    forall x | Within(x, a)
      ensures SameAt(t, Remove(t, h), x)
    {
      if Within(x, h) {
        WithinLinear(x, a, h);
      }
    }
  }

  // Removing a row moves nothing outside its parent.
  lemma {:induction false} RemovePath(t: Tree, r: Handle, h: Handle)
    requires TreeOk(t) && r.Child? && h in t.kids && (h == r.parent || !Within(h, r.parent))
    ensures PathOf(Remove(t, r), h) == PathOf(t, h)
  {
    if h.Child? {
      assert RowOk(t, h);
      if Within(h.parent, r.parent) {
        WithinSize(h.parent, r.parent);
      }
      RemovePath(t, r, h.parent);
      if Within(h.parent, r) {
        WithinTrans(h.parent, r, r.parent);
      }
    }
  }

  // Removing below a row first makes no difference to removing the row.
  lemma RemoveAbsorb(t: Tree, h: Handle, a: Handle)
    requires h.Child? && a.Child? && Within(h.parent, a)
    ensures Remove(Remove(t, h), a) == Remove(t, a)
  {
    forall x | Within(x, h)
      ensures Within(x, a)
    {
      WithinTrans(x, h, a);
    }
    assert Remove(Remove(t, h), a).kids == Remove(t, a).kids;
    assert Remove(Remove(t, h), a).caption == Remove(t, a).caption;
  }

  // Distinct siblings have disjoint subtrees.
  lemma SiblingsDisjoint(h: Handle, a: Handle, b: Handle)
    requires a.Child? && b.Child? && a.parent == b.parent && a != b && Within(h, a)
    ensures !Within(h, b) && !Within(b, h)
  {
    if Within(a.parent, b) { WithinSize(a.parent, b); }
    if Within(b.parent, a) { WithinSize(b.parent, a); }
    if Within(h, b) {
      WithinLinear(h, a, b);
    } else if Within(b, h) {
      WithinTrans(b, h, a);
    }
  }

  // u grew out of t by new leaves below p only; no old row moved.
  ghost predicate GrownAt(t: Tree, u: Tree, p: Handle) {
    && TreeOk(t) && TreeOk(u) && p in t.kids
    && Kids(t, p) <= Kids(u, p)
    && (forall h {:trigger h in t.kids} {:trigger PathOf(u, h)} :: h in t.kids ==>
         h in u.kids && PathOf(u, h) == PathOf(t, h) && Caption(u, h) == Caption(t, h))
    && (forall h {:trigger Kids(u, h)} :: h in t.kids && h != p ==> Kids(u, h) == Kids(t, h))
    && (forall h {:trigger h in u.kids} :: h in u.kids && h !in t.kids ==>
         h.Child? && h.parent == p && Kids(u, h) == [])
  }

  lemma AppendGrown(t: Tree, p: Handle, caption: string)
    requires TreeOk(t) && p in t.kids
    ensures GrownAt(t, Append(t, p, caption), p)
  {
    AppendOk(t, p, caption);
    forall h | h in t.kids
      ensures PathOf(Append(t, p, caption), h) == PathOf(t, h)
    {
      AppendPath(t, p, caption, h);
    }
  }

  lemma GrownRefl(t: Tree, p: Handle)
    requires TreeOk(t) && p in t.kids
    ensures GrownAt(t, t, p)
  {
  }

  lemma GrownTrans(t: Tree, u: Tree, v: Tree, p: Handle)
    requires GrownAt(t, u, p) && GrownAt(u, v, p)
    ensures GrownAt(t, v, p)
  {
  }

  lemma GrownSame(t: Tree, u: Tree, p: Handle, a: Handle)
    requires GrownAt(t, u, p) && a in t.kids && !Within(p, a)
    ensures SameWithin(t, u, a)
  {
    forall x | Within(x, a)
      ensures SameAt(t, u, x)
    {
    }
  }
}
