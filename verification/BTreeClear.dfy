/** Removing whole subtrees from the storage. */
module BTreeClear {
  import opened BTreeStore
  import opened BTreeEdit
  import opened BTreeSlots
  import opened BTreeCut
  import opened BTreeLinks
  import opened BTreePosition
  import opened BTreeIterator

  /** `m` is `n` or a node below it. */
  ghost predicate InSubtree<V>(s: Store<int, V>, n: int, m: int)
    requires n in s && m in s
  {
    s[m].level <= s[n].level && s[n].off <= s[m].off && s[m].End() <= s[n].End()
  }

  /** `m` lies below one of the children `ks[a..b]`. */
  ghost predicate BelowSome<V>(s: Store<int, V>, ks: seq<int>, a: nat, b: nat, m: int)
    requires AllIn(s, ks) && m in s && b <= |ks|
  {
    exists j {:trigger ks[j]} :: a <= j < b && InSubtree(s, ks[j], m)
  }

  /** A proper descendant of a node lies below one of its children. */
  lemma Descend<V>(s: Store<int, V>, K: nat, root: int, all: seq<V>, n: int, m: int) returns (j: nat)
    requires Inv(s, K, root, all) && n in s && !s[n].leaf && m in s && m != n && InSubtree(s, n, m)
    ensures j < |s[n].kids| && s[n].kids[j] in s && InSubtree(s, s[n].kids[j], m)
  {
    if s[m].level == s[n].level { SpansApart(s, K, root, all, n, m); }
    assert CellOk(s, K, root, all, n);
    var a := Above(s, K, root, all, m, s[n].level - 1);
    assert CellOk(s, K, root, all, a);
    var p := s[a].parent;
    assert CellOk(s, K, root, all, p);
    ChainBounds(s, all, s[p].kids, s[p].slots, s[p].off, s[p].End(), s[a].pos);
    if p != n { SpansApart(s, K, root, all, p, n); }
    j := s[a].pos;
  }

  lemma SubtreeIs<V>(s: Store<int, V>, K: nat, root: int, all: seq<V>, n: int, m: int)
    requires Inv(s, K, root, all) && n in s && !s[n].leaf && m in s
    ensures AllIn(s, s[n].kids) && (InSubtree(s, n, m) <==> m == n || BelowSome(s, s[n].kids, 0, |s[n].kids|, m))
  {
    NodeOk(s, K, root, all, n);
    if m != n && InSubtree(s, n, m) {
      var j := Descend(s, K, root, all, n, m);
    }
    forall j | 0 <= j < |s[n].kids| ensures s[n].off <= s[s[n].kids[j]].off && s[s[n].kids[j]].End() <= s[n].End() {
      ChainBounds(s, all, s[n].kids, s[n].slots, s[n].off, s[n].End(), j);
    }
  }

  /** The nodes of the subtrees `ks[a..b]`. */
  method CollectAll<V>(s: Store<int, V>, ghost K: nat, ghost root: int, ghost all: seq<V>, ks: seq<int>, a: nat, b: nat, ghost level: nat)
    returns (dead: set<int>)
    requires Inv(s, K, root, all) && AllIn(s, ks) && a <= b <= |ks|
    requires forall j {:trigger ks[j]} :: a <= j < b ==> s[ks[j]].level < level
    ensures dead <= s.Keys && forall m {:trigger m in dead} :: m in s ==> (m in dead <==> BelowSome(s, ks, a, b, m))
    decreases level, 0
  {
    dead := {};
    for i := a to b
      invariant dead <= s.Keys && forall m {:trigger m in dead} :: m in s ==> (m in dead <==> BelowSome(s, ks, a, i, m))
    {
      var more := Collect(s, K, root, all, ks[i]);
      dead := dead + more;
    }
  }

  /** The nodes of the subtree of `n`, as the recursive clearing visits them. */
  method Collect<V>(s: Store<int, V>, ghost K: nat, ghost root: int, ghost all: seq<V>, n: int) returns (dead: set<int>)
    requires Inv(s, K, root, all) && n in s
    ensures dead <= s.Keys && forall m {:trigger m in dead} :: m in s ==> (m in dead <==> InSubtree(s, n, m))
    decreases s[n].level, 1
  {
    NodeOk(s, K, root, all, n);
    if s[n].leaf {
      dead := {n};
      forall m | m in s ensures m in dead <==> InSubtree(s, n, m) {
        if m != n && s[m].level == 0 { SpansApart(s, K, root, all, n, m); }
      }
    } else {
      dead := CollectAll(s, K, root, all, s[n].kids, 0, |s[n].kids|, s[n].level);
      dead := dead + {n};
      forall m | m in s ensures m in dead <==> InSubtree(s, n, m) {
        SubtreeIs(s, K, root, all, n, m);
      }
    }
  }

  /** The nodes between two slots of `n` are those below the children between them. */
  lemma GoneIs<V>(s: Store<int, V>, K: nat, root: int, all: seq<V>, n: int, b: nat, e: nat, m: int)
    requires Inv(s, K, root, all) && CanCut(s, n, b, e) && m in s
    ensures AllIn(s, s[n].kids) && (Gone(s, n, b, e, m) <==> BelowSome(s, s[n].kids, b + 1, e + 1, m))
  {
    NodeOk(s, K, root, all, n);
    RunSpan(s, K, root, all, n, b, e);
    if Gone(s, n, b, e, m) {
      var j := Descend(s, K, root, all, n, m);
      PlacementBelow(s, all, n, b, e, j);
    }
    forall j | b + 1 <= j < e + 1
      ensures SlotRank(s, s[n], b) < s[s[n].kids[j]].off && s[s[n].kids[j]].End() <= SlotRank(s, s[n], e)
    {
      PlacementBelow(s, all, n, b, e, j);
    }
  }

  /** Moves the children after slot `e` of `n` up behind slot `b`. */
  method RotateKids<V>(s: Store<int, V>, ghost K: nat, ghost root: int, ghost all: seq<V>, n: int, b: nat, e: nat)
    returns (u: Store<int, V>)
    requires Inv(s, K, root, all) && CanCut(s, n, b, e)
    ensures u.Keys == s.Keys && forall m {:trigger u[m]} :: m in s ==> u[m] == s[m].(pos := CutPos(s, n, b, e, m))
  {
    ListsKids(s, K, root, all, n, e + 1, |s[n].kids|);
    u := Adopt(s, n, s[n].kids, e + 1, |s[n].kids|, n, b + 1);
    forall m | m in s ensures u[m] == s[m].(pos := CutPos(s, n, b, e, m)) {
      assert CellOk(s, K, root, all, m) && CellOk(s, K, root, all, n);
    }
  }

  /** The cell of a kept node after the values of rank `k..h` are gone. */
  function Trimmed<V>(y: Cell<int, V>, cut: bool, slots: seq<V>, kids: seq<int>, ghost k: nat, ghost h: nat): (z: Cell<int, V>)
    requires k <= h
    ensures z == y.(off := z.off, len := z.len, slots := if cut then slots else y.slots, kids := if cut then kids else y.kids)
    ensures z.off == Drop(y.off, k, h - k) && z.End() == Drop(y.End(), k, h - k)
  {
    y.(slots := if cut then slots else y.slots, kids := if cut then kids else y.kids,
       off := Drop(y.off, k, h - k), len := Drop(y.End(), k, h - k) - Drop(y.off, k, h - k))
  }

  /** Drops the nodes `dead` and renumbers the others. */
  function Trim<V>(u: Store<int, V>, dead: set<int>, n: int, slots: seq<V>, kids: seq<int>, ghost k: nat, ghost h: nat): (t: Store<int, V>)
    requires k <= h
    ensures t.Keys == u.Keys - dead
    ensures forall m {:trigger t[m]} :: m in t ==> t[m] == Trimmed(u[m], m == n, slots, kids, k, h)
  {
    map m | m in u && m !in dead :: Trimmed(u[m], m == n, slots, kids, k, h)
  }

  lemma TrimIsCut<V>(s: Store<int, V>, n: int, b: nat, e: nat, u: Store<int, V>, dead: set<int>,
                     slots: seq<V>, kids: seq<int>, k: nat, h: nat, t: Store<int, V>)
    requires CanCut(s, n, b, e) && k == SlotRank(s, s[n], b) && h == SlotRank(s, s[n], e) && k < h
    requires slots == Without(s[n].slots, b, e - b) && kids == Without(s[n].kids, b + 1, e - b)
    requires u.Keys == s.Keys && forall m {:trigger u[m]} :: m in s ==> u[m] == s[m].(pos := CutPos(s, n, b, e, m))
    requires forall m {:trigger m in dead} :: m in s ==> (m in dead <==> Gone(s, n, b, e, m))
    requires t.Keys == u.Keys - dead && forall m {:trigger t[m]} :: m in t ==> t[m] == Trimmed(u[m], m == n, slots, kids, k, h)
    ensures Cut(s, n, b, e, t)
  {
    forall m | m in s ensures m in t <==> !Gone(s, n, b, e, m) {
      assert m in dead <==> Gone(s, n, b, e, m);
    }
    forall m | m in t
      ensures t[m] == s[m].(off := t[m].off, len := t[m].len, pos := CutPos(s, n, b, e, m),
                            slots := if m == n then slots else s[m].slots, kids := if m == n then kids else s[m].kids)
    {
      assert u[m] == s[m].(pos := CutPos(s, n, b, e, m));
    }
  }

  /** Removes the values `b..e` of `n` and the children between them. */
  method TrimNode<V>(s: Store<int, V>, n: int, b: nat, e: nat, u: Store<int, V>, dead: set<int>) returns (t: Store<int, V>)
    requires CanCut(s, n, b, e) && SlotRank(s, s[n], b) < SlotRank(s, s[n], e)
    requires u.Keys == s.Keys && forall m {:trigger u[m]} :: m in s ==> u[m] == s[m].(pos := CutPos(s, n, b, e, m))
    requires forall m {:trigger m in dead} :: m in s ==> (m in dead <==> Gone(s, n, b, e, m))
    ensures Cut(s, n, b, e, t)
  {
    var slots := Erase(s[n].slots, b, e - b);
    var kids := Erase(s[n].kids, b + 1, e - b);
    ghost var k, h := SlotRank(s, s[n], b), SlotRank(s, s[n], e);
    t := Trim(u, dead, n, slots, kids, k, h);
    TrimIsCut(s, n, b, e, u, dead, slots, kids, k, h, t);
  }

  /** Deletes the subtrees between the slots `b` and `e` of `n`, moves the later children up and
  removes the values `b..e`. */
  method CutNodes<V>(s: Store<int, V>, ghost K: nat, ghost root: int, ghost all: seq<V>, n: int, b: nat, e: nat)
    returns (t: Store<int, V>)
    requires Inv(s, K, root, all) && CanCut(s, n, b, e)
    ensures Cut(s, n, b, e, t)
  {
    NodeOk(s, K, root, all, n);
    RunSpan(s, K, root, all, n, b, e);
    var dead := CollectAll(s, K, root, all, s[n].kids, b + 1, e + 1, s[n].level);
    forall m | m in s ensures m in dead <==> Gone(s, n, b, e, m) {
      GoneIs(s, K, root, all, n, b, e, m);
    }
    var u := RotateKids(s, K, root, all, n, b, e);
    t := TrimNode(s, n, b, e, u, dead);
  }

  /** After the cut the slot `b` holds what followed the removed values. */
  lemma CutEffects<V>(s: Store<int, V>, K: nat, root: int, rightmost: int, all: seq<V>, n: int, b: nat, e: nat, t: Store<int, V>)
    requires Shape(s, K, root, rightmost, all, 0) && 0 !in s && CanCut(s, n, b, e) && Cut(s, n, b, e, t)
    ensures var k, h := SlotRank(s, s[n], b), SlotRank(s, s[n], e);
      && k < h <= |all| && Shape(t, K, root, rightmost, all[..k] + all[h..], 0)
      && IsPlace(t, Iter(n, b)) && Rank(t, Iter(n, b)) == k
  {
    CutInv(s, K, root, all, n, b, e, t);
    RunSpan(s, K, root, all, n, b, e);
    CutHomes(s, K, root, all, n, b, e, t);
    assert !Gone(s, n, b, e, rightmost) && !Gone(s, n, b, e, s[root].parent);
    CutKept(s, K, root, rightmost, all, n, b, e, t);
    forall m | m in t ensures t[m].slots != [] {
      assert s[m].slots != [];
    }
  }

  lemma CutKept<V>(s: Store<int, V>, K: nat, root: int, rightmost: int, all: seq<V>, n: int, b: nat, e: nat, t: Store<int, V>)
    requires Inv(s, K, root, all) && Ends(s, root, rightmost, all) && CanCut(s, n, b, e) && Cut(s, n, b, e, t)
    ensures var k, h := SlotRank(s, s[n], b), SlotRank(s, s[n], e);
      k < h <= |all| && Ends(t, root, rightmost, all[..k] + all[h..])
  {
    CutInv(s, K, root, all, n, b, e, t);
    RunSpan(s, K, root, all, n, b, e);
    assert !Gone(s, n, b, e, rightmost) && !Gone(s, n, b, e, s[root].parent);
    assert rightmost in t && s[root].parent in t;
  }
}
