/** Removing a run of values of one internal node together with the subtrees between them. */
module BTreeCut {
  import opened BTreeStore
  import opened BTreeSlots
  import opened BTreeEdit

  /** The slots `b` and `e` of the internal node `n` delimit the removed run. */
  ghost predicate CanCut<N, V>(s: Store<N, V>, n: N, b: nat, e: nat)
  {
    n in s && !s[n].leaf && b < e < |s[n].slots| && |s[n].kids| == |s[n].slots| + 1
  }

  /** Nodes of the removed subtrees: below `n` and between the two delimiters. */
  ghost predicate Gone<N, V>(s: Store<N, V>, n: N, b: nat, e: nat, m: N)
    requires CanCut(s, n, b, e) && m in s
  {
    s[m].level < s[n].level && SlotRank(s, s[n], b) < s[m].off && s[m].End() <= SlotRank(s, s[n], e)
  }

  ghost function CutPos<N, V>(s: Store<N, V>, n: N, b: nat, e: nat, m: N): nat
    requires CanCut(s, n, b, e) && m in s
  {
    if s[m].parent == n && s[m].level + 1 == s[n].level && s[m].pos > e then s[m].pos - (e - b) else s[m].pos
  }

  ghost predicate Cut<N, V>(s: Store<N, V>, n: N, b: nat, e: nat, t: Store<N, V>)
    requires CanCut(s, n, b, e)
  {
    var k, h, x := SlotRank(s, s[n], b), SlotRank(s, s[n], e), s[n];
    && k < h
    && t.Keys <= s.Keys
    && (forall m {:trigger m in t} {:trigger Gone(s, n, b, e, m)} :: m in s ==> (m in t <==> !Gone(s, n, b, e, m)))
    && forall m {:trigger t[m]} :: m in t ==>
      && t[m] == s[m].(off := t[m].off, len := t[m].len, pos := CutPos(s, n, b, e, m),
                       slots := if m == n then Without(x.slots, b, e - b) else s[m].slots,
                       kids := if m == n then Without(x.kids, b + 1, e - b) else s[m].kids)
      && t[m].off == Drop(s[m].off, k, h - k)
      && t[m].End() == Drop(s[m].End(), k, h - k)
  }

  lemma RunSpan<N, V>(s: Store<N, V>, K: nat, root: N, all: seq<V>, n: N, b: nat, e: nat)
    requires Inv(s, K, root, all) && CanCut(s, n, b, e)
    ensures s[n].off <= SlotRank(s, s[n], b) < SlotRank(s, s[n], e) < s[n].End() <= |all|
  {
    var x := s[n];
    assert CellOk(s, K, root, all, n);
    SlotInSpan(s, K, root, all, n, b);
    SlotInSpan(s, K, root, all, n, e);
    ChainOrder(s, all, x.kids, x.slots, x.off, x.End(), b, e);
  }

  /** Where another node lies relative to the removed run. */
  lemma Placement<N, V>(s: Store<N, V>, K: nat, root: N, all: seq<V>, n: N, b: nat, e: nat, m: N)
    requires Inv(s, K, root, all) && CanCut(s, n, b, e) && m in s && m != n
    ensures s[m].level < s[n].level && !Gone(s, n, b, e, m) ==>
      s[m].End() <= SlotRank(s, s[n], b) || SlotRank(s, s[n], e) < s[m].off
    ensures s[m].level >= s[n].level ==>
      s[m].End() < s[n].off || s[n].End() < s[m].off ||
      (s[m].level > s[n].level && s[m].off <= s[n].off && s[n].End() <= s[m].End())
  {
    assert CellOk(s, K, root, all, n) && CellOk(s, K, root, all, m);
    RunSpan(s, K, root, all, n, b, e);
    if s[m].level >= s[n].level {
      var a := Above(s, K, root, all, n, s[m].level);
      if a != m { SpansApart(s, K, root, all, a, m); }
      if s[m].level == s[n].level { SpansApart(s, K, root, all, n, m); }
    } else {
      var a := Above(s, K, root, all, m, s[n].level - 1);
      assert CellOk(s, K, root, all, a);
      var p := s[a].parent;
      if p != n {
        assert CellOk(s, K, root, all, p);
        SpansApart(s, K, root, all, p, n);
        ChainBounds(s, all, s[p].kids, s[p].slots, s[p].off, s[p].End(), s[a].pos);
      } else {
        PlacementBelow(s, all, n, b, e, s[a].pos);
      }
    }
  }

  /** The children of `n` up to `b` end before the run, those after `e` start after it. */
  lemma PlacementBelow<N, V>(s: Store<N, V>, all: seq<V>, n: N, b: nat, e: nat, j: nat)
    requires CanCut(s, n, b, e) && InternalOk(s, all, n, s[n]) && j < |s[n].kids|
    ensures s[n].kids[j] in s
    ensures var y := s[s[n].kids[j]];
      && (j <= b ==> y.End() <= SlotRank(s, s[n], b))
      && (b < j <= e ==> SlotRank(s, s[n], b) < y.off && y.End() <= SlotRank(s, s[n], e))
      && (e < j ==> SlotRank(s, s[n], e) < y.off)
  {
    var x := s[n];
    if j < b { ChainOrder(s, all, x.kids, x.slots, x.off, x.End(), j, b); }
    if b < j { ChainOrder(s, all, x.kids, x.slots, x.off, x.End(), b, j); }
    if j < e { ChainOrder(s, all, x.kids, x.slots, x.off, x.End(), j, e); }
    if e < j { ChainOrder(s, all, x.kids, x.slots, x.off, x.End(), e, j); }
  }

  /** A kept node keeps its children. */
  lemma KidsStay<N, V>(s: Store<N, V>, K: nat, root: N, all: seq<V>, n: N, b: nat, e: nat, m: N, j: nat)
    requires Inv(s, K, root, all) && CanCut(s, n, b, e) && m in s && m != n && !s[m].leaf && j < |s[m].kids|
    requires !Gone(s, n, b, e, m)
    ensures s[m].kids[j] in s && !Gone(s, n, b, e, s[m].kids[j])
    ensures j < |s[m].slots| ==>
      s[s[m].kids[j]].End() < SlotRank(s, s[n], b) || SlotRank(s, s[n], e) <= s[s[m].kids[j]].End()
  {
    var x, k := s[m], s[m].kids[j];
    assert CellOk(s, K, root, all, m);
    RunSpan(s, K, root, all, n, b, e);
    ChainBounds(s, all, x.kids, x.slots, x.off, x.End(), j);
    if j < |x.slots| { SlotInSpan(s, K, root, all, m, j); }
    Placement(s, K, root, all, n, b, e, m);
    if k != n { Placement(s, K, root, all, n, b, e, k); }
  }

  /** The parent of a kept node is kept. */
  lemma ParentStays<N, V>(s: Store<N, V>, K: nat, root: N, all: seq<V>, n: N, b: nat, e: nat, m: N)
    requires Inv(s, K, root, all) && CanCut(s, n, b, e) && m in s && m != root && !Gone(s, n, b, e, m)
    ensures s[m].parent in s && !Gone(s, n, b, e, s[m].parent)
    ensures s[m].parent == n ==> s[m].pos <= b || e < s[m].pos
  {
    var p := s[m].parent;
    assert CellOk(s, K, root, all, m);
    assert CellOk(s, K, root, all, p);
    ChainBounds(s, all, s[p].kids, s[p].slots, s[p].off, s[p].End(), s[m].pos);
    if p == n {
      PlacementBelow(s, all, n, b, e, s[m].pos);
    }
  }

  lemma CutUp<N, V>(s: Store<N, V>, K: nat, root: N, all: seq<V>, n: N, b: nat, e: nat, t: Store<N, V>, m: N)
    requires Inv(s, K, root, all) && CanCut(s, n, b, e) && Cut(s, n, b, e, t) && m in t && m != root
    ensures UpOk(t, m)
  {
    assert !Gone(s, n, b, e, m);
    ParentStays(s, K, root, all, n, b, e, m);
    assert CellOk(s, K, root, all, m);
    assert CellOk(s, K, root, all, s[m].parent);
    assert s[m].parent in t;
  }

  lemma CutOtherInternal<N, V>(s: Store<N, V>, K: nat, root: N, all: seq<V>, n: N, b: nat, e: nat, t: Store<N, V>, m: N)
    requires Inv(s, K, root, all) && CanCut(s, n, b, e) && Cut(s, n, b, e, t) && m in t && m != n && !s[m].leaf
    ensures var k, h := SlotRank(s, s[n], b), SlotRank(s, s[n], e);
      h <= |all| && InternalOk(t, all[..k] + all[h..], m, t[m])
  {
    var k, h, ks := SlotRank(s, s[n], b), SlotRank(s, s[n], e), s[m].kids;
    assert !Gone(s, n, b, e, m);
    assert CellOk(s, K, root, all, m);
    RunSpan(s, K, root, all, n, b, e);
    forall j | 0 <= j < |ks|
      ensures ks[j] in t && (j < |s[m].slots| ==> s[ks[j]].End() < k || h <= s[ks[j]].End())
    {
      KidsStay(s, K, root, all, n, b, e, m, j);
    }
    RemoveChain(s, t, all, ks, s[m].slots, s[m].off, s[m].End(), k, h - k);
  }

  lemma CutLeaf<N, V>(s: Store<N, V>, K: nat, root: N, all: seq<V>, n: N, b: nat, e: nat, t: Store<N, V>, m: N)
    requires Inv(s, K, root, all) && CanCut(s, n, b, e) && Cut(s, n, b, e, t) && m in t && s[m].leaf
    ensures var k, h := SlotRank(s, s[n], b), SlotRank(s, s[n], e);
      h <= |all| && LeafOk(all[..k] + all[h..], t[m])
  {
    var k, h := SlotRank(s, s[n], b), SlotRank(s, s[n], e);
    assert !Gone(s, n, b, e, m);
    assert CellOk(s, K, root, all, m) && CellOk(s, K, root, all, n);
    RunSpan(s, K, root, all, n, b, e);
    Placement(s, K, root, all, n, b, e, m);
    RemoveLeaf(all, k, h - k, s[m], t[m]);
  }

  lemma CutHomes<N, V>(s: Store<N, V>, K: nat, root: N, all: seq<V>, n: N, b: nat, e: nat, t: Store<N, V>)
    requires Inv(s, K, root, all) && CanCut(s, n, b, e) && Cut(s, n, b, e, t)
    ensures n in t && Homes(t, n, t[n].kids, t[n].level)
    ensures forall j {:trigger s[n].kids[j]} :: 0 <= j < |s[n].kids| && (j <= b || e < j) ==> s[n].kids[j] in t
  {
    var ks := s[n].kids;
    assert CellOk(s, K, root, all, n);
    assert !Gone(s, n, b, e, n);
    assert n in t;
    RunSpan(s, K, root, all, n, b, e);
    forall j | 0 <= j < |ks| && (j <= b || e < j) ensures ks[j] in t {
      PlacementBelow(s, all, n, b, e, j);
      assert !Gone(s, n, b, e, ks[j]);
    }
    forall j | 0 <= j < |t[n].kids|
      ensures var q := t[n].kids[j]; q in t && t[q].parent == n && t[q].pos == j && t[q].level + 1 == t[n].level
    {
      assert t[n].kids[j] == ks[if j <= b then j else j + (e - b)];
    }
  }

  /** The part of `n` before the run. */
  lemma CutFirst<N, V>(s: Store<N, V>, K: nat, root: N, all: seq<V>, n: N, b: nat, e: nat, t: Store<N, V>)
    requires Inv(s, K, root, all) && CanCut(s, n, b, e) && Cut(s, n, b, e, t)
    requires forall j {:trigger s[n].kids[j]} :: 0 <= j <= b ==> s[n].kids[j] in t
    ensures var k, h := SlotRank(s, s[n], b), SlotRank(s, s[n], e);
      k < h <= |all| && Chain(t, all[..k] + all[h..], s[n].kids[..b + 1], s[n].slots[..b], s[n].off, k)
  {
    var x, k, h := s[n], SlotRank(s, s[n], b), SlotRank(s, s[n], e);
    assert CellOk(s, K, root, all, n);
    RunSpan(s, K, root, all, n, b, e);
    ChainCut(s, all, x.kids, x.slots, x.off, x.End(), b);
    forall j | 0 <= j < b ensures s[x.kids[j]].End() < k {
      ChainOrder(s, all, x.kids, x.slots, x.off, x.End(), j, b);
    }
    RemoveChain(s, t, all, x.kids[..b + 1], x.slots[..b], x.off, k, k, h - k);
  }

  /** The part of `n` after the run. */
  lemma CutLast<N, V>(s: Store<N, V>, K: nat, root: N, all: seq<V>, n: N, b: nat, e: nat, t: Store<N, V>)
    requires Inv(s, K, root, all) && CanCut(s, n, b, e) && Cut(s, n, b, e, t)
    requires forall j {:trigger s[n].kids[j]} :: e < j < |s[n].kids| ==> s[n].kids[j] in t
    ensures var k, h := SlotRank(s, s[n], b), SlotRank(s, s[n], e);
      && k < h <= |all|
      && Chain(t, all[..k] + all[h..], s[n].kids[e + 1..], s[n].slots[e + 1..], k + 1, s[n].End() - (h - k))
  {
    var x, k, h := s[n], SlotRank(s, s[n], b), SlotRank(s, s[n], e);
    assert CellOk(s, K, root, all, n);
    RunSpan(s, K, root, all, n, b, e);
    ChainCut(s, all, x.kids, x.slots, x.off, x.End(), e);
    forall j | e < j < |x.kids| ensures h <= s[x.kids[j]].End() {
      PlacementBelow(s, all, n, b, e, j);
    }
    RemoveChain(s, t, all, x.kids[e + 1..], x.slots[e + 1..], h + 1, x.End(), k, h - k);
  }

  lemma CutChain<N, V>(s: Store<N, V>, K: nat, root: N, all: seq<V>, n: N, b: nat, e: nat, t: Store<N, V>)
    requires Inv(s, K, root, all) && CanCut(s, n, b, e) && Cut(s, n, b, e, t) && n in t
    requires forall j {:trigger s[n].kids[j]} :: 0 <= j < |s[n].kids| && (j <= b || e < j) ==> s[n].kids[j] in t
    ensures var k, h := SlotRank(s, s[n], b), SlotRank(s, s[n], e);
      h <= |all| && Chain(t, all[..k] + all[h..], t[n].kids, t[n].slots, t[n].off, t[n].End())
  {
    var x, k, h := s[n], SlotRank(s, s[n], b), SlotRank(s, s[n], e);
    RunSpan(s, K, root, all, n, b, e);
    SlotInSpan(s, K, root, all, n, e);
    CutFirst(s, K, root, all, n, b, e, t);
    CutLast(s, K, root, all, n, b, e, t);
    var all' := all[..k] + all[h..];
    assert all'[k] == x.slots[e];
    ChainJoin(t, all', x.kids[..b + 1], x.slots[..b], x.off, k, x.kids[e + 1..], x.slots[e + 1..], x.End() - (h - k));
    assert t[n].slots == x.slots[..b] + [x.slots[e]] + x.slots[e + 1..];
  }

  lemma CutCell<N, V>(s: Store<N, V>, K: nat, root: N, all: seq<V>, n: N, b: nat, e: nat, t: Store<N, V>, m: N)
    requires Inv(s, K, root, all) && CanCut(s, n, b, e) && Cut(s, n, b, e, t) && m in t && root in t
    ensures var k, h := SlotRank(s, s[n], b), SlotRank(s, s[n], e);
      h <= |all| && CellOk(t, K, root, all[..k] + all[h..], m)
  {
    assert CellOk(s, K, root, all, m);
    RunSpan(s, K, root, all, n, b, e);
    if m != root { CutUp(s, K, root, all, n, b, e, t, m); }
    if s[m].leaf {
      CutLeaf(s, K, root, all, n, b, e, t, m);
    } else if m == n {
      CutHomes(s, K, root, all, n, b, e, t);
      CutChain(s, K, root, all, n, b, e, t);
    } else {
      CutOtherInternal(s, K, root, all, n, b, e, t, m);
      Placement(s, K, root, all, n, b, e, m);
    }
  }

  /** Removing a run of an internal node removes exactly that slice and keeps the invariant. */
  lemma CutInv<N, V>(s: Store<N, V>, K: nat, root: N, all: seq<V>, n: N, b: nat, e: nat, t: Store<N, V>)
    requires Inv(s, K, root, all) && CanCut(s, n, b, e) && Cut(s, n, b, e, t)
    ensures var k, h := SlotRank(s, s[n], b), SlotRank(s, s[n], e);
      k < h <= |all| && Inv(t, K, root, all[..k] + all[h..])
  {
    var k, h := SlotRank(s, s[n], b), SlotRank(s, s[n], e);
    RunSpan(s, K, root, all, n, b, e);
    assert CellOk(s, K, root, all, n);
    assert root in t && t[root].off == 0 && t[root].len == |all[..k] + all[h..]| by {
      assert !Gone(s, n, b, e, root);
    }
    forall m | m in t ensures CellOk(t, K, root, all[..k] + all[h..], m) {
      CutCell(s, K, root, all, n, b, e, t, m);
    }
  }
}
