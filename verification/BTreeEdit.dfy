/** Operations that change the contents: inserting into a leaf, removing from a leaf,
overwriting one value and removing a run of values together with the subtrees between them. */
module BTreeEdit {
  import opened BTreeStore
  import opened BTreeSlots

  /** The ancestor of a node at a given level. */
  lemma {:induction false} Above<N, V>(s: Store<N, V>, K: nat, root: N, all: seq<V>, n: N, level: nat) returns (a: N)
    requires Inv(s, K, root, all) && n in s && s[n].level <= level <= s[root].level
    ensures a in s && s[a].level == level && s[a].off <= s[n].off && s[n].End() <= s[a].End()
    decreases level - s[n].level
  {
    if s[n].level == level {
      a := n;
    } else {
      var p := s[n].parent;
      assert CellOk(s, K, root, all, n);
      assert CellOk(s, K, root, all, p);
      ChainBounds(s, all, s[p].kids, s[p].slots, s[p].off, s[p].End(), s[n].pos);
      a := Above(s, K, root, all, p, level);
    }
  }

  /** Relative to a leaf, every node contains it, ends before it or starts after it. */
  lemma Trichotomy<N, V>(s: Store<N, V>, K: nat, root: N, all: seq<V>, n: N, m: N)
    requires Inv(s, K, root, all) && n in s && s[n].leaf && m in s
    ensures s[m].off <= s[n].off <= s[n].End() <= s[m].End() || s[m].End() < s[n].off || s[n].End() < s[m].off
    ensures s[m].leaf && m != n ==> s[m].End() < s[n].off || s[n].End() < s[m].off
  {
    assert CellOk(s, K, root, all, n) && CellOk(s, K, root, all, m);
    var a := Above(s, K, root, all, n, s[m].level);
    if a != m {
      SpansApart(s, K, root, all, a, m);
    }
    if s[m].leaf && m != n {
      SpansApart(s, K, root, all, n, m);
    }
  }

  lemma LeafInBounds<N, V>(s: Store<N, V>, K: nat, root: N, all: seq<V>, n: N)
    requires Inv(s, K, root, all) && n in s && s[n].leaf
    ensures s[n].off + |s[n].slots| == s[n].End() <= |all|
  {
    assert CellOk(s, K, root, all, n);
  }

  // ---------- insertion ----------

  /** `t` is `s` after inserting `v` at position `i` of the leaf `n`. */
  ghost predicate Inserted<N, V>(s: Store<N, V>, n: N, i: nat, v: V, t: Store<N, V>)
    requires n in s && i <= |s[n].slots|
  {
    var k := s[n].off + i;
    && t.Keys == s.Keys
    && forall m {:trigger t[m]} :: m in s ==>
      && t[m] == s[m].(off := t[m].off, len := t[m].len,
                       slots := if m == n then With(s[n].slots, i, v) else s[m].slots)
      && t[m].off == (if s[m].off <= k then s[m].off else s[m].off + 1)
      && t[m].End() == (if s[m].End() < k then s[m].End() else s[m].End() + 1)
  }

  /** Writes the new values of the leaf and renumbers the spans, which only proofs read. */
  method Insert<N(==), V>(s: Store<N, V>, n: N, i: nat, v: V) returns (t: Store<N, V>)
    requires n in s && i <= |s[n].slots|
    ensures Inserted(s, n, i, v, t)
  {
    var slots := Emplace(s[n].slots, i, v);
    ghost var k := s[n].off + i;
    t := map m | m in s :: s[m].(
      slots := if m == n then slots else s[m].slots,
      off := if s[m].off <= k then s[m].off else s[m].off + 1,
      len := (if s[m].End() < k then s[m].End() else s[m].End() + 1) - (if s[m].off <= k then s[m].off else s[m].off + 1));
  }

  lemma InsertChain<N, V>(s: Store<N, V>, t: Store<N, V>, all: seq<V>, ks: seq<N>, vs: seq<V>, lo: nat, hi: nat, k: nat, v: V)
    requires Chain(s, all, ks, vs, lo, hi) && k <= |all|
    requires forall j {:trigger ks[j]} :: 0 <= j < |ks| ==>
      && ks[j] in t
      && t[ks[j]].off == (if s[ks[j]].off <= k then s[ks[j]].off else s[ks[j]].off + 1)
      && t[ks[j]].End() == (if s[ks[j]].End() < k then s[ks[j]].End() else s[ks[j]].End() + 1)
    ensures Chain(t, all[..k] + [v] + all[k..], ks, vs, if lo <= k then lo else lo + 1, if hi < k then hi else hi + 1)
  {
    var all' := all[..k] + [v] + all[k..];
    forall j | 0 <= j < |vs| ensures Between(t, all', ks, vs, j) {
      assert Between(s, all, ks, vs, j);
    }
  }

  lemma InsertWindow<V>(all: seq<V>, k: nat, v: V, lo: nat, hi: nat)
    requires lo <= hi <= |all| && k <= |all|
    ensures hi < k ==> (all[..k] + [v] + all[k..])[lo..hi] == all[lo..hi]
    ensures k < lo ==> (all[..k] + [v] + all[k..])[lo + 1..hi + 1] == all[lo..hi]
    ensures lo <= k <= hi ==>
      (all[..k] + [v] + all[k..])[lo..hi + 1] == all[lo..hi][..k - lo] + [v] + all[lo..hi][k - lo..]
  {
    if lo <= k <= hi {
      assert all[lo..hi][..k - lo] == all[lo..k] && all[lo..hi][k - lo..] == all[k..hi];
    }
  }

  /** A leaf after the insertion, seen on its own: hit, left of it or right of it. */
  lemma InsertLeaf<N, V>(all: seq<V>, k: nat, v: V, x: Cell<N, V>, y: Cell<N, V>)
    requires LeafOk(all, x) && k <= |all| && y.level == 0 && y.kids == []
    requires y.off == (if x.off <= k then x.off else x.off + 1)
    requires y.End() == (if x.End() < k then x.End() else x.End() + 1)
    requires y.slots == if x.off <= k <= x.End() then x.slots[..k - x.off] + [v] + x.slots[k - x.off..] else x.slots
    ensures LeafOk(all[..k] + [v] + all[k..], y)
  {
    InsertWindow(all, k, v, x.off, x.End());
  }

  lemma InsertCell<N, V>(s: Store<N, V>, K: nat, root: N, all: seq<V>, n: N, i: nat, v: V, t: Store<N, V>, m: N)
    requires Inv(s, K, root, all) && n in s && s[n].leaf && i <= |s[n].slots| < s[n].cap
    requires Inserted(s, n, i, v, t) && m in s
    ensures var k := s[n].off + i; k <= |all| && CellOk(t, K, root, all[..k] + [v] + all[k..], m)
  {
    var k := s[n].off + i;
    assert CellOk(s, K, root, all, n) && CellOk(s, K, root, all, m);
    Trichotomy(s, K, root, all, n, m);
    if s[m].leaf {
      InsertLeaf(all, k, v, s[m], t[m]);
    } else {
      InsertChain(s, t, all, s[m].kids, s[m].slots, s[m].off, s[m].End(), k, v);
    }
  }

  /** Inserting into a leaf inserts at the rank of that place and keeps the invariant. */
  lemma InsertInv<N, V>(s: Store<N, V>, K: nat, root: N, all: seq<V>, n: N, i: nat, v: V, t: Store<N, V>)
    requires Inv(s, K, root, all) && n in s && s[n].leaf && i <= |s[n].slots| < s[n].cap
    requires Inserted(s, n, i, v, t)
    ensures var k := s[n].off + i; k <= |all| && Inv(t, K, root, all[..k] + [v] + all[k..])
  {
    var k := s[n].off + i;
    assert CellOk(s, K, root, all, n);
    var all' := all[..k] + [v] + all[k..];
    assert root in t && t[root].off == 0 && t[root].len == |all'|;
    forall m | m in t ensures CellOk(t, K, root, all', m) {
      InsertCell(s, K, root, all, n, i, v, t, m);
    }
  }

  // ---------- removal from a leaf ----------

  /** Where the boundary `x` goes when the values `k..k + c` disappear. */
  ghost function Drop(x: nat, k: nat, c: nat): nat { if x <= k then x else if x <= k + c then k else x - c }

  /** `t` is `s` after removing the `c` values from position `i` on of the leaf `n`. */
  ghost predicate Removed<N, V>(s: Store<N, V>, n: N, i: nat, c: nat, t: Store<N, V>)
    requires n in s && i + c <= |s[n].slots|
  {
    var k := s[n].off + i;
    && t.Keys == s.Keys
    && forall m {:trigger t[m]} :: m in s ==>
      && t[m] == s[m].(off := t[m].off, len := t[m].len,
                       slots := if m == n then Without(s[n].slots, i, c) else s[m].slots)
      && t[m].off == Drop(s[m].off, k, c)
      && t[m].End() == Drop(s[m].End(), k, c)
  }

  method Remove<N(==), V>(s: Store<N, V>, n: N, i: nat, c: nat) returns (t: Store<N, V>)
    requires n in s && i + c <= |s[n].slots| && 1 <= c
    ensures Removed(s, n, i, c, t)
  {
    var slots := Erase(s[n].slots, i, c);
    ghost var k := s[n].off + i;
    t := map m | m in s :: s[m].(
      slots := if m == n then slots else s[m].slots,
      off := Drop(s[m].off, k, c), len := Drop(s[m].End(), k, c) - Drop(s[m].off, k, c));
  }

  lemma RemoveChain<N, V>(s: Store<N, V>, t: Store<N, V>, all: seq<V>, ks: seq<N>, vs: seq<V>, lo: nat, hi: nat, k: nat, c: nat)
    requires Chain(s, all, ks, vs, lo, hi) && k + c <= |all|
    requires forall j {:trigger ks[j]} :: 0 <= j < |ks| ==>
      && ks[j] in t
      && t[ks[j]].off == Drop(s[ks[j]].off, k, c)
      && t[ks[j]].End() == Drop(s[ks[j]].End(), k, c)
      && (j < |vs| ==> s[ks[j]].End() < k || k + c <= s[ks[j]].End())
    ensures Chain(t, all[..k] + all[k + c..], ks, vs, Drop(lo, k, c), Drop(hi, k, c))
  {
    var all' := all[..k] + all[k + c..];
    forall j | 0 <= j < |vs| ensures Between(t, all', ks, vs, j) {
      assert Between(s, all, ks, vs, j);
    }
  }

  lemma RemoveAside<V>(all: seq<V>, k: nat, c: nat, lo: nat, hi: nat)
    requires lo <= hi <= |all| && k + c <= |all|
    ensures hi <= k ==> (all[..k] + all[k + c..])[lo..hi] == all[lo..hi]
    ensures k + c <= lo ==> (all[..k] + all[k + c..])[lo - c..hi - c] == all[lo..hi]
  {
  }

  lemma RemoveAcross<V>(all: seq<V>, k: nat, c: nat, lo: nat, hi: nat)
    requires lo <= k && k + c <= hi <= |all|
    ensures (all[..k] + all[k + c..])[lo..hi - c] == all[lo..hi][..k - lo] + all[lo..hi][k - lo + c..]
  {
    var a, w := all[..k] + all[k + c..], all[lo..hi];
    assert w[..k - lo] == all[lo..k] && w[k - lo + c..] == all[k + c..hi];
    assert a[lo..k] == all[lo..k] && a[k..hi - c] == all[k + c..hi];
    assert a[lo..hi - c] == a[lo..k] + a[k..hi - c];
  }

  lemma RemoveWindow<V>(all: seq<V>, k: nat, c: nat, lo: nat, hi: nat)
    requires lo <= hi <= |all| && k + c <= |all|
    ensures hi <= k ==> (all[..k] + all[k + c..])[lo..hi] == all[lo..hi]
    ensures k + c <= lo ==> (all[..k] + all[k + c..])[lo - c..hi - c] == all[lo..hi]
    ensures lo <= k && k + c <= hi ==>
      (all[..k] + all[k + c..])[lo..hi - c] == all[lo..hi][..k - lo] + all[lo..hi][k - lo + c..]
  {
    RemoveAside(all, k, c, lo, hi);
    if lo <= k && k + c <= hi { RemoveAcross(all, k, c, lo, hi); }
  }

  /** A leaf after the removal, seen on its own: hit, left of it or right of it. */
  lemma RemoveLeaf<N, V>(all: seq<V>, k: nat, c: nat, x: Cell<N, V>, y: Cell<N, V>)
    requires LeafOk(all, x) && k + c <= |all| && y.level == 0 && y.kids == [] && 0 < c
    requires x.End() <= k || k + c <= x.off || (x.off <= k && k + c <= x.End())
    requires y.off == Drop(x.off, k, c) && y.End() == Drop(x.End(), k, c)
    requires y.slots ==
      if x.off <= k && k + c <= x.End() then x.slots[..k - x.off] + x.slots[k - x.off + c..] else x.slots
    ensures LeafOk(all[..k] + all[k + c..], y)
  {
    RemoveWindow(all, k, c, x.off, x.End());
  }

  lemma RemoveLeafCell<N, V>(s: Store<N, V>, K: nat, root: N, all: seq<V>, n: N, i: nat, c: nat, t: Store<N, V>, m: N)
    requires Inv(s, K, root, all) && n in s && s[n].leaf && 0 < c && i + c <= |s[n].slots|
    requires Removed(s, n, i, c, t) && m in s && s[m].leaf
    ensures var k := s[n].off + i; k + c <= |all| && LeafOk(all[..k] + all[k + c..], t[m])
  {
    LeafInBounds(s, K, root, all, n);
    NodeOk(s, K, root, all, m);
    var k, x, y := s[n].off + i, s[m], t[m];
    if m != n {
      Trichotomy(s, K, root, all, n, m);
      assert y.slots == x.slots;
      assert x.End() <= k || k + c <= x.off;
    } else {
      assert x.off <= k && k + c <= x.End() && k - x.off == i;
    }
    RemoveLeaf(all, k, c, x, y);
  }

  lemma RemoveInternalCell<N, V>(s: Store<N, V>, K: nat, root: N, all: seq<V>, n: N, i: nat, c: nat, t: Store<N, V>, m: N)
    requires Inv(s, K, root, all) && n in s && s[n].leaf && 0 < c && i + c <= |s[n].slots|
    requires Removed(s, n, i, c, t) && m in s && !s[m].leaf
    ensures var k := s[n].off + i; k + c <= |all| && InternalOk(t, all[..k] + all[k + c..], m, t[m])
  {
    var k, ks := s[n].off + i, s[m].kids;
    assert CellOk(s, K, root, all, n) && CellOk(s, K, root, all, m);
    forall j | 0 <= j < |ks| ensures s[ks[j]].End() < k || k + c <= s[ks[j]].End() {
      Trichotomy(s, K, root, all, n, ks[j]);
    }
    RemoveChain(s, t, all, ks, s[m].slots, s[m].off, s[m].End(), k, c);
  }

  lemma RemoveCell<N, V>(s: Store<N, V>, K: nat, root: N, all: seq<V>, n: N, i: nat, c: nat, t: Store<N, V>, m: N)
    requires Inv(s, K, root, all) && n in s && s[n].leaf && 0 < c && i + c <= |s[n].slots|
    requires Removed(s, n, i, c, t) && m in s
    ensures var k := s[n].off + i; k + c <= |all| && CellOk(t, K, root, all[..k] + all[k + c..], m)
  {
    assert CellOk(s, K, root, all, n) && CellOk(s, K, root, all, m);
    Trichotomy(s, K, root, all, n, m);
    if s[m].leaf {
      RemoveLeafCell(s, K, root, all, n, i, c, t, m);
    } else {
      RemoveInternalCell(s, K, root, all, n, i, c, t, m);
    }
  }

  lemma RemoveRoot<N, V>(s: Store<N, V>, K: nat, root: N, all: seq<V>, n: N, i: nat, c: nat, t: Store<N, V>)
    requires Inv(s, K, root, all) && n in s && s[n].leaf && 0 < c && i + c <= |s[n].slots|
    requires Removed(s, n, i, c, t)
    ensures s[n].off + i + c <= |all| && root in t && t[root].off == 0 && t[root].len == |all| - c
  {
    LeafInBounds(s, K, root, all, n);
    assert t[root].off == Drop(0, s[n].off + i, c) && t[root].End() == Drop(|all|, s[n].off + i, c);
  }

  /** Removing values from a leaf removes that slice of the contents and keeps the invariant. */
  lemma RemoveInv<N, V>(s: Store<N, V>, K: nat, root: N, all: seq<V>, n: N, i: nat, c: nat, t: Store<N, V>)
    requires Inv(s, K, root, all) && n in s && s[n].leaf && 0 < c && i + c <= |s[n].slots|
    requires Removed(s, n, i, c, t)
    ensures var k := s[n].off + i; k + c <= |all| && Inv(t, K, root, all[..k] + all[k + c..])
  {
    var k := s[n].off + i;
    RemoveRoot(s, K, root, all, n, i, c, t);
    var all' := all[..k] + all[k + c..];
    forall m | m in t ensures true == CellOk(t, K, root, all', m) {
      RemoveCell(s, K, root, all, n, i, c, t, m);
    }
  }

  // ---------- overwriting one value ----------

  /** Different slots hold values of different rank. */
  lemma RanksApart<N, V>(s: Store<N, V>, K: nat, root: N, all: seq<V>, n: N, i: nat, m: N, j: nat)
    requires Inv(s, K, root, all) && n in s && i < |s[n].slots| && m in s && j < |s[m].slots|
    requires n != m || i != j
    requires s[m].level <= s[n].level
    ensures SlotRank(s, s[n], i) != SlotRank(s, s[m], j)
  {
    assert CellOk(s, K, root, all, n) && CellOk(s, K, root, all, m);
    SlotInSpan(s, K, root, all, n, i);
    SlotInSpan(s, K, root, all, m, j);
    if s[m].level == s[n].level {
      if n != m {
        SpansApart(s, K, root, all, n, m);
      } else if !s[n].leaf {
        var x := s[n];
        if i < j {
          ChainOrder(s, all, x.kids, x.slots, x.off, x.End(), i, j);
        } else {
          ChainOrder(s, all, x.kids, x.slots, x.off, x.End(), j, i);
        }
      }
    } else {
      var k := s[n].kids[i];
      var a := Above(s, K, root, all, m, s[k].level);
      if a != k {
        SpansApart(s, K, root, all, a, k);
      }
    }
  }

  lemma SetSlotLeaf<N, V>(s: Store<N, V>, K: nat, root: N, all: seq<V>, n: N, i: nat, v: V, m: N)
    requires Inv(s, K, root, all) && n in s && i < |s[n].slots| && !s[n].leaf
    requires m in s && s[m].leaf && SlotRank(s, s[n], i) < |all|
    ensures LeafOk(all[SlotRank(s, s[n], i) := v], s[m])
  {
    var r := SlotRank(s, s[n], i);
    NodeOk(s, K, root, all, n);
    NodeOk(s, K, root, all, m);
    var x, all' := s[m], all[r := v];
    forall j | 0 <= j < |x.slots| ensures x.slots[j] == all'[x.off + j] {
      RanksApart(s, K, root, all, n, i, m, j);
    }
    assert x.slots == all'[x.off..x.End()];
  }

  lemma SetSlotBetween<N, V>(s: Store<N, V>, K: nat, root: N, all: seq<V>, n: N, i: nat, v: V, t: Store<N, V>, m: N, j: nat)
    requires Inv(s, K, root, all) && n in s && i < |s[n].slots| && !s[n].leaf
    requires t == s[n := s[n].(slots := s[n].slots[i := v])] && m in s && !s[m].leaf && j < |s[m].slots|
    requires SlotRank(s, s[n], i) < |all| && AllIn(t, t[m].kids) && |t[m].kids| == |t[m].slots| + 1
    ensures Between(t, all[SlotRank(s, s[n], i) := v], t[m].kids, t[m].slots, j)
  {
    NodeOk(s, K, root, all, m);
    assert Between(s, all, s[m].kids, s[m].slots, j);
    if n != m || i != j {
      if s[m].level <= s[n].level {
        RanksApart(s, K, root, all, n, i, m, j);
      } else {
        RanksApart(s, K, root, all, m, j, n, i);
      }
    }
  }

  lemma SetSlotCell<N, V>(s: Store<N, V>, K: nat, root: N, all: seq<V>, n: N, i: nat, v: V, t: Store<N, V>, m: N)
    requires Inv(s, K, root, all) && n in s && i < |s[n].slots| && !s[n].leaf
    requires t == s[n := s[n].(slots := s[n].slots[i := v])] && m in s
    requires SlotRank(s, s[n], i) < |all|
    ensures CellOk(t, K, root, all[SlotRank(s, s[n], i) := v], m)
  {
    var r := SlotRank(s, s[n], i);
    var all' := all[r := v];
    assert CellOk(s, K, root, all, n) && CellOk(s, K, root, all, m);
    if s[m].leaf {
      SetSlotLeaf(s, K, root, all, n, i, v, m);
    } else {
      forall j | 0 <= j < |s[m].slots| ensures Between(t, all', t[m].kids, t[m].slots, j) {
        SetSlotBetween(s, K, root, all, n, i, v, t, m, j);
      }
    }
  }

  /** Overwriting the value of an internal slot overwrites the value of its rank. */
  lemma SetSlotInv<N, V>(s: Store<N, V>, K: nat, root: N, all: seq<V>, n: N, i: nat, v: V, t: Store<N, V>)
    requires Inv(s, K, root, all) && n in s && i < |s[n].slots| && !s[n].leaf
    requires t == s[n := s[n].(slots := s[n].slots[i := v])]
    ensures SlotRank(s, s[n], i) < |all|
    ensures Inv(t, K, root, all[SlotRank(s, s[n], i) := v])
  {
    SlotInSpan(s, K, root, all, n, i);
    forall m | m in t ensures CellOk(t, K, root, all[SlotRank(s, s[n], i) := v], m) {
      SetSlotCell(s, K, root, all, n, i, v, t, m);
    }
  }
}
