/** A snapshot of the node graph of the B-tree and the invariant every operation keeps.

Each node is described by a `Cell`: its real fields plus three bookkeeping numbers.
`level` is the distance to the leaves, `off` the in-order rank of the first value of
the node's subtree and `len` the number of values in that subtree.  With these numbers
the invariant is a conjunction of one local condition per node: it mentions a node, its
parent and its children, and the sequence `all` of the values of the whole tree. */
module BTreeStore {

  datatype Cell<N, V> = Cell(leaf: bool, cap: nat, parent: N, pos: nat,
                             slots: seq<V>, kids: seq<N>,
                             ghost level: nat, ghost off: nat, ghost len: nat)
  {
    ghost function End(): nat { off + len }
  }

  type Store<N, V> = map<N, Cell<N, V>>

  // ---------- chains of neighbouring subtrees ----------

  ghost predicate AllIn<N, V>(s: Store<N, V>, ks: seq<N>) {
    forall i {:trigger ks[i]} :: 0 <= i < |ks| ==> ks[i] in s
  }

  /** The value `vs[i]` sits right between the subtrees of `ks[i]` and `ks[i + 1]`. */
  ghost predicate Between<N, V>(s: Store<N, V>, all: seq<V>, ks: seq<N>, vs: seq<V>, i: int)
    requires AllIn(s, ks) && 0 <= i < |vs| && |ks| == |vs| + 1
  {
    var e := s[ks[i]].End();
    e < |all| && all[e] == vs[i] && s[ks[i + 1]].off == e + 1
  }

  /** The subtrees `ks`, separated by the values `vs`, hold exactly `all[lo..hi]`. */
  ghost predicate Chain<N, V>(s: Store<N, V>, all: seq<V>, ks: seq<N>, vs: seq<V>, lo: int, hi: int)
  {
    && |ks| == |vs| + 1 && AllIn(s, ks)
    && s[ks[0]].off == lo && s[ks[|vs|]].End() == hi
    && forall i {:trigger Between(s, all, ks, vs, i)} :: 0 <= i < |vs| ==> Between(s, all, ks, vs, i)
  }

  ghost predicate SameSpan<N, V>(s: Store<N, V>, t: Store<N, V>, n: N) {
    n in s && n in t && t[n].off == s[n].off && t[n].len == s[n].len
  }

  lemma ChainFrame<N, V>(s: Store<N, V>, t: Store<N, V>, all: seq<V>, ks: seq<N>, vs: seq<V>, lo: int, hi: int)
    requires Chain(s, all, ks, vs, lo, hi)
    requires forall i {:trigger ks[i]} :: 0 <= i < |ks| ==> SameSpan(s, t, ks[i])
    ensures Chain(t, all, ks, vs, lo, hi)
  {
    forall i | 0 <= i < |vs| ensures Between(t, all, ks, vs, i) {
      assert Between(s, all, ks, vs, i);
    }
  }

  lemma ChainJoin<N, V>(s: Store<N, V>, all: seq<V>, ks: seq<N>, vs: seq<V>, lo: int,
                        mid: nat, ls: seq<N>, ws: seq<V>, hi: int)
    requires Chain(s, all, ks, vs, lo, mid) && Chain(s, all, ls, ws, mid + 1, hi) && mid < |all|
    ensures Chain(s, all, ks + ls, vs + [all[mid]] + ws, lo, hi)
  {
    var xs, us := ks + ls, vs + [all[mid]] + ws;
    forall i | 0 <= i < |us| ensures Between(s, all, xs, us, i) {
      if i < |vs| {
        assert Between(s, all, ks, vs, i);
      } else if i > |vs| {
        assert Between(s, all, ls, ws, i - |vs| - 1);
      }
    }
  }

  lemma ChainCut<N, V>(s: Store<N, V>, all: seq<V>, ks: seq<N>, vs: seq<V>, lo: int, hi: int, c: nat)
    requires Chain(s, all, ks, vs, lo, hi) && c < |vs|
    ensures s[ks[c]].End() < |all| && all[s[ks[c]].End()] == vs[c]
    ensures Chain(s, all, ks[..c + 1], vs[..c], lo, s[ks[c]].End())
    ensures Chain(s, all, ks[c + 1..], vs[c + 1..], s[ks[c]].End() + 1, hi)
  {
    assert Between(s, all, ks, vs, c);
    var xs, us := ks[..c + 1], vs[..c];
    forall i | 0 <= i < |us| ensures Between(s, all, xs, us, i) {
      assert Between(s, all, ks, vs, i);
    }
    var ys, ws := ks[c + 1..], vs[c + 1..];
    forall i | 0 <= i < |ws| ensures Between(s, all, ys, ws, i) {
      assert Between(s, all, ks, vs, c + 1 + i);
    }
  }

  /** Replacing a run of neighbours by another one with the same span keeps the chain. */
  lemma ChainSplice<N, V>(s: Store<N, V>, t: Store<N, V>, all: seq<V>, ks: seq<N>, vs: seq<V>, lo: int, hi: int,
                          a: nat, b: nat, ls: seq<N>, ws: seq<V>)
    requires Chain(s, all, ks, vs, lo, hi) && a <= b < |ks|
    requires Chain(t, all, ls, ws, s[ks[a]].off, s[ks[b]].End())
    requires forall i {:trigger ks[i]} :: 0 <= i < |ks| && (i < a || b < i) ==> SameSpan(s, t, ks[i])
    ensures Chain(t, all, ks[..a] + ls + ks[b + 1..], vs[..a] + ws + vs[b..], lo, hi)
  {
    var xs, us := ks[..a] + ls + ks[b + 1..], vs[..a] + ws + vs[b..];
    forall i | 0 <= i < |us| ensures Between(t, all, xs, us, i) {
      if i < a {
        assert Between(s, all, ks, vs, i);
      } else if i < a + |ws| {
        assert Between(t, all, ls, ws, i - a);
      } else {
        assert Between(s, all, ks, vs, i - a - |ws| + b);
      }
    }
  }

  lemma {:induction false} ChainOrder<N, V>(s: Store<N, V>, all: seq<V>, ks: seq<N>, vs: seq<V>, lo: int, hi: int,
                                            i: nat, j: nat)
    requires Chain(s, all, ks, vs, lo, hi) && i < j < |ks|
    ensures s[ks[i]].End() < s[ks[j]].off
  {
    assert Between(s, all, ks, vs, j - 1);
    if i < j - 1 {
      ChainOrder(s, all, ks, vs, lo, hi, i, j - 1);
    }
  }

  lemma ChainBounds<N, V>(s: Store<N, V>, all: seq<V>, ks: seq<N>, vs: seq<V>, lo: int, hi: int, i: nat)
    requires Chain(s, all, ks, vs, lo, hi) && i < |ks|
    ensures lo <= s[ks[i]].off && s[ks[i]].End() <= hi
  {
    if 0 < i { ChainOrder(s, all, ks, vs, lo, hi, 0, i); }
    if i < |vs| { ChainOrder(s, all, ks, vs, lo, hi, i, |vs|); }
  }

  // ---------- the invariant ----------

  /** Every child knows its parent and its position there, and is one level below it. */
  ghost predicate Homes<N, V>(s: Store<N, V>, n: N, ks: seq<N>, level: nat) {
    forall i {:trigger ks[i]} :: 0 <= i < |ks| ==>
      ks[i] in s && s[ks[i]].parent == n && s[ks[i]].pos == i && s[ks[i]].level + 1 == level
  }

  ghost predicate LeafOk<N, V>(all: seq<V>, x: Cell<N, V>) {
    x.level == 0 && x.kids == [] && x.len == |x.slots| && x.End() <= |all| && x.slots == all[x.off..x.End()]
  }

  ghost predicate InternalOk<N, V>(s: Store<N, V>, all: seq<V>, n: N, x: Cell<N, V>) {
    x.level > 0 && Homes(s, n, x.kids, x.level) && Chain(s, all, x.kids, x.slots, x.off, x.End())
  }

  /** The link of a node to its parent. */
  ghost predicate UpOk<N, V>(s: Store<N, V>, n: N)
    requires n in s
  {
    var p := s[n].parent;
    p in s && !s[p].leaf && s[n].level + 1 == s[p].level && s[n].pos < |s[p].kids| && s[p].kids[s[n].pos] == n
  }

  ghost predicate CellOk<N, V>(s: Store<N, V>, K: nat, root: N, all: seq<V>, n: N)
    requires n in s && root in s
  {
    var x := s[n];
    && |x.slots| <= x.cap <= K && 1 <= x.cap
    && (n != root || !x.leaf ==> x.cap == K)
    && x.End() <= |all|
    && x.level <= s[root].level
    && (n != root ==> UpOk(s, n))
    && if x.leaf then LeafOk(all, x) else InternalOk(s, all, n, x)
  }

  /** The structural invariant: `s` is a B-tree with root `root` holding the values `all`. */
  ghost predicate Inv<N, V>(s: Store<N, V>, K: nat, root: N, all: seq<V>)
  {
    && root in s
    && s[root].off == 0 && s[root].len == |all|
    && forall n {:trigger CellOk(s, K, root, all, n)} :: n in s ==> CellOk(s, K, root, all, n)
  }

  // ---------- spans ----------

  /** In-order rank of the value in slot `i`: in an internal node it follows the `i`-th child. */
  ghost function SlotRank<N, V>(s: Store<N, V>, x: Cell<N, V>, i: nat): nat
  {
    if !x.leaf && i < |x.kids| && x.kids[i] in s then s[x.kids[i]].End() else x.off + i
  }

  /** The part of the invariant about a node and its children. */
  lemma NodeOk<N, V>(s: Store<N, V>, K: nat, root: N, all: seq<V>, n: N)
    requires Inv(s, K, root, all) && n in s
    ensures if s[n].leaf then LeafOk(all, s[n]) else InternalOk(s, all, n, s[n])
  {
    assert CellOk(s, K, root, all, n);
  }

  lemma NodeUp<N, V>(s: Store<N, V>, K: nat, root: N, all: seq<V>, n: N)
    requires Inv(s, K, root, all) && n in s && n != root
    ensures UpOk(s, n)
  {
    assert CellOk(s, K, root, all, n);
  }

  lemma BelowRoot<N, V>(s: Store<N, V>, K: nat, root: N, all: seq<V>, n: N)
    requires Inv(s, K, root, all) && n in s && n != root
    ensures s[n].level < s[root].level && s[n].parent in s && CellOk(s, K, root, all, s[n].parent)
  {
    assert CellOk(s, K, root, all, n);
    assert CellOk(s, K, root, all, s[n].parent);
  }

  /** Two nodes of the same level have disjoint closed spans, so at every level each gap
  between two values of the tree belongs to exactly one node. */
  lemma {:induction false} SpansApart<N, V>(s: Store<N, V>, K: nat, root: N, all: seq<V>, n: N, m: N)
    requires Inv(s, K, root, all) && n in s && m in s && n != m && s[n].level == s[m].level
    ensures s[n].End() < s[m].off || s[m].End() < s[n].off
    decreases s[root].level - s[n].level
  {
    assert CellOk(s, K, root, all, n) && CellOk(s, K, root, all, m);
    if n != root { BelowRoot(s, K, root, all, n); }
    if m != root { BelowRoot(s, K, root, all, m); }
    var p, q := s[n].parent, s[m].parent;
    ChainBounds(s, all, s[p].kids, s[p].slots, s[p].off, s[p].End(), s[n].pos);
    ChainBounds(s, all, s[q].kids, s[q].slots, s[q].off, s[q].End(), s[m].pos);
    if p != q {
      SpansApart(s, K, root, all, p, q);
    } else if s[n].pos < s[m].pos {
      ChainOrder(s, all, s[p].kids, s[p].slots, s[p].off, s[p].End(), s[n].pos, s[m].pos);
    } else {
      ChainOrder(s, all, s[p].kids, s[p].slots, s[p].off, s[p].End(), s[m].pos, s[n].pos);
    }
  }

  lemma SlotInSpan<N, V>(s: Store<N, V>, K: nat, root: N, all: seq<V>, n: N, i: nat)
    requires Inv(s, K, root, all) && n in s && i < |s[n].slots|
    ensures !s[n].leaf ==> i < |s[n].kids| && s[n].kids[i] in s
    ensures s[n].off <= SlotRank(s, s[n], i) < s[n].End() <= |all|
    ensures all[SlotRank(s, s[n], i)] == s[n].slots[i]
  {
    var x := s[n];
    assert CellOk(s, K, root, all, n);
    if !x.leaf {
      assert Between(s, all, x.kids, x.slots, i);
      ChainBounds(s, all, x.kids, x.slots, x.off, x.End(), i);
      ChainBounds(s, all, x.kids, x.slots, x.off, x.End(), i + 1);
    }
  }

  /** A node whose own fields and whose children's spans and links are unchanged stays correct. */
  lemma KeepCell<N, V>(s: Store<N, V>, t: Store<N, V>, K: nat, root: N, all: seq<V>, n: N)
    requires root in s && n in s && CellOk(s, K, root, all, n) && n in t
    requires root in t && s[root].level <= t[root].level
    requires t[n] == s[n].(parent := t[n].parent, pos := t[n].pos)
    requires n != root ==> UpOk(t, n)
    requires !s[n].leaf ==> Homes(t, n, s[n].kids, s[n].level)
    requires forall i {:trigger s[n].kids[i]} :: 0 <= i < |s[n].kids| ==> SameSpan(s, t, s[n].kids[i])
    ensures CellOk(t, K, root, all, n)
  {
    if !s[n].leaf {
      ChainFrame(s, t, all, s[n].kids, s[n].slots, s[n].off, s[n].End());
    }
  }
}
