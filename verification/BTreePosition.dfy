/** Iterators as pairs of a node and a position, and what they denote. */
module BTreePosition {
  import opened BTreeStore
  import opened BTreeEdit

  datatype Iter = Iter(node: int, pos: int)

  /** `it` is a place between two values: a slot, or the end of a leaf. */
  ghost predicate IsPlace<V>(s: Store<int, V>, it: Iter) {
    it.node in s && 0 <= it.pos <= |s[it.node].slots| && (!s[it.node].leaf ==> it.pos < |s[it.node].slots|)
  }

  /** `it` can be dereferenced. */
  ghost predicate IsValue<V>(s: Store<int, V>, it: Iter) {
    it.node in s && 0 <= it.pos < |s[it.node].slots|
  }

  /** The number of values before `it`. */
  ghost function Rank<V>(s: Store<int, V>, it: Iter): nat
    requires it.node in s && 0 <= it.pos
  {
    SlotRank(s, s[it.node], it.pos)
  }

  /** The leftmost leaf is kept as the parent of the root, the rightmost one in its own field. */
  ghost predicate Ends<V>(s: Store<int, V>, root: int, rightmost: int, all: seq<V>)
  {
    && root in s && rightmost in s && s[rightmost].leaf && s[rightmost].End() == |all|
    && s[root].parent in s && s[s[root].parent].leaf && s[s[root].parent].off == 0
  }

  /** Every node except possibly `hole` holds a value. */
  ghost predicate Filled<V>(s: Store<int, V>, hole: int) {
    forall n {:trigger s[n].slots} :: n in s && n != hole ==> s[n].slots != []
  }

  lemma PlaceRank<V>(s: Store<int, V>, K: nat, root: int, all: seq<V>, it: Iter)
    requires Inv(s, K, root, all) && IsPlace(s, it)
    ensures Rank(s, it) <= |all|
    ensures IsValue(s, it) ==> Rank(s, it) < |all| && all[Rank(s, it)] == s[it.node].slots[it.pos]
  {
    assert CellOk(s, K, root, all, it.node);
    if IsValue(s, it) { SlotInSpan(s, K, root, all, it.node, it.pos); }
  }

  /** Two dereferenceable iterators denote different values unless they are equal. */
  lemma ValueUnique<V>(s: Store<int, V>, K: nat, root: int, all: seq<V>, a: Iter, b: Iter)
    requires Inv(s, K, root, all) && IsValue(s, a) && IsValue(s, b)
    ensures Rank(s, a) == Rank(s, b) ==> a == b
  {
    if a != b {
      if s[b.node].level <= s[a.node].level {
        RanksApart(s, K, root, all, a.node, a.pos, b.node, b.pos);
      } else {
        RanksApart(s, K, root, all, b.node, b.pos, a.node, a.pos);
      }
    }
  }

  /** The root is the only node whose parent link leads to a leaf. */
  lemma RootLink<V>(s: Store<int, V>, K: nat, root: int, rightmost: int, all: seq<V>, n: int)
    requires Inv(s, K, root, all) && Ends(s, root, rightmost, all) && n in s
    ensures s[n].parent in s && (n == root <==> s[s[n].parent].leaf)
  {
    assert CellOk(s, K, root, all, n);
  }
}
