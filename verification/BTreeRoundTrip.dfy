/** `merge` undoes `split`. */
module BTreeRoundTrip {
  import opened BTreeStore
  import opened BTreeRepartition
  import opened BTreeSplit
  import opened BTreeSplitMoves

  /** The two halves of a split are siblings with the split value as delimiter. */
  lemma SplitSiblingsOk<V>(s: Store<int, V>, K: nat, root: int, all: seq<V>, n: int, d: int, c: nat, t: Store<int, V>)
    requires Inv(s, K, root, all) && CanSplit(s, root, n, d, c) && Split(s, root, n, d, c, t)
    ensures Siblings(t, root, n, d)
    ensures JoinedSlots(t, root, n, d) == s[n].slots && t[n].kids + t[d].kids == s[n].kids
  {
    var x, p, i := s[n], s[n].parent, s[n].pos;
    NodeOk(s, K, root, all, n);
    NodeUp(s, K, root, all, n);
    assert t[p].slots[i] == x.slots[c] && i < |t[p].slots|;
    assert x.slots[..c] + [x.slots[c]] + x.slots[c + 1..] == x.slots;
    if !x.leaf { assert x.kids[..c + 1] + x.kids[c + 1..] == x.kids; }
  }

  /** The links of a third node come back. */
  lemma LinksBack<V>(s: Store<int, V>, K: nat, root: int, all: seq<V>, n: int, d: int, c: nat, t: Store<int, V>, m: int)
    requires Inv(s, K, root, all) && CanSplit(s, root, n, d, c) && Split(s, root, n, d, c, t)
    requires m in s && m != n && m != s[n].parent && d !in s && s[m].parent != d
    ensures m in t && MergeHome(t, n, d, m) == s[m]
  {
    assert CellOk(s, K, root, all, n) && CellOk(s, K, root, all, m);
    BelowRoot(s, K, root, all, n);
    assert t[m] == SplitHome(s, n, d, c, m);
  }

  /** Merging the two halves of a split gives back every node as it was, whichever slot was the
  delimiter. */
  lemma MergeUndoesSplit<V>(s: Store<int, V>, K: nat, root: int, all: seq<V>, n: int, d: int, c: nat,
                            t: Store<int, V>, u: Store<int, V>)
    requires Inv(s, K, root, all) && s[root].parent in s && CanSplit(s, root, n, d, c) && Split(s, root, n, d, c, t)
    requires Siblings(t, root, n, d) && Merged(t, root, n, d, u)
    ensures u == s
  {
    SplitSiblingsOk(s, K, root, all, n, d, c, t);
    var p := s[n].parent;
    assert u.Keys == s.Keys;
    assert u[n] == s[n];
    assert u[p] == s[p];
    forall m | m in s && m != n && m != p ensures u[m] == s[m] {
      assert CellOk(s, K, root, all, m);
      LinksBack(s, K, root, all, n, d, c, t, m);
    }
  }

  /** The same for the slots the insertion position chooses. */
  lemma MergeUndoesBiasedSplit<V>(s: Store<int, V>, K: nat, root: int, all: seq<V>, n: int, d: int, position: nat,
                                  t: Store<int, V>, u: Store<int, V>)
    requires 3 <= K && Inv(s, K, root, all) && s[root].parent in s && n in s && n != root && d !in s
    requires |s[n].slots| == K && position <= K
    requires CanSplit(s, root, n, d, SplitSlot(K, position, K)) && Split(s, root, n, d, SplitSlot(K, position, K), t)
    requires Siblings(t, root, n, d) && Merged(t, root, n, d, u)
    ensures u == s && |JoinedSlots(t, root, n, d)| == K
  {
    SplitSiblingsOk(s, K, root, all, n, d, SplitSlot(K, position, K), t);
    MergeUndoesSplit(s, K, root, all, n, d, SplitSlot(K, position, K), t, u);
  }
}
