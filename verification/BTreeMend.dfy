/** Repairing an underfull node after a removal: by merging with a sibling or taking values from one. */
module BTreeMend {
  import opened BTreeStore
  import opened BTreeRepartition
  import opened BTreeSplit
  import opened BTreeMoves
  import opened BTreeSplitMoves
  import opened BTreeEffects
  import opened BTreeRoom
  import opened BTreePosition
  import opened BTreeIterator

  /** The place `r` of `t` is the place `it` of `s`; only `hole` may be without values. */
  ghost predicate Mended<V>(s: Store<int, V>, it: Iter, K: nat, root: int, rightmost: int, all: seq<V>,
                            t: Store<int, V>, r: Iter, hole: int) {
    && it.node in s && Shape(t, K, root, rightmost, all, hole) && Tracks(s, it, t, r)
    && BelowSame(s, t, s[it.node].level) && t.Keys <= s.Keys && root in s && t[root].level == s[root].level
    && (it.pos < |s[it.node].slots| ==> r.pos < |t[r.node].slots|)
  }

  /** The node and its left sibling fit into one node with the delimiter between them. */
  predicate FitsLeft<V>(s: Store<int, V>, n: int, K: nat) {
    n in s && s[n].parent in s && var ks, i := s[s[n].parent].kids, s[n].pos;
    0 < i <= |ks| && ks[i - 1] in s && 1 + |s[ks[i - 1]].slots| + |s[n].slots| <= K
  }

  predicate FitsRight<V>(s: Store<int, V>, n: int, K: nat) {
    n in s && s[n].parent in s && var ks, i := s[s[n].parent].kids, s[n].pos;
    i + 1 < |ks| && ks[i + 1] in s && 1 + |s[n].slots| + |s[ks[i + 1]].slots| <= K
  }

  /** The right sibling is more than half full, and the node is empty or did not lose its first value. */
  predicate GivesRight<V>(s: Store<int, V>, it: Iter, K: nat) {
    it.node in s && s[it.node].parent in s && var ks, i := s[s[it.node].parent].kids, s[it.node].pos;
    i + 1 < |ks| && ks[i + 1] in s && |s[ks[i + 1]].slots| > K / 2 && (s[it.node].slots == [] || it.pos > 0)
  }

  /** The left sibling is more than half full, and the node is empty or did not lose its last value. */
  predicate GivesLeft<V>(s: Store<int, V>, it: Iter, K: nat) {
    it.node in s && s[it.node].parent in s && var ks, i := s[s[it.node].parent].kids, s[it.node].pos;
    0 < i <= |ks| && ks[i - 1] in s && |s[ks[i - 1]].slots| > K / 2 && (s[it.node].slots == [] || it.pos < |s[it.node].slots|)
  }

  /** Values came to the node of `it` from its sibling `other`, until both hold as many but for one. */
  predicate Shared<V>(s: Store<int, V>, it: Iter, other: int, t: Store<int, V>) {
    && it.node in s && it.node in t && other in t && t.Keys == s.Keys && |t[it.node].slots| > |s[it.node].slots|
    && 0 <= |t[other].slots| - |t[it.node].slots| <= 1
  }

  /** What becomes of an underfull node: merged with a sibling that fits, left first; else filled from the
  right or the left sibling; else left alone. */
  ghost predicate Outcome<V>(s: Store<int, V>, it: Iter, K: nat, merged: bool, t: Store<int, V>) {
    && (merged <==> FitsLeft(s, it.node, K) || FitsRight(s, it.node, K))
    && (merged ==> t.Keys < s.Keys)
    && (!merged ==>
          && it.node in s && s[it.node].parent in s && var ks, i := s[s[it.node].parent].kids, s[it.node].pos;
          if GivesRight(s, it, K) then Shared(s, it, ks[i + 1], t)
          else if GivesLeft(s, it, K) then Shared(s, it, ks[i - 1], t)
          else t == s)
  }

  method MergeSiblings<V>(s: Store<int, V>, ghost K: nat, ghost root: int, rightmost: int, ghost all: seq<V>, l: int, r: int, it: Iter)
    returns (t: Store<int, V>, b: Iter, last: int)
    requires Shape(s, K, root, rightmost, all, it.node) && Siblings(s, root, l, r)
    requires |s[l].slots| + 1 + |s[r].slots| <= K && (it.node == l || it.node == r) && 0 <= it.pos <= |s[it.node].slots|
    ensures Mended(s, it, K, root, last, all, t, b, s[l].parent) && b.node == l && t[l].parent == s[l].parent
    ensures t.Keys < s.Keys
  {
    t := Merge(s, K, root, all, l, r);
    b := Iter(l, if it.node == l then it.pos else it.pos + 1 + |s[l].slots|);
    last := if rightmost == r then l else rightmost;
    MergeInv(s, K, root, all, l, r, t);
    MergeEnds(s, K, root, rightmost, all, l, r, t);
    MergeFilled(s, root, l, r, t, it.node);
    MergeBelow(s, root, l, r, t);
    MergeTracks(s, K, root, all, l, r, t, it);
    assert root != s[l].parent ==> t[root] == MergeHome(s, l, r, root);
  }

  /** All that has to be said about a rebalance after a removal at `a`. */
  lemma RepartitionMends<V>(s: Store<int, V>, K: nat, root: int, rightmost: int, all: seq<V>,
                            l: int, r: int, c: nat, t: Store<int, V>, a: Iter, b: Iter)
    requires Shape(s, K, root, rightmost, all, a.node) && Siblings(s, root, l, r) && Repartitioned(s, root, l, r, c, t)
    requires 1 <= c < |s[l].slots| + |s[r].slots| && c <= K && |s[l].slots| + |s[r].slots| - c <= K
    requires (a.node == l || a.node == r) && 0 <= a.pos <= |s[a.node].slots|
    requires (b.node == l && 0 <= b.pos <= c) || (b.node == r && 0 <= b.pos <= |s[l].slots| + |s[r].slots| - c)
    requires (if a.node == l then a.pos else |s[l].slots| + 1 + a.pos) == (if b.node == l then b.pos else c + 1 + b.pos)
    requires a.pos < |s[a.node].slots| && b.node == l ==> b.pos < c
    ensures Mended(s, a, K, root, rightmost, all, t, b, 0)
  {
    RepartitionSizes(s, root, l, r, c, t);
    assert CellOk(s, K, root, all, l) && CellOk(s, K, root, all, r);
    RepartitionInv(s, K, root, all, l, r, c, t);
    RepartitionEnds(s, K, root, rightmost, all, l, r, c, t);
    RepartitionFilled(s, root, l, r, c, t, a.node);
    RepartitionBelow(s, root, l, r, c, t);
    RepartitionTracks(s, K, root, all, l, r, c, t, a, b);
    assert root != s[l].parent ==> t[root] == Rehomed(s, l, r, c, root);
  }

  /** How many values an underfull node takes from a sibling holding `other`. */
  function ToTake(other: nat, count: nat): (m: nat)
    requires count + 2 <= other
    ensures 1 <= m < other && 0 <= (other - m) - (count + m) <= 1
  {
    var m := (other - count) / 2;
    if m < other - 1 then m else other - 1
  }

  method TakeFromRight<V>(s: Store<int, V>, ghost K: nat, ghost root: int, ghost rightmost: int, ghost all: seq<V>, right: int, it: Iter)
    returns (t: Store<int, V>)
    requires Shape(s, K, root, rightmost, all, it.node) && Siblings(s, root, it.node, right)
    requires |s[it.node].slots| + 2 <= |s[right].slots| <= K && 0 <= it.pos <= |s[it.node].slots|
    ensures Mended(s, it, K, root, rightmost, all, t, it, 0) && Shared(s, it, right, t)
  {
    var m := ToTake(|s[right].slots|, |s[it.node].slots|);
    t := RebalanceRightToLeft(s, K, root, all, it.node, m, right);
    RepartitionMends(s, K, root, rightmost, all, it.node, right, |s[it.node].slots| + m, t, it, it);
    RepartitionSizes(s, root, it.node, right, |s[it.node].slots| + m, t);
  }

  method TakeFromLeft<V>(s: Store<int, V>, ghost K: nat, ghost root: int, ghost rightmost: int, ghost all: seq<V>, left: int, it: Iter)
    returns (t: Store<int, V>, b: Iter)
    requires Shape(s, K, root, rightmost, all, it.node) && Siblings(s, root, left, it.node)
    requires |s[it.node].slots| + 2 <= |s[left].slots| <= K && 0 <= it.pos <= |s[it.node].slots|
    ensures Mended(s, it, K, root, rightmost, all, t, b, 0) && Shared(s, it, left, t)
  {
    var m := ToTake(|s[left].slots|, |s[it.node].slots|);
    t := RebalanceLeftToRight(s, K, root, all, left, m, it.node);
    b := Iter(it.node, it.pos + m);
    RepartitionMends(s, K, root, rightmost, all, left, it.node, |s[left].slots| - m, t, it, b);
    RepartitionSizes(s, root, left, it.node, |s[left].slots| - m, t);
  }

  lemma NothingChanged<V>(s: Store<int, V>, K: nat, root: int, rightmost: int, all: seq<V>, it: Iter)
    requires Shape(s, K, root, rightmost, all, it.node) && it.node in s && 0 <= it.pos <= |s[it.node].slots|
    requires s[it.node].slots != []
    ensures Mended(s, it, K, root, rightmost, all, s, it, 0)
  {
    NodeOk(s, K, root, all, it.node);
  }

  /** Merges the underfull node of `it` with a sibling if they fit together, left first; otherwise
  takes values from the right or the left sibling, except that a node that still has values and
  lost its first (last) one is left as it is. */
  method TryMergeOrRebalance<V>(s: Store<int, V>, K: nat, ghost root: int, rightmost: int, ghost all: seq<V>, it: Iter)
    returns (merged: bool, t: Store<int, V>, b: Iter, last: int)
    requires 3 <= K && Shape(s, K, root, rightmost, all, it.node)
    requires it.node in s && it.node != root && 0 <= it.pos <= |s[it.node].slots| < K / 2
    ensures merged ==> b.node in t && b.node != root && true == Mended(s, it, K, root, last, all, t, b, t[b.node].parent)
    ensures !merged ==> true == Mended(s, it, K, root, last, all, t, b, 0)
    ensures true == Outcome(s, it, K, merged, t)
  {
    var p, i, count := s[it.node].parent, s[it.node].pos, |s[it.node].slots|;
    assert CellOk(s, K, root, all, it.node);
    assert CellOk(s, K, root, all, p);
    assert s[p].slots != [];
    last := rightmost;
    if i > 0 {
      Neighbours(s, K, root, all, p, i - 1);
      var left := s[p].kids[i - 1];
      if 1 + |s[left].slots| + count <= K {
        t, b, last := MergeSiblings(s, K, root, rightmost, all, left, it.node, it);
        return true, t, b, last;
      }
    }
    if i < |s[p].slots| {
      Neighbours(s, K, root, all, p, i);
      var right := s[p].kids[i + 1];
      if 1 + count + |s[right].slots| <= K {
        t, b, last := MergeSiblings(s, K, root, rightmost, all, it.node, right, it);
        return true, t, b, last;
      }
    }
    t, b := TryRebalance(s, K, root, rightmost, all, it);
    return false, t, b, last;
  }

  /** Takes values from the right or the left sibling of an underfull node that fits with neither. */
  method TryRebalance<V>(s: Store<int, V>, K: nat, ghost root: int, ghost rightmost: int, ghost all: seq<V>, it: Iter)
    returns (t: Store<int, V>, b: Iter)
    requires 3 <= K && Shape(s, K, root, rightmost, all, it.node)
    requires it.node in s && it.node != root && 0 <= it.pos <= |s[it.node].slots| < K / 2
    requires !FitsLeft(s, it.node, K) && !FitsRight(s, it.node, K)
    ensures true == Mended(s, it, K, root, rightmost, all, t, b, 0)
    ensures true == Outcome(s, it, K, false, t)
  {
    var p, i, count := s[it.node].parent, s[it.node].pos, |s[it.node].slots|;
    assert CellOk(s, K, root, all, it.node);
    assert CellOk(s, K, root, all, p);
    assert s[p].slots != [];
    if i < |s[p].slots| {
      Neighbours(s, K, root, all, p, i);
      var right := s[p].kids[i + 1];
      if |s[right].slots| > K / 2 && (count == 0 || it.pos > 0) {
        assert CellOk(s, K, root, all, right);
        t := TakeFromRight(s, K, root, rightmost, all, right, it);
        return t, it;
      }
    }
    if i > 0 {
      Neighbours(s, K, root, all, p, i - 1);
      var left := s[p].kids[i - 1];
      if |s[left].slots| > K / 2 && (count == 0 || it.pos < count) {
        assert CellOk(s, K, root, all, left);
        t, b := TakeFromLeft(s, K, root, rightmost, all, left, it);
        return;
      }
    }
    NothingChanged(s, K, root, rightmost, all, it);
    return s, it;
  }
}
