/** Stepping an iterator forwards and backwards through the nodes. */
module BTreeIterator {
  import opened BTreeStore
  import opened BTreePosition

  /** A nonempty tree with every node in use except possibly `hole`. */
  ghost predicate Shape<V>(s: Store<int, V>, K: nat, root: int, rightmost: int, all: seq<V>, hole: int) {
    Inv(s, K, root, all) && Ends(s, root, rightmost, all) && Filled(s, hole)
  }

  /** Either a value or the place after the last value, in the form the container reports it. */
  ghost predicate IsCanonical<V>(s: Store<int, V>, rightmost: int, it: Iter) {
    IsValue(s, it) || (rightmost in s && it == Iter(rightmost, |s[rightmost].slots|))
  }

  /** The place after the end of a node's subtree is also a place of its parent. */
  lemma EndOfNode<V>(s: Store<int, V>, K: nat, root: int, all: seq<V>, n: int)
    requires Inv(s, K, root, all) && n in s && n != root
    ensures var p := s[n].parent;
      && p in s && s[n].pos <= |s[p].slots| && s[p].level == s[n].level + 1
      && (s[n].pos < |s[p].slots| ==> SlotRank(s, s[p], s[n].pos) == s[n].End())
      && (s[n].pos == |s[p].slots| ==> s[p].End() == s[n].End())
      && (s[n].pos > 0 ==> SlotRank(s, s[p], s[n].pos - 1) + 1 == s[n].off)
      && (s[n].pos == 0 ==> s[p].off == s[n].off)
  {
    var p := s[n].parent;
    assert CellOk(s, K, root, all, n);
    assert CellOk(s, K, root, all, p);
    if s[n].pos > 0 {
      assert Between(s, all, s[p].kids, s[p].slots, s[n].pos - 1);
    }
  }

  /** The leaf that ends the tree is the rightmost one; the leaf that starts it the leftmost one. */
  lemma LastLeaf<V>(s: Store<int, V>, K: nat, root: int, rightmost: int, all: seq<V>, n: int)
    requires Inv(s, K, root, all) && Ends(s, root, rightmost, all) && n in s && s[n].leaf
    ensures s[n].End() == |all| ==> n == rightmost
    ensures s[n].off == 0 ==> n == s[root].parent
  {
    assert CellOk(s, K, root, all, n) && CellOk(s, K, root, all, rightmost) && CellOk(s, K, root, all, s[root].parent);
    if n != rightmost { SpansApart(s, K, root, all, n, rightmost); }
    if n != s[root].parent { SpansApart(s, K, root, all, n, s[root].parent); }
  }

  /** Climbs from the end of a node to the first ancestor slot after it, if there is one. */
  method ClimbRight<V>(s: Store<int, V>, ghost K: nat, ghost root: int, ghost rightmost: int, ghost all: seq<V>, it: Iter)
    returns (r: Iter)
    requires Inv(s, K, root, all) && Ends(s, root, rightmost, all)
    requires it.node in s && it.pos == |s[it.node].slots|
    ensures r.node in s && 0 <= r.pos <= |s[r.node].slots|
    ensures r.pos < |s[r.node].slots| ==> Rank(s, r) == s[it.node].End()
    ensures r.pos == |s[r.node].slots| ==> s[it.node].End() == |all|
  {
    r := it;
    RootLink(s, K, root, rightmost, all, r.node);
    assert CellOk(s, K, root, all, r.node);
    while r.pos == |s[r.node].slots| && !s[s[r.node].parent].leaf
      invariant r.node in s && 0 <= r.pos <= |s[r.node].slots|
      invariant s[r.node].parent in s && (r.node == root <==> s[s[r.node].parent].leaf)
      invariant r.pos < |s[r.node].slots| ==> Rank(s, r) == s[it.node].End()
      invariant r.pos == |s[r.node].slots| ==> s[r.node].End() == s[it.node].End()
      invariant s[r.node].level <= s[root].level
      decreases s[root].level - s[r.node].level
    {
      EndOfNode(s, K, root, all, r.node);
      assert CellOk(s, K, root, all, s[r.node].parent);
      r := Iter(s[r.node].parent, s[r.node].pos);
      RootLink(s, K, root, rightmost, all, r.node);
    }
  }


  /** Climbs from before the start of a node to the last ancestor slot before it, if there is one. */
  method ClimbLeft<V>(s: Store<int, V>, ghost K: nat, ghost root: int, ghost rightmost: int, ghost all: seq<V>, it: Iter)
    returns (r: Iter)
    requires Inv(s, K, root, all) && Ends(s, root, rightmost, all)
    requires it.node in s && it.pos == -1
    ensures r.node in s && -1 <= r.pos < |s[r.node].slots|
    ensures 0 <= r.pos ==> Rank(s, r) + 1 == s[it.node].off
    ensures r.pos == -1 ==> s[it.node].off == 0
  {
    r := it;
    RootLink(s, K, root, rightmost, all, r.node);
    assert CellOk(s, K, root, all, r.node);
    while r.pos < 0 && !s[s[r.node].parent].leaf
      invariant r.node in s && -1 <= r.pos < |s[r.node].slots|
      invariant s[r.node].parent in s && (r.node == root <==> s[s[r.node].parent].leaf)
      invariant 0 <= r.pos ==> Rank(s, r) + 1 == s[it.node].off
      invariant r.pos == -1 ==> s[r.node].off == s[it.node].off
      invariant s[r.node].level <= s[root].level
      decreases s[root].level - s[r.node].level
    {
      EndOfNode(s, K, root, all, r.node);
      assert CellOk(s, K, root, all, s[r.node].parent);
      r := Iter(s[r.node].parent, s[r.node].pos - 1);
      RootLink(s, K, root, rightmost, all, r.node);
    }
  }

  /** The first leaf of a subtree. */
  method DescendLeft<V>(s: Store<int, V>, ghost K: nat, ghost root: int, ghost all: seq<V>, top: int) returns (n: int)
    requires Inv(s, K, root, all) && top in s
    ensures n in s && s[n].leaf && s[n].off == s[top].off
  {
    n := top;
    while !s[n].leaf
      invariant n in s && s[n].off == s[top].off
      decreases s[n].level
    {
      assert CellOk(s, K, root, all, n);
      n := s[n].kids[0];
    }
  }

  /** The last leaf of a subtree. */
  method DescendRight<V>(s: Store<int, V>, ghost K: nat, ghost root: int, ghost all: seq<V>, top: int) returns (n: int)
    requires Inv(s, K, root, all) && top in s
    ensures n in s && s[n].leaf && s[n].End() == s[top].End()
  {
    n := top;
    while !s[n].leaf
      invariant n in s && s[n].End() == s[top].End()
      decreases s[n].level
    {
      assert CellOk(s, K, root, all, n);
      n := s[n].kids[|s[n].slots|];
    }
  }

  /** Steps to the next value, or to the place after the last one. */
  method Increment<V>(s: Store<int, V>, ghost K: nat, ghost root: int, ghost rightmost: int, ghost all: seq<V>, it: Iter)
    returns (r: Iter)
    requires Shape(s, K, root, rightmost, all, 0) && 0 !in s && IsValue(s, it)
    ensures IsPlace(s, r) && IsCanonical(s, rightmost, r) && Rank(s, r) == Rank(s, it) + 1
  {
    assert CellOk(s, K, root, all, it.node);
    if s[it.node].leaf {
      var save := Iter(it.node, it.pos + 1);
      if save.pos < |s[it.node].slots| { return save; }
      r := ClimbRight(s, K, root, rightmost, all, save);
      if r.pos == |s[r.node].slots| {
        LastLeaf(s, K, root, rightmost, all, save.node);
        r := save;
      }
    } else {
      assert Between(s, all, s[it.node].kids, s[it.node].slots, it.pos);
      var n := DescendLeft(s, K, root, all, s[it.node].kids[it.pos + 1]);
      r := Iter(n, 0);
    }
  }

  /** Steps to the previous value; from an internal node this is always a value in a leaf. */
  method Decrement<V>(s: Store<int, V>, ghost K: nat, ghost root: int, ghost rightmost: int, ghost all: seq<V>, it: Iter)
    returns (r: Iter)
    requires Shape(s, K, root, rightmost, all, 0) && 0 !in s && IsPlace(s, it) && Rank(s, it) > 0
    ensures IsValue(s, r) && Rank(s, r) + 1 == Rank(s, it)
    ensures !s[it.node].leaf ==> s[r.node].leaf && r.pos + 1 == |s[r.node].slots|
  {
    assert CellOk(s, K, root, all, it.node);
    if s[it.node].leaf {
      if it.pos - 1 >= 0 { return Iter(it.node, it.pos - 1); }
      r := ClimbLeft(s, K, root, rightmost, all, Iter(it.node, -1));
    } else {
      var n := DescendRight(s, K, root, all, s[it.node].kids[it.pos]);
      assert CellOk(s, K, root, all, n);
      r := Iter(n, |s[n].slots| - 1);
    }
  }
}
