/** What the structural operations leave alone, and where a place ends up. */
module BTreeEffects {
  import opened BTreeStore
  import opened BTreeRepartition
  import opened BTreeSplit
  import opened BTreeRoot
  import opened BTreeEdit
  import opened BTreePosition
  import opened BTreeIterator

  /** Nodes below `level` keep everything but their link to the parent. */
  ghost predicate BelowSame<V>(s: Store<int, V>, t: Store<int, V>, level: nat) {
    forall n {:trigger t[n]} {:trigger n in t} :: n in s && s[n].level < level ==>
      n in t && t[n] == s[n].(parent := t[n].parent, pos := t[n].pos)
  }

  lemma BelowSameTrans<V>(s: Store<int, V>, t: Store<int, V>, u: Store<int, V>, level: nat)
    requires BelowSame(s, t, level) && BelowSame(t, u, level)
    ensures BelowSame(s, u, level)
  {
    forall n | n in s && s[n].level < level
      ensures n in u && u[n] == s[n].(parent := u[n].parent, pos := u[n].pos)
    {
      assert n in t && t[n] == s[n].(parent := t[n].parent, pos := t[n].pos);
    }
  }

  /** `b` in `t` is the same place as `a` in `s`: in a leaf the same rank, in an internal node
  the same child. */
  ghost predicate Tracks<V>(s: Store<int, V>, a: Iter, t: Store<int, V>, b: Iter) {
    && a.node in s && 0 <= a.pos <= |s[a.node].slots|
    && b.node in t && 0 <= b.pos <= |t[b.node].slots|
    && t[b.node].level == s[a.node].level && t[b.node].leaf == s[a.node].leaf && t[b.node].cap == s[a.node].cap
    && if s[a.node].leaf then t[b.node].off + b.pos == s[a.node].off + a.pos
       else a.pos < |s[a.node].kids| && b.pos < |t[b.node].kids| && t[b.node].kids[b.pos] == s[a.node].kids[a.pos]
  }

  lemma RepartitionBelow<V>(s: Store<int, V>, root: int, l: int, r: int, c: nat, t: Store<int, V>)
    requires Siblings(s, root, l, r) && Repartitioned(s, root, l, r, c, t)
    ensures BelowSame(s, t, s[l].level)
  {
  }

  lemma RepartitionEnds<V>(s: Store<int, V>, K: nat, root: int, rightmost: int, all: seq<V>, l: int, r: int, c: nat, t: Store<int, V>)
    requires Inv(s, K, root, all) && Ends(s, root, rightmost, all)
    requires Siblings(s, root, l, r) && Repartitioned(s, root, l, r, c, t)
    ensures Ends(t, root, rightmost, all)
  {
    JoinedOk(s, K, root, all, l, r);
    var f := s[root].parent;
    assert CellOk(s, K, root, all, l) && CellOk(s, K, root, all, root);
    assert rightmost != l && f != r;
    assert t[root].parent == f by {
      assert root != s[l].parent ==> t[root] == Rehomed(s, l, r, c, root);
    }
    assert rightmost != r && rightmost != s[l].parent ==> t[rightmost] == Rehomed(s, l, r, c, rightmost);
    assert f != l && f != s[l].parent ==> t[f] == Rehomed(s, l, r, c, f);
  }

  lemma RepartitionFilled<V>(s: Store<int, V>, root: int, l: int, r: int, c: nat, t: Store<int, V>, hole: int)
    requires Siblings(s, root, l, r) && Repartitioned(s, root, l, r, c, t)
    requires Filled(s, hole) && 1 <= c && c + 1 < |JoinedSlots(s, root, l, r)|
    requires hole == l || hole == r || hole !in s
    ensures Filled(t, 0)
  {
    forall n | n in t ensures t[n].slots != [] {
      if n != l && n != r && n != s[l].parent { assert t[n] == Rehomed(s, l, r, c, n); }
      assert s[n].slots != [] || n == hole;
    }
  }

  /** The place at joined position `j` of the two siblings moves with the repartition. */
  lemma SidesTrack<V>(s: Store<int, V>, root: int, l: int, r: int, c: nat, t: Store<int, V>, a: Iter, b: Iter, j: nat)
    requires Siblings(s, root, l, r) && SidesMoved(s, root, l, r, c, t) && s[r].off == s[l].End() + 1 && s[l].cap == s[r].cap
    requires s[l].leaf ==> s[l].len == |s[l].slots| && s[r].len == |s[r].slots|
    requires !s[l].leaf ==> |s[l].kids| == |s[l].slots| + 1 && |s[r].kids| == |s[r].slots| + 1
    requires (a.node == l && a.pos == j <= |s[l].slots|) || (a.node == r && |s[l].slots| + 1 <= j == |s[l].slots| + 1 + a.pos)
    requires (b.node == l && b.pos == j <= c) || (b.node == r && c + 1 <= j == c + 1 + b.pos)
    requires a.pos <= |s[a.node].slots| && b.pos <= |t[b.node].slots|
    ensures Tracks(s, a, t, b)
  {
    if !s[l].leaf {
      var ks := s[l].kids + s[r].kids;
      assert s[a.node].kids[a.pos] == ks[j] && t[b.node].kids[b.pos] == ks[j];
    }
  }

  lemma RepartitionTracks<V>(s: Store<int, V>, K: nat, root: int, all: seq<V>, l: int, r: int, c: nat, t: Store<int, V>, a: Iter, b: Iter)
    requires Inv(s, K, root, all) && Siblings(s, root, l, r) && Repartitioned(s, root, l, r, c, t)
    requires (a.node == l || a.node == r) && 0 <= a.pos <= |s[a.node].slots|
    requires (b.node == l || b.node == r) && 0 <= b.pos <= |t[b.node].slots|
    requires (if a.node == l then a.pos else |s[l].slots| + 1 + a.pos) == (if b.node == l then b.pos else c + 1 + b.pos)
    ensures Tracks(s, a, t, b)
  {
    JoinedOk(s, K, root, all, l, r);
    assert CellOk(s, K, root, all, l) && CellOk(s, K, root, all, r);
    SidesTrack(s, root, l, r, c, t, a, b, if a.node == l then a.pos else |s[l].slots| + 1 + a.pos);
  }

  // ---------- split ----------

  lemma SplitBelow<V>(s: Store<int, V>, root: int, n: int, d: int, c: nat, t: Store<int, V>)
    requires CanSplit(s, root, n, d, c) && Split(s, root, n, d, c, t) && s[s[n].parent].level == s[n].level + 1
    ensures BelowSame(s, t, s[n].level)
  {
  }

  /** The new node takes over as rightmost leaf if the split node was it. */
  lemma SplitEnds<V>(s: Store<int, V>, K: nat, root: int, rightmost: int, all: seq<V>, n: int, d: int, c: nat, t: Store<int, V>)
    requires Inv(s, K, root, all) && Ends(s, root, rightmost, all)
    requires CanSplit(s, root, n, d, c) && Split(s, root, n, d, c, t)
    ensures Ends(t, root, if rightmost == n then d else rightmost, all)
  {
    var f := s[root].parent;
    assert CellOk(s, K, root, all, n) && CellOk(s, K, root, all, root);
    BelowRoot(s, K, root, all, n);
    assert t[root].parent == f by {
      assert root != s[n].parent ==> t[root] == SplitHome(s, n, d, c, root);
    }
    assert rightmost != n && rightmost != s[n].parent ==> t[rightmost] == SplitHome(s, n, d, c, rightmost);
    assert f != n && f != s[n].parent ==> t[f] == SplitHome(s, n, d, c, f);
  }

  lemma SplitFilled<V>(s: Store<int, V>, root: int, n: int, d: int, c: nat, t: Store<int, V>, hole: int, hole': int)
    requires CanSplit(s, root, n, d, c) && Split(s, root, n, d, c, t)
    requires Filled(s, hole) && (hole == s[n].parent || hole !in s)
    requires c == 0 ==> hole' == n
    requires c + 1 == |s[n].slots| ==> hole' == d
    ensures Filled(t, hole')
  {
    forall m | m in t && m != hole' ensures t[m].slots != [] {
      if m != n && m != d && m != s[n].parent {
        assert t[m] == SplitHome(s, n, d, c, m);
        assert s[m].slots != [] || m == hole;
      }
    }
  }

  lemma SplitTracks<V>(s: Store<int, V>, K: nat, root: int, all: seq<V>, n: int, d: int, c: nat, t: Store<int, V>, i: nat)
    requires Inv(s, K, root, all) && CanSplit(s, root, n, d, c) && Split(s, root, n, d, c, t) && i <= |s[n].slots|
    ensures Tracks(s, Iter(n, i), t, if i > c then Iter(d, i - c - 1) else Iter(n, i))
  {
    assert CellOk(s, K, root, all, n);
  }

  // ---------- growth ----------

  lemma GrownEffects<V>(s: Store<int, V>, K: nat, root: int, rightmost: int, all: seq<V>, top: int, t: Store<int, V>)
    requires Inv(s, K, root, all) && Ends(s, root, rightmost, all) && Filled(s, 0) && 0 !in s
    requires Grown(s, K, root, top, t)
    ensures Ends(t, top, rightmost, all) && Filled(t, top) && BelowSame(s, t, s[root].level + 1)
    ensures t[root] == s[root].(parent := top, pos := 0)
  {
    assert CellOk(s, K, root, all, root);
  }

  // ---------- insertion ----------

  /** After an insertion into a leaf every node is in use and the place holds the new value. */
  lemma InsertEffects<V>(s: Store<int, V>, K: nat, root: int, rightmost: int, all: seq<V>, n: int, i: nat, v: V, t: Store<int, V>)
    requires Shape(s, K, root, rightmost, all, n) && n in s && s[n].leaf && i <= |s[n].slots| < s[n].cap
    requires Inserted(s, n, i, v, t)
    ensures var k := s[n].off + i;
      && k <= |all| && Shape(t, K, root, rightmost, all[..k] + [v] + all[k..], 0)
      && IsValue(t, Iter(n, i)) && Rank(t, Iter(n, i)) == k
  {
    InsertInv(s, K, root, all, n, i, v, t);
    LeafInBounds(s, K, root, all, n);
    LeafInBounds(s, K, root, all, rightmost);
    forall m | m in t ensures t[m].slots != [] {
      assert m != n ==> s[m].slots != [];
    }
  }

  // ---------- merge ----------

  lemma MergeBelow<V>(s: Store<int, V>, root: int, l: int, r: int, t: Store<int, V>)
    requires Siblings(s, root, l, r) && Merged(s, root, l, r, t)
    ensures BelowSame(s, t, s[l].level)
  {
  }

  /** The left node takes over as rightmost leaf if the merged one was it. */
  lemma MergeEnds<V>(s: Store<int, V>, K: nat, root: int, rightmost: int, all: seq<V>, l: int, r: int, t: Store<int, V>)
    requires Inv(s, K, root, all) && Ends(s, root, rightmost, all)
    requires Siblings(s, root, l, r) && Merged(s, root, l, r, t)
    ensures Ends(t, root, if rightmost == r then l else rightmost, all)
  {
    JoinedOk(s, K, root, all, l, r);
    var f := s[root].parent;
    BelowRoot(s, K, root, all, l);
    assert rightmost != l && f != r;
    assert t[root].parent == f by {
      assert root != s[l].parent ==> t[root] == MergeHome(s, l, r, root);
    }
    assert rightmost != r && rightmost != s[l].parent ==> t[rightmost] == MergeHome(s, l, r, rightmost);
    assert f != l && f != s[l].parent ==> t[f] == MergeHome(s, l, r, f);
  }

  lemma MergeFilled<V>(s: Store<int, V>, root: int, l: int, r: int, t: Store<int, V>, hole: int)
    requires Siblings(s, root, l, r) && Merged(s, root, l, r, t)
    requires Filled(s, hole) && (hole == l || hole == r)
    ensures Filled(t, s[l].parent)
  {
    forall m | m in t && m != s[l].parent ensures t[m].slots != [] {
      if m != l {
        assert t[m] == MergeHome(s, l, r, m);
        assert s[m].slots != [];
      }
    }
  }

  lemma MergeTracks<V>(s: Store<int, V>, K: nat, root: int, all: seq<V>, l: int, r: int, t: Store<int, V>, a: Iter)
    requires Inv(s, K, root, all) && Siblings(s, root, l, r) && Merged(s, root, l, r, t)
    requires (a.node == l || a.node == r) && 0 <= a.pos <= |s[a.node].slots|
    ensures Tracks(s, a, t, Iter(l, if a.node == l then a.pos else a.pos + 1 + |s[l].slots|))
  {
    JoinedOk(s, K, root, all, l, r);
    assert CellOk(s, K, root, all, l) && CellOk(s, K, root, all, r);
  }

  // ---------- shrinking ----------

  lemma ShrunkEffects<V>(s: Store<int, V>, K: nat, root: int, rightmost: int, all: seq<V>, t: Store<int, V>)
    requires Inv(s, K, root, all) && Ends(s, root, rightmost, all) && Filled(s, root)
    requires Shrunk(s, root, t)
    ensures Ends(t, s[root].kids[0], rightmost, all) && Filled(t, 0) && BelowSame(s, t, s[root].level)
  {
    var c := s[root].kids[0];
    forall m | m in t ensures t[m].slots != [] {
      assert s[m].slots != [];
    }
    forall n | n in s && s[n].level < s[root].level
      ensures n in t && t[n] == s[n].(parent := t[n].parent, pos := t[n].pos)
    {
    }
  }

  // ---------- places ----------

  /** A tracked place keeps its rank, and a value stays a value. */
  lemma TracksRank<V>(s: Store<int, V>, K: nat, root: int, all: seq<V>, a: Iter, t: Store<int, V>, b: Iter)
    requires Inv(s, K, root, all) && IsPlace(s, a) && Tracks(s, a, t, b) && BelowSame(s, t, s[a.node].level)
    ensures Rank(t, b) == Rank(s, a)
  {
    NodeOk(s, K, root, all, a.node);
    if !s[a.node].leaf {
      var k := s[a.node].kids[a.pos];
      assert k in t && t[k] == s[k].(parent := t[k].parent, pos := t[k].pos);
    }
  }

  /** Changes above a place do not concern it. */
  lemma PlaceBelow<V>(s: Store<int, V>, K: nat, root: int, all: seq<V>, a: Iter, t: Store<int, V>, level: nat)
    requires Inv(s, K, root, all) && IsPlace(s, a) && BelowSame(s, t, level) && s[a.node].level < level
    ensures IsPlace(t, a) && Rank(t, a) == Rank(s, a) && t[a.node].level == s[a.node].level
  {
    NodeOk(s, K, root, all, a.node);
    assert a.node in t;
    if !s[a.node].leaf {
      var k := s[a.node].kids[a.pos];
      assert k in t && t[k] == s[k].(parent := t[k].parent, pos := t[k].pos);
    }
  }

  // ---------- removal ----------

  /** After a removal from a leaf the place of the first removed value denotes what followed them. */
  lemma RemoveEffects<V>(s: Store<int, V>, K: nat, root: int, rightmost: int, all: seq<V>, n: int, i: nat, c: nat, t: Store<int, V>)
    requires Shape(s, K, root, rightmost, all, 0) && n in s && s[n].leaf && 0 < c && i + c <= |s[n].slots|
    requires 0 !in s && Removed(s, n, i, c, t)
    ensures var k := s[n].off + i;
      && k + c <= |all| && Shape(t, K, root, rightmost, all[..k] + all[k + c..], n)
      && IsPlace(t, Iter(n, i)) && Rank(t, Iter(n, i)) == k
  {
    RemoveInv(s, K, root, all, n, i, c, t);
    LeafInBounds(s, K, root, all, n);
    LeafInBounds(s, K, root, all, rightmost);
    forall m | m in t && m != n ensures t[m].slots != [] {
      assert s[m].slots != [];
    }
  }

  lemma SetSlotEffects<V>(s: Store<int, V>, K: nat, root: int, rightmost: int, all: seq<V>, n: int, i: nat, v: V, t: Store<int, V>)
    requires Shape(s, K, root, rightmost, all, 0) && n in s && i < |s[n].slots| && !s[n].leaf
    requires t == s[n := s[n].(slots := s[n].slots[i := v])]
    ensures SlotRank(s, s[n], i) < |all| && Shape(t, K, root, rightmost, all[SlotRank(s, s[n], i) := v], 0)
  {
    SetSlotInv(s, K, root, all, n, i, v, t);
    forall m | m in t && m != 0 ensures t[m].slots != [] {
      assert s[m].slots != [];
    }
  }

  /** A canonical place before the end is a value. */
  lemma CanonicalValue<V>(s: Store<int, V>, K: nat, root: int, rightmost: int, all: seq<V>, it: Iter)
    requires Inv(s, K, root, all) && Ends(s, root, rightmost, all) && IsPlace(s, it) && IsCanonical(s, rightmost, it)
    ensures Rank(s, it) <= |all| && (IsValue(s, it) <==> Rank(s, it) < |all|)
  {
    PlaceRank(s, K, root, all, it);
    LeafInBounds(s, K, root, all, rightmost);
  }

  /** Canonical places are determined by their rank. */
  lemma CanonicalUnique<V>(s: Store<int, V>, K: nat, root: int, rightmost: int, all: seq<V>, a: Iter, b: Iter)
    requires Inv(s, K, root, all) && Ends(s, root, rightmost, all)
    requires IsPlace(s, a) && IsCanonical(s, rightmost, a) && IsPlace(s, b) && IsCanonical(s, rightmost, b)
    ensures Rank(s, a) == Rank(s, b) ==> a == b
  {
    CanonicalValue(s, K, root, rightmost, all, a);
    CanonicalValue(s, K, root, rightmost, all, b);
    if IsValue(s, a) && IsValue(s, b) { ValueUnique(s, K, root, all, a, b); }
  }
}
