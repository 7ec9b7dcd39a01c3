/** Moving values between two neighbouring siblings through their delimiter.

Both rebalancing directions are one operation here: the values of the left node, the
delimiter in the parent and the values of the right node form one sequence, and the
operation chooses a new position `c` for the delimiter in it. */
module BTreeRepartition {
  import opened BTreeStore

  ghost predicate Siblings<N, V>(s: Store<N, V>, root: N, l: N, r: N)
  {
    && l in s && r in s && l != root && r != root
    && s[l].parent in s && s[r].parent == s[l].parent && s[r].pos == s[l].pos + 1
    && s[l].pos < |s[s[l].parent].slots|
    && s[l].leaf == s[r].leaf && s[l].level == s[r].level
    && s[s[l].parent].level == s[l].level + 1
  }

  /** The values of both siblings with the delimiter between them. */
  ghost function JoinedSlots<N, V>(s: Store<N, V>, root: N, l: N, r: N): seq<V>
    requires Siblings(s, root, l, r)
  {
    s[l].slots + [s[s[l].parent].slots[s[l].pos]] + s[r].slots
  }

  /** Rank of the `c`-th joined value. */
  ghost function JoinedRank<N, V>(s: Store<N, V>, l: N, r: N, c: nat): nat
    requires l in s && r in s
    requires !s[l].leaf ==> c < |s[l].kids + s[r].kids| && (s[l].kids + s[r].kids)[c] in s
  {
    if s[l].leaf then s[l].off + c else s[(s[l].kids + s[r].kids)[c]].End()
  }

  /** Two siblings and their delimiter hold one contiguous piece of the contents. */
  lemma JoinedOk<N, V>(s: Store<N, V>, K: nat, root: N, all: seq<V>, l: N, r: N)
    requires Inv(s, K, root, all) && Siblings(s, root, l, r)
    ensures s[r].off == s[l].End() + 1 && s[r].End() <= |all|
    ensures s[l].leaf ==> JoinedSlots(s, root, l, r) == all[s[l].off..s[r].End()]
    ensures !s[l].leaf ==> Chain(s, all, s[l].kids + s[r].kids, JoinedSlots(s, root, l, r), s[l].off, s[r].End())
  {
    var p, i := s[l].parent, s[l].pos;
    assert CellOk(s, K, root, all, p) && CellOk(s, K, root, all, l) && CellOk(s, K, root, all, r);
    assert Between(s, all, s[p].kids, s[p].slots, i);
    if !s[l].leaf {
      ChainJoin(s, all, s[l].kids, s[l].slots, s[l].off, s[l].End(), s[r].kids, s[r].slots, s[r].End());
    }
  }

  /** The cell of a node other than `l`, `r` and their parent: children of `l` and `r` may change home. */
  ghost function Rehomed<N, V>(s: Store<N, V>, l: N, r: N, c: nat, n: N): Cell<N, V>
    requires l in s && r in s && n in s
  {
    var x := s[n];
    if s[l].leaf || x.level + 1 != s[l].level || (x.parent != l && x.parent != r) then x
    else
      var j := if x.parent == l then x.pos else |s[l].kids| + x.pos;
      if j <= c then x.(parent := l, pos := j) else x.(parent := r, pos := j - c - 1)
  }

  /** The new cells of the two siblings and of their parent. */
  ghost predicate SidesMoved<N, V>(s: Store<N, V>, root: N, l: N, r: N, c: nat, t: Store<N, V>)
    requires Siblings(s, root, l, r)
  {
    var p, i := s[l].parent, s[l].pos;
    var vs, ks := JoinedSlots(s, root, l, r), s[l].kids + s[r].kids;
    && c < |vs|
    && (!s[l].leaf ==> |ks| == |vs| + 1 && ks[c] in s)
    && var e := JoinedRank(s, l, r, c);
    && e + 1 <= s[r].End() && s[l].off <= e
    && l in t && r in t && p in t
    && t[l] == s[l].(slots := vs[..c], kids := if s[l].leaf then s[l].kids else ks[..c + 1], len := e - s[l].off)
    && t[r] == s[r].(slots := vs[c + 1..], kids := if s[l].leaf then s[r].kids else ks[c + 1..],
                     off := e + 1, len := s[r].End() - (e + 1))
    && t[p] == s[p].(slots := s[p].slots[i := vs[c]])
  }

  /** `t` is `s` after choosing the `c`-th joined value as the new delimiter. */
  ghost predicate Repartitioned<N, V>(s: Store<N, V>, root: N, l: N, r: N, c: nat, t: Store<N, V>)
    requires Siblings(s, root, l, r)
  {
    && t.Keys == s.Keys && SidesMoved(s, root, l, r, c, t)
    && forall n {:trigger t[n]} :: n in s && n != l && n != r && n != s[l].parent ==> t[n] == Rehomed(s, l, r, c, n)
  }

  /** The first `c + 1` of the nodes `ks` become the children of `l`, the others those of `r`. */
  ghost predicate Dealt<N, V>(s: Store<N, V>, t: Store<N, V>, ks: seq<N>, l: N, r: N, c: nat) {
    forall j {:trigger ks[j]} :: 0 <= j < |ks| ==>
      ks[j] in s && ks[j] in t &&
      t[ks[j]] == s[ks[j]].(parent := if j <= c then l else r, pos := if j <= c then j else j - c - 1)
  }

  lemma DealtHomes<N, V>(s: Store<N, V>, t: Store<N, V>, ks: seq<N>, l: N, r: N, c: nat, level: nat)
    requires Dealt(s, t, ks, l, r, c) && c < |ks|
    requires forall j {:trigger ks[j]} :: 0 <= j < |ks| ==> s[ks[j]].level + 1 == level
    ensures Homes(t, l, ks[..c + 1], level) && Homes(t, r, ks[c + 1..], level)
    ensures forall j {:trigger ks[j]} :: 0 <= j < |ks| ==> SameSpan(s, t, ks[j])
  {
  }

  lemma RepartitionDeals<N, V>(s: Store<N, V>, root: N, l: N, r: N, c: nat, t: Store<N, V>)
    requires Siblings(s, root, l, r) && Repartitioned(s, root, l, r, c, t) && !s[l].leaf
    requires Homes(s, l, s[l].kids, s[l].level) && Homes(s, r, s[r].kids, s[r].level)
    ensures Dealt(s, t, s[l].kids + s[r].kids, l, r, c)
    ensures forall j {:trigger (s[l].kids + s[r].kids)[j]} :: 0 <= j < |s[l].kids + s[r].kids| ==>
      s[(s[l].kids + s[r].kids)[j]].level + 1 == s[l].level
  {
    var ks := s[l].kids + s[r].kids;
    forall j | 0 <= j < |ks|
      ensures ks[j] in s && ks[j] in t && s[ks[j]].level + 1 == s[l].level
      ensures t[ks[j]] == s[ks[j]].(parent := if j <= c then l else r, pos := if j <= c then j else j - c - 1)
    {
      if j < |s[l].kids| {
        RepartitionDealsOne(s, root, l, r, c, t, l, j, ks[j]);
      } else {
        RepartitionDealsOne(s, root, l, r, c, t, r, j - |s[l].kids|, ks[j]);
      }
    }
  }

  lemma RepartitionDealsOne<N, V>(s: Store<N, V>, root: N, l: N, r: N, c: nat, t: Store<N, V>, p: N, i: nat, n: N)
    requires Siblings(s, root, l, r) && Repartitioned(s, root, l, r, c, t) && !s[l].leaf && (p == l || p == r)
    requires Homes(s, p, s[p].kids, s[p].level) && i < |s[p].kids| && n == s[p].kids[i]
    ensures n in s && n in t && s[n].level + 1 == s[l].level
    ensures var j := if p == l then i else |s[l].kids| + i;
      t[n] == s[n].(parent := if j <= c then l else r, pos := if j <= c then j else j - c - 1)
  {
    assert t[n] == Rehomed(s, l, r, c, n);
  }

  lemma JoinedRankOk<N, V>(s: Store<N, V>, K: nat, root: N, all: seq<V>, l: N, r: N, c: nat)
    requires Inv(s, K, root, all) && Siblings(s, root, l, r) && c < |JoinedSlots(s, root, l, r)|
    ensures !s[l].leaf ==> |s[l].kids + s[r].kids| == |JoinedSlots(s, root, l, r)| + 1 && (s[l].kids + s[r].kids)[c] in s
    ensures s[l].off <= JoinedRank(s, l, r, c) < s[r].End() <= |all|
    ensures all[JoinedRank(s, l, r, c)] == JoinedSlots(s, root, l, r)[c]
  {
    JoinedOk(s, K, root, all, l, r);
    var ks, vs := s[l].kids + s[r].kids, JoinedSlots(s, root, l, r);
    if !s[l].leaf {
      assert Between(s, all, ks, vs, c);
      ChainBounds(s, all, ks, vs, s[l].off, s[r].End(), c);
      ChainBounds(s, all, ks, vs, s[l].off, s[r].End(), c + 1);
    } else {
      assert CellOk(s, K, root, all, l) && CellOk(s, K, root, all, r);
    }
  }

  /** The cells of the two halves `x` and `y` of a cut chain. */
  lemma CutCells<N, V>(s: Store<N, V>, t: Store<N, V>, all: seq<V>, ks: seq<N>, vs: seq<V>, c: nat,
                       l: N, x: Cell<N, V>, r: N, y: Cell<N, V>)
    requires x.level == y.level > 0 && c < |vs|
    requires Chain(s, all, ks, vs, x.off, y.End()) && Dealt(s, t, ks, l, r, c)
    requires forall j {:trigger ks[j]} :: 0 <= j < |ks| ==> s[ks[j]].level + 1 == x.level
    requires x.kids == ks[..c + 1] && x.slots == vs[..c] && x.End() == s[ks[c]].End()
    requires y.kids == ks[c + 1..] && y.slots == vs[c + 1..] && y.off == s[ks[c]].End() + 1
    ensures InternalOk(t, all, l, x) && InternalOk(t, all, r, y)
  {
    DealtHomes(s, t, ks, l, r, c, x.level);
    ChainCut(s, all, ks, vs, x.off, y.End(), c);
    ChainFrame(s, t, all, x.kids, x.slots, x.off, x.End());
    ChainFrame(s, t, all, y.kids, y.slots, y.off, y.End());
  }

  lemma RepartitionLeaves<N, V>(s: Store<N, V>, root: N, all: seq<V>, l: N, r: N, c: nat, t: Store<N, V>)
    requires Siblings(s, root, l, r) && SidesMoved(s, root, l, r, c, t) && s[l].leaf
    requires LeafOk(all, s[l]) && LeafOk(all, s[r]) && s[r].off == s[l].End() + 1
    requires JoinedSlots(s, root, l, r) == all[s[l].off..s[r].End()]
    ensures LeafOk(all, t[l]) && LeafOk(all, t[r])
  {
    var o, vs := s[l].off, JoinedSlots(s, root, l, r);
    assert vs[..c] == all[o..o + c];
    assert vs[c + 1..] == all[o + c + 1..s[r].End()];
  }

  lemma RepartitionInternals<N, V>(s: Store<N, V>, root: N, all: seq<V>, l: N, r: N, c: nat, t: Store<N, V>)
    requires Siblings(s, root, l, r) && Repartitioned(s, root, l, r, c, t) && !s[l].leaf && 0 < s[l].level
    requires Homes(s, l, s[l].kids, s[l].level) && Homes(s, r, s[r].kids, s[r].level)
    requires Chain(s, all, s[l].kids + s[r].kids, JoinedSlots(s, root, l, r), s[l].off, s[r].End())
    ensures InternalOk(t, all, l, t[l]) && InternalOk(t, all, r, t[r])
  {
    RepartitionDeals(s, root, l, r, c, t);
    CutCells(s, t, all, s[l].kids + s[r].kids, JoinedSlots(s, root, l, r), c, l, t[l], r, t[r]);
  }

  lemma RepartitionSides<N, V>(s: Store<N, V>, K: nat, root: N, all: seq<V>, l: N, r: N, c: nat, t: Store<N, V>)
    requires Inv(s, K, root, all) && Siblings(s, root, l, r) && Repartitioned(s, root, l, r, c, t)
    ensures s[l].leaf ==> LeafOk(all, t[l]) && LeafOk(all, t[r])
    ensures !s[l].leaf ==> InternalOk(t, all, l, t[l]) && InternalOk(t, all, r, t[r])
  {
    NodeOk(s, K, root, all, l);
    NodeOk(s, K, root, all, r);
    JoinedOk(s, K, root, all, l, r);
    if s[l].leaf {
      RepartitionLeaves(s, root, all, l, r, c, t);
    } else {
      RepartitionInternals(s, root, all, l, r, c, t);
    }
  }

  /** A parent whose `i`-th delimiter and the two neighbouring spans moved together. */
  lemma ParentCell<N, V>(s: Store<N, V>, t: Store<N, V>, all: seq<V>, n: N, x: Cell<N, V>, y: Cell<N, V>, i: nat)
    requires InternalOk(s, all, n, x) && i < |x.slots| && Homes(t, n, x.kids, x.level)
    requires y == x.(slots := y.slots, parent := y.parent, pos := y.pos) && |y.slots| == |x.slots|
    requires y.slots == x.slots[i := y.slots[i]]
    requires forall j {:trigger x.kids[j]} :: 0 <= j < |x.kids| && j != i && j != i + 1 ==> SameSpan(s, t, x.kids[j])
    requires t[x.kids[i]].off == s[x.kids[i]].off && t[x.kids[i + 1]].End() == s[x.kids[i + 1]].End()
    requires t[x.kids[i]].End() < |all| && all[t[x.kids[i]].End()] == y.slots[i]
    requires t[x.kids[i + 1]].off == t[x.kids[i]].End() + 1
    ensures InternalOk(t, all, n, y)
  {
    forall j | 0 <= j < |y.slots| ensures Between(t, all, y.kids, y.slots, j) {
      assert Between(s, all, x.kids, x.slots, j);
    }
  }

  lemma RepartitionUp<N, V>(s: Store<N, V>, root: N, l: N, r: N, c: nat, t: Store<N, V>, n: N)
    requires Siblings(s, root, l, r) && Repartitioned(s, root, l, r, c, t)
    requires n in s && UpOk(s, n)
    ensures UpOk(t, n)
  {
    var ks := s[l].kids + s[r].kids;
    if n != l && n != r && n != s[l].parent && !s[l].leaf && s[n].level + 1 == s[l].level {
      if s[n].parent == l {
        assert ks[s[n].pos] == n;
      } else if s[n].parent == r {
        assert ks[|s[l].kids| + s[n].pos] == n;
      }
    }
  }

  /** The children of every other node keep their place and, except for `l` and `r`, their span. */
  lemma RepartitionKids<N, V>(s: Store<N, V>, root: N, l: N, r: N, c: nat, t: Store<N, V>, n: N)
    requires Siblings(s, root, l, r) && Repartitioned(s, root, l, r, c, t)
    requires n in s && n != l && n != r && Homes(s, n, s[n].kids, s[n].level)
    ensures Homes(t, n, s[n].kids, s[n].level)
    ensures forall i {:trigger s[n].kids[i]} :: 0 <= i < |s[n].kids| && s[n].kids[i] != l && s[n].kids[i] != r ==>
      SameSpan(s, t, s[n].kids[i])
  {
    forall i | 0 <= i < |s[n].kids| && s[n].kids[i] != l && s[n].kids[i] != r
      ensures s[n].kids[i] in t && t[s[n].kids[i]] == s[s[n].kids[i]].(slots := t[s[n].kids[i]].slots)
    {
      var k := s[n].kids[i];
      assert k != s[l].parent ==> t[k] == Rehomed(s, l, r, c, k);
    }
  }

  lemma RepartitionParent<N, V>(s: Store<N, V>, K: nat, root: N, all: seq<V>, l: N, r: N, c: nat, t: Store<N, V>)
    requires Inv(s, K, root, all) && Siblings(s, root, l, r) && Repartitioned(s, root, l, r, c, t)
    ensures InternalOk(t, all, s[l].parent, t[s[l].parent])
  {
    var p, i := s[l].parent, s[l].pos;
    assert CellOk(s, K, root, all, p) && CellOk(s, K, root, all, l) && CellOk(s, K, root, all, r);
    JoinedRankOk(s, K, root, all, l, r, c);
    RepartitionKids(s, root, l, r, c, t, p);
    ParentCell(s, t, all, p, s[p], t[p], i);
  }

  lemma RepartitionOther<N, V>(s: Store<N, V>, K: nat, root: N, all: seq<V>, l: N, r: N, c: nat, t: Store<N, V>, n: N)
    requires Siblings(s, root, l, r) && Repartitioned(s, root, l, r, c, t) && root in s
    requires n in s && n != l && n != r && n != s[l].parent && CellOk(s, K, root, all, n)
    ensures CellOk(t, K, root, all, n)
  {
    if n != root { RepartitionUp(s, root, l, r, c, t, n); }
    if !s[n].leaf { RepartitionKids(s, root, l, r, c, t, n); }
    assert s[root].level <= t[root].level && t[n] == s[n].(parent := t[n].parent, pos := t[n].pos);
    KeepCell(s, t, K, root, all, n);
  }

  lemma RepartitionNear<N, V>(s: Store<N, V>, K: nat, root: N, all: seq<V>, l: N, r: N, c: nat, t: Store<N, V>, n: N)
    requires Inv(s, K, root, all) && Siblings(s, root, l, r) && Repartitioned(s, root, l, r, c, t)
    requires c <= s[l].cap && |JoinedSlots(s, root, l, r)| - c - 1 <= s[r].cap
    requires n == l || n == r || n == s[l].parent
    ensures CellOk(t, K, root, all, n)
  {
    assert CellOk(s, K, root, all, n);
    if n != root { RepartitionUp(s, root, l, r, c, t, n); }
    if n == s[l].parent {
      RepartitionParent(s, K, root, all, l, r, c, t);
    } else {
      RepartitionSides(s, K, root, all, l, r, c, t);
      JoinedRankOk(s, K, root, all, l, r, c);
    }
  }

  /** Rebalancing two siblings keeps the invariant and every value in its place in the order. */
  lemma RepartitionInv<N, V>(s: Store<N, V>, K: nat, root: N, all: seq<V>, l: N, r: N, c: nat, t: Store<N, V>)
    requires Inv(s, K, root, all) && Siblings(s, root, l, r) && Repartitioned(s, root, l, r, c, t)
    requires c <= s[l].cap && |JoinedSlots(s, root, l, r)| - c - 1 <= s[r].cap
    ensures Inv(t, K, root, all)
  {
    assert root in t && t[root].off == 0 && t[root].len == |all|;
    forall n | n in t ensures CellOk(t, K, root, all, n) {
      if n == l || n == r || n == s[l].parent {
        RepartitionNear(s, K, root, all, l, r, c, t, n);
      } else {
        assert CellOk(s, K, root, all, n);
        RepartitionOther(s, K, root, all, l, r, c, t, n);
      }
    }
  }
}
