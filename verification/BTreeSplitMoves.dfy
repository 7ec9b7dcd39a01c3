/** `split` and `merge` on the storage. */
module BTreeSplitMoves {
  import opened BTreeStore
  import opened BTreeRepartition
  import opened BTreeSplit
  import opened BTreeLinks
  import opened BTreeSlots
  import opened BTreeMoves

  /** The slot that becomes the delimiter: the split is biased towards the place of the insertion. */
  function SplitSlot(count: nat, insertPosition: nat, max: nat): (c: nat)
    requires 3 <= max && count == max
    ensures c < count && (c == 0 <==> insertPosition == 0) && (c + 1 == count <==> insertPosition == max)
    ensures 0 < insertPosition < max ==> 0 <= (count - c - 1) - c <= 1
  {
    var moved := if insertPosition == 0 then count - 1 else if insertPosition == max then 0 else count / 2;
    count - moved - 1
  }

  /** Makes room for one more child of `p` after position `i`, hangs `d` there and gives it the
  children of `n` after position `c`. */
  method RelinkSplit<V>(s: Store<int, V>, p: int, i: nat, ps: seq<int>, n: int, c: nat, ks: seq<int>, d: int, y: Cell<int, V>)
    returns (t: Store<int, V>)
    requires p in s && n in s && p != n && d !in s && i < |ps| && s[n].level + 1 == s[p].level
    requires y.parent == p && y.pos == i + 1 && y.level == s[n].level && (y.leaf || c < |ks|)
    requires Lists(s, p, ps, i + 1, |ps|) && (!y.leaf ==> Lists(s, n, ks, c + 1, |ks|))
    ensures t.Keys == s.Keys + {d} && t[d] == y
    ensures forall m {:trigger t[m]} :: m in s ==>
      t[m] == if !y.leaf && InRun(s, n, c + 1, |ks|, m) then s[m].(parent := d, pos := s[m].pos - (c + 1))
              else if InRun(s, p, i + 1, |ps|, m) then s[m].(pos := s[m].pos + 1) else s[m]
  {
    var u := Adopt(s, p, ps, i + 1, |ps|, p, i + 2);
    t := u[d := y];
    if !y.leaf {
      ListsRest(s, p, i + 1, |ps|, p, i + 2, u, n, ks, c + 1, |ks|);
      ghost var w := t;
      ListsGrow(u, n, ks, c + 1, |ks|, d, y);
      t := Adopt(t, n, ks, c + 1, |ks|, d, 0);
      forall m | m in s
        ensures t[m] == if InRun(s, n, c + 1, |ks|, m) then s[m].(parent := d, pos := s[m].pos - (c + 1))
              else if InRun(s, p, i + 1, |ps|, m) then s[m].(pos := s[m].pos + 1) else s[m]
      {
        assert u[m] == if InRun(s, p, i + 1, |ps|, m) then s[m].(parent := p, pos := s[m].pos - (i + 1) + (i + 2)) else s[m];
      }
    }
  }

  lemma ListsGrow<V>(s: Store<int, V>, r: int, ks: seq<int>, a: nat, b: nat, d: int, y: Cell<int, V>)
    requires Lists(s, r, ks, a, b) && d !in s && y.parent != r
    ensures Lists(s[d := y], r, ks, a, b)
  {
    var t := s[d := y];
    forall n | n in t && InRun(t, r, a, b, n) ensures ks[t[n].pos] == n {
      assert InRun(s, r, a, b, n);
    }
  }

  lemma SplitLinks<V>(s: Store<int, V>, K: nat, root: int, all: seq<V>, n: int, d: int, c: nat, u: Store<int, V>, t: Store<int, V>, m: int)
    requires Inv(s, K, root, all) && CanSplit(s, root, n, d, c) && m in s && m != n && m != s[n].parent && m in u && m in t
    requires n in u && s[n].parent in u && u[m] == s[m] && u[n].level == s[n].level && u[s[n].parent].level == s[s[n].parent].level
    requires var p, i := s[n].parent, s[n].pos;
      t[m] == if !s[n].leaf && InRun(u, n, c + 1, |s[n].kids|, m) then u[m].(parent := d, pos := u[m].pos - (c + 1))
              else if InRun(u, p, i + 1, |s[p].kids|, m) then u[m].(pos := u[m].pos + 1) else u[m]
    ensures t[m] == SplitHome(s, n, d, c, m)
  {
    assert CellOk(s, K, root, all, n) && CellOk(s, K, root, all, m);
    BelowRoot(s, K, root, all, n);
  }

  /** The split node and its parent keep their links. */
  lemma SplitKeepsLinks<V>(s: Store<int, V>, n: int, x: Cell<int, V>, p: int, z: Cell<int, V>, u: Store<int, V>)
    requires n in s && p in s && n != p && u == s[n := x][p := z]
    requires x.parent == s[n].parent && x.pos == s[n].pos && x.level == s[n].level
    requires z.parent == s[p].parent && z.pos == s[p].pos && z.level == s[p].level
    ensures SameLinks(s, u)
  {
  }

  /** The links after writing the halves `x`, `y` and the parent cell `z`. */
  method LinkSplit<V>(s: Store<int, V>, ghost K: nat, ghost root: int, ghost all: seq<V>, n: int, c: nat, d: int,
                      x: Cell<int, V>, z: Cell<int, V>, y: Cell<int, V>) returns (t: Store<int, V>)
    requires Inv(s, K, root, all) && CanSplit(s, root, n, d, c)
    requires x == s[n].(slots := x.slots, kids := x.kids, len := x.len)
    requires z == s[s[n].parent].(slots := z.slots, kids := z.kids)
    requires y.parent == s[n].parent && y.pos == s[n].pos + 1 && y.level == s[n].level && y.leaf == s[n].leaf
    ensures t.Keys == s.Keys + {d} && t[n] == x && t[s[n].parent] == z && t[d] == y
    ensures forall m {:trigger t[m]} :: m in s && m != n && m != s[n].parent ==> t[m] == SplitHome(s, n, d, c, m)
  {
    var p, i := s[n].parent, s[n].pos;
    BelowRoot(s, K, root, all, n);
    NodeUp(s, K, root, all, n);
    NodeOk(s, K, root, all, n);
    var u := s[n := x][p := z];
    SplitKeepsLinks(s, n, x, p, z, u);
    ListsMoved(s, K, root, all, u, p, i + 1, |s[p].kids|);
    if !y.leaf { ListsMoved(s, K, root, all, u, n, c + 1, |s[n].kids|); }
    t := RelinkSplit(u, p, i, s[p].kids, n, c, s[n].kids, d, y);
    forall m | m in s && m != n && m != p ensures t[m] == SplitHome(s, n, d, c, m) {
      SplitLinks(s, K, root, all, n, d, c, u, t, m);
    }
  }

  lemma SplitAllowed<V>(s: Store<int, V>, K: nat, root: int, all: seq<V>, n: int, c: nat, d: int)
    requires Inv(s, K, root, all) && n in s && n != root && d !in s && c < |s[n].slots|
    ensures CanSplit(s, root, n, d, c)
  {
    assert CellOk(s, K, root, all, n);
    assert CellOk(s, K, root, all, s[n].parent);
    SlotInSpan(s, K, root, all, n, c);
  }

  /** A leaf has no children to divide, but its parent gets the new node all the same. */
  method HalveChildren<V>(x: Cell<int, V>, c: nat, ps: seq<int>, i: nat, d: int) returns (l: seq<int>, p: seq<int>, r: seq<int>)
    requires i < |ps| && (x.leaf || c < |x.kids|)
    ensures p == With(ps, i + 1, d)
    ensures l == (if x.leaf then x.kids else x.kids[..c + 1]) && r == if x.leaf then x.kids else x.kids[c + 1..]
  {
    if x.leaf {
      p := AddKid(ps, i, d);
      l, r := x.kids, x.kids;
    } else {
      l, p, r := HalveKids(x.kids, c, ps, i, d);
    }
  }

  method SplitNode<V>(s: Store<int, V>, ghost K: nat, ghost root: int, ghost all: seq<V>, n: int, c: nat, d: int)
    returns (t: Store<int, V>)
    requires Inv(s, K, root, all) && n in s && n != root && d !in s && c < |s[n].slots|
    ensures CanSplit(s, root, n, d, c) && Split(s, root, n, d, c, t)
  {
    var p, i, x := s[n].parent, s[n].pos, s[n];
    SplitAllowed(s, K, root, all, n, c, d);
    ghost var e := SlotRank(s, x, c);
    var ls, ps, ds := Halve(x.slots, c, s[p].slots, i);
    var lk, pk, dk := HalveChildren(x, c, s[p].kids, i, d);
    t := LinkSplit(s, K, root, all, n, c, d, x.(slots := ls, kids := lk, len := e - x.off),
                   s[p].(slots := ps, kids := pk),
                   Cell(x.leaf, x.cap, p, i + 1, ds, dk, x.level, e + 1, x.End() - (e + 1)));
  }

  // ---------- merge ----------

  /** Gives the children of `r` to `l`, drops `r` and closes the gap in its parent. */
  method RelinkMerge<V>(s: Store<int, V>, p: int, i: nat, ps: seq<int>, l: int, lc: nat, r: int, ks: seq<int>)
    returns (t: Store<int, V>)
    requires p in s && l in s && r in s && p != l && p != r && l != r && s[l].level == s[r].level && s[r].level + 1 == s[p].level
    requires s[r].parent == p && s[r].pos == i + 1 && i + 1 < |ps|
    requires Lists(s, p, ps, i + 2, |ps|) && (!s[r].leaf ==> Lists(s, r, ks, 0, |ks|))
    ensures t.Keys == s.Keys - {r}
    ensures forall m {:trigger t[m]} :: m in s && m != r ==>
      t[m] == if !s[r].leaf && InRun(s, r, 0, |ks|, m) then s[m].(parent := l, pos := s[m].pos + lc)
              else if InRun(s, p, i + 2, |ps|, m) then s[m].(pos := s[m].pos - 1) else s[m]
  {
    var u := Adopt(s, p, ps, i + 2, |ps|, p, i + 1);
    t := u;
    if !s[r].leaf {
      ListsRest(s, p, i + 2, |ps|, p, i + 1, u, r, ks, 0, |ks|);
      t := Adopt(u, r, ks, 0, |ks|, l, lc);
    }
    forall m | m in s
      ensures t[m] == if !s[r].leaf && InRun(s, r, 0, |ks|, m) then s[m].(parent := l, pos := s[m].pos + lc)
              else if InRun(s, p, i + 2, |ps|, m) then s[m].(pos := s[m].pos - 1) else s[m]
    {
      assert u[m] == if InRun(s, p, i + 2, |ps|, m) then s[m].(parent := p, pos := s[m].pos - (i + 2) + (i + 1)) else s[m];
    }
    t := t - {r};
  }

  lemma MergeLinks<V>(s: Store<int, V>, K: nat, root: int, all: seq<V>, l: int, r: int, u: Store<int, V>, t: Store<int, V>, m: int)
    requires Inv(s, K, root, all) && Siblings(s, root, l, r) && m in s && m != l && m != r && m != s[l].parent && m in u && m in t
    requires r in u && s[l].parent in u && u[m] == s[m] && u[r] == s[r] && u[s[l].parent].level == s[s[l].parent].level
    requires var p, i := s[l].parent, s[l].pos;
      t[m] == if !s[r].leaf && InRun(u, r, 0, |s[r].kids|, m) then u[m].(parent := l, pos := u[m].pos + |s[l].kids|)
              else if InRun(u, p, i + 2, |s[p].kids|, m) then u[m].(pos := u[m].pos - 1) else u[m]
    ensures t[m] == MergeHome(s, l, r, m)
  {
    assert CellOk(s, K, root, all, l) && CellOk(s, K, root, all, m);
    BelowRoot(s, K, root, all, l);
  }

  /** The links after writing the merged cell `x` and the parent cell `z`. */
  method LinkMerge<V>(s: Store<int, V>, ghost K: nat, ghost root: int, ghost all: seq<V>, l: int, r: int,
                      x: Cell<int, V>, z: Cell<int, V>) returns (t: Store<int, V>)
    requires Inv(s, K, root, all) && Siblings(s, root, l, r)
    requires x == s[l].(slots := x.slots, kids := x.kids, len := x.len)
    requires z == s[s[l].parent].(slots := z.slots, kids := z.kids)
    ensures t.Keys == s.Keys - {r} && t[l] == x && t[s[l].parent] == z
    ensures forall m {:trigger t[m]} :: m in s && m != l && m != r && m != s[l].parent ==> t[m] == MergeHome(s, l, r, m)
  {
    var p, i := s[l].parent, s[l].pos;
    NodeUp(s, K, root, all, r);
    NodeOk(s, K, root, all, r);
    BelowRoot(s, K, root, all, l);
    var u := s[l := x][p := z];
    SplitKeepsLinks(s, l, x, p, z, u);
    ListsMoved(s, K, root, all, u, p, i + 2, |s[p].kids|);
    if !s[r].leaf { ListsMoved(s, K, root, all, u, r, 0, |s[r].kids|); }
    t := RelinkMerge(u, p, i, s[p].kids, l, |s[l].kids|, r, s[r].kids);
    forall m | m in s && m != l && m != r && m != p ensures t[m] == MergeHome(s, l, r, m) {
      MergeLinks(s, K, root, all, l, r, u, t, m);
    }
  }

  method Merge<V>(s: Store<int, V>, ghost K: nat, ghost root: int, ghost all: seq<V>, l: int, r: int)
    returns (t: Store<int, V>)
    requires Inv(s, K, root, all) && Siblings(s, root, l, r)
    ensures Merged(s, root, l, r, t)
  {
    var p, i, x, y := s[l].parent, s[l].pos, s[l], s[r];
    NodeOk(s, K, root, all, p);
    NodeUp(s, K, root, all, r);
    JoinedOk(s, K, root, all, l, r);
    var ls, ps := Fuse(x.slots, s[p].slots, i, y.slots);
    var lk, pk := FuseKids(x.kids, s[p].kids, i, y.kids);
    t := LinkMerge(s, K, root, all, l, r, x.(slots := ls, kids := lk, len := y.End() - x.off),
                   s[p].(slots := ps, kids := pk));
  }
}
