/** The node operations on the storage: each replaces the values and child lists of the nodes
involved and then relinks the children that changed place. */
module BTreeMoves {
  import opened BTreeStore
  import opened BTreeRepartition
  import opened BTreeLinks
  import opened BTreeSlots

  ghost predicate OthersSame<V>(s: Store<int, V>, l: int, r: int, p: int, t: Store<int, V>) {
    && t.Keys == s.Keys
    && forall n {:trigger t[n]} :: n in s && n != l && n != r && n != p ==> t[n] == s[n]
  }

  /** Writes three cells. */
  function Write<V>(s: Store<int, V>, l: int, x: Cell<int, V>, p: int, z: Cell<int, V>, r: int, y: Cell<int, V>): (u: Store<int, V>)
    requires l in s && p in s && r in s && l != p && l != r && p != r
    ensures OthersSame(s, l, r, p, u) && u[l] == x && u[p] == z && u[r] == y
  {
    s[l := x][p := z][r := y]
  }

  // ---------- rebalancing ----------

  /** Taking `m` values beyond the delimiter. */
  lemma TakeRight<T>(a: seq<T>, d: T, b: seq<T>, m: nat)
    requires 1 <= m <= |b|
    ensures (a + [d] + b)[..|a| + m] == LeftGains(a, d, b, m)
    ensures (a + [d] + b)[|a| + m] == b[m - 1] && (a + [d] + b)[|a| + m + 1..] == b[m..]
  {
  }

  lemma TakeKids<T>(a: seq<T>, b: seq<T>, m: nat)
    requires m <= |b|
    ensures (a + b)[..|a| + m] == LeftAdopts(a, b, m) && (a + b)[|a| + m..] == b[m..]
  {
  }

  /** Moves the child links of the first `m` children of `r` to `l` and renumbers the others. */
  method RelinkRightToLeft<V>(s: Store<int, V>, l: int, lc: nat, r: int, ks: seq<int>, m: nat)
    returns (t: Store<int, V>)
    requires l in s && r in s && l != r && s[l].level == s[r].level && m <= |ks|
    requires Lists(s, r, ks, 0, m) && Lists(s, r, ks, m, |ks|)
    ensures t.Keys == s.Keys
    ensures forall n {:trigger t[n]} :: n in s ==>
      t[n] == if InRun(s, r, 0, m, n) then s[n].(parent := l, pos := s[n].pos + lc)
              else if InRun(s, r, m, |ks|, n) then s[n].(pos := s[n].pos - m) else s[n]
  {
    var u := Adopt(s, r, ks, 0, m, l, lc);
    ListsRest(s, r, 0, m, l, lc, u, r, ks, m, |ks|);
    t := Adopt(u, r, ks, m, |ks|, r, 0);
    forall n | n in s
      ensures t[n] == if InRun(s, r, 0, m, n) then s[n].(parent := l, pos := s[n].pos + lc)
              else if InRun(s, r, m, |ks|, n) then s[n].(pos := s[n].pos - m) else s[n]
    {
      assert u[n] == if InRun(s, r, 0, m, n) then s[n].(parent := l, pos := s[n].pos - 0 + lc) else s[n];
    }
  }

  /** The links after `rebalance_right_to_left` are those of the repartition. */
  lemma RightToLeftLinks<V>(s: Store<int, V>, K: nat, root: int, all: seq<V>, l: int, m: nat, r: int,
                            u: Store<int, V>, t: Store<int, V>, n: int)
    requires Inv(s, K, root, all) && Siblings(s, root, l, r) && 1 <= m <= |s[r].slots| && !s[l].leaf
    requires OthersSame(s, l, r, s[l].parent, u) && u[r].level == s[r].level
    requires n in s && n != l && n != r && n != s[l].parent && n in t
    requires t[n] == if InRun(u, r, 0, m, n) then u[n].(parent := l, pos := u[n].pos + |s[l].kids|)
              else if InRun(u, r, m, |s[r].kids|, n) then u[n].(pos := u[n].pos - m) else u[n]
    ensures t[n] == Rehomed(s, l, r, |s[l].slots| + m, n)
  {
    assert CellOk(s, K, root, all, l) && CellOk(s, K, root, all, n);
    if n == root { assert CellOk(s, K, root, all, s[r].parent); }
  }

  lemma SidesKeepLinks<V>(s: Store<int, V>, root: int, l: int, r: int, c: nat, u: Store<int, V>)
    requires Siblings(s, root, l, r) && SidesMoved(s, root, l, r, c, u) && OthersSame(s, l, r, s[l].parent, u)
    ensures SameLinks(s, u)
  {
  }

  /** The new cells written out without the joined sequences. */
  lemma ShiftedRightToLeft<V>(s: Store<int, V>, root: int, l: int, m: nat, r: int, e: nat, u: Store<int, V>)
    requires Siblings(s, root, l, r) && 1 <= m <= |s[r].slots| && l in u && r in u && s[l].parent in u
    requires !s[l].leaf ==> |s[l].kids| == |s[l].slots| + 1 && |s[r].kids| == |s[r].slots| + 1
    requires !s[l].leaf ==> (s[l].kids + s[r].kids)[|s[l].slots| + m] in s
    requires e == JoinedRank(s, l, r, |s[l].slots| + m) && s[l].off <= e < s[r].End()
    requires var p, i, x, y := s[l].parent, s[l].pos, s[l], s[r];
      && u[l] == x.(slots := LeftGains(x.slots, s[p].slots[i], y.slots, m),
                    kids := if x.leaf then x.kids else LeftAdopts(x.kids, y.kids, m), len := e - x.off)
      && u[p] == s[p].(slots := s[p].slots[i := y.slots[m - 1]])
      && u[r] == y.(slots := y.slots[m..], kids := if x.leaf then y.kids else y.kids[m..],
                    off := e + 1, len := y.End() - (e + 1))
    ensures SidesMoved(s, root, l, r, |s[l].slots| + m, u)
  {
    TakeRight(s[l].slots, s[s[l].parent].slots[s[l].pos], s[r].slots, m);
    if !s[l].leaf { TakeKids(s[l].kids, s[r].kids, m); }
  }

  /** The values and child lists after `rebalance_right_to_left`. */
  method ShiftRightToLeft<V>(s: Store<int, V>, ghost K: nat, ghost root: int, ghost all: seq<V>, l: int, m: nat, r: int)
    returns (u: Store<int, V>)
    requires Inv(s, K, root, all) && Siblings(s, root, l, r) && 1 <= m <= |s[r].slots|
    ensures SidesMoved(s, root, l, r, |s[l].slots| + m, u) && OthersSame(s, l, r, s[l].parent, u)
  {
    var p, i := s[l].parent, s[l].pos;
    var x, y := s[l], s[r];
    JoinedRankOk(s, K, root, all, l, r, |x.slots| + m);
    ghost var e := JoinedRank(s, l, r, |x.slots| + m);
    assert CellOk(s, K, root, all, l) && CellOk(s, K, root, all, r);
    var ls, ps, rs := PassLeft(x.slots, s[p].slots, i, y.slots, m);
    var lk, rk := x.kids, y.kids;
    if !x.leaf { lk, rk := PassKidsLeft(x.kids, y.kids, m); }
    u := Write(s, l, x.(slots := ls, kids := lk, len := e - x.off), p, s[p].(slots := ps),
               r, y.(slots := rs, kids := rk, off := e + 1, len := y.End() - (e + 1)));
    ShiftedRightToLeft(s, root, l, m, r, e, u);
  }

  method RebalanceRightToLeft<V>(s: Store<int, V>, ghost K: nat, ghost root: int, ghost all: seq<V>, l: int, m: nat, r: int)
    returns (t: Store<int, V>)
    requires Inv(s, K, root, all) && Siblings(s, root, l, r) && 1 <= m <= |s[r].slots|
    ensures Repartitioned(s, root, l, r, |s[l].slots| + m, t)
  {
    t := ShiftRightToLeft(s, K, root, all, l, m, r);
    if !s[l].leaf {
      ghost var u := t;
      var ks := s[r].kids;
      SidesKeepLinks(s, root, l, r, |s[l].slots| + m, u);
      assert CellOk(s, K, root, all, r);
      ListsMoved(s, K, root, all, u, r, 0, m);
      ListsMoved(s, K, root, all, u, r, m, |ks|);
      t := RelinkRightToLeft(t, l, |s[l].kids|, r, ks, m);
      forall n | n in s && n != l && n != r && n != s[l].parent
        ensures t[n] == Rehomed(s, l, r, |s[l].slots| + m, n)
      {
        RightToLeftLinks(s, K, root, all, l, m, r, u, t, n);
      }
    }
  }

  /** Giving up the last `m` values before the delimiter. */
  lemma GiveLeft<T>(a: seq<T>, d: T, b: seq<T>, m: nat)
    requires 1 <= m <= |a|
    ensures (a + [d] + b)[..|a| - m] == a[..|a| - m]
    ensures (a + [d] + b)[|a| - m] == a[|a| - m] && (a + [d] + b)[|a| - m + 1..] == RightGains(a, d, b, m)
  {
  }

  lemma GiveKids<T>(a: seq<T>, b: seq<T>, m: nat)
    requires m <= |a|
    ensures (a + b)[..|a| - m] == a[..|a| - m] && (a + b)[|a| - m..] == RightAdopts(a, b, m)
  {
  }

  /** Renumbers the children of `r` and moves the last `m` children of `l` in front of them. */
  method RelinkLeftToRight<V>(s: Store<int, V>, l: int, js: seq<int>, m: nat, r: int, ks: seq<int>)
    returns (t: Store<int, V>)
    requires l in s && r in s && l != r && s[l].level == s[r].level && m <= |js|
    requires Lists(s, l, js, |js| - m, |js|) && Lists(s, r, ks, 0, |ks|)
    ensures t.Keys == s.Keys
    ensures forall n {:trigger t[n]} :: n in s ==>
      t[n] == if InRun(s, l, |js| - m, |js|, n) then s[n].(parent := r, pos := s[n].pos - (|js| - m))
              else if InRun(s, r, 0, |ks|, n) then s[n].(pos := s[n].pos + m) else s[n]
  {
    var u := Adopt(s, r, ks, 0, |ks|, r, m);
    ListsRest(s, r, 0, |ks|, r, m, u, l, js, |js| - m, |js|);
    t := Adopt(u, l, js, |js| - m, |js|, r, 0);
    forall n | n in s
      ensures t[n] == if InRun(s, l, |js| - m, |js|, n) then s[n].(parent := r, pos := s[n].pos - (|js| - m))
              else if InRun(s, r, 0, |ks|, n) then s[n].(pos := s[n].pos + m) else s[n]
    {
      assert u[n] == if InRun(s, r, 0, |ks|, n) then s[n].(parent := r, pos := s[n].pos - 0 + m) else s[n];
    }
  }

  lemma LeftToRightLinks<V>(s: Store<int, V>, K: nat, root: int, all: seq<V>, l: int, m: nat, r: int,
                            u: Store<int, V>, t: Store<int, V>, n: int)
    requires Inv(s, K, root, all) && Siblings(s, root, l, r) && 1 <= m <= |s[l].slots| && !s[l].leaf
    requires |s[l].kids| == |s[l].slots| + 1
    requires OthersSame(s, l, r, s[l].parent, u) && u[r].level == s[r].level == u[l].level
    requires n in s && n != l && n != r && n != s[l].parent && n in t
    requires t[n] == if InRun(u, l, |s[l].kids| - m, |s[l].kids|, n) then u[n].(parent := r, pos := u[n].pos - (|s[l].kids| - m))
              else if InRun(u, r, 0, |s[r].kids|, n) then u[n].(pos := u[n].pos + m) else u[n]
    ensures t[n] == Rehomed(s, l, r, |s[l].slots| - m, n)
  {
    assert CellOk(s, K, root, all, l) && CellOk(s, K, root, all, n);
    if n == root { assert CellOk(s, K, root, all, s[r].parent); }
  }

  lemma ShiftedLeftToRight<V>(s: Store<int, V>, root: int, l: int, m: nat, r: int, e: nat, u: Store<int, V>)
    requires Siblings(s, root, l, r) && 1 <= m <= |s[l].slots| && l in u && r in u && s[l].parent in u
    requires !s[l].leaf ==> |s[l].kids| == |s[l].slots| + 1 && |s[r].kids| == |s[r].slots| + 1
    requires !s[l].leaf ==> (s[l].kids + s[r].kids)[|s[l].slots| - m] in s
    requires e == JoinedRank(s, l, r, |s[l].slots| - m) && s[l].off <= e < s[r].End()
    requires var p, i, x, y := s[l].parent, s[l].pos, s[l], s[r];
      && u[l] == x.(slots := x.slots[..|x.slots| - m],
                    kids := if x.leaf then x.kids else x.kids[..|x.kids| - m], len := e - x.off)
      && u[p] == s[p].(slots := s[p].slots[i := x.slots[|x.slots| - m]])
      && u[r] == y.(slots := RightGains(x.slots, s[p].slots[i], y.slots, m),
                    kids := if x.leaf then y.kids else RightAdopts(x.kids, y.kids, m),
                    off := e + 1, len := y.End() - (e + 1))
    ensures SidesMoved(s, root, l, r, |s[l].slots| - m, u)
  {
    GiveLeft(s[l].slots, s[s[l].parent].slots[s[l].pos], s[r].slots, m);
    if !s[l].leaf { GiveKids(s[l].kids, s[r].kids, m); }
  }

  /** The values and child lists after `rebalance_left_to_right`. */
  method ShiftLeftToRight<V>(s: Store<int, V>, ghost K: nat, ghost root: int, ghost all: seq<V>, l: int, m: nat, r: int)
    returns (u: Store<int, V>)
    requires Inv(s, K, root, all) && Siblings(s, root, l, r) && 1 <= m <= |s[l].slots|
    ensures SidesMoved(s, root, l, r, |s[l].slots| - m, u) && OthersSame(s, l, r, s[l].parent, u)
  {
    var p, i := s[l].parent, s[l].pos;
    var x, y := s[l], s[r];
    JoinedRankOk(s, K, root, all, l, r, |x.slots| - m);
    ghost var e := JoinedRank(s, l, r, |x.slots| - m);
    assert CellOk(s, K, root, all, l) && CellOk(s, K, root, all, r);
    var ls, ps, rs := PassRight(x.slots, s[p].slots, i, y.slots, m);
    var lk, rk := x.kids, y.kids;
    if !x.leaf { lk, rk := PassKidsRight(x.kids, y.kids, m); }
    u := Write(s, l, x.(slots := ls, kids := lk, len := e - x.off), p, s[p].(slots := ps),
               r, y.(slots := rs, kids := rk, off := e + 1, len := y.End() - (e + 1)));
    ShiftedLeftToRight(s, root, l, m, r, e, u);
  }

  /** The links after `rebalance_left_to_right`. */
  method LinkLeftToRight<V>(s: Store<int, V>, ghost K: nat, ghost root: int, ghost all: seq<V>, l: int, m: nat, r: int,
                            u: Store<int, V>) returns (t: Store<int, V>)
    requires Inv(s, K, root, all) && Siblings(s, root, l, r) && 1 <= m <= |s[l].slots| && !s[l].leaf
    requires SidesMoved(s, root, l, r, |s[l].slots| - m, u) && OthersSame(s, l, r, s[l].parent, u)
    ensures Repartitioned(s, root, l, r, |s[l].slots| - m, t)
  {
    var js, ks := s[l].kids, s[r].kids;
    SidesKeepLinks(s, root, l, r, |s[l].slots| - m, u);
    assert CellOk(s, K, root, all, l) && CellOk(s, K, root, all, r);
    ListsMoved(s, K, root, all, u, l, |js| - m, |js|);
    ListsMoved(s, K, root, all, u, r, 0, |ks|);
    t := RelinkLeftToRight(u, l, js, m, r, ks);
    forall n | n in s && n != l && n != r && n != s[l].parent
      ensures t[n] == Rehomed(s, l, r, |s[l].slots| - m, n)
    {
      LeftToRightLinks(s, K, root, all, l, m, r, u, t, n);
    }
  }

  method RebalanceLeftToRight<V>(s: Store<int, V>, ghost K: nat, ghost root: int, ghost all: seq<V>, l: int, m: nat, r: int)
    returns (t: Store<int, V>)
    requires Inv(s, K, root, all) && Siblings(s, root, l, r) && 1 <= m <= |s[l].slots|
    ensures Repartitioned(s, root, l, r, |s[l].slots| - m, t)
  {
    t := ShiftLeftToRight(s, K, root, all, l, m, r);
    if !s[l].leaf { t := LinkLeftToRight(s, K, root, all, l, m, r, t); }
  }
}
