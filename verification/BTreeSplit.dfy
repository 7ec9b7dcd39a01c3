/** Splitting a node in two and merging two siblings into one. */
module BTreeSplit {
  import opened BTreeStore
  import opened BTreeSlots
  import opened BTreeRepartition

  // ---------- split ----------

  /** The link of a node after `n` was split at slot `c` into `n` and `d`. */
  ghost function SplitHome<N, V>(s: Store<N, V>, n: N, d: N, c: nat, m: N): Cell<N, V>
    requires n in s && m in s
  {
    var x := s[m];
    if !s[n].leaf && x.parent == n && x.level + 1 == s[n].level && x.pos > c then
      x.(parent := d, pos := x.pos - c - 1)
    else if x.parent == s[n].parent && x.level == s[n].level && x.pos > s[n].pos then
      x.(pos := x.pos + 1)
    else
      x
  }

  ghost predicate CanSplit<N, V>(s: Store<N, V>, root: N, n: N, d: N, c: nat)
  {
    && n in s && n != root && d !in s && c < |s[n].slots|
    && s[n].parent in s && !s[s[n].parent].leaf
    && s[n].pos < |s[s[n].parent].kids| == |s[s[n].parent].slots| + 1
    && (s[n].leaf || (|s[n].kids| == |s[n].slots| + 1 && s[n].kids[c] in s))
    && s[n].off <= SlotRank(s, s[n], c) < s[n].End()
  }

  /** `t` is `s` after moving everything right of slot `c` of `n` to the new node `d`,
  with the value of slot `c` as the new delimiter in the parent. */
  ghost predicate Split<N, V>(s: Store<N, V>, root: N, n: N, d: N, c: nat, t: Store<N, V>)
    requires CanSplit(s, root, n, d, c)
  {
    var p, i, x := s[n].parent, s[n].pos, s[n];
    var e := SlotRank(s, x, c);
    && t.Keys == s.Keys + {d}
    && t[n] == x.(slots := x.slots[..c], kids := if x.leaf then x.kids else x.kids[..c + 1], len := e - x.off)
    && t[d] == Cell(x.leaf, x.cap, p, i + 1, x.slots[c + 1..], if x.leaf then x.kids else x.kids[c + 1..],
                    x.level, e + 1, x.End() - (e + 1))
    && t[p] == s[p].(slots := With(s[p].slots, i, x.slots[c]), kids := With(s[p].kids, i + 1, d))
    && forall m {:trigger t[m]} :: m in s && m != n && m != p ==> t[m] == SplitHome(s, n, d, c, m)
  }

  lemma SplitUpParent<N, V>(s: Store<N, V>, root: N, n: N, d: N, c: nat, t: Store<N, V>)
    requires CanSplit(s, root, n, d, c) && Split(s, root, n, d, c, t) && UpOk(s, n) && UpOk(s, s[n].parent)
    ensures UpOk(t, s[n].parent)
  {
    var q := s[s[n].parent].parent;
    assert q != n && q != s[n].parent;
    assert t[q] == SplitHome(s, n, d, c, q);
  }

  lemma SplitUpSelf<N, V>(s: Store<N, V>, root: N, n: N, d: N, c: nat, t: Store<N, V>)
    requires CanSplit(s, root, n, d, c) && Split(s, root, n, d, c, t) && UpOk(s, n)
    ensures UpOk(t, n)
  {
    SplitPlace(s[s[n].parent].kids, s[n].pos, d, s[n].pos);
  }

  lemma SplitUpSibling<N, V>(s: Store<N, V>, root: N, n: N, d: N, c: nat, t: Store<N, V>, m: N)
    requires CanSplit(s, root, n, d, c) && Split(s, root, n, d, c, t) && UpOk(s, n)
    requires m in s && UpOk(s, m) && m != n && s[m].parent == s[n].parent
    ensures UpOk(t, m)
  {
    SplitPlace(s[s[n].parent].kids, s[n].pos, d, s[m].pos);
    assert t[m] == SplitHome(s, n, d, c, m);
  }

  lemma SplitUpKid<N, V>(s: Store<N, V>, root: N, n: N, d: N, c: nat, t: Store<N, V>, m: N)
    requires CanSplit(s, root, n, d, c) && Split(s, root, n, d, c, t) && UpOk(s, n)
    requires m in s && UpOk(s, m) && s[m].parent == n
    ensures UpOk(t, m)
  {
    assert m != n && m != s[n].parent;
    assert t[m] == SplitHome(s, n, d, c, m);
  }

  lemma SplitUpOther<N, V>(s: Store<N, V>, root: N, n: N, d: N, c: nat, t: Store<N, V>, m: N)
    requires CanSplit(s, root, n, d, c) && Split(s, root, n, d, c, t) && UpOk(s, n)
    requires m in s && UpOk(s, m) && m != n && m != s[n].parent && s[m].parent != n && s[m].parent != s[n].parent
    ensures UpOk(t, m)
  {
    var q := s[m].parent;
    assert t[m] == SplitHome(s, n, d, c, m) && t[q] == SplitHome(s, n, d, c, q);
  }

  lemma SplitUp<N, V>(s: Store<N, V>, root: N, n: N, d: N, c: nat, t: Store<N, V>, m: N)
    requires CanSplit(s, root, n, d, c) && Split(s, root, n, d, c, t) && UpOk(s, n)
    requires m in s && UpOk(s, m)
    ensures UpOk(t, m)
  {
    if m == n {
      SplitUpSelf(s, root, n, d, c, t);
    } else if m == s[n].parent {
      SplitUpParent(s, root, n, d, c, t);
    } else if s[m].parent == n {
      SplitUpKid(s, root, n, d, c, t, m);
    } else if s[m].parent == s[n].parent {
      SplitUpSibling(s, root, n, d, c, t, m);
    } else {
      SplitUpOther(s, root, n, d, c, t, m);
    }
  }

  /** Where a child stands after one more was put behind child `i`. */
  lemma SplitPlace<T>(a: seq<T>, i: nat, d: T, j: nat)
    requires i < |a| && j < |a|
    ensures With(a, i + 1, d)[if j <= i then j else j + 1] == a[j]
  {
  }

  lemma SplitKids<N, V>(s: Store<N, V>, root: N, n: N, d: N, c: nat, t: Store<N, V>, m: N)
    requires CanSplit(s, root, n, d, c) && Split(s, root, n, d, c, t)
    requires m in s && m != n && m != s[n].parent && Homes(s, m, s[m].kids, s[m].level)
    ensures Homes(t, m, s[m].kids, s[m].level)
    ensures forall i {:trigger s[m].kids[i]} :: 0 <= i < |s[m].kids| ==> SameSpan(s, t, s[m].kids[i])
  {
    forall i | 0 <= i < |s[m].kids|
      ensures var k := s[m].kids[i];
        k in t && t[k] == s[k].(slots := t[k].slots, kids := t[k].kids)
    {
      var k := s[m].kids[i];
      assert k != s[n].parent ==> t[k] == SplitHome(s, n, d, c, k);
    }
  }

  lemma SplitDeals<N, V>(s: Store<N, V>, root: N, n: N, d: N, c: nat, t: Store<N, V>)
    requires CanSplit(s, root, n, d, c) && Split(s, root, n, d, c, t) && s[s[n].parent].level == s[n].level + 1
    requires Homes(s, n, s[n].kids, s[n].level) && !s[n].leaf
    ensures Dealt(s, t, s[n].kids, n, d, c)
  {
    forall j | 0 <= j < |s[n].kids|
      ensures var k := s[n].kids[j];
        k in t && t[k] == s[k].(parent := if j <= c then n else d, pos := if j <= c then j else j - c - 1)
    {
      assert t[s[n].kids[j]] == SplitHome(s, n, d, c, s[n].kids[j]);
    }
  }

  lemma SplitHalves<N, V>(s: Store<N, V>, root: N, all: seq<V>, n: N, d: N, c: nat, t: Store<N, V>)
    requires CanSplit(s, root, n, d, c) && Split(s, root, n, d, c, t) && s[s[n].parent].level == s[n].level + 1
    requires if s[n].leaf then LeafOk(all, s[n]) else InternalOk(s, all, n, s[n])
    ensures if s[n].leaf then LeafOk(all, t[n]) && LeafOk(all, t[d]) else InternalOk(t, all, n, t[n]) && InternalOk(t, all, d, t[d])
  {
    if !s[n].leaf {
      SplitDeals(s, root, n, d, c, t);
      CutCells(s, t, all, s[n].kids, s[n].slots, c, n, t[n], d, t[d]);
    }
  }

  lemma SplitSiblings<N, V>(s: Store<N, V>, root: N, n: N, d: N, c: nat, t: Store<N, V>)
    requires CanSplit(s, root, n, d, c) && Split(s, root, n, d, c, t) && UpOk(s, n)
    requires var p := s[n].parent; Homes(s, p, s[p].kids, s[p].level)
    ensures var p := s[n].parent; Homes(t, p, t[p].kids, t[p].level)
    ensures var ks := s[s[n].parent].kids;
      forall j {:trigger ks[j]} :: 0 <= j < |ks| && j != s[n].pos ==> SameSpan(s, t, ks[j])
  {
    var p, i := s[n].parent, s[n].pos;
    var ks := s[p].kids;
    forall j | 0 <= j < |ks| && j != i
      ensures ks[j] in t && t[ks[j]] == s[ks[j]].(pos := if j <= i then j else j + 1)
    {
      assert t[ks[j]] == SplitHome(s, n, d, c, ks[j]);
    }
  }

  lemma SplitParent<N, V>(s: Store<N, V>, root: N, all: seq<V>, n: N, d: N, c: nat, t: Store<N, V>)
    requires CanSplit(s, root, n, d, c) && Split(s, root, n, d, c, t) && UpOk(s, n)
    requires s[n].End() <= |all| && all[SlotRank(s, s[n], c)] == s[n].slots[c]
    requires InternalOk(s, all, s[n].parent, s[s[n].parent])
    ensures InternalOk(t, all, s[n].parent, t[s[n].parent])
  {
    var p, i := s[n].parent, s[n].pos;
    var ks, vs := s[p].kids, s[p].slots;
    SplitSiblings(s, root, n, d, c, t);
    assert Between(t, all, [n, d], [s[n].slots[c]], 0);
    ChainSplice(s, t, all, ks, vs, s[p].off, s[p].End(), i, i, [n, d], [s[n].slots[c]]);
    assert ks[..i] + [n, d] + ks[i + 1..] == t[p].kids;
  }

  lemma SplitOther<N, V>(s: Store<N, V>, K: nat, root: N, all: seq<V>, n: N, d: N, c: nat, t: Store<N, V>, m: N)
    requires CanSplit(s, root, n, d, c) && Split(s, root, n, d, c, t) && UpOk(s, n) && root in s
    requires m in s && m != n && m != s[n].parent && CellOk(s, K, root, all, m)
    ensures CellOk(t, K, root, all, m)
  {
    if m != root { SplitUp(s, root, n, d, c, t, m); }
    if !s[m].leaf { SplitKids(s, root, n, d, c, t, m); }
    assert s[root].level <= t[root].level && t[m] == s[m].(parent := t[m].parent, pos := t[m].pos);
    KeepCell(s, t, K, root, all, m);
  }

  lemma SplitNear<N, V>(s: Store<N, V>, K: nat, root: N, all: seq<V>, n: N, d: N, c: nat, t: Store<N, V>, m: N)
    requires Inv(s, K, root, all) && CanSplit(s, root, n, d, c) && Split(s, root, n, d, c, t)
    requires |s[s[n].parent].slots| < K
    requires m == n || m == d || m == s[n].parent
    ensures CellOk(t, K, root, all, m)
  {
    assert CellOk(s, K, root, all, n) && CellOk(s, K, root, all, s[n].parent);
    if m != root && m != d { SplitUp(s, root, n, d, c, t, m); }
    if m == s[n].parent {
      SlotInSpan(s, K, root, all, n, c);
      SplitParent(s, root, all, n, d, c, t);
    } else {
      SplitHalves(s, root, all, n, d, c, t);
    }
  }

  /** Splitting a node below a parent with room keeps the invariant. */
  lemma SplitInv<N, V>(s: Store<N, V>, K: nat, root: N, all: seq<V>, n: N, d: N, c: nat, t: Store<N, V>)
    requires Inv(s, K, root, all) && CanSplit(s, root, n, d, c) && Split(s, root, n, d, c, t)
    requires |s[s[n].parent].slots| < K
    ensures Inv(t, K, root, all)
  {
    assert root in t && t[root].off == 0 && t[root].len == |all|;
    assert CellOk(s, K, root, all, n);
    forall m | m in t ensures CellOk(t, K, root, all, m) {
      if m == n || m == d || m == s[n].parent {
        SplitNear(s, K, root, all, n, d, c, t, m);
      } else {
        assert CellOk(s, K, root, all, m);
        SplitOther(s, K, root, all, n, d, c, t, m);
      }
    }
  }

  // ---------- merge ----------

  /** The link of a node after `r` was merged into its left sibling `l`. */
  ghost function MergeHome<N, V>(s: Store<N, V>, l: N, r: N, m: N): Cell<N, V>
    requires l in s && r in s && m in s
  {
    var x := s[m];
    if !s[l].leaf && x.parent == r && x.level + 1 == s[r].level then
      x.(parent := l, pos := |s[l].kids| + x.pos)
    else if x.parent == s[l].parent && x.level == s[l].level && x.pos > s[l].pos + 1 then
      x.(pos := x.pos - 1)
    else
      x
  }

  /** `t` is `s` after moving the delimiter and everything in `r` to the end of `l`. */
  ghost predicate Merged<N, V>(s: Store<N, V>, root: N, l: N, r: N, t: Store<N, V>)
    requires Siblings(s, root, l, r)
  {
    var p, i := s[l].parent, s[l].pos;
    && |s[p].kids| == |s[p].slots| + 1 && s[l].off <= s[r].End()
    && t.Keys == s.Keys - {r}
    && t[l] == s[l].(slots := JoinedSlots(s, root, l, r), kids := s[l].kids + s[r].kids, len := s[r].End() - s[l].off)
    && t[p] == s[p].(slots := Without(s[p].slots, i, 1), kids := Without(s[p].kids, i + 1, 1))
    && forall m {:trigger t[m]} :: m in s && m != l && m != r && m != p ==> t[m] == MergeHome(s, l, r, m)
  }

  lemma MergeUp<N, V>(s: Store<N, V>, root: N, l: N, r: N, t: Store<N, V>, m: N)
    requires Siblings(s, root, l, r) && Merged(s, root, l, r, t) && UpOk(s, l) && UpOk(s, r)
    requires m in s && m != r && UpOk(s, m)
    ensures UpOk(t, m)
  {
    if m != l && m != s[l].parent {
      assert t[m] == MergeHome(s, l, r, m);
    }
  }

  lemma MergeKids<N, V>(s: Store<N, V>, root: N, l: N, r: N, t: Store<N, V>, m: N)
    requires Siblings(s, root, l, r) && Merged(s, root, l, r, t)
    requires m in s && m != l && m != r && m != s[l].parent && Homes(s, m, s[m].kids, s[m].level)
    ensures Homes(t, m, s[m].kids, s[m].level)
    ensures forall i {:trigger s[m].kids[i]} :: 0 <= i < |s[m].kids| ==> SameSpan(s, t, s[m].kids[i])
  {
    forall i | 0 <= i < |s[m].kids|
      ensures var k := s[m].kids[i];
        k in t && t[k] == s[k].(slots := t[k].slots, kids := t[k].kids)
    {
      var k := s[m].kids[i];
      assert k != r;
      assert k != s[l].parent ==> t[k] == MergeHome(s, l, r, k);
    }
  }

  lemma MergeAdopts<N, V>(s: Store<N, V>, root: N, l: N, r: N, t: Store<N, V>)
    requires Siblings(s, root, l, r) && Merged(s, root, l, r, t) && !s[l].leaf
    requires Homes(s, l, s[l].kids, s[l].level) && Homes(s, r, s[r].kids, s[r].level)
    ensures Homes(t, l, t[l].kids, t[l].level)
    ensures forall j {:trigger t[l].kids[j]} :: 0 <= j < |t[l].kids| ==> SameSpan(s, t, t[l].kids[j])
  {
    var ks := s[l].kids + s[r].kids;
    forall j | 0 <= j < |ks|
      ensures ks[j] in s && ks[j] in t && t[ks[j]] == s[ks[j]].(parent := l, pos := j) && s[ks[j]].level + 1 == s[l].level
    {
      if j < |s[l].kids| {
        assert ks[j] == s[l].kids[j];
      } else {
        assert ks[j] == s[r].kids[j - |s[l].kids|];
      }
      assert t[ks[j]] == MergeHome(s, l, r, ks[j]);
    }
  }

  lemma MergeSiblings<N, V>(s: Store<N, V>, root: N, l: N, r: N, t: Store<N, V>)
    requires Siblings(s, root, l, r) && Merged(s, root, l, r, t) && UpOk(s, l) && UpOk(s, r)
    requires var p := s[l].parent; Homes(s, p, s[p].kids, s[p].level)
    ensures var p := s[l].parent; Homes(t, p, t[p].kids, t[p].level)
    ensures var ks := s[s[l].parent].kids;
      forall j {:trigger ks[j]} :: 0 <= j < |ks| && j != s[l].pos && j != s[r].pos ==> SameSpan(s, t, ks[j])
  {
    var p, i := s[l].parent, s[l].pos;
    var ks := s[p].kids;
    forall j | 0 <= j < |ks| && j != i && j != i + 1
      ensures ks[j] in t && t[ks[j]] == s[ks[j]].(pos := if j <= i then j else j - 1)
    {
      assert t[ks[j]] == MergeHome(s, l, r, ks[j]);
    }
  }

  lemma WithoutNext<T>(a: seq<T>, i: nat, x: T)
    requires i + 1 < |a| && a[i] == x
    ensures a[..i] + [x] + a[i + 2..] == Without(a, i + 1, 1)
  {
  }

  lemma MergeParent<N, V>(s: Store<N, V>, root: N, all: seq<V>, l: N, r: N, t: Store<N, V>)
    requires Siblings(s, root, l, r) && Merged(s, root, l, r, t) && UpOk(s, l) && UpOk(s, r)
    requires InternalOk(s, all, s[l].parent, s[s[l].parent])
    ensures InternalOk(t, all, s[l].parent, t[s[l].parent])
  {
    var p, i := s[l].parent, s[l].pos;
    var ks, vs := s[p].kids, s[p].slots;
    MergeSiblings(s, root, l, r, t);
    ChainSplice(s, t, all, ks, vs, s[p].off, s[p].End(), i, i + 1, [l], []);
    WithoutNext(ks, i, l);
    assert vs[..i] + [] + vs[i + 1..] == Without(vs, i, 1);
  }

  lemma MergeOther<N, V>(s: Store<N, V>, K: nat, root: N, all: seq<V>, l: N, r: N, t: Store<N, V>, m: N)
    requires Siblings(s, root, l, r) && Merged(s, root, l, r, t) && UpOk(s, l) && UpOk(s, r) && root in s
    requires m in s && m != l && m != r && m != s[l].parent && CellOk(s, K, root, all, m)
    ensures CellOk(t, K, root, all, m)
  {
    if m != root { MergeUp(s, root, l, r, t, m); }
    if !s[m].leaf { MergeKids(s, root, l, r, t, m); }
    assert s[root].level <= t[root].level && t[m] == s[m].(parent := t[m].parent, pos := t[m].pos);
    KeepCell(s, t, K, root, all, m);
  }

  lemma MergeNear<N, V>(s: Store<N, V>, K: nat, root: N, all: seq<V>, l: N, r: N, t: Store<N, V>, m: N)
    requires Inv(s, K, root, all) && Siblings(s, root, l, r) && Merged(s, root, l, r, t)
    requires |JoinedSlots(s, root, l, r)| <= K
    requires m == l || m == s[l].parent
    ensures CellOk(t, K, root, all, m)
  {
    assert CellOk(s, K, root, all, l) && CellOk(s, K, root, all, r) && CellOk(s, K, root, all, s[l].parent);
    if m != root { MergeUp(s, root, l, r, t, m); }
    if m == s[l].parent {
      MergeParent(s, root, all, l, r, t);
    } else {
      JoinedOk(s, K, root, all, l, r);
      if !s[l].leaf {
        MergeAdopts(s, root, l, r, t);
        ChainFrame(s, t, all, t[l].kids, t[l].slots, t[l].off, t[l].End());
      }
    }
  }

  /** Merging two siblings that fit together keeps the invariant. */
  lemma MergeInv<N, V>(s: Store<N, V>, K: nat, root: N, all: seq<V>, l: N, r: N, t: Store<N, V>)
    requires Inv(s, K, root, all) && Siblings(s, root, l, r) && Merged(s, root, l, r, t)
    requires |JoinedSlots(s, root, l, r)| <= K
    ensures Inv(t, K, root, all)
  {
    assert root in t && t[root].off == 0 && t[root].len == |all|;
    assert CellOk(s, K, root, all, l) && CellOk(s, K, root, all, r);
    forall m | m in t ensures CellOk(t, K, root, all, m) {
      if m == l || m == s[l].parent {
        MergeNear(s, K, root, all, l, r, t, m);
      } else {
        assert CellOk(s, K, root, all, m);
        MergeOther(s, K, root, all, l, r, t, m);
      }
    }
  }
}
