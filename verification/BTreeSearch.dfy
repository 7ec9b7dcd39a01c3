/** Searching inside one node and through the whole tree. */
module BTreeSearch {
  import opened BTreeStore
  import opened BTreePosition
  import opened BTreeIterator
  import opened BTreeEdit

  /** The key order and the search strategy of a container. `linear` and `compareTo` choose
  between the node searches, `multi` allows equal keys. */
  datatype Order<!Key, !V> = Order(key: V -> Key, less: (Key, Key) -> bool, multi: bool, linear: bool, compareTo: bool)
  {
    /** Holds for the values before the lower bound of `k`. */
    function Below(k: Key): V -> bool { v => less(key(v), k) }

    /** Holds for the values before the upper bound of `k`. */
    function NotAbove(k: Key): V -> bool { v => !less(k, key(v)) }

    /** Three-way comparison of a value's key with `k`. */
    function Compare(k: Key): V -> int {
      v => if less(key(v), k) then -1 else if less(k, key(v)) then 1 else 0
    }

    predicate Equal(k: Key, v: V) { !less(key(v), k) && !less(k, key(v)) }
  }

  ghost predicate StrictWeakOrder<Key(!new)>(less: (Key, Key) -> bool) {
    && (forall a :: !less(a, a))
    && (forall a, b, c :: less(a, b) && less(b, c) ==> less(a, c))
    && (forall a, b, c :: !less(a, b) && !less(b, c) ==> !less(a, c))
  }

  ghost predicate Sorted<Key, V>(o: Order<Key, V>, all: seq<V>) {
    forall i, j {:trigger all[i], all[j]} :: 0 <= i < j < |all| ==>
      !o.less(o.key(all[j]), o.key(all[i])) && (!o.multi ==> o.less(o.key(all[i]), o.key(all[j])))
  }

  /** `r` is where the values satisfying `before` end. */
  ghost predicate Cuts<V>(all: seq<V>, before: V -> bool, r: nat) {
    && r <= |all|
    && (forall i {:trigger all[i]} :: 0 <= i < r ==> before(all[i]))
    && (forall i {:trigger all[i]} :: r <= i < |all| ==> !before(all[i]))
  }

  ghost predicate Monotone<V>(all: seq<V>, before: V -> bool) {
    forall i, j {:trigger all[i], all[j]} :: 0 <= i < j < |all| && before(all[j]) ==> before(all[i])
  }

  /** The reference: a scan from the front for the first value not satisfying `before`. */
  ghost function Scan<V>(all: seq<V>, before: V -> bool): nat {
    if all == [] || !before(all[0]) then 0 else 1 + Scan(all[1..], before)
  }

  lemma {:induction false} CutIsScan<V>(all: seq<V>, before: V -> bool, r: nat)
    requires Cuts(all, before, r)
    ensures r == Scan(all, before)
  {
    if r > 0 { CutIsScan(all[1..], before, r - 1); }
  }

  lemma {:induction false} ScanCuts<V>(all: seq<V>, before: V -> bool)
    requires Monotone(all, before)
    ensures Cuts(all, before, Scan(all, before))
  {
    if all != [] {
      assert Monotone(all[1..], before);
      ScanCuts(all[1..], before);
      if before(all[0]) {
        forall i | 0 < i < |all| ensures before(all[i]) <==> i < Scan(all, before) {
          assert all[i] == all[1..][i - 1];
        }
      } else {
        forall i | 0 <= i < |all| ensures !before(all[i]) { }
      }
    }
  }

  lemma SortedMonotone<Key(!new), V>(o: Order<Key, V>, all: seq<V>, k: Key)
    requires StrictWeakOrder(o.less) && Sorted(o, all)
    ensures Monotone(all, o.Below(k)) && Monotone(all, o.NotAbove(k))
  {
  }

  // ---------- inside one node ----------

  method LinearSearch<V>(vs: seq<V>, before: V -> bool) returns (p: nat)
    requires Monotone(vs, before)
    ensures Cuts(vs, before, p)
  {
    p := 0;
    while p < |vs|
      invariant p <= |vs| && forall i {:trigger vs[i]} :: 0 <= i < p ==> before(vs[i])
    {
      if !before(vs[p]) { break; }
      p := p + 1;
    }
  }

  method BinarySearch<V>(vs: seq<V>, before: V -> bool) returns (p: nat)
    requires Monotone(vs, before)
    ensures Cuts(vs, before, p)
  {
    p := 0;
    var e := |vs|;
    while p != e
      invariant p <= e <= |vs|
      invariant forall i {:trigger vs[i]} :: 0 <= i < p ==> before(vs[i])
      invariant forall i {:trigger vs[i]} :: e <= i < |vs| ==> !before(vs[i])
      decreases e - p
    {
      var mid := (p + e) / 2;
      if before(vs[mid]) {
        p := mid + 1;
      } else {
        e := mid;
      }
    }
  }

  method LinearSearchCompareTo<V>(vs: seq<V>, compare: V -> int) returns (p: nat, exact: bool)
    requires Monotone(vs, v => compare(v) < 0)
    ensures Cuts(vs, v => compare(v) < 0, p) && (exact <==> p < |vs| && compare(vs[p]) == 0)
  {
    p := 0;
    while p < |vs|
      invariant p <= |vs| && forall i {:trigger vs[i]} :: 0 <= i < p ==> compare(vs[i]) < 0
    {
      var c := compare(vs[p]);
      if c == 0 { return p, true; }
      if c > 0 { break; }
      p := p + 1;
    }
    exact := false;
  }

  method BinarySearchCompareTo<V>(vs: seq<V>, compare: V -> int, multi: bool) returns (p: nat, exact: bool)
    requires Monotone(vs, v => compare(v) < 0) && Monotone(vs, v => compare(v) <= 0)
    requires multi || forall i, j {:trigger vs[i], vs[j]} :: 0 <= i < j < |vs| ==> compare(vs[i]) != 0 || compare(vs[j]) != 0
    ensures Cuts(vs, v => compare(v) < 0, p) && (exact <==> p < |vs| && compare(vs[p]) == 0)
  {
    p, exact := 0, false;
    var e := |vs|;
    while p != e
      invariant p <= e <= |vs|
      invariant forall i {:trigger vs[i]} :: 0 <= i < p ==> compare(vs[i]) < 0
      invariant forall i {:trigger vs[i]} :: e <= i < |vs| ==> compare(vs[i]) >= 0
      invariant exact <==> e < |vs| && compare(vs[e]) == 0
      decreases e - p
    {
      var mid := (p + e) / 2;
      var c := compare(vs[mid]);
      if c < 0 {
        p := mid + 1;
      } else if multi {
        e := mid;
        if c == 0 { exact := true; }
      } else if c > 0 {
        e := mid;
      } else {
        return mid, true;
      }
    }
  }

  method NodeLowerBound<Key(!new), V>(o: Order<Key, V>, vs: seq<V>, k: Key) returns (p: nat, exact: bool)
    requires StrictWeakOrder(o.less) && Sorted(o, vs)
    ensures Cuts(vs, o.Below(k), p)
    ensures o.compareTo ==> (exact <==> p < |vs| && o.Equal(k, vs[p]))
  {
    SortedMonotone(o, vs, k);
    exact := false;
    if o.compareTo {
      if o.linear {
        p, exact := LinearSearchCompareTo(vs, o.Compare(k));
      } else {
        p, exact := BinarySearchCompareTo(vs, o.Compare(k), o.multi);
      }
    } else if o.linear {
      p := LinearSearch(vs, o.Below(k));
    } else {
      p := BinarySearch(vs, o.Below(k));
    }
  }

  method NodeUpperBound<Key(!new), V>(o: Order<Key, V>, vs: seq<V>, k: Key) returns (p: nat)
    requires StrictWeakOrder(o.less) && Sorted(o, vs)
    ensures Cuts(vs, o.NotAbove(k), p)
  {
    SortedMonotone(o, vs, k);
    if o.linear {
      p := LinearSearch(vs, o.NotAbove(k));
    } else {
      p := BinarySearch(vs, o.NotAbove(k));
    }
  }

  // ---------- through the tree ----------

  lemma NodeSorted<Key(!new), V>(o: Order<Key, V>, s: Store<int, V>, K: nat, root: int, all: seq<V>, n: int)
    requires Inv(s, K, root, all) && Sorted(o, all) && n in s
    ensures Sorted(o, s[n].slots)
  {
    var vs := s[n].slots;
    assert CellOk(s, K, root, all, n);
    forall i, j | 0 <= i < j < |vs|
      ensures !o.less(o.key(vs[j]), o.key(vs[i])) && (!o.multi ==> o.less(o.key(vs[i]), o.key(vs[j])))
    {
      SlotInSpan(s, K, root, all, n, i);
      SlotInSpan(s, K, root, all, n, j);
      if !s[n].leaf {
        ChainOrder(s, all, s[n].kids, vs, s[n].off, s[n].End(), i, j);
      }
      assert all[SlotRank(s, s[n], i)] == vs[i] && all[SlotRank(s, s[n], j)] == vs[j];
    }
  }

  /** The search has not yet ruled out the places from `lo` to `hi`. */
  ghost predicate Narrowed<V>(all: seq<V>, before: V -> bool, lo: nat, hi: nat) {
    && lo <= hi <= |all|
    && (forall i {:trigger all[i]} :: 0 <= i < lo ==> before(all[i]))
    && (forall i {:trigger all[i]} :: hi <= i < |all| ==> !before(all[i]))
  }

  lemma StepDown<V>(s: Store<int, V>, K: nat, root: int, all: seq<V>, n: int, before: V -> bool, p: nat)
    requires Inv(s, K, root, all) && n in s && !s[n].leaf && Monotone(all, before)
    requires Narrowed(all, before, s[n].off, s[n].End()) && Cuts(s[n].slots, before, p)
    ensures p < |s[n].kids| && s[n].kids[p] in s && s[s[n].kids[p]].level < s[n].level
    ensures Narrowed(all, before, s[s[n].kids[p]].off, s[s[n].kids[p]].End())
    ensures if p < |s[n].slots| then s[s[n].kids[p]].End() < |all| && all[s[s[n].kids[p]].End()] == s[n].slots[p]
            else s[s[n].kids[p]].End() == s[n].End()
  {
    var x := s[n];
    assert CellOk(s, K, root, all, n);
    var c := x.kids[p];
    assert CellOk(s, K, root, all, c);
    if p > 0 {
      assert Between(s, all, x.kids, x.slots, p - 1);
      assert before(all[s[c].off - 1]);
    }
    if p < |x.slots| {
      assert Between(s, all, x.kids, x.slots, p);
      assert !before(all[s[c].End()]);
    }
  }

  lemma AtLeaf<V>(s: Store<int, V>, K: nat, root: int, all: seq<V>, n: int, before: V -> bool, p: nat)
    requires Inv(s, K, root, all) && n in s && s[n].leaf
    requires Narrowed(all, before, s[n].off, s[n].End()) && Cuts(s[n].slots, before, p)
    ensures Cuts(all, before, s[n].off + p)
  {
    assert CellOk(s, K, root, all, n);
    forall i | s[n].off <= i < s[n].End() ensures before(all[i]) <==> i < s[n].off + p {
      assert all[i] == s[n].slots[i - s[n].off];
    }
  }

  /** A slot whose rank lies inside the span of `n` is in `n` or below it. */
  lemma SlotInside<V>(s: Store<int, V>, K: nat, root: int, all: seq<V>, n: int, m: int, i: nat)
    requires Inv(s, K, root, all) && n in s && m in s && i < |s[m].slots|
    requires s[n].off <= SlotRank(s, s[m], i) < s[n].End()
    ensures s[m].level <= s[n].level && (s[m].level == s[n].level ==> m == n)
  {
    SlotInSpan(s, K, root, all, m, i);
    assert CellOk(s, K, root, all, m) && CellOk(s, K, root, all, n);
    if s[m].level == s[n].level {
      if m != n { SpansApart(s, K, root, all, m, n); }
    } else if s[m].level > s[n].level {
      var kid := s[m].kids[i];
      var a := Above(s, K, root, all, n, s[kid].level);
      if a != kid { SpansApart(s, K, root, all, a, kid); }
    }
  }

  /** No value with key `k` is stored higher than `it`, and none at its level before it. */
  ghost predicate Topmost<Key, V>(o: Order<Key, V>, s: Store<int, V>, k: Key, it: Iter)
    requires it.node in s
  {
    forall m, i {:trigger s[m].slots[i]} :: m in s && 0 <= i < |s[m].slots| && o.Equal(k, s[m].slots[i]) ==>
      s[m].level <= s[it.node].level && (s[m].level == s[it.node].level ==> m == it.node && it.pos <= i)
  }

  /** A match in the node the search has reached is topmost. */
  lemma ReachedTopmost<Key(!new), V>(o: Order<Key, V>, s: Store<int, V>, K: nat, root: int, all: seq<V>, it: Iter, k: Key)
    requires Inv(s, K, root, all) && StrictWeakOrder(o.less) && Sorted(o, all) && it.node in s && 0 <= it.pos
    requires Narrowed(all, o.Below(k), s[it.node].off, s[it.node].End()) && Cuts(s[it.node].slots, o.Below(k), it.pos)
    requires s[it.node].End() < |all| ==> !o.Equal(k, all[s[it.node].End()])
    ensures Topmost(o, s, k, it)
  {
    var e := s[it.node].End();
    forall m, i | m in s && 0 <= i < |s[m].slots| && o.Equal(k, s[m].slots[i])
      ensures s[m].level <= s[it.node].level && (s[m].level == s[it.node].level ==> m == it.node && it.pos <= i)
    {
      SlotInSpan(s, K, root, all, m, i);
      var r := SlotRank(s, s[m], i);
      assert all[r] == s[m].slots[i];
      if e < |all| { assert !o.Equal(k, all[e]) && !o.Below(k)(all[e]); }
      SlotInside(s, K, root, all, it.node, m, i);
    }
  }

  /** The leaf place where a search for the lower bound of `k` ends, or an exact match met on the way. */
  method Locate<Key(!new), V>(o: Order<Key, V>, s: Store<int, V>, ghost K: nat, root: int, ghost all: seq<V>, k: Key,
                              stopAtMatch: bool) returns (it: Iter, exact: bool)
    requires Inv(s, K, root, all) && StrictWeakOrder(o.less) && Sorted(o, all)
    requires stopAtMatch ==> o.compareTo
    ensures IsPlace(s, it)
    ensures exact ==> stopAtMatch && IsValue(s, it) && o.Equal(k, s[it.node].slots[it.pos])
    ensures exact && (s[it.node].leaf || !o.multi) ==> Cuts(all, o.Below(k), Rank(s, it))
    ensures !exact ==> s[it.node].leaf && Cuts(all, o.Below(k), Rank(s, it))
    ensures stopAtMatch && !exact && Rank(s, it) < |all| ==> !o.Equal(k, all[Rank(s, it)])
    ensures exact ==> Topmost(o, s, k, it)
  {
    SortedMonotone(o, all, k);
    it, exact := Iter(root, 0), false;
    assert CellOk(s, K, root, all, root);
    while true
      invariant it.node in s && Narrowed(all, o.Below(k), s[it.node].off, s[it.node].End())
      invariant stopAtMatch && s[it.node].End() < |all| ==> !o.Equal(k, all[s[it.node].End()])
      decreases s[it.node].level
    {
      NodeSorted(o, s, K, root, all, it.node);
      var p, match_ := NodeLowerBound(o, s[it.node].slots, k);
      it := Iter(it.node, p);
      if stopAtMatch && match_ {
        exact := true;
        ReachedTopmost(o, s, K, root, all, it, k);
        if s[it.node].leaf { AtLeaf(s, K, root, all, it.node, o.Below(k), p); }
        else { ExactInside(o, s, K, root, all, it, k); }
        return;
      }
      if s[it.node].leaf {
        AtLeaf(s, K, root, all, it.node, o.Below(k), p);
        assert CellOk(s, K, root, all, it.node);
        break;
      }
      StepDown(s, K, root, all, it.node, o.Below(k), p);
      it := Iter(s[it.node].kids[p], it.pos);
    }
  }

  /** In a container of unique keys a matching value is the lower bound. */
  lemma ExactInside<Key(!new), V>(o: Order<Key, V>, s: Store<int, V>, K: nat, root: int, all: seq<V>, it: Iter, k: Key)
    requires Inv(s, K, root, all) && StrictWeakOrder(o.less) && Sorted(o, all)
    requires IsValue(s, it) && o.Equal(k, s[it.node].slots[it.pos])
    ensures !o.multi ==> Cuts(all, o.Below(k), Rank(s, it))
  {
    PlaceRank(s, K, root, all, it);
  }

  method UpperPlace<Key(!new), V>(o: Order<Key, V>, s: Store<int, V>, ghost K: nat, root: int, ghost all: seq<V>, k: Key)
    returns (it: Iter)
    requires Inv(s, K, root, all) && StrictWeakOrder(o.less) && Sorted(o, all)
    ensures IsPlace(s, it) && s[it.node].leaf && Cuts(all, o.NotAbove(k), Rank(s, it))
  {
    SortedMonotone(o, all, k);
    it := Iter(root, 0);
    assert CellOk(s, K, root, all, root);
    while true
      invariant it.node in s && Narrowed(all, o.NotAbove(k), s[it.node].off, s[it.node].End())
      decreases s[it.node].level
    {
      NodeSorted(o, s, K, root, all, it.node);
      var p := NodeUpperBound(o, s[it.node].slots, k);
      it := Iter(it.node, p);
      if s[it.node].leaf {
        AtLeaf(s, K, root, all, it.node, o.NotAbove(k), p);
        break;
      }
      StepDown(s, K, root, all, it.node, o.NotAbove(k), p);
      it := Iter(s[it.node].kids[p], it.pos);
    }
  }

  /** Moves a place at the end of a leaf up to the value it stands before; address 0 if there is none. */
  method InternalLast<V>(s: Store<int, V>, ghost K: nat, ghost root: int, ghost rightmost: int, ghost all: seq<V>, it: Iter)
    returns (r: Iter)
    requires Inv(s, K, root, all) && Ends(s, root, rightmost, all) && 0 !in s && IsPlace(s, it)
    ensures Rank(s, it) <= |all| && (r.node == 0 <==> Rank(s, it) == |all|)
    ensures r.node != 0 ==> IsValue(s, r) && Rank(s, r) == Rank(s, it)
  {
    r := it;
    PlaceRank(s, K, root, all, it);
    assert CellOk(s, K, root, all, it.node);
    while r.pos == |s[r.node].slots|
      invariant r.node in s && 0 <= r.pos <= |s[r.node].slots|
      invariant (if r.pos < |s[r.node].slots| then Rank(s, r) else s[r.node].End()) == Rank(s, it)
      invariant s[r.node].level <= s[root].level
      decreases s[root].level - s[r.node].level
    {
      RootLink(s, K, root, rightmost, all, r.node);
      if r.node != root { EndOfNode(s, K, root, all, r.node); assert CellOk(s, K, root, all, s[r.node].parent); }
      r := Iter(s[r.node].parent, s[r.node].pos);
      if s[r.node].leaf {
        r := Iter(0, r.pos);
        return;
      }
    }
    PlaceRank(s, K, root, all, r);
  }

  /** The first value whose key is not less than `k`. */
  method InternalLowerBound<Key(!new), V>(o: Order<Key, V>, s: Store<int, V>, ghost K: nat, root: int,
                                          ghost rightmost: int, ghost all: seq<V>, k: Key) returns (r: Iter)
    requires Inv(s, K, root, all) && Ends(s, root, rightmost, all) && 0 !in s
    requires StrictWeakOrder(o.less) && Sorted(o, all)
    ensures r.node == 0 <==> Scan(all, o.Below(k)) == |all|
    ensures r.node != 0 ==> IsValue(s, r) && Rank(s, r) == Scan(all, o.Below(k))
  {
    var it, _ := Locate(o, s, K, root, all, k, false);
    CutIsScan(all, o.Below(k), Rank(s, it));
    r := InternalLast(s, K, root, rightmost, all, it);
  }

  /** The first value whose key is greater than `k`. */
  method InternalUpperBound<Key(!new), V>(o: Order<Key, V>, s: Store<int, V>, ghost K: nat, root: int,
                                          ghost rightmost: int, ghost all: seq<V>, k: Key) returns (r: Iter)
    requires Inv(s, K, root, all) && Ends(s, root, rightmost, all) && 0 !in s
    requires StrictWeakOrder(o.less) && Sorted(o, all)
    ensures r.node == 0 <==> Scan(all, o.NotAbove(k)) == |all|
    ensures r.node != 0 ==> IsValue(s, r) && Rank(s, r) == Scan(all, o.NotAbove(k))
  {
    var it := UpperPlace(o, s, K, root, all, k);
    CutIsScan(all, o.NotAbove(k), Rank(s, it));
    r := InternalLast(s, K, root, rightmost, all, it);
  }

  /** If the lower bound is not a match, nothing is. */
  lemma NoneEqual<Key(!new), V>(o: Order<Key, V>, all: seq<V>, k: Key, r: nat)
    requires StrictWeakOrder(o.less) && Sorted(o, all) && Cuts(all, o.Below(k), r)
    requires r < |all| ==> !o.Equal(k, all[r])
    ensures forall i {:trigger all[i]} :: 0 <= i < |all| ==> !o.Equal(k, all[i])
  {
    forall i | 0 <= i < |all| ensures !o.Equal(k, all[i]) {
      if r < i { assert !o.less(o.key(all[i]), o.key(all[r])); }
    }
  }

  /** The first value with key `k` is stored at least as high as every other one. */
  ghost predicate FirstOnTop<Key, V>(o: Order<Key, V>, s: Store<int, V>, all: seq<V>, k: Key) {
    exists n, j {:trigger s[n].slots[j]} :: n in s && 0 <= j < |s[n].slots| && SlotRank(s, s[n], j) == Scan(all, o.Below(k)) &&
      forall m, i {:trigger s[m].slots[i]} :: m in s && 0 <= i < |s[m].slots| && o.Equal(k, s[m].slots[i]) ==>
        s[m].level <= s[n].level
  }

  /** A topmost match is the first match exactly if the first match is on top. */
  lemma TopmostFirst<Key(!new), V>(o: Order<Key, V>, s: Store<int, V>, K: nat, root: int, all: seq<V>, it: Iter, k: Key, lo: nat)
    requires Inv(s, K, root, all) && StrictWeakOrder(o.less) && Sorted(o, all) && Cuts(all, o.Below(k), lo)
    requires IsValue(s, it) && o.Equal(k, s[it.node].slots[it.pos]) && Topmost(o, s, k, it)
    ensures lo == Scan(all, o.Below(k)) && (Rank(s, it) == lo <==> FirstOnTop(o, s, all, k))
  {
    CutIsScan(all, o.Below(k), lo);
    PlaceRank(s, K, root, all, it);
    if Rank(s, it) == lo {
      assert s[it.node].slots[it.pos] == all[lo];
    } else if FirstOnTop(o, s, all, k) {
      var n, j :| n in s && 0 <= j < |s[n].slots| && SlotRank(s, s[n], j) == lo &&
        forall m, i {:trigger s[m].slots[i]} :: m in s && 0 <= i < |s[m].slots| && o.Equal(k, s[m].slots[i]) ==>
          s[m].level <= s[n].level;
      SlotInSpan(s, K, root, all, n, j);
      assert !o.less(o.key(all[Rank(s, it)]), o.key(all[lo]));
      assert o.Equal(k, s[n].slots[j]);
      EarlierSlot(s, K, root, all, n, j, it.pos);
    }
  }

  /** Within one node ranks follow positions. */
  lemma EarlierSlot<V>(s: Store<int, V>, K: nat, root: int, all: seq<V>, n: int, i: nat, j: nat)
    requires Inv(s, K, root, all) && n in s && i < |s[n].slots| && j < |s[n].slots|
    ensures i < j ==> SlotRank(s, s[n], i) < SlotRank(s, s[n], j)
    ensures j < i ==> SlotRank(s, s[n], j) < SlotRank(s, s[n], i)
  {
    NodeOk(s, K, root, all, n);
    var x := s[n];
    if !x.leaf && i < j { ChainOrder(s, all, x.kids, x.slots, x.off, x.End(), i, j); }
    if !x.leaf && j < i { ChainOrder(s, all, x.kids, x.slots, x.off, x.End(), j, i); }
  }

  /** A value with key `k`, the first one unless a match on the way down ended the search in a
  container with equal keys; address 0 if no value has that key. */
  method InternalFind<Key(!new), V>(o: Order<Key, V>, s: Store<int, V>, ghost K: nat, root: int,
                                    ghost rightmost: int, ghost all: seq<V>, k: Key) returns (r: Iter)
    requires Inv(s, K, root, all) && Ends(s, root, rightmost, all) && 0 !in s
    requires StrictWeakOrder(o.less) && Sorted(o, all)
    ensures r.node == 0 <==> forall i {:trigger all[i]} :: 0 <= i < |all| ==> !o.Equal(k, all[i])
    ensures r.node != 0 ==> IsValue(s, r) && o.Equal(k, s[r.node].slots[r.pos])
    ensures r.node != 0 && (!o.multi || !o.compareTo) ==> Rank(s, r) == Scan(all, o.Below(k))
    ensures r.node != 0 && o.compareTo ==> Topmost(o, s, k, r)
    ensures r.node != 0 && o.compareTo ==> (Rank(s, r) == Scan(all, o.Below(k)) <==> FirstOnTop(o, s, all, k))
  {
    var it, exact := Locate(o, s, K, root, all, k, o.compareTo);
    PlaceRank(s, K, root, all, it);
    if o.compareTo {
      if exact {
        r := it;
        SortedMonotone(o, all, k);
        ScanCuts(all, o.Below(k));
        TopmostFirst(o, s, K, root, all, it, k, Scan(all, o.Below(k)));
        if !o.multi { ExactInside(o, s, K, root, all, it, k); CutIsScan(all, o.Below(k), Rank(s, it)); }
      } else {
        r := Iter(0, 0);
        NoneEqual(o, all, k, Rank(s, it));
      }
    } else {
      CutIsScan(all, o.Below(k), Rank(s, it));
      if Rank(s, it) == |all| || !o.Equal(k, all[Rank(s, it)]) { NoneEqual(o, all, k, Rank(s, it)); }
      r := InternalLast(s, K, root, rightmost, all, it);
      if r.node == 0 || o.less(k, o.key(s[r.node].slots[r.pos])) {
        if r.node != 0 { PlaceRank(s, K, root, all, r); }
        r := Iter(0, 0);
      } else {
        PlaceRank(s, K, root, all, r);
      }
    }
  }

  // ---------- a find that is not the first ----------

  /** Integers with equal keys allowed, searched by three-way comparison. */
  function IntOrder(): Order<int, int> {
    Order((v: int) => v, (a: int, b: int) => a < b, true, false, true)
  }

  /** Three equal values, one of them in the root. */
  function ThreeEqual(): Store<int, int> {
    map[1 := Cell(false, 3, 2, 0, [5], [2, 3], 1, 0, 3),
        2 := Cell(true, 3, 1, 0, [5], [], 0, 0, 1),
        3 := Cell(true, 3, 1, 1, [5], [], 0, 2, 1)]
  }

  lemma ThreeEqualOk(all: seq<int>)
    requires all == [5, 5, 5]
    ensures Inv(ThreeEqual(), 3, 1, all) && Ends(ThreeEqual(), 1, 3, all) && ThreeEqual().Keys == {1, 2, 3}
  {
    var s := ThreeEqual();
    assert Between(s, all, [2, 3], [5], 0);
    assert CellOk(s, 3, 1, all, 1);
    assert CellOk(s, 3, 1, all, 2);
    assert CellOk(s, 3, 1, all, 3);
  }

  lemma IntOrderOk(all: seq<int>)
    requires all == [5, 5, 5]
    ensures StrictWeakOrder(IntOrder().less) && Sorted(IntOrder(), all) && IntOrder().Equal(5, 5)
    ensures Scan(all, IntOrder().Below(5)) == 0
  {
    assert !IntOrder().Below(5)(all[0]);
  }

  lemma ThreeRanks(n: int, j: nat)
    requires n in ThreeEqual() && j < |ThreeEqual()[n].slots|
    ensures j == 0 && SlotRank(ThreeEqual(), ThreeEqual()[n], j) == (if n == 1 then 1 else if n == 2 then 0 else 2)
    ensures ThreeEqual()[n].level == if n == 1 then 1 else 0
  {
  }

  /** A sound tree in which a search by three-way comparison does not find the first of several equal
  keys: every match found on the way down is the one in the root, and it is not the first. */
  lemma FindMissesFirst(all: seq<int>, r: Iter)
    requires all == [5, 5, 5]
    ensures Shape(ThreeEqual(), 3, 1, 3, all, 0) && 0 !in ThreeEqual()
    ensures StrictWeakOrder(IntOrder().less) && Sorted(IntOrder(), all) && IntOrder().compareTo && IntOrder().multi
    ensures !FirstOnTop(IntOrder(), ThreeEqual(), all, 5)
    ensures IsValue(ThreeEqual(), r) && Topmost(IntOrder(), ThreeEqual(), 5, r) ==>
      Rank(ThreeEqual(), r) == 1 && Scan(all, IntOrder().Below(5)) == 0
  {
    ThreeEqualOk(all);
    IntOrderOk(all);
    var s, o := ThreeEqual(), IntOrder();
    assert o.Equal(5, s[1].slots[0]);
    forall n, j | n in s && 0 <= j < |s[n].slots| ensures SlotRank(s, s[n], j) == 0 ==> s[n].level < s[1].level {
      ThreeRanks(n, j);
    }
  }
}
