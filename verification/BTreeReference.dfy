/** The container as a plain sorted sequence: what its operations mean, and laws of that meaning. */
module BTreeReference {
  import opened BTreeSearch

  /** `v` goes behind the values with equal keys. */
  ghost function PutMulti<Key, V>(o: Order<Key, V>, all: seq<V>, v: V): seq<V> {
    var r := Scan(all, o.NotAbove(o.key(v)));
    if r <= |all| then all[..r] + [v] + all[r..] else all
  }

  ghost predicate Has<Key, V>(o: Order<Key, V>, all: seq<V>, k: Key) {
    exists i {:trigger all[i]} :: 0 <= i < |all| && o.Equal(k, all[i])
  }

  /** `v` goes to its place unless there is a value with an equal key. */
  ghost function PutUnique<Key, V>(o: Order<Key, V>, all: seq<V>, v: V): seq<V> {
    if Has(o, all, o.key(v)) then all
    else
      var r := Scan(all, o.Below(o.key(v)));
      if r <= |all| then all[..r] + [v] + all[r..] else all
  }

  ghost function Put<Key, V>(o: Order<Key, V>, all: seq<V>, v: V): seq<V> {
    if o.multi then PutMulti(o, all, v) else PutUnique(o, all, v)
  }

  /** Where a hint `i` puts `v`: there, right after it, or behind the equal keys. */
  ghost function HintMulti<Key, V>(o: Order<Key, V>, all: seq<V>, i: nat, v: V): nat
    requires i <= |all|
  {
    var k := o.key(v);
    if (i == |all| || !o.less(o.key(all[i]), k)) && (i == 0 || !o.less(k, o.key(all[i - 1]))) then i
    else if i < |all| && o.less(o.key(all[i]), k) && (i + 1 == |all| || !o.less(o.key(all[i + 1]), k)) then i + 1
    else Scan(all, o.NotAbove(k))
  }

  /** Without the values whose keys equal `k`. */
  ghost function Without<Key, V>(o: Order<Key, V>, all: seq<V>, k: Key): seq<V> {
    if all == [] then []
    else if o.Equal(k, all[0]) then Without(o, all[1..], k)
    else [all[0]] + Without(o, all[1..], k)
  }

  /** The values whose keys equal `k`, in their order. */
  ghost function Run<Key, V>(o: Order<Key, V>, all: seq<V>, k: Key): seq<V> {
    if all == [] then []
    else if o.Equal(k, all[0]) then [all[0]] + Run(o, all[1..], k)
    else Run(o, all[1..], k)
  }

  // ---------- scanning ----------

  /** Both ends of the run of a key. */
  lemma Bounds<Key(!new), V>(o: Order<Key, V>, all: seq<V>, k: Key) returns (lo: nat, hi: nat)
    requires StrictWeakOrder(o.less) && Sorted(o, all)
    ensures lo == Scan(all, o.Below(k)) && hi == Scan(all, o.NotAbove(k)) && lo <= hi <= |all|
    ensures Cuts(all, o.Below(k), lo) && Cuts(all, o.NotAbove(k), hi)
    ensures forall i {:trigger all[i]} :: 0 <= i < |all| ==> (o.Equal(k, all[i]) <==> lo <= i < hi)
  {
    SortedMonotone(o, all, k);
    ScanCuts(all, o.Below(k));
    ScanCuts(all, o.NotAbove(k));
    lo, hi := Scan(all, o.Below(k)), Scan(all, o.NotAbove(k));
    if hi < |all| { assert !o.NotAbove(k)(all[hi]); }
  }

  // ---------- order is kept ----------

  /** A value between its neighbours keeps the sequence sorted. */
  lemma InsertSorted<Key(!new), V>(o: Order<Key, V>, all: seq<V>, r: nat, v: V)
    requires StrictWeakOrder(o.less) && Sorted(o, all) && r <= |all|
    requires r > 0 ==> !o.less(o.key(v), o.key(all[r - 1])) && (o.multi || o.less(o.key(all[r - 1]), o.key(v)))
    requires r < |all| ==> !o.less(o.key(all[r]), o.key(v)) && (o.multi || o.less(o.key(v), o.key(all[r])))
    ensures Sorted(o, all[..r] + [v] + all[r..])
  {
    var t := all[..r] + [v] + all[r..];
    forall i | 0 <= i < r ensures !o.less(o.key(v), o.key(all[i])) && (o.multi || o.less(o.key(all[i]), o.key(v))) {
      if i < r - 1 { assert !o.less(o.key(all[r - 1]), o.key(all[i])); }
    }
    forall i | r <= i < |all| ensures !o.less(o.key(all[i]), o.key(v)) && (o.multi || o.less(o.key(v), o.key(all[i]))) {
      if r < i { assert !o.less(o.key(all[i]), o.key(all[r])); }
    }
    forall i, j | 0 <= i < j < |t|
      ensures !o.less(o.key(t[j]), o.key(t[i])) && (!o.multi ==> o.less(o.key(t[i]), o.key(t[j])))
    {
      var a, b := if i < r then i else i - 1, if j < r then j else j - 1;
      if i != r && j != r { assert t[i] == all[a] && t[j] == all[b]; }
    }
  }

  lemma CutSorted<Key(!new), V>(o: Order<Key, V>, all: seq<V>, i: nat, j: nat)
    requires Sorted(o, all) && i <= j <= |all|
    ensures Sorted(o, all[..i] + all[j..])
  {
    var t := all[..i] + all[j..];
    forall a, b | 0 <= a < b < |t|
      ensures !o.less(o.key(t[b]), o.key(t[a])) && (!o.multi ==> o.less(o.key(t[a]), o.key(t[b])))
    {
      assert t[a] == all[if a < i then a else a - i + j] && t[b] == all[if b < i then b else b - i + j];
    }
  }

  lemma PutSorted<Key(!new), V>(o: Order<Key, V>, all: seq<V>, v: V)
    requires StrictWeakOrder(o.less) && Sorted(o, all)
    ensures Sorted(o, Put(o, all, v))
  {
    var lo, hi := Bounds(o, all, o.key(v));
    if o.multi {
      InsertSorted(o, all, hi, v);
    } else if !Has(o, all, o.key(v)) {
      if lo > 0 { assert o.Below(o.key(v))(all[lo - 1]); }
      if lo < |all| { assert !o.Equal(o.key(v), all[lo]); }
      InsertSorted(o, all, lo, v);
    }
  }

  /** A new key strictly between two neighbours belongs exactly there. */
  lemma FitsUnique<Key(!new), V>(o: Order<Key, V>, all: seq<V>, r: nat, k: Key)
    requires StrictWeakOrder(o.less) && Sorted(o, all) && r <= |all|
    requires r > 0 ==> o.less(o.key(all[r - 1]), k)
    requires r < |all| ==> o.less(k, o.key(all[r]))
    ensures Scan(all, o.Below(k)) == r && !Has(o, all, k)
  {
    forall i | 0 <= i < |all| ensures o.less(o.key(all[i]), k) <==> i < r {
      if i < r - 1 { assert !o.less(o.key(all[r - 1]), o.key(all[i])); }
      if r < i { assert !o.less(o.key(all[i]), o.key(all[r])); }
    }
    assert Cuts(all, o.Below(k), r);
    CutIsScan(all, o.Below(k), r);
    if r < |all| { assert !o.Equal(k, all[r]); }
    NoneEqual(o, all, k, r);
  }

  /** A value found with the key is the lower bound. */
  lemma FoundUnique<Key(!new), V>(o: Order<Key, V>, all: seq<V>, r: nat, k: Key)
    requires StrictWeakOrder(o.less) && Sorted(o, all) && !o.multi && r < |all| && o.Equal(k, all[r])
    ensures Scan(all, o.Below(k)) == r && Has(o, all, k)
  {
    var lo, hi := Bounds(o, all, k);
    assert lo <= r && o.Equal(k, all[lo]);
  }

  lemma WithoutIs<Key(!new), V>(o: Order<Key, V>, all: seq<V>, k: Key)
    requires StrictWeakOrder(o.less) && Sorted(o, all)
    ensures Scan(all, o.Below(k)) <= Scan(all, o.NotAbove(k)) <= |all|
    ensures Without(o, all, k) == all[..Scan(all, o.Below(k))] + all[Scan(all, o.NotAbove(k))..]
    ensures Run(o, all, k) == all[Scan(all, o.Below(k))..Scan(all, o.NotAbove(k))]
    ensures Has(o, all, k) <==> Scan(all, o.Below(k)) < Scan(all, o.NotAbove(k))
    ensures Sorted(o, Without(o, all, k))
  {
    var lo, hi := Bounds(o, all, k);
    RunSlice(o, all, k, lo, hi);
    CutSorted(o, all, lo, hi);
    if lo < hi { assert o.Equal(k, all[lo]); }
  }

  lemma HintMultiSorted<Key(!new), V>(o: Order<Key, V>, all: seq<V>, i: nat, v: V)
    requires StrictWeakOrder(o.less) && Sorted(o, all) && o.multi && i <= |all|
    ensures var j := HintMulti(o, all, i, v); j <= |all| && Sorted(o, all[..j] + [v] + all[j..])
  {
    var lo, hi := Bounds(o, all, o.key(v));
    InsertSorted(o, all, HintMulti(o, all, i, v), v);
  }

  /** The place by the bounds of the key: a hint between them is taken, one right before them is as good
  as the lower bound, and any other is of no use. */
  lemma HintMultiIs<Key(!new), V>(o: Order<Key, V>, all: seq<V>, i: nat, v: V)
    requires StrictWeakOrder(o.less) && Sorted(o, all) && i <= |all|
    ensures var lo, hi := Scan(all, o.Below(o.key(v))), Scan(all, o.NotAbove(o.key(v)));
      HintMulti(o, all, i, v) == if lo <= i <= hi then i else if i + 1 == lo then lo else hi
  {
    var lo, hi := Bounds(o, all, o.key(v));
  }

  // ---------- runs of equal keys ----------

  /** The values with key `k` are those from the `lo`-th to the `hi`-th. */
  ghost predicate RunAt<Key, V>(o: Order<Key, V>, all: seq<V>, k: Key, lo: nat, hi: nat) {
    lo <= hi <= |all| && forall i {:trigger all[i]} :: 0 <= i < |all| ==> (o.Equal(k, all[i]) <==> lo <= i < hi)
  }

  lemma RunAtRest<Key, V>(o: Order<Key, V>, all: seq<V>, k: Key, lo: nat, hi: nat)
    requires RunAt(o, all, k, lo, hi) && all != []
    ensures o.Equal(k, all[0]) <==> lo == 0 < hi
    ensures RunAt(o, all[1..], k, if lo > 0 then lo - 1 else 0, if hi > 0 then hi - 1 else 0)
  {
    var rest := all[1..];
    assert forall i {:trigger rest[i]} :: 0 <= i < |rest| ==> rest[i] == all[i + 1];
  }

  lemma {:induction false} RunSlice<Key, V>(o: Order<Key, V>, all: seq<V>, k: Key, lo: nat, hi: nat)
    requires RunAt(o, all, k, lo, hi)
    ensures Run(o, all, k) == all[lo..hi] && Without(o, all, k) == all[..lo] + all[hi..]
  {
    if all != [] {
      RunAtRest(o, all, k, lo, hi);
      var rest := all[1..];
      if lo > 0 {
        RunSlice(o, rest, k, lo - 1, hi - 1);
        assert all[lo..hi] == rest[lo - 1..hi - 1] && all[..lo] == [all[0]] + rest[..lo - 1] && all[hi..] == rest[hi - 1..];
      } else if hi > 0 {
        RunSlice(o, rest, k, 0, hi - 1);
        assert all[0..hi] == [all[0]] + rest[..hi - 1] && all[hi..] == rest[hi - 1..];
      } else {
        RunSlice(o, rest, k, 0, 0);
      }
    }
  }

  lemma {:induction false} RunConcat<Key, V>(o: Order<Key, V>, a: seq<V>, b: seq<V>, k: Key)
    ensures Run(o, a + b, k) == Run(o, a, k) + Run(o, b, k)
  {
    if a == [] {
      assert a + b == b;
    } else {
      assert (a + b)[1..] == a[1..] + b;
      RunConcat(o, a[1..], b, k);
    }
  }

  lemma {:induction false} RunNone<Key, V>(o: Order<Key, V>, all: seq<V>, k: Key)
    requires forall i {:trigger all[i]} :: 0 <= i < |all| ==> !o.Equal(k, all[i])
    ensures Run(o, all, k) == []
  {
    if all != [] { RunNone(o, all[1..], k); }
  }

  lemma RunInsert<Key, V>(o: Order<Key, V>, all: seq<V>, r: nat, v: V, k: Key)
    requires r <= |all|
    ensures Run(o, all[..r] + [v] + all[r..], k) == Run(o, all[..r], k) + (if o.Equal(k, v) then [v] else []) + Run(o, all[r..], k)
    ensures Run(o, all, k) == Run(o, all[..r], k) + Run(o, all[r..], k)
  {
    var a, b := all[..r], all[r..];
    RunConcat(o, a + [v], b, k);
    RunConcat(o, a, [v], k);
    RunOne(o, v, k);
    assert a + b == all;
    RunConcat(o, a, b, k);
  }

  lemma RunOne<Key, V>(o: Order<Key, V>, v: V, k: Key)
    ensures Run(o, [v], k) == if o.Equal(k, v) then [v] else []
  {
    assert [v][1..] == [];
  }

  /** Keys equal to the key of `v` are equal to the same keys. */
  lemma SameRun<Key(!new), V>(o: Order<Key, V>, k: Key, v: V, w: V)
    requires StrictWeakOrder(o.less) && o.Equal(k, v)
    ensures o.Equal(k, w) <==> o.Equal(o.key(v), w)
  {
  }

  /** Inserting appends to the run of its key and leaves the other runs alone: equal keys stay in
  insertion order. */
  lemma PutMultiRuns<Key(!new), V>(o: Order<Key, V>, all: seq<V>, v: V, k: Key)
    requires StrictWeakOrder(o.less) && Sorted(o, all)
    ensures Run(o, PutMulti(o, all, v), k) == Run(o, all, k) + (if o.Equal(k, v) then [v] else [])
  {
    var lo, hi := Bounds(o, all, o.key(v));
    RunInsert(o, all, hi, v, k);
    if o.Equal(k, v) {
      var rest := all[hi..];
      forall i | 0 <= i < |rest| ensures !o.Equal(k, rest[i]) {
        assert rest[i] == all[hi + i];
        SameRun(o, k, v, rest[i]);
      }
      RunNone(o, rest, k);
    }
  }

  ghost function PutAllMulti<Key, V>(o: Order<Key, V>, all: seq<V>, vs: seq<V>): seq<V>
    decreases |vs|
  {
    if vs == [] then all else PutAllMulti(o, PutMulti(o, all, vs[0]), vs[1..])
  }

  /** In `r` the run of `k` is that of `all` followed by that of `vs`. */
  ghost predicate RunsJoin<Key, V>(o: Order<Key, V>, r: seq<V>, all: seq<V>, vs: seq<V>, k: Key) {
    Run(o, r, k) == Run(o, all, k) + Run(o, vs, k)
  }

  lemma RunsJoinCons<Key(!new), V>(o: Order<Key, V>, r: seq<V>, all: seq<V>, vs: seq<V>, next: seq<V>, k: Key)
    requires vs != [] && RunsJoin(o, r, next, vs[1..], k)
    requires Run(o, next, k) == Run(o, all, k) + (if o.Equal(k, vs[0]) then [vs[0]] else [])
    ensures RunsJoin(o, r, all, vs, k)
  {
    var a, b, c := Run(o, all, k), if o.Equal(k, vs[0]) then [vs[0]] else [], Run(o, vs[1..], k);
    assert Run(o, vs, k) == b + c;
    assert a + b + c == a + (b + c);
  }

  /** After any sequence of insertions the values with a given key stand in the order of insertion. */
  lemma {:induction false} InsertionOrder<Key(!new), V>(o: Order<Key, V>, all: seq<V>, vs: seq<V>, k: Key, r: seq<V>)
    requires StrictWeakOrder(o.less) && Sorted(o, all) && o.multi && r == PutAllMulti(o, all, vs)
    ensures Sorted(o, r) && RunsJoin(o, r, all, vs, k)
    decreases |vs|
  {
    if vs != [] {
      var next := PutMulti(o, all, vs[0]);
      PutSorted(o, all, vs[0]);
      PutMultiRuns(o, all, vs[0], k);
      InsertionOrder(o, next, vs[1..], k, r);
      RunsJoinCons(o, r, all, vs, next, k);
    }
  }

  lemma RunUnique<Key(!new), V>(o: Order<Key, V>, all: seq<V>, k: Key)
    requires StrictWeakOrder(o.less) && Sorted(o, all) && !o.multi
    ensures |Run(o, all, k)| <= 1 && (Run(o, all, k) == [] <==> !Has(o, all, k))
  {
    var lo, hi := Bounds(o, all, k);
    RunSlice(o, all, k, lo, hi);
    if lo + 1 < |all| { assert o.less(o.key(all[lo]), o.key(all[lo + 1])); }
    if lo < hi { assert o.Equal(k, all[lo]); }
  }

  /** In a container of unique keys every key occurs at most once, and an insertion adds exactly its own key. */
  lemma PutUniqueRuns<Key(!new), V>(o: Order<Key, V>, all: seq<V>, v: V, k: Key)
    requires StrictWeakOrder(o.less) && Sorted(o, all) && !o.multi
    ensures |Run(o, all, k)| <= 1
    ensures Run(o, PutUnique(o, all, v), k) ==
      if o.Equal(k, v) && Run(o, all, k) == [] then [v] else Run(o, all, k)
  {
    RunUnique(o, all, k);
    var b, _ := Bounds(o, all, o.key(v));
    if Has(o, all, o.key(v)) {
      var i :| 0 <= i < |all| && o.Equal(o.key(v), all[i]);
      if o.Equal(k, v) { SameRun(o, k, v, all[i]); }
    } else {
      RunInsert(o, all, b, v, k);
      if o.Equal(k, v) {
        forall i | 0 <= i < |all| ensures !o.Equal(k, all[i]) { SameRun(o, k, v, all[i]); }
        RunNone(o, all[..b], k);
        RunNone(o, all[b..], k);
      }
    }
  }
}
