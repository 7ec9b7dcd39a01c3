/** Whole runs of operations against the sorted sequence. */
module BTreeRuns {
  import opened BTreeStore
  import opened BTreeRoot
  import opened BTreePosition
  import opened BTreeIterator
  import opened BTreeEffects
  import opened BTreeSearch
  import opened BTreeReference
  import opened BTreeContainer

  /** Operations; positions are ranks, and a position outside the contents does nothing. */
  datatype Op<Key, V> =
    | Insert(v: V)
    | InsertNear(hint: nat, v: V)
    | EraseKey(key: Key)
    | EraseAt(at: nat)
    | EraseSlice(first: nat, last: nat)
    | ClearAll

  ghost function Apply<Key, V>(o: Order<Key, V>, all: seq<V>, op: Op<Key, V>): seq<V> {
    match op
    case Insert(v) => Put(o, all, v)
    case InsertNear(i, v) =>
      if !o.multi then Put(o, all, v)
      else if i > |all| then all
      else
        var j := HintMulti(o, all, i, v);
        if j <= |all| then all[..j] + [v] + all[j..] else all
    case EraseKey(k) => Without(o, all, k)
    case EraseAt(i) => if i < |all| then all[..i] + all[i + 1..] else all
    case EraseSlice(i, j) => if i <= j <= |all| then all[..i] + all[j..] else all
    case ClearAll => []
  }

  ghost function ApplyAll<Key, V>(o: Order<Key, V>, all: seq<V>, ops: seq<Op<Key, V>>): seq<V>
    decreases |ops|
  {
    if ops == [] then all else ApplyAll(o, Apply(o, all, ops[0]), ops[1..])
  }

  /** The value of rank `i`, or the end. */
  method Nth<Key(!new), V>(tree: Tree<Key, V>, i: nat) returns (r: Iter)
    requires tree.Valid() && i <= tree.size
    ensures tree.StandsAt(r, i)
  {
    r := tree.Begin();
    for j := 0 to i
      invariant tree.StandsAt(r, j)
    {
      CanonicalValue(tree.nodes, tree.max, tree.root, tree.rightmost, tree.contents, r);
      r := Increment(tree.nodes, tree.max, tree.root, tree.rightmost, tree.contents, r);
    }
  }

  method PerformNear<Key(!new), V>(tree: Tree<Key, V>, i: nat, v: V)
    requires tree.Ordered()
    modifies tree
    ensures tree.Ordered() && tree.contents == Apply(tree.order, old(tree.contents), InsertNear(i, v))
  {
    if tree.order.multi {
      if i <= tree.size {
        var hint := Nth(tree, i);
        HintMultiIs(tree.order, tree.contents, i, v);
        var r := tree.InsertHintMulti(hint, v, i);
      }
    } else {
      var at := if i <= tree.size then i else tree.size;
      var hint := Nth(tree, at);
      var r, inserted := tree.InsertHintUnique(hint, v, at);
    }
  }

  method Perform<Key(!new), V>(tree: Tree<Key, V>, op: Op<Key, V>)
    requires tree.Ordered()
    modifies tree
    ensures tree.Ordered() && tree.contents == Apply(tree.order, old(tree.contents), op)
  {
    match op
    case Insert(v) =>
      if tree.order.multi {
        var r := tree.InsertMulti(v);
      } else {
        var r, inserted := tree.InsertUnique(v);
      }
    case InsertNear(i, v) =>
      PerformNear(tree, i, v);
    case EraseKey(k) =>
      if tree.order.multi {
        var count := tree.EraseMulti(k);
      } else {
        var count := tree.EraseUnique(k);
      }
    case EraseAt(i) =>
      if i < tree.size {
        var it := Nth(tree, i);
        CanonicalValue(tree.nodes, tree.max, tree.root, tree.rightmost, tree.contents, it);
        CutSorted(tree.order, tree.contents, i, i + 1);
        var r := tree.Erase(it);
      }
    case EraseSlice(i, j) =>
      if i <= j <= tree.size {
        var a := Nth(tree, i);
        var b := Nth(tree, j);
        CutSorted(tree.order, tree.contents, i, j);
        var count, r := tree.EraseRange(a, b, i, j);
      }
    case ClearAll =>
      tree.Clear();
  }

  /** After every run of operations the container is sound and holds what the sorted sequence holds. */
  method PerformAll<Key(!new), V>(tree: Tree<Key, V>, ops: seq<Op<Key, V>>)
    requires tree.Ordered()
    modifies tree
    ensures tree.Ordered() && tree.contents == ApplyAll(tree.order, old(tree.contents), ops)
  {
    var i := 0;
    while i < |ops|
      invariant 0 <= i <= |ops| && tree.Ordered()
      invariant ApplyAll(tree.order, tree.contents, ops[i..]) == ApplyAll(tree.order, old(tree.contents), ops)
    {
      assert ops[i..][0] == ops[i] && ops[i..][1..] == ops[i + 1..];
      Perform(tree, ops[i]);
      i := i + 1;
    }
  }

  /** What the container holds is the in-order traversal of its nodes. */
  lemma ContentsInOrder<Key(!new), V>(tree: Tree<Key, V>)
    requires tree.Valid()
    ensures tree.size == 0 ==> tree.contents == []
    ensures tree.size > 0 ==> tree.contents == InOrder(tree.nodes, tree.root, tree.nodes[tree.root].level)
  {
    if tree.size > 0 { InOrderIs(tree.nodes, tree.max, tree.root, tree.contents, tree.root); }
  }
}
