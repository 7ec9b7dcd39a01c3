/** The container: node storage, root, rightmost leaf and size, updated in place.

Addresses are positive integers; 0 plays the part of the null pointer and of the shared
empty node that stands for root and rightmost leaf of an empty container. */
module BTreeContainer {
  import opened BTreeStore
  import opened BTreeRepartition
  import opened BTreeSplit
  import opened BTreeEdit
  import opened BTreeRoot
  import opened BTreeMoves
  import opened BTreeEffects
  import opened BTreeRoom
  import opened BTreeMend
  import opened BTreeCut
  import opened BTreeClear
  import opened BTreePosition
  import opened BTreeIterator
  import opened BTreeSearch
  import opened BTreeReference

  class Tree<Key(!new), V> {
    const max: nat
    const order: Order<Key, V>
    var nodes: map<int, Cell<int, V>>
    var root: int
    var rightmost: int
    var size: nat
    var next: int
    ghost var contents: seq<V>

    ghost predicate Addresses()
      reads this
    {
      3 <= max && 0 < next && forall n {:trigger n in nodes} :: n in nodes ==> 0 < n < next
    }

    /** Nodes exist, and every node except possibly `hole` holds a value. */
    ghost predicate Sound(hole: int)
      reads this
    {
      Addresses() && Shape(nodes, max, root, rightmost, contents, hole)
    }

    /** What holds between operations. */
    ghost predicate Valid()
      reads this
    {
      && size == |contents| && Addresses()
      && if size == 0 then nodes == map[] && root == 0 && rightmost == 0 else Sound(0)
    }

    constructor (max: nat, order: Order<Key, V>)
      requires 3 <= max
      ensures Valid() && contents == [] && this.max == max && this.order == order
    {
      this.max, this.order := max, order;
      nodes, root, rightmost, size, next := map[], 0, 0, 0, 1;
      contents := [];
    }

    /** Puts a new root without values above the full old one. */
    method GrowUp() returns (top: int)
      requires Sound(0) && nodes[root].cap == max
      modifies `nodes, `root, `next
      ensures Sound(root) && root == top && top !in old(nodes) && !nodes[top].leaf && |nodes[top].slots| == 0
      ensures BelowSame(old(nodes), nodes, old(nodes)[old(root)].level + 1)
      ensures old(root) in nodes && nodes[old(root)] == old(nodes)[old(root)].(parent := top, pos := 0)
      ensures old(nodes.Keys) <= nodes.Keys
    {
      top := next;
      ghost var s := nodes;
      nodes := nodes[top := Cell(false, max, nodes[root].parent, 0, [], [root], nodes[root].level + 1, nodes[root].off, nodes[root].len)]
                    [root := nodes[root].(parent := top, pos := 0)];
      next := next + 1;
      assert Grown(s, max, root, top, nodes);
      GrownInv(s, max, root, contents, top, nodes);
      GrownEffects(s, max, root, rightmost, contents, top, nodes);
      root := top;
    }

    /** Makes room in the parent of the full node `n`, adding a new root if there is no parent. */
    method RoomAbove(n: int) returns (ghost hole: int)
      requires Sound(0) && n in nodes && |nodes[n].slots| == max
      modifies `nodes, `root, `rightmost, `next
      ensures Sound(hole) && BelowSame(old(nodes), nodes, old(nodes)[n].level + 1)
      ensures n in nodes && n != root && nodes[n].parent in nodes && |nodes[nodes[n].parent].slots| < max
      ensures hole == nodes[n].parent || hole !in nodes
      ensures old(nodes.Keys) <= nodes.Keys
      decreases nodes[root].level - nodes[n].level, 0
    {
      ghost var s := nodes;
      assert CellOk(s, max, root, contents, n);
      hole := 0;
      if n != root {
        var p := nodes[n].parent;
        BelowRoot(s, max, root, contents, n);
        if |nodes[p].slots| == max {
          var q := RebalanceOrSplit(Iter(p, nodes[n].pos));
          hole := q.node;
          assert CellOk(nodes, max, root, contents, q.node);
          assert n in nodes && nodes[n].parent == q.node;
          assert CellOk(nodes, max, root, contents, n);
        }
      } else {
        hole := GrowUp();
      }
    }

    /** Makes room in the full node of `it`: with a sibling, or by splitting after making room above. */
    method RebalanceOrSplit(it: Iter) returns (r: Iter)
      requires Sound(0) && it.node in nodes && 0 <= it.pos <= |nodes[it.node].slots| == max
      modifies `nodes, `root, `rightmost, `next
      ensures Addresses() && MadeRoom(old(nodes), it, max, root, rightmost, contents, nodes, r)
      ensures if it.node != old(root) && old(LeftTakes(nodes, it, max) || RightTakes(nodes, it, max))
        then nodes.Keys == old(nodes.Keys) else old(nodes.Keys) < nodes.Keys
      decreases nodes[root].level - nodes[it.node].level, 1
    {
      if it.node != root {
        var done, t, b := RebalanceWithSibling(nodes, max, root, rightmost, contents, it);
        if done {
          nodes := t;
          return b;
        }
      }
      ghost var hole := RoomAbove(it.node);
      ghost var u := nodes;
      var t, b, last := SplitFull(nodes, max, root, rightmost, contents, hole, it, next);
      nodes, rightmost, r, next := t, last, b, next + 1;
      MadeRoomAfter(old(nodes), it, old(nodes)[it.node].level + 1, u, max, root, rightmost, contents, nodes, r);
    }

    /** Moves the values of a full leaf root to a new one of twice the capacity. */
    method GrowRootLeaf() returns (n: int)
      requires Sound(root) && nodes[root].leaf && |nodes[root].slots| == nodes[root].cap < max
      modifies `nodes, `root, `rightmost, `next
      ensures Sound(n) && n == root && nodes[n].leaf && nodes[n].slots == old(nodes[root].slots) && nodes[n].off == 0
      ensures nodes[n].cap == if 2 * old(nodes[root].cap) < max then 2 * old(nodes[root].cap) else max
    {
      var cap := 2 * nodes[root].cap;
      n := next;
      LoneRoot(nodes, max, root, contents);
      assert CellOk(nodes, max, root, contents, root);
      nodes := map[n := Cell(true, if cap < max then cap else max, n, 0, nodes[root].slots, [], 0, 0, nodes[root].len)];
      root, rightmost, next := n, n, n + 1;
      assert CellOk(nodes, max, root, contents, n);
    }

    /** The leaf place that stands for `it`: for a slot of an internal node, the end of the leaf before it. */
    method LeafPlace(it: Iter) returns (r: Iter)
      requires Sound(it.node) && IsPlace(nodes, it)
      ensures Sound(r.node) && IsPlace(nodes, r) && nodes[r.node].leaf && Rank(nodes, r) == Rank(nodes, it)
      ensures nodes[it.node].leaf ==> r == it
    {
      r := it;
      if !nodes[it.node].leaf {
        assert Filled(nodes, 0);
        assert CellOk(nodes, max, root, contents, it.node);
        var kid := nodes[it.node].kids[it.pos];
        assert nodes[kid].slots != [];
        SlotInSpan(nodes, max, root, contents, kid, 0);
        r := Decrement(nodes, max, root, rightmost, contents, it);
        assert CellOk(nodes, max, root, contents, r.node);
        r := Iter(r.node, r.pos + 1);
      }
    }

    /** A leaf place of the same rank as `it` with room for one more value. */
    method RoomFor(it: Iter) returns (r: Iter)
      requires Sound(it.node) && it.node in nodes && nodes[it.node].leaf && IsPlace(nodes, it)
      modifies `nodes, `root, `rightmost, `next
      ensures Sound(r.node) && r.node in nodes && nodes[r.node].leaf && IsPlace(nodes, r)
      ensures |nodes[r.node].slots| < nodes[r.node].cap
      ensures nodes[r.node].off + r.pos == old(nodes[it.node].off + it.pos)
    {
      r := it;
      assert CellOk(nodes, max, root, contents, r.node);
      if |nodes[r.node].slots| == nodes[r.node].cap {
        if nodes[r.node].cap < max {
          var n := GrowRootLeaf();
          r := Iter(n, r.pos);
        } else {
          assert Filled(nodes, 0);
          r := RebalanceOrSplit(r);
        }
      }
    }

    /** Inserts `v` before the place `it` and returns the place of the new value. */
    method InternalEmplace(it: Iter, v: V) returns (r: Iter)
      requires Sound(it.node) && size == |contents| && IsPlace(nodes, it)
      modifies this
      ensures Valid() && Rank(old(nodes), it) <= |old(contents)|
      ensures contents == old(contents)[..Rank(old(nodes), it)] + [v] + old(contents)[Rank(old(nodes), it)..]
      ensures IsValue(nodes, r) && Rank(nodes, r) == Rank(old(nodes), it)
    {
      r := LeafPlace(it);
      ghost var k := Rank(nodes, r);
      r := RoomFor(r);
      ghost var s := nodes;
      nodes := Insert(nodes, r.node, r.pos, v);
      size := size + 1;
      InsertEffects(s, max, root, rightmost, contents, r.node, r.pos, v, nodes);
      contents := contents[..k] + [v] + contents[k..];
    }

    // ---------- removal ----------

    /** Drops a root without values: its only child takes over, or the container becomes empty. */
    method TryShrink()
      requires Sound(root) && size == |contents|
      modifies `nodes, `root, `rightmost
      ensures Valid()
      ensures size > 0 ==> BelowSame(old(nodes), nodes, old(nodes)[old(root)].level)
      ensures old(nodes[root].slots) != [] ==> nodes == old(nodes)
      ensures nodes.Keys <= old(nodes.Keys)
    {
      assert CellOk(nodes, max, root, contents, root);
      if |nodes[root].slots| > 0 {
        assert Filled(nodes, 0);
        RootNotEmpty();
      } else if nodes[root].leaf {
        LoneRoot(nodes, max, root, contents);
        nodes, root, rightmost := map[], 0, 0;
      } else {
        ghost var s := nodes;
        var child := nodes[root].kids[0];
        assert CellOk(nodes, max, root, contents, child);
        SlotInSpan(nodes, max, root, contents, child, 0);
        nodes := nodes[child := nodes[child].(parent := nodes[root].parent)] - {root};
        assert Shrunk(s, root, nodes);
        ShrunkInv(s, max, root, contents, nodes);
        ShrunkEffects(s, max, root, rightmost, contents, nodes);
        root := child;
      }
    }

    lemma RootNotEmpty()
      requires Inv(nodes, max, root, contents) && nodes[root].slots != []
      ensures contents != []
    {
      SlotInSpan(nodes, max, root, contents, root, 0);
    }

    /** The end place in its own form, or the value that follows it. */
    method Settle(it: Iter) returns (r: Iter)
      requires Sound(0) && IsPlace(nodes, it)
      ensures IsPlace(nodes, r) && IsCanonical(nodes, rightmost, r) && Rank(nodes, r) == Rank(nodes, it)
    {
      r := it;
      if r.pos == |nodes[r.node].slots| {
        r := Increment(nodes, max, root, rightmost, contents, Iter(r.node, r.pos - 1));
      }
    }

    /** One round of the repair: `cur` is the node that may be underfull, `r` the place to keep. */
    method MendNode(cur: Iter, it: Iter) returns (merged: bool, up: Iter, r: Iter)
      requires Sound(cur.node) && cur.node in nodes && cur.node != root
      requires 0 <= cur.pos <= |nodes[cur.node].slots| < max / 2
      requires IsPlace(nodes, it) && (it == cur || nodes[it.node].level < nodes[cur.node].level)
      modifies `nodes, `rightmost
      ensures IsPlace(nodes, r) && Rank(nodes, r) == Rank(old(nodes), it) && root in nodes
      ensures nodes[root].level == old(nodes[root].level)
      ensures !merged ==> Sound(0)
      ensures merged ==> Sound(up.node) && up.node in nodes && 0 <= up.pos <= |nodes[up.node].slots|
      ensures merged ==> nodes[r.node].level < nodes[up.node].level == old(nodes[cur.node].level) + 1
      ensures true == Outcome(old(nodes), cur, max, merged, nodes) && nodes.Keys <= old(nodes.Keys)
    {
      ghost var s := nodes;
      var t, b, last;
      merged, t, b, last := TryMergeOrRebalance(nodes, max, root, rightmost, contents, cur);
      nodes, rightmost := t, last;
      if it == cur {
        TracksRank(s, max, root, contents, cur, nodes, b);
        r := b;
      } else {
        PlaceBelow(s, max, root, contents, it, nodes, s[cur.node].level);
        r := it;
      }
      up := b;
      if merged {
        BelowRoot(nodes, max, root, contents, b.node);
        NodeUp(nodes, max, root, contents, b.node);
        up := Iter(nodes[b.node].parent, nodes[b.node].pos);
      }
    }

    /** Merges and rebalances from the node of `it` upwards until no node is without values, and
    returns the value that follows the place `it`. */
    method RebalanceAfterDelete(it: Iter) returns (r: Iter)
      requires Sound(it.node) && size == |contents| && IsPlace(nodes, it)
      modifies `nodes, `root, `rightmost
      ensures Valid()
      ensures size == 0 ==> r == Iter(0, 0)
      ensures size > 0 ==> IsPlace(nodes, r) && IsCanonical(nodes, rightmost, r) && Rank(nodes, r) == Rank(old(nodes), it)
      ensures it.node != old(root) && old(|nodes[it.node].slots|) >= max / 2 ==> nodes == old(nodes)
      ensures it.node != old(root) && old(|nodes[it.node].slots|) < max / 2 ==>
        if old(FitsLeft(nodes, it.node, max) || FitsRight(nodes, it.node, max)) then nodes.Keys < old(nodes.Keys)
        else true == Outcome(old(nodes), it, max, false, nodes)
    {
      var cur, merged := it, true;
      r := it;
      while true
        invariant Sound(cur.node) && cur.node in nodes && 0 <= cur.pos <= |nodes[cur.node].slots|
        invariant IsPlace(nodes, r) && Rank(nodes, r) == Rank(old(nodes), it)
        invariant r == cur || nodes[r.node].level < nodes[cur.node].level
        invariant || (cur == it && nodes == old(nodes) && root == old(root))
                  || (nodes.Keys < old(nodes.Keys) && old(FitsLeft(nodes, it.node, max) || FitsRight(nodes, it.node, max))
                      && it.node != old(root) && old(|nodes[it.node].slots|) < max / 2)
        decreases nodes[root].level - nodes[cur.node].level
      {
        if cur.node == root {
          ghost var s := nodes;
          TryShrink();
          if size == 0 { return Iter(0, 0); }
          if s[cur.node].slots == [] { ShrunkPlace(s, cur, r); }
          break;
        }
        BelowRoot(nodes, max, root, contents, cur.node);
        if |nodes[cur.node].slots| >= max / 2 {
          assert Filled(nodes, 0);
          RootNotEmpty();
          break;
        }
        merged, cur, r := MendNode(cur, r);
        if !merged {
          RootNotEmpty();
          break;
        }
      }
      r := Settle(r);
    }

    lemma ShrunkPlace(s: map<int, Cell<int, V>>, cur: Iter, r: Iter)
      requires cur.node in s && Inv(s, max, cur.node, contents) && contents != [] && s[cur.node].slots == [] && IsPlace(s, r)
      requires r == cur || s[r.node].level < s[cur.node].level
      requires BelowSame(s, nodes, s[cur.node].level)
      ensures IsPlace(nodes, r) && Rank(nodes, r) == Rank(s, r)
    {
      NodeOk(s, max, cur.node, contents, cur.node);
      PlaceBelow(s, max, cur.node, contents, r, nodes, s[cur.node].level);
    }

    /** `r` is what an operation that leaves `k` values before its place returns. */
    ghost predicate StandsAt(r: Iter, k: nat)
      reads this
    {
      if size == 0 then r == Iter(0, 0) && k == 0
      else IsPlace(nodes, r) && IsCanonical(nodes, rightmost, r) && Rank(nodes, r) == k
    }

    /** Removes `c` values of one leaf from the place `it` on. */
    method EraseFromLeaf(it: Iter, c: nat) returns (r: Iter)
      requires Valid() && it.node in nodes && nodes[it.node].leaf && 0 <= it.pos && 0 < c && it.pos + c <= |nodes[it.node].slots|
      modifies this
      ensures Valid() && Rank(old(nodes), it) + c <= |old(contents)|
      ensures contents == old(contents)[..Rank(old(nodes), it)] + old(contents)[Rank(old(nodes), it) + c..]
      ensures StandsAt(r, Rank(old(nodes), it))
    {
      ghost var s, k := nodes, Rank(nodes, it);
      nodes := Remove(nodes, it.node, it.pos, c);
      RemoveEffects(s, max, root, rightmost, contents, it.node, it.pos, c, nodes);
      contents := contents[..k] + contents[k + c..];
      size := size - c;
      r := RebalanceAfterDelete(it);
    }

    /** The value before a slot of an internal node. */
    method LeafBefore(it: Iter) returns (r: Iter)
      requires Sound(0) && IsValue(nodes, it) && !nodes[it.node].leaf
      ensures IsValue(nodes, r) && nodes[r.node].leaf && Rank(nodes, r) + 1 == Rank(nodes, it) < |contents|
      ensures contents[Rank(nodes, r)] == nodes[r.node].slots[r.pos]
    {
      NodeOk(nodes, max, root, contents, it.node);
      ghost var kid := nodes[it.node].kids[it.pos];
      assert nodes[kid].slots != [];
      SlotInSpan(nodes, max, root, contents, kid, 0);
      r := Decrement(nodes, max, root, rightmost, contents, it);
      PlaceRank(nodes, max, root, contents, r);
      PlaceRank(nodes, max, root, contents, it);
    }

    /** Overwrites the value of an internal slot with the one before it and removes that one from its leaf. */
    method EraseInternal(it: Iter) returns (r: Iter)
      requires Valid() && IsValue(nodes, it) && !nodes[it.node].leaf
      modifies this
      ensures Valid() && Rank(old(nodes), it) < |old(contents)|
      ensures contents == old(contents)[..Rank(old(nodes), it)] + old(contents)[Rank(old(nodes), it) + 1..]
      ensures StandsAt(r, Rank(old(nodes), it))
    {
      var prev := LeafBefore(it);
      ghost var s, k, was := nodes, Rank(nodes, it), contents;
      nodes := nodes[it.node := nodes[it.node].(slots := nodes[it.node].slots[it.pos := nodes[prev.node].slots[prev.pos]])];
      SetSlotEffects(s, max, root, rightmost, contents, it.node, it.pos, s[prev.node].slots[prev.pos], nodes);
      contents := contents[k := contents[k - 1]];
      r := EraseFromLeaf(prev, 1);
      assert contents == was[..k] + was[k + 1..];
      CanonicalValue(nodes, max, root, rightmost, contents, r);
      r := Increment(nodes, max, root, rightmost, contents, r);
    }

    /** Removes the value `it` and returns the value that followed it. */
    method Erase(it: Iter) returns (r: Iter)
      requires Valid() && IsValue(nodes, it)
      modifies this
      ensures Valid() && Rank(old(nodes), it) < |old(contents)|
      ensures contents == old(contents)[..Rank(old(nodes), it)] + old(contents)[Rank(old(nodes), it) + 1..]
      ensures StandsAt(r, Rank(old(nodes), it))
    {
      if nodes[it.node].leaf {
        r := EraseFromLeaf(it, 1);
      } else {
        r := EraseInternal(it);
      }
    }

    /** The number of steps from `a` to `b`. */
    method Distance(a: Iter, b: Iter, ghost i: nat, ghost j: nat) returns (count: nat)
      requires Valid() && StandsAt(a, i) && StandsAt(b, j) && i <= j
      ensures count == j - i
    {
      var cur := a;
      count := 0;
      while cur != b
        invariant StandsAt(cur, i + count) && i + count <= j
        decreases j - (i + count)
      {
        CanonicalUnique(nodes, max, root, rightmost, contents, cur, b);
        CanonicalValue(nodes, max, root, rightmost, contents, cur);
        CanonicalValue(nodes, max, root, rightmost, contents, b);
        cur := Increment(nodes, max, root, rightmost, contents, cur);
        count := count + 1;
      }
    }

    /** Removes the values between two slots of an internal node, with the subtrees between them. */
    method CutInside(a: Iter, b: Iter, count: nat)
      requires Valid() && size > 0 && IsPlace(nodes, a) && IsPlace(nodes, b) && a.node == b.node
      requires !nodes[a.node].leaf && 0 < count && Rank(nodes, a) + count == Rank(nodes, b)
      modifies `nodes, `contents, `size
      ensures Rank(old(nodes), b) <= |old(contents)| && size == |contents|
      ensures contents == old(contents)[..Rank(old(nodes), a)] + old(contents)[Rank(old(nodes), b)..]
      ensures Sound(0) && IsPlace(nodes, a) && Rank(nodes, a) == Rank(old(nodes), a)
    {
      SlotsInOrder(nodes, max, root, contents, a.node, b.pos, a.pos);
      ghost var s, i, j := nodes, Rank(nodes, a), Rank(nodes, b);
      NodeOk(s, max, root, contents, a.node);
      nodes := CutNodes(nodes, max, root, contents, a.node, a.pos, b.pos);
      CutEffects(s, max, root, rightmost, contents, a.node, a.pos, b.pos, nodes);
      contents := contents[..i] + contents[j..];
      size := size - count;
    }

    /** Removes the values between two places of one node, with the subtrees between them. */
    method EraseSameNode(a: Iter, b: Iter, count: nat) returns (r: Iter)
      requires Valid() && size > 0 && IsPlace(nodes, a) && IsPlace(nodes, b) && a.node == b.node
      requires 0 < count && Rank(nodes, a) + count == Rank(nodes, b)
      modifies this
      ensures Valid() && Rank(old(nodes), b) <= |old(contents)|
      ensures contents == old(contents)[..Rank(old(nodes), a)] + old(contents)[Rank(old(nodes), b)..]
      ensures StandsAt(r, Rank(old(nodes), a))
    {
      if nodes[a.node].leaf {
        r := EraseFromLeaf(a, b.pos - a.pos);
      } else {
        CutInside(a, b, count);
        r := RebalanceAfterDelete(a);
      }
    }

    /** Removes all values and nodes. */
    method Clear()
      requires Valid()
      modifies this
      ensures Valid() && contents == []
    {
      nodes, root, rightmost, size, contents := map[], 0, 0, 0, [];
    }

    /** Removes at least one and at most `remaining` values: the rest of a leaf, or one internal slot. */
    method EraseSome(a: Iter, remaining: nat, ghost i: nat) returns (r: Iter)
      requires Valid() && StandsAt(a, i) && 0 < remaining && i + remaining <= size
      modifies this
      ensures Valid() && StandsAt(r, i) && old(size) - remaining <= size < old(size)
      ensures Lacks(old(contents), contents, i, old(size) - size)
    {
      CanonicalValue(nodes, max, root, rightmost, contents, a);
      if nodes[a.node].leaf {
        var inNode := |nodes[a.node].slots| - a.pos;
        r := EraseFromLeaf(a, if remaining < inNode then remaining else inNode);
      } else {
        r := Erase(a);
      }
    }

    /** Removes values from the place `a` on until `target` are left. */
    method EraseDown(a: Iter, target: nat, ghost i: nat) returns (r: Iter)
      requires Valid() && StandsAt(a, i) && i <= target <= size
      modifies this
      ensures Valid() && size == target && Lacks(old(contents), contents, i, old(size) - target)
      ensures StandsAt(r, i)
    {
      r := a;
      NothingLacks(contents, i);
      while size > target
        invariant Valid() && StandsAt(r, i) && target <= size <= old(size)
        invariant Lacks(old(contents), contents, i, old(size) - size)
        decreases size
      {
        ghost var had, was := size, contents;
        r := EraseSome(r, size - target, i);
        LacksMore(old(contents), was, contents, i, old(size) - had, had - size);
      }
    }

    /** Removes the values from the `i`-th up to, not including, the `j`-th. */
    method EraseRange(a: Iter, b: Iter, ghost i: nat, ghost j: nat) returns (count: nat, r: Iter)
      requires Valid() && StandsAt(a, i) && StandsAt(b, j) && i <= j
      modifies this
      ensures j <= |old(contents)| && count == j - i
      ensures Valid() && contents == old(contents)[..i] + old(contents)[j..] && StandsAt(r, i)
    {
      RanksInRange(a, i);
      RanksInRange(b, j);
      count := Distance(a, b, i, j);
      if count == 0 { return 0, a; }
      if count == size {
        Clear();
        return count, Iter(0, 0);
      }
      if a.node == b.node {
        r := EraseSameNode(a, b, count);
      } else {
        r := EraseDown(a, size - count, i);
      }
    }

    lemma RanksInRange(a: Iter, i: nat)
      requires Valid() && StandsAt(a, i)
      ensures i <= |contents|
    {
      if size > 0 { CanonicalValue(nodes, max, root, rightmost, contents, a); }
    }

    // ---------- lookup ----------

    /** What holds between operations of a keyed container. */
    ghost predicate Ordered()
      reads this
    {
      Valid() && StrictWeakOrder(order.less) && Sorted(order, contents)
    }

    /** The place after the last value. */
    method End() returns (r: Iter)
      requires Valid()
      ensures StandsAt(r, |contents|)
    {
      if size == 0 { return Iter(0, 0); }
      r := Iter(rightmost, |nodes[rightmost].slots|);
      LeafInBounds(nodes, max, root, contents, rightmost);
    }

    /** The first value, or the end. */
    method Begin() returns (r: Iter)
      requires Valid()
      ensures StandsAt(r, 0)
    {
      if size == 0 { return Iter(0, 0); }
      r := Iter(nodes[root].parent, 0);
      assert nodes[r.node].slots != [];
    }

    method LowerBound(k: Key) returns (r: Iter)
      requires Ordered()
      ensures StandsAt(r, Scan(contents, order.Below(k)))
    {
      if size == 0 { return Iter(0, 0); }
      r := InternalLowerBound(order, nodes, max, root, rightmost, contents, k);
      if r.node == 0 { r := End(); }
    }

    method UpperBound(k: Key) returns (r: Iter)
      requires Ordered()
      ensures StandsAt(r, Scan(contents, order.NotAbove(k)))
    {
      if size == 0 { return Iter(0, 0); }
      r := InternalUpperBound(order, nodes, max, root, rightmost, contents, k);
      if r.node == 0 { r := End(); }
    }

    /** A value with key `k`, or the end if there is none. */
    method Find(k: Key) returns (r: Iter)
      requires Ordered()
      ensures Has(order, contents, k) ==> IsValue(nodes, r) && order.Equal(k, nodes[r.node].slots[r.pos])
      ensures Has(order, contents, k) && (!order.multi || !order.compareTo) ==> StandsAt(r, Scan(contents, order.Below(k)))
      ensures Has(order, contents, k) && order.compareTo ==>
        (Rank(nodes, r) == Scan(contents, order.Below(k)) <==> FirstOnTop(order, nodes, contents, k))
      ensures !Has(order, contents, k) ==> StandsAt(r, |contents|)
    {
      if size == 0 { return Iter(0, 0); }
      r := InternalFind(order, nodes, max, root, rightmost, contents, k);
      if r.node == 0 { r := End(); }
    }

    // ---------- insertion by key ----------

    /** A leaf root with room for one value, for the first insertion. */
    method NewLeafRoot()
      requires Valid() && size == 0
      modifies `nodes, `root, `rightmost, `next
      ensures Sound(root) && nodes[root].leaf && nodes[root].slots == []
    {
      nodes := map[next := Cell(true, 1, next, 0, [], [], 0, 0, 0)];
      root, rightmost, next := next, next, next + 1;
      assert CellOk(nodes, max, root, contents, root);
    }

    /** Prepares an insertion: an empty container gets its first node. */
    method EnsureRoot()
      requires Valid()
      modifies `nodes, `root, `rightmost, `next
      ensures Addresses() && Inv(nodes, max, root, contents) && Ends(nodes, root, rightmost, contents)
      ensures if size == 0 then Sound(root) && nodes[root].leaf else Sound(0)
    {
      if size == 0 { NewLeafRoot(); }
    }

    /** Where nothing but the root may be without values, that root is a leaf and the only node. */
    lemma AnyPlace(it: Iter)
      requires Addresses() && size == |contents| && IsPlace(nodes, it)
      requires Inv(nodes, max, root, contents) && Ends(nodes, root, rightmost, contents)
      requires if size == 0 then Sound(root) && nodes[root].leaf else Sound(0)
      ensures Sound(it.node)
    {
      if size == 0 { LoneRoot(nodes, max, root, contents); }
    }

    method InsertMulti(v: V) returns (r: Iter)
      requires Ordered() && order.multi
      modifies this
      ensures Ordered() && contents == PutMulti(order, old(contents), v)
      ensures StandsAt(r, Scan(old(contents), order.NotAbove(order.key(v))))
    {
      ghost var was := contents;
      PutSorted(order, contents, v);
      EnsureRoot();
      var it := InternalUpperBound(order, nodes, max, root, rightmost, contents, order.key(v));
      if it.node == 0 {
        it := Iter(rightmost, |nodes[rightmost].slots|);
        LeafInBounds(nodes, max, root, contents, rightmost);
      }
      AnyPlace(it);
      r := InternalEmplace(it, v);
    }

    /** Looks for the place of a new key; `found` if there is a value with an equal key. */
    method LocateUnique(k: Key) returns (found: bool, it: Iter)
      requires Addresses() && size == |contents| && StrictWeakOrder(order.less) && Sorted(order, contents) && !order.multi
      requires Inv(nodes, max, root, contents) && Ends(nodes, root, rightmost, contents)
      ensures IsPlace(nodes, it) && Rank(nodes, it) == Scan(contents, order.Below(k))
      ensures found <==> Has(order, contents, k)
      ensures found ==> IsValue(nodes, it)
    {
      var exact;
      it, exact := Locate(order, nodes, max, root, contents, k, order.compareTo);
      PlaceRank(nodes, max, root, contents, it);
      CutIsScan(contents, order.Below(k), Rank(nodes, it));
      ghost var lo := Rank(nodes, it);
      if lo == |contents| || !order.Equal(k, contents[lo]) { NoneEqual(order, contents, k, lo); }
      found := exact;
      if !order.compareTo {
        var last := InternalLast(nodes, max, root, rightmost, contents, it);
        if last.node != 0 {
          PlaceRank(nodes, max, root, contents, last);
          if !order.less(k, order.key(nodes[last.node].slots[last.pos])) { return true, last; }
        }
      }
    }

    method InsertUnique(v: V) returns (r: Iter, inserted: bool)
      requires Ordered() && !order.multi
      modifies this
      ensures Ordered() && contents == PutUnique(order, old(contents), v)
      ensures inserted <==> !Has(order, old(contents), order.key(v))
      ensures StandsAt(r, Scan(old(contents), order.Below(order.key(v))))
    {
      PutSorted(order, contents, v);
      EnsureRoot();
      var found, it := LocateUnique(order.key(v));
      if found { return it, false; }
      AnyPlace(it);
      r := InternalEmplace(it, v);
      inserted := true;
    }

    /** Whether the value before and the value at a place leave room for a new key between them. */
    method FitsBefore(it: Iter, k: Key, ghost i: nat) returns (fits: bool)
      requires Ordered() && size > 0 && StandsAt(it, i)
      requires i < |contents| ==> order.less(k, order.key(contents[i]))
      ensures fits ==> Scan(contents, order.Below(k)) == i <= |contents| && !Has(order, contents, k)
    {
      RanksInRange(it, i);
      var first := Begin();
      fits := true;
      if it != first {
        CanonicalUnique(nodes, max, root, rightmost, contents, it, first);
        var prev := Decrement(nodes, max, root, rightmost, contents, it);
        PlaceRank(nodes, max, root, contents, prev);
        fits := order.less(order.key(nodes[prev.node].slots[prev.pos]), k);
      }
      if fits { FitsUnique(order, contents, i, k); }
    }

    /** Whether `hint`, or the place after it, is where a new key belongs. */
    method CheckHintUnique(hint: Iter, k: Key, ghost i: nat) returns (fits: bool, found: bool, it: Iter, ghost j: nat)
      requires Ordered() && size > 0 && StandsAt(hint, i) && !order.multi
      ensures !(fits && found)
      ensures fits || found ==> StandsAt(it, j) && j == Scan(contents, order.Below(k)) && (found <==> Has(order, contents, k))
      ensures found ==> IsValue(nodes, it)
    {
      fits, found, it, j := false, false, hint, i;
      var end := End();
      RanksInRange(hint, i);
      CanonicalValue(nodes, max, root, rightmost, contents, hint);
      CanonicalUnique(nodes, max, root, rightmost, contents, hint, end);
      if hint == end {
        fits := FitsBefore(hint, k, i);
        return;
      }
      PlaceRank(nodes, max, root, contents, hint);
      var at := order.key(nodes[hint.node].slots[hint.pos]);
      if order.less(k, at) {
        fits := FitsBefore(hint, k, i);
      } else if order.less(at, k) {
        it := Increment(nodes, max, root, rightmost, contents, hint);
        j := i + 1;
        fits := it == end;
        CanonicalValue(nodes, max, root, rightmost, contents, it);
        CanonicalUnique(nodes, max, root, rightmost, contents, it, end);
        if !fits {
          PlaceRank(nodes, max, root, contents, it);
          fits := order.less(k, order.key(nodes[it.node].slots[it.pos]));
        }
        if fits { FitsUnique(order, contents, j, k); }
      } else {
        FoundUnique(order, contents, i, k);
        found := true;
      }
    }

    /** Inserts with a hint: the result is the same whatever the hint. */
    method InsertHintUnique(hint: Iter, v: V, ghost i: nat) returns (r: Iter, inserted: bool)
      requires Ordered() && !order.multi && StandsAt(hint, i)
      modifies this
      ensures Ordered() && contents == PutUnique(order, old(contents), v)
      ensures inserted <==> !Has(order, old(contents), order.key(v))
      ensures StandsAt(r, Scan(old(contents), order.Below(order.key(v))))
    {
      if size > 0 {
        var fits, found, it, j := CheckHintUnique(hint, order.key(v), i);
        if found { return it, false; }
        if fits {
          PutSorted(order, contents, v);
          r := InternalEmplace(it, v);
          return r, true;
        }
      }
      r, inserted := InsertUnique(v);
    }

    /** Whether `hint`, or the place after it, has no larger value before and no smaller one behind it. */
    method CheckHintMulti(hint: Iter, k: Key, ghost i: nat) returns (fits: bool, it: Iter, ghost j: nat)
      requires Valid() && size > 0 && StandsAt(hint, i)
      ensures i <= |contents| && StandsAt(it, j)
      ensures if (i == |contents| || !order.less(order.key(contents[i]), k)) && (i == 0 || !order.less(k, order.key(contents[i - 1])))
        then fits && j == i
        else if i < |contents| && order.less(order.key(contents[i]), k) &&
          (i + 1 == |contents| || !order.less(order.key(contents[i + 1]), k))
        then fits && j == i + 1
        else !fits
    {
      fits, it, j := true, hint, i;
      var end := End();
      var first := Begin();
      CanonicalValue(nodes, max, root, rightmost, contents, hint);
      CanonicalUnique(nodes, max, root, rightmost, contents, hint, end);
      CanonicalUnique(nodes, max, root, rightmost, contents, hint, first);
      PlaceRank(nodes, max, root, contents, hint);
      if hint == end || !order.less(order.key(nodes[hint.node].slots[hint.pos]), k) {
        if hint != first {
          var prev := Decrement(nodes, max, root, rightmost, contents, hint);
          PlaceRank(nodes, max, root, contents, prev);
          fits := !order.less(k, order.key(nodes[prev.node].slots[prev.pos]));
        }
      } else {
        it := Increment(nodes, max, root, rightmost, contents, hint);
        j := i + 1;
        CanonicalValue(nodes, max, root, rightmost, contents, it);
        CanonicalUnique(nodes, max, root, rightmost, contents, it, end);
        PlaceRank(nodes, max, root, contents, it);
        if it != end { fits := !order.less(order.key(nodes[it.node].slots[it.pos]), k); }
      }
    }

    method InsertHintMulti(hint: Iter, v: V, ghost i: nat) returns (r: Iter)
      requires Ordered() && order.multi && StandsAt(hint, i)
      modifies this
      ensures Ordered() && i <= |old(contents)|
      ensures var lo, hi := Scan(old(contents), order.Below(order.key(v))), Scan(old(contents), order.NotAbove(order.key(v)));
        var j := if lo <= i <= hi then i else if i + 1 == lo then lo else hi;
        j <= |old(contents)| && contents == old(contents)[..j] + [v] + old(contents)[j..] && StandsAt(r, j)
    {
      RanksInRange(hint, i);
      HintMultiSorted(order, contents, i, v);
      HintMultiIs(order, contents, i, v);
      if size > 0 {
        var fits, it, j := CheckHintMulti(hint, order.key(v), i);
        if fits {
          r := InternalEmplace(it, v);
          return;
        }
      }
      r := InsertMulti(v);
    }

    // ---------- removal by key ----------

    method EraseUnique(k: Key) returns (count: nat)
      requires Ordered() && !order.multi
      modifies this
      ensures Ordered() && contents == Without(order, old(contents), k) && count == |Run(order, old(contents), k)|
    {
      WithoutIs(order, contents, k);
      RunUnique(order, contents, k);
      if size == 0 { return 0; }
      var it := InternalFind(order, nodes, max, root, rightmost, contents, k);
      if it.node == 0 { return 0; }
      var _ := Erase(it);
      return 1;
    }

    method EraseMulti(k: Key) returns (count: nat)
      requires Ordered()
      modifies this
      ensures Ordered() && contents == Without(order, old(contents), k) && count == |Run(order, old(contents), k)|
    {
      WithoutIs(order, contents, k);
      if size == 0 { return 0; }
      var first := InternalLowerBound(order, nodes, max, root, rightmost, contents, k);
      if first.node == 0 { return 0; }
      var last := UpperBound(k);
      var next;
      count, next := EraseRange(first, last, Scan(contents, order.Below(k)), Scan(contents, order.NotAbove(k)));
    }
  }

  /** `now` is `was` without the `n` values from the `i`-th on. */
  predicate Lacks<T(==)>(was: seq<T>, now: seq<T>, i: nat, n: int) {
    0 <= n && i + n <= |was| && now == was[..i] + was[i + n..]
  }

  lemma NothingLacks<T>(s: seq<T>, i: nat)
    requires i <= |s|
    ensures Lacks(s, s, i, 0)
  {
  }

  /** Removing `c` and then `d` values at the same place removes `c + d`. */
  lemma LacksMore<T>(was: seq<T>, mid: seq<T>, now: seq<T>, i: nat, c: int, d: int)
    requires Lacks(was, mid, i, c) && Lacks(mid, now, i, d)
    ensures Lacks(was, now, i, c + d)
  {
  }

  /** Later slots have later ranks. */
  lemma SlotsInOrder<V>(s: Store<int, V>, K: nat, root: int, all: seq<V>, n: int, i: nat, j: nat)
    requires Inv(s, K, root, all) && n in s && !s[n].leaf && i < |s[n].slots| && j < |s[n].slots|
    ensures SlotRank(s, s[n], j) < SlotRank(s, s[n], i) ==> j < i
  {
    NodeOk(s, K, root, all, n);
    if i < j { ChainOrder(s, all, s[n].kids, s[n].slots, s[n].off, s[n].End(), i, j); }
  }
}
