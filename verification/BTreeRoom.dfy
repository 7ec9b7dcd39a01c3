/** Making room in a full node: by moving values to a sibling, or by splitting. */
module BTreeRoom {
  import opened BTreeStore
  import opened BTreeRepartition
  import opened BTreeSplit
  import opened BTreeMoves
  import opened BTreeSplitMoves
  import opened BTreeEffects
  import opened BTreePosition
  import opened BTreeIterator

  /** The place `r` of `t` is the place `it` of `s`, in a node with room for one more value. */
  ghost predicate MadeRoom<V>(s: Store<int, V>, it: Iter, K: nat, root: int, rightmost: int, all: seq<V>,
                              t: Store<int, V>, r: Iter) {
    && it.node in s && Shape(t, K, root, rightmost, all, r.node) && Tracks(s, it, t, r) && |t[r.node].slots| < K
    && BelowSame(s, t, s[it.node].level)
  }

  /** How many values to move into `room` free slots: half, or all when the insertion is at the far end. */
  function ToMove(room: nat, half: bool): (m: nat)
    requires 1 <= room
    ensures 1 <= m <= room && (if half then room - 1 <= 2 * m <= room + 1 else m == room)
  {
    var m := room / (if half then 2 else 1);
    if m < 1 then 1 else m
  }

  lemma RepartitionSizes<V>(s: Store<int, V>, root: int, l: int, r: int, c: nat, t: Store<int, V>)
    requires Siblings(s, root, l, r) && Repartitioned(s, root, l, r, c, t)
    ensures |JoinedSlots(s, root, l, r)| == |s[l].slots| + 1 + |s[r].slots|
    ensures |t[l].slots| == c && |t[r].slots| == |s[l].slots| + |s[r].slots| - c
  {
  }

  /** All that has to be said about a rebalance on behalf of an insertion at `a`. */
  lemma RepartitionMakesRoom<V>(s: Store<int, V>, K: nat, root: int, rightmost: int, all: seq<V>,
                                l: int, r: int, c: nat, t: Store<int, V>, a: Iter, b: Iter)
    requires Shape(s, K, root, rightmost, all, 0) && 0 !in s && Siblings(s, root, l, r) && Repartitioned(s, root, l, r, c, t)
    requires 1 <= c < |s[l].slots| + |s[r].slots| && c <= K && |s[l].slots| + |s[r].slots| - c <= K
    requires (a.node == l || a.node == r) && 0 <= a.pos <= |s[a.node].slots|
    requires (b.node == l && 0 <= b.pos <= c < K) || (b.node == r && 0 <= b.pos <= |s[l].slots| + |s[r].slots| - c < K)
    requires (if a.node == l then a.pos else |s[l].slots| + 1 + a.pos) == (if b.node == l then b.pos else c + 1 + b.pos)
    ensures MadeRoom(s, a, K, root, rightmost, all, t, b)
  {
    RepartitionSizes(s, root, l, r, c, t);
    assert CellOk(s, K, root, all, l) && CellOk(s, K, root, all, r);
    RepartitionInv(s, K, root, all, l, r, c, t);
    RepartitionEnds(s, K, root, rightmost, all, l, r, c, t);
    RepartitionFilled(s, root, l, r, c, t, 0);
    RepartitionBelow(s, root, l, r, c, t);
    RepartitionTracks(s, K, root, all, l, r, c, t, a, b);
  }

  /** Under the invariant neighbouring children are siblings. */
  lemma Neighbours<V>(s: Store<int, V>, K: nat, root: int, all: seq<V>, p: int, i: nat)
    requires Inv(s, K, root, all) && p in s && !s[p].leaf && i < |s[p].slots|
    ensures i + 1 < |s[p].kids| && Siblings(s, root, s[p].kids[i], s[p].kids[i + 1])
    ensures s[s[p].kids[i]].cap == K && s[s[p].kids[i + 1]].cap == K
  {
    assert CellOk(s, K, root, all, p) && CellOk(s, K, root, all, root);
    var l, r := s[p].kids[i], s[p].kids[i + 1];
    assert CellOk(s, K, root, all, l) && CellOk(s, K, root, all, r);
  }

  method MoveToLeft<V>(s: Store<int, V>, K: nat, ghost root: int, ghost rightmost: int, ghost all: seq<V>,
                       left: int, toMove: nat, it: Iter) returns (t: Store<int, V>, r: Iter)
    requires Shape(s, K, root, rightmost, all, 0) && 0 !in s && Siblings(s, root, left, it.node)
    requires 1 <= toMove < K && |s[left].slots| + toMove <= K && 0 <= it.pos <= |s[it.node].slots| == K
    requires it.pos - toMove >= 0 || |s[left].slots| + toMove < K
    ensures MadeRoom(s, it, K, root, rightmost, all, t, r) && t.Keys == s.Keys
  {
    t := RebalanceRightToLeft(s, K, root, all, left, toMove, it.node);
    ghost var c := |s[left].slots| + toMove;
    RepartitionSizes(s, root, left, it.node, c, t);
    var ins := it.pos - toMove;
    r := if ins < 0 then Iter(left, ins + |t[left].slots| + 1) else Iter(it.node, ins);
    RepartitionMakesRoom(s, K, root, rightmost, all, left, it.node, c, t, it, r);
  }

  method MoveToRight<V>(s: Store<int, V>, K: nat, ghost root: int, ghost rightmost: int, ghost all: seq<V>,
                        right: int, toMove: nat, it: Iter) returns (t: Store<int, V>, r: Iter)
    requires Shape(s, K, root, rightmost, all, 0) && 0 !in s && Siblings(s, root, it.node, right)
    requires 1 <= toMove < K && |s[right].slots| + toMove <= K && 0 <= it.pos <= |s[it.node].slots| == K
    requires it.pos <= K - toMove || |s[right].slots| + toMove < K
    ensures MadeRoom(s, it, K, root, rightmost, all, t, r) && t.Keys == s.Keys
  {
    t := RebalanceLeftToRight(s, K, root, all, it.node, toMove, right);
    ghost var c := |s[it.node].slots| - toMove;
    RepartitionSizes(s, root, it.node, right, c, t);
    var count := |t[it.node].slots|;
    r := if it.pos > count then Iter(right, it.pos - count - 1) else it;
    RepartitionMakesRoom(s, K, root, rightmost, all, it.node, right, c, t, it, r);
  }

  /** The left sibling has room, and the place of the insertion does not land in a node that is full then. */
  predicate LeftTakes<V>(s: Store<int, V>, it: Iter, K: nat) {
    it.node in s && s[it.node].parent in s && var ks, i := s[s[it.node].parent].kids, s[it.node].pos;
    0 < i <= |ks| && ks[i - 1] in s && |s[ks[i - 1]].slots| < K &&
    var m := ToMove(K - |s[ks[i - 1]].slots|, it.pos < K); it.pos >= m || |s[ks[i - 1]].slots| + m < K
  }

  predicate RightTakes<V>(s: Store<int, V>, it: Iter, K: nat) {
    it.node in s && s[it.node].parent in s && var ks, i := s[s[it.node].parent].kids, s[it.node].pos;
    i + 1 < |ks| && ks[i + 1] in s && |s[ks[i + 1]].slots| < K &&
    var m := ToMove(K - |s[ks[i + 1]].slots|, it.pos > 0); it.pos + m <= |s[it.node].slots| || |s[ks[i + 1]].slots| + m < K
  }

  /** Tries to move values to a sibling with room, left first, unless the place would land in a full node. */
  method RebalanceWithSibling<V>(s: Store<int, V>, K: nat, ghost root: int, ghost rightmost: int, ghost all: seq<V>, it: Iter)
    returns (done: bool, t: Store<int, V>, r: Iter)
    requires Shape(s, K, root, rightmost, all, 0) && 0 !in s
    requires it.node in s && it.node != root && 0 <= it.pos <= |s[it.node].slots| == K
    ensures !done ==> t == s
    ensures done ==> true == MadeRoom(s, it, K, root, rightmost, all, t, r) && t.Keys == s.Keys
    ensures done <==> LeftTakes(s, it, K) || RightTakes(s, it, K)
  {
    var p, i := s[it.node].parent, s[it.node].pos;
    assert CellOk(s, K, root, all, it.node);
    assert CellOk(s, K, root, all, p);
    done, t, r := false, s, it;
    if i > 0 {
      Neighbours(s, K, root, all, p, i - 1);
      var left := s[p].kids[i - 1];
      if |s[left].slots| < K {
        assert s[left].slots != [];
        var toMove := ToMove(K - |s[left].slots|, it.pos < K);
        if it.pos - toMove >= 0 || |s[left].slots| + toMove < K {
          t, r := MoveToLeft(s, K, root, rightmost, all, left, toMove, it);
          return true, t, r;
        }
      }
    }
    if i < |s[p].slots| {
      Neighbours(s, K, root, all, p, i);
      var right := s[p].kids[i + 1];
      if |s[right].slots| < K {
        assert s[right].slots != [];
        var toMove := ToMove(K - |s[right].slots|, it.pos > 0);
        if it.pos <= |s[it.node].slots| - toMove || |s[right].slots| + toMove < K {
          t, r := MoveToRight(s, K, root, rightmost, all, right, toMove, it);
          return true, t, r;
        }
      }
    }
  }

  /** Splits a full node whose parent has room, with `d` as the new right half. */
  method SplitFull<V>(s: Store<int, V>, K: nat, ghost root: int, rightmost: int, ghost all: seq<V>, ghost hole: int,
                      it: Iter, d: int) returns (t: Store<int, V>, r: Iter, last: int)
    requires 3 <= K && Shape(s, K, root, rightmost, all, hole) && d !in s
    requires it.node in s && it.node != root && 0 <= it.pos <= |s[it.node].slots| == K
    requires s[it.node].parent in s && |s[s[it.node].parent].slots| < K && (hole == s[it.node].parent || hole !in s)
    ensures t.Keys == s.Keys + {d} && MadeRoom(s, it, K, root, last, all, t, r)
  {
    var n := it.node;
    assert CellOk(s, K, root, all, n);
    var c := SplitSlot(K, it.pos, K);
    t := SplitNode(s, K, root, all, n, c, d);
    last := if rightmost == n then d else rightmost;
    r := if it.pos > c then Iter(d, it.pos - c - 1) else it;
    assert |t[n].slots| == c && |t[d].slots| == K - c - 1;
    SplitInv(s, K, root, all, n, d, c, t);
    SplitEnds(s, K, root, rightmost, all, n, d, c, t);
    SplitFilled(s, root, n, d, c, t, hole, r.node);
    SplitBelow(s, root, n, d, c, t);
    SplitTracks(s, K, root, all, n, d, c, t, it.pos);
  }

  /** Making room above a node and then in the node itself is making room in the node. */
  lemma MadeRoomAfter<V>(s: Store<int, V>, it: Iter, level: nat, u: Store<int, V>,
                         K: nat, root: int, rightmost: int, all: seq<V>, t: Store<int, V>, r: Iter)
    requires it.node in s && s[it.node].level < level && BelowSame(s, u, level)
    requires MadeRoom(u, it, K, root, rightmost, all, t, r)
    ensures MadeRoom(s, it, K, root, rightmost, all, t, r)
  {
    assert it.node in u && u[it.node] == s[it.node].(parent := u[it.node].parent, pos := u[it.node].pos);
    assert BelowSame(s, u, s[it.node].level);
    BelowSameTrans(s, u, t, s[it.node].level);
  }
}
