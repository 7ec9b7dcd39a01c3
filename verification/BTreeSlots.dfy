/** The in-place moves of the node operations, on the arrays that hold the values and the children.

Each method states the entries in use afterwards through the functions below, and the storage
operations write the cells through the same functions. */
module BTreeSlots {

  // ---------- the entries in use afterwards ----------

  /** One entry more, at place `i`. */
  function With<T>(a: seq<T>, i: nat, v: T): (b: seq<T>)
    requires i <= |a|
    ensures |b| == |a| + 1 && b[i] == v && b[..i] == a[..i] && b[i + 1..] == a[i..]
  {
    a[..i] + [v] + a[i..]
  }

  /** `c` entries fewer, from place `i` on. */
  function Without<T>(a: seq<T>, i: nat, c: nat): (b: seq<T>)
    requires i + c <= |a|
    ensures |b| == |a| - c && b[..i] == a[..i] && b[i..] == a[i + c..]
  {
    a[..i] + a[i + c..]
  }

  /** The left node's values after `m` moved to it through the delimiter `d`. */
  function LeftGains<T>(a: seq<T>, d: T, b: seq<T>, m: nat): (c: seq<T>)
    requires 1 <= m <= |b|
    ensures |c| == |a| + m && c + [b[m - 1]] + b[m..] == a + [d] + b
  {
    a + [d] + b[..m - 1]
  }

  /** The right node's values after `m` moved to it through the delimiter `d`. */
  function RightGains<T>(a: seq<T>, d: T, b: seq<T>, m: nat): (c: seq<T>)
    requires 1 <= m <= |a|
    ensures |c| == |b| + m && a[..|a| - m] + [a[|a| - m]] + c == a + [d] + b
  {
    a[|a| - m + 1..] + [d] + b
  }

  /** The left node's children after it took the first `m` of the right node. */
  function LeftAdopts<T>(a: seq<T>, b: seq<T>, m: nat): (c: seq<T>)
    requires m <= |b|
    ensures |c| == |a| + m && c + b[m..] == a + b
  {
    a + b[..m]
  }

  /** The right node's children after it took the last `m` of the left node. */
  function RightAdopts<T>(a: seq<T>, b: seq<T>, m: nat): (c: seq<T>)
    requires m <= |a|
    ensures |c| == |b| + m && a[..|a| - m] + c == a + b
  {
    a[|a| - m..] + b
  }

  // ---------- the moves ----------

  /** Moves `n` values front to back, as a forward range move does. */
  method MoveForward<T>(src: array<T>, i: nat, dst: array<T>, j: nat, n: nat)
    requires i + n <= src.Length && j + n <= dst.Length
    requires src != dst || j <= i || i + n <= j
    modifies dst
    ensures forall k {:trigger dst[k]} :: 0 <= k < dst.Length ==>
      dst[k] == if j <= k < j + n then old(src[k - j + i]) else old(dst[k])
  {
    for a := 0 to n
      invariant forall k {:trigger dst[k]} :: 0 <= k < dst.Length ==>
        dst[k] == if j <= k < j + a then old(src[k - j + i]) else old(dst[k])
      invariant src != dst ==> src[..] == old(src[..])
    {
      dst[j + a] := src[i + a];
    }
  }

  /** Moves `n` values of one array to a place further right, back to front. */
  method MoveBackward<T>(arr: array<T>, i: nat, j: nat, n: nat)
    requires i <= j && j + n <= arr.Length
    modifies arr
    ensures forall k {:trigger arr[k]} :: 0 <= k < arr.Length ==>
      arr[k] == if j <= k < j + n then old(arr[k - j + i]) else old(arr[k])
  {
    for a := n downto 0
      invariant forall k {:trigger arr[k]} :: 0 <= k < arr.Length ==>
        arr[k] == if j + a <= k < j + n then old(arr[k - j + i]) else old(arr[k])
    {
      arr[j + a] := arr[i + a];
    }
  }

  /** Shifts the entries from `i` on one place to the right. */
  method OpenGap<T>(arr: array<T>, count: nat, i: nat)
    requires i <= count < arr.Length
    modifies arr
    ensures arr[..i] == old(arr[..i]) && arr[i + 1..count + 1] == old(arr[i..count])
    ensures arr[count + 1..] == old(arr[count + 1..])
  {
    MoveBackward(arr, i, i + 1, count - i);
  }

  /** The value moves of `emplace_value`: the last value goes to a slot not in use before. */
  method EmplaceValue<T>(slots: array<T>, count: nat, i: nat, v: T)
    requires i <= count < slots.Length
    modifies slots
    ensures slots[..count + 1] == With(old(slots[..count]), i, v)
  {
    if i < count {
      slots[count] := slots[count - 1];
      OpenGap(slots, count - 1, i);
      assert slots[count] == slots[count..][0];
    }
    assert slots[i + 1..count + 1] == old(slots[i..count]);
    slots[i] := v;
    assert slots[..count + 1] == slots[..i] + [slots[i]] + slots[i + 1..count + 1];
  }

  /** The value moves of `remove_values_ignore_children`. */
  method RemoveValues<T>(slots: array<T>, count: nat, i: nat, toErase: nat)
    requires i + toErase <= count <= slots.Length
    modifies slots
    ensures slots[..count - toErase] == Without(old(slots[..count]), i, toErase)
  {
    MoveForward(slots, i + toErase, slots, i, count - (i + toErase));
  }

  /** The value moves of `rebalance_right_to_left`. */
  method ValuesRightToLeft<T>(ls: array<T>, lc: nat, ps: array<T>, i: nat, rs: array<T>, rc: nat, m: nat)
    requires ls != rs && ls != ps && rs != ps
    requires 1 <= m <= rc <= rs.Length && lc + m <= ls.Length && i < ps.Length
    modifies ls, ps, rs
    ensures ls[..lc + m] == LeftGains(old(ls[..lc]), old(ps[i]), old(rs[..rc]), m)
    ensures ps[..] == old(ps[..][i := rs[m - 1]])
    ensures rs[..rc - m] == old(rs[m..rc])
  {
    Append(ls, lc, ps[i], rs, m - 1);
    ps[i] := rs[m - 1];
    DropFirst(rs, rc, m);
  }

  /** Shifts the values `m` slots to the left. */
  method DropFirst<T>(rs: array<T>, rc: nat, m: nat)
    requires m <= rc <= rs.Length
    modifies rs
    ensures rs[..rc - m] == old(rs[m..rc])
  {
    MoveForward(rs, m, rs, 0, rc - m);
  }

  /** Puts the delimiter and the first `n` values of the right node behind those of the left. */
  method Append<T>(ls: array<T>, lc: nat, v: T, rs: array<T>, n: nat)
    requires ls != rs && n <= rs.Length && lc + 1 + n <= ls.Length
    modifies ls
    ensures ls[..lc + 1 + n] == old(ls[..lc]) + [v] + rs[..n]
  {
    ls[lc] := v;
    MoveForward(rs, 0, ls, lc + 1, n);
    assert ls[..lc] == old(ls[..lc]) && ls[lc + 1..lc + 1 + n] == rs[..n];
    assert ls[..lc + 1 + n] == ls[..lc] + [ls[lc]] + ls[lc + 1..lc + 1 + n];
  }

  /** The first branch of `rebalance_left_to_right`: the slots in use hold all moved values. */
  method ShiftWithin<T>(ls: array<T>, lc: nat, ps: array<T>, i: nat, rs: array<T>, rc: nat, m: nat)
    requires ls != rs && ls != ps && rs != ps
    requires 1 <= m <= lc <= ls.Length && m <= rc && rc + m <= rs.Length && i < ps.Length
    modifies rs
    ensures rs[..rc + m] == RightGains(old(ls[..lc]), old(ps[i]), old(rs[..rc]), m)
  {
    MakeRoom(rs, rc, m);
    ghost var tail := rs[m..rc + m];
    rs[m - 1] := ps[i];
    MoveForward(ls, lc - (m - 1), rs, 0, m - 1);
    assert rs[..m - 1] == ls[lc - m + 1..lc] && rs[m..rc + m] == tail;
    assert rs[..rc + m] == rs[..m - 1] + [rs[m - 1]] + rs[m..rc + m];
  }

  /** Shifts the values `m` slots to the right, the last `m` of them first. */
  method MakeRoom<T>(rs: array<T>, rc: nat, m: nat)
    requires m <= rc && rc + m <= rs.Length
    modifies rs
    ensures rs[m..rc + m] == old(rs[..rc])
  {
    MoveForward(rs, rc - m, rs, rc, m);
    if rc > m {
      MoveBackward(rs, 0, m, rc - m);
    }
    assert forall k {:trigger rs[k]} :: m <= k < rc + m ==> rs[k] == old(rs[k - m]);
  }

  /** The second branch: part of the moved values goes to slots not in use before. */
  method ShiftBeyond<T>(ls: array<T>, lc: nat, ps: array<T>, i: nat, rs: array<T>, rc: nat, m: nat)
    requires ls != rs && ls != ps && rs != ps
    requires 1 <= m <= lc <= ls.Length && rc < m && rc + m <= rs.Length && i < ps.Length
    modifies rs
    ensures rs[..rc + m] == RightGains(old(ls[..lc]), old(ps[i]), old(rs[..rc]), m)
  {
    MoveForward(rs, 0, rs, m, rc);
    rs[m - 1] := ps[i];
    var rest := m - rc - 1;
    MoveForward(ls, lc - rest, rs, rc, rest);
    MoveForward(ls, lc - (m - 1), rs, 0, rc);
  }

  /** The value moves of `rebalance_left_to_right`: both branches give the same result. */
  method ValuesLeftToRight<T>(ls: array<T>, lc: nat, ps: array<T>, i: nat, rs: array<T>, rc: nat, m: nat)
    requires ls != rs && ls != ps && rs != ps
    requires 1 <= m <= lc <= ls.Length && rc + m <= rs.Length && i < ps.Length
    modifies ps, rs
    ensures rs[..rc + m] == RightGains(old(ls[..lc]), old(ps[i]), old(rs[..rc]), m)
    ensures ps[..] == old(ps[..][i := ls[lc - m]])
  {
    if rc >= m {
      ShiftWithin(ls, lc, ps, i, rs, rc, m);
    } else {
      ShiftBeyond(ls, lc, ps, i, rs, rc, m);
    }
    ps[i] := ls[lc - m];
  }

  /** The value moves of `split` at slot `c`. */
  method ValuesSplit<T>(ls: array<T>, lc: nat, c: nat, ps: array<T>, pc: nat, i: nat, ds: array<T>)
    requires ls != ds && ls != ps && ds != ps
    requires c < lc <= ls.Length && lc - c - 1 <= ds.Length && i <= pc < ps.Length
    modifies ps, ds
    ensures ds[..lc - c - 1] == old(ls[c + 1..lc])
    ensures ps[..pc + 1] == With(old(ps[..pc]), i, old(ls[c]))
  {
    MoveForward(ls, c + 1, ds, 0, lc - c - 1);
    EmplaceValue(ps, pc, i, ls[c]);
  }

  /** The value moves of `merge`. */
  method ValuesMerge<T>(ls: array<T>, lc: nat, ps: array<T>, pc: nat, i: nat, rs: array<T>, rc: nat)
    requires ls != rs && ls != ps && rs != ps
    requires lc + 1 + rc <= ls.Length && rc <= rs.Length && i < pc <= ps.Length
    modifies ls, ps
    ensures ls[..lc + 1 + rc] == old(ls[..lc] + [ps[i]] + rs[..rc])
    ensures ps[..pc - 1] == Without(old(ps[..pc]), i, 1)
  {
    ls[lc] := ps[i];
    MoveForward(rs, 0, ls, lc + 1, rc);
    RemoveValues(ps, pc, i, 1);
  }

  /** Merging right after splitting leaves the values of both nodes' parent and of the node as they were. */
  method SplitThenMerge<T>(ls: array<T>, lc: nat, c: nat, ps: array<T>, pc: nat, i: nat, ds: array<T>)
    requires ls != ds && ls != ps && ds != ps
    requires c < lc <= ls.Length && lc - c - 1 <= ds.Length && i <= pc < ps.Length
    modifies ls, ps, ds
    ensures ls[..lc] == old(ls[..lc]) && ps[..pc] == old(ps[..pc])
  {
    ValuesSplit(ls, lc, c, ps, pc, i, ds);
    assert ps[i] == ps[..pc + 1][i];
    assert ds[..lc - c - 1] == old(ls[c + 1..lc]);
    ghost var p := ps[..pc + 1];
    ValuesMerge(ls, c, ps, pc + 1, i, ds, lc - c - 1);
    assert ps[..pc] == p[..i] + p[i + 1..pc + 1];
  }

  // ---------- children ----------

  /** The child moves of `emplace_value`, and the new child hung into the gap. */
  method EmplaceChild<T>(kids: array<T>, count: nat, i: nat, d: T)
    requires i <= count < kids.Length
    modifies kids
    ensures kids[..count + 1] == With(old(kids[..count]), i, d)
  {
    OpenGap(kids, count, i);
    kids[i] := d;
    assert kids[..count + 1] == kids[..i] + [kids[i]] + kids[i + 1..count + 1];
  }

  /** The child moves of `remove_value`. */
  method RemoveChild<T>(kids: array<T>, count: nat, i: nat)
    requires i < count <= kids.Length
    modifies kids
    ensures kids[..count - 1] == Without(old(kids[..count]), i, 1)
  {
    MoveForward(kids, i + 1, kids, i, count - (i + 1));
  }

  /** The child moves of `rebalance_right_to_left`. */
  method KidsRightToLeft<T>(ls: array<T>, lc: nat, rs: array<T>, rc: nat, m: nat)
    requires ls != rs && m <= rc <= rs.Length && lc + m <= ls.Length
    modifies ls, rs
    ensures ls[..lc + m] == LeftAdopts(old(ls[..lc]), old(rs[..rc]), m)
    ensures rs[..rc - m] == old(rs[m..rc])
  {
    MoveForward(rs, 0, ls, lc, m);
    DropFirst(rs, rc, m);
  }

  /** The child moves of `rebalance_left_to_right`. */
  method KidsLeftToRight<T>(ls: array<T>, lc: nat, rs: array<T>, rc: nat, m: nat)
    requires ls != rs && m <= lc <= ls.Length && rc + m <= rs.Length
    modifies rs
    ensures rs[..rc + m] == RightAdopts(old(ls[..lc]), old(rs[..rc]), m)
  {
    MoveBackward(rs, 0, m, rc);
    MoveForward(ls, lc - m, rs, 0, m);
  }

  /** The child moves of `split` at slot `c`; the parent gets the new node `d` behind child `i`. */
  method KidsSplit<T>(ls: array<T>, lc: nat, c: nat, ps: array<T>, pc: nat, i: nat, d: T, ds: array<T>)
    requires ls != ds && ls != ps && ds != ps
    requires c < lc <= ls.Length && lc - c - 1 <= ds.Length && i < pc < ps.Length
    modifies ps, ds
    ensures ds[..lc - c - 1] == old(ls[c + 1..lc])
    ensures ps[..pc + 1] == With(old(ps[..pc]), i + 1, d)
  {
    EmplaceChild(ps, pc, i + 1, d);
    MoveForward(ls, c + 1, ds, 0, lc - c - 1);
  }

  /** The child moves of `merge`; the parent loses the child behind child `i`. */
  method KidsMerge<T>(ls: array<T>, lc: nat, ps: array<T>, pc: nat, i: nat, rs: array<T>, rc: nat)
    requires ls != rs && ls != ps && rs != ps
    requires lc + rc <= ls.Length && rc <= rs.Length && i + 1 < pc <= ps.Length
    modifies ls, ps
    ensures ls[..lc + rc] == old(ls[..lc] + rs[..rc])
    ensures ps[..pc - 1] == Without(old(ps[..pc]), i + 1, 1)
  {
    MoveForward(rs, 0, ls, lc, rc);
    RemoveChild(ps, pc, i + 1);
  }

  /** The same for the children. */
  method KidsSplitThenMerge<T>(ls: array<T>, lc: nat, c: nat, ps: array<T>, pc: nat, i: nat, d: T, ds: array<T>)
    requires ls != ds && ls != ps && ds != ps
    requires c < lc <= ls.Length && lc - c - 1 <= ds.Length && i < pc < ps.Length
    modifies ls, ps, ds
    ensures ls[..lc] == old(ls[..lc]) && ps[..pc] == old(ps[..pc])
  {
    KidsSplit(ls, lc, c, ps, pc, i, d, ds);
    ghost var p := ps[..pc + 1];
    KidsMerge(ls, c + 1, ps, pc + 1, i, ds, lc - c - 1);
    assert ps[..pc] == Without(p, i + 1, 1) == p[..i + 1] + p[i + 2..];
  }

  // ---------- whole nodes ----------

  /** An array whose first entries are those of `s`, with `spare` places not in use. */
  method Hold<T>(s: seq<T>, spare: nat, blank: T) returns (arr: array<T>)
    ensures fresh(arr) && arr.Length == |s| + spare && arr[..|s|] == s
  {
    arr := new T[|s| + spare](k => if 0 <= k < |s| then s[k] else blank);
  }

  /** `rebalance_right_to_left` on the values of two siblings and their parent. */
  method PassLeft<T>(ls: seq<T>, ps: seq<T>, i: nat, rs: seq<T>, m: nat) returns (l: seq<T>, p: seq<T>, r: seq<T>)
    requires 1 <= m <= |rs| && i < |ps|
    ensures l == LeftGains(ls, ps[i], rs, m) && p == ps[i := rs[m - 1]] && r == rs[m..]
  {
    var la := Hold(ls, m, ps[i]);
    var pa := Hold(ps, 0, ps[i]);
    var ra := Hold(rs, 0, ps[i]);
    ValuesRightToLeft(la, |ls|, pa, i, ra, |rs|, m);
    l, p, r := la[..|ls| + m], pa[..], ra[..|rs| - m];
  }

  /** `rebalance_left_to_right` on the values of two siblings and their parent. */
  method PassRight<T>(ls: seq<T>, ps: seq<T>, i: nat, rs: seq<T>, m: nat) returns (l: seq<T>, p: seq<T>, r: seq<T>)
    requires 1 <= m <= |ls| && i < |ps|
    ensures l == ls[..|ls| - m] && p == ps[i := ls[|ls| - m]] && r == RightGains(ls, ps[i], rs, m)
  {
    var la := Hold(ls, 0, ps[i]);
    var pa := Hold(ps, 0, ps[i]);
    var ra := Hold(rs, m, ps[i]);
    ValuesLeftToRight(la, |ls|, pa, i, ra, |rs|, m);
    l, p, r := la[..|ls| - m], pa[..], ra[..|rs| + m];
  }

  /** `rebalance_right_to_left` on the children of two siblings. */
  method PassKidsLeft<T>(ls: seq<T>, rs: seq<T>, m: nat) returns (l: seq<T>, r: seq<T>)
    requires 1 <= m <= |rs|
    ensures l == LeftAdopts(ls, rs, m) && r == rs[m..]
  {
    var la := Hold(ls, m, rs[0]);
    var ra := Hold(rs, 0, rs[0]);
    KidsRightToLeft(la, |ls|, ra, |rs|, m);
    l, r := la[..|ls| + m], ra[..|rs| - m];
  }

  /** `rebalance_left_to_right` on the children of two siblings. */
  method PassKidsRight<T>(ls: seq<T>, rs: seq<T>, m: nat) returns (l: seq<T>, r: seq<T>)
    requires 1 <= m <= |ls|
    ensures l == ls[..|ls| - m] && r == RightAdopts(ls, rs, m)
  {
    var la := Hold(ls, 0, ls[0]);
    var ra := Hold(rs, m, ls[0]);
    KidsLeftToRight(la, |ls|, ra, |rs|, m);
    l, r := la[..|ls| - m], ra[..|rs| + m];
  }

  /** `split` on the values of a node and its parent. */
  method Halve<T>(ls: seq<T>, c: nat, ps: seq<T>, i: nat) returns (l: seq<T>, p: seq<T>, d: seq<T>)
    requires c < |ls| && i <= |ps|
    ensures l == ls[..c] && p == With(ps, i, ls[c]) && d == ls[c + 1..]
  {
    var la := Hold(ls, 0, ls[c]);
    var pa := Hold(ps, 1, ls[c]);
    var da := Hold([], |ls| - c - 1, ls[c]);
    ValuesSplit(la, |ls|, c, pa, |ps|, i, da);
    l, p, d := la[..c], pa[..|ps| + 1], da[..|ls| - c - 1];
  }

  /** `split` on the children of a node. */
  method HalveKids<T>(ls: seq<T>, c: nat, ps: seq<T>, i: nat, node: T) returns (l: seq<T>, p: seq<T>, d: seq<T>)
    requires c < |ls| && i < |ps|
    ensures l == ls[..c + 1] && p == With(ps, i + 1, node) && d == ls[c + 1..]
  {
    var la := Hold(ls, 0, node);
    var pa := Hold(ps, 1, node);
    var da := Hold([], |ls| - c - 1, node);
    KidsSplit(la, |ls|, c, pa, |ps|, i, node, da);
    l, p, d := la[..c + 1], pa[..|ps| + 1], da[..|ls| - c - 1];
  }

  /** `emplace_value` on the values of one node. */
  method Emplace<T>(slots: seq<T>, i: nat, v: T) returns (r: seq<T>)
    requires i <= |slots|
    ensures r == With(slots, i, v)
  {
    var sa := Hold(slots, 1, v);
    EmplaceValue(sa, |slots|, i, v);
    r := sa[..|slots| + 1];
  }

  /** `remove_values_ignore_children` on the values of one node. */
  method Erase<T>(slots: seq<T>, i: nat, toErase: nat) returns (r: seq<T>)
    requires i + toErase <= |slots| && 1 <= toErase
    ensures r == Without(slots, i, toErase)
  {
    var sa := Hold(slots, 0, slots[i]);
    RemoveValues(sa, |slots|, i, toErase);
    r := sa[..|slots| - toErase];
  }

  /** The children of a parent that gets the new node behind child `i`. */
  method AddKid<T>(ps: seq<T>, i: nat, node: T) returns (p: seq<T>)
    requires i < |ps|
    ensures p == With(ps, i + 1, node)
  {
    var pa := Hold(ps, 1, node);
    EmplaceChild(pa, |ps|, i + 1, node);
    p := pa[..|ps| + 1];
  }

  /** `merge` on the values of two siblings and their parent. */
  method Fuse<T>(ls: seq<T>, ps: seq<T>, i: nat, rs: seq<T>) returns (l: seq<T>, p: seq<T>)
    requires i < |ps|
    ensures l == ls + [ps[i]] + rs && p == Without(ps, i, 1)
  {
    var la := Hold(ls, 1 + |rs|, ps[i]);
    var pa := Hold(ps, 0, ps[i]);
    var ra := Hold(rs, 0, ps[i]);
    ValuesMerge(la, |ls|, pa, |ps|, i, ra, |rs|);
    l, p := la[..|ls| + 1 + |rs|], pa[..|ps| - 1];
  }

  /** `merge` on the children of two siblings and their parent. */
  method FuseKids<T>(ls: seq<T>, ps: seq<T>, i: nat, rs: seq<T>) returns (l: seq<T>, p: seq<T>)
    requires i + 1 < |ps|
    ensures l == ls + rs && p == Without(ps, i + 1, 1)
  {
    var la := Hold(ls, |rs|, ps[i]);
    var pa := Hold(ps, 0, ps[i]);
    var ra := Hold(rs, 0, ps[i]);
    KidsMerge(la, |ls|, pa, |ps|, i, ra, |rs|);
    l, p := la[..|ls| + |rs|], pa[..|ps| - 1];
  }
}
