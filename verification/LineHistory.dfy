/** The history as a list of entries, whatever they are. */
module LineHistory {

  /** A line that is not added: a repeat, or one that finds no history at all. */
  predicate Refused<T(==)>(h: seq<T>, max: nat, e: T) {
    max == 0 || (h != [] && h[|h| - 1] == e)
  }

  /** The history after one more line; repeats of the last entry are dropped, and the oldest goes when it is full. */
  function Added<T(==)>(h: seq<T>, max: nat, e: T): (r: seq<T>)
    requires |h| <= max
    ensures |r| <= max
  {
    if Refused(h, max, e) then h
    else if |h| == max then h[1..] + [e]
    else h + [e]
  }

  function AddedAll<T(==)>(h: seq<T>, max: nat, es: seq<T>): (r: seq<T>)
    requires |h| <= max
    ensures |r| <= max
    decreases |es|
  {
    if es == [] then h else AddedAll(Added(h, max, es[0]), max, es[1..])
  }

  /** Runs of equal lines made single. */
  function Collapsed<T(==)>(es: seq<T>): (r: seq<T>)
    ensures |r| <= |es|
    ensures (es == [] <==> r == []) && (es != [] ==> r[|r| - 1] == es[|es| - 1])
  {
    if |es| < 2 then es
    else
      var k := |es| - 1;
      if es[k] == es[k - 1] then Collapsed(es[..k]) else Collapsed(es[..k]) + [es[k]]
  }

  function LastOf<T>(es: seq<T>, n: nat): (r: seq<T>)
    ensures |r| == if |es| <= n then |es| else n
  {
    if |es| <= n then es else es[|es| - n..]
  }

  predicate Differ<T(==)>(es: seq<T>, i: int)
    requires 0 < i < |es|
  {
    es[i - 1] != es[i]
  }

  predicate NoRepeats<T(==)>(es: seq<T>) { forall i :: 0 < i < |es| ==> Differ(es, i) }

  lemma NoRepeatsSnoc<T>(es: seq<T>, e: T)
    requires es != []
    ensures NoRepeats(es + [e]) <==> NoRepeats(es) && es[|es| - 1] != e
  {
    var r := es + [e];
    assert forall i :: 0 < i < |es| ==> (Differ(r, i) <==> Differ(es, i));
    assert Differ(r, |es|) <==> es[|es| - 1] != e;
  }

  /** Collapsing leaves no repeats, and changes nothing just where there are none. */
  lemma {:induction false} CollapsedIs<T>(es: seq<T>)
    ensures NoRepeats(Collapsed(es))
    ensures |Collapsed(es)| == |es| <==> NoRepeats(es)
    ensures NoRepeats(es) ==> Collapsed(es) == es
  {
    if |es| >= 2 {
      var k := |es| - 1;
      CollapsedIs(es[..k]);
      NoRepeatsSnoc(es[..k], es[k]);
      NoRepeatsSnoc(Collapsed(es[..k]), es[k]);
      assert es == es[..k] + [es[k]];
    }
  }

  /** Where the lines are after collapsing: `f` goes up by steps of at most one and leaves nothing out. */
  predicate Follows<T(==)>(es: seq<T>, r: seq<T>, f: seq<nat>) {
    && |f| == |es| && (forall i :: 0 <= i < |f| ==> f[i] < |r| && es[i] == r[f[i]])
    && (forall i :: 0 < i < |f| ==> f[i - 1] <= f[i] <= f[i - 1] + 1)
    && (es != [] ==> f[0] == 0 && f[|f| - 1] == |r| - 1)
  }

  lemma FollowsSame<T>(es: seq<T>, r: seq<T>, f: seq<nat>, e: T)
    requires Follows(es, r, f) && es != [] && es[|es| - 1] == e
    ensures Follows(es + [e], r, f + [|r| - 1])
  {
  }

  lemma FollowsOther<T>(es: seq<T>, r: seq<T>, f: seq<nat>, e: T)
    requires Follows(es, r, f) && es != []
    ensures Follows(es + [e], r + [e], f + [|r|])
  {
  }

  /** Collapsing only makes runs of equal lines single. */
  lemma {:induction false} CollapsedFollows<T>(es: seq<T>) returns (f: seq<nat>)
    ensures Follows(es, Collapsed(es), f)
  {
    if |es| < 2 {
      f := if es == [] then [] else [0];
    } else {
      var k := |es| - 1;
      var a, e := es[..k], es[k];
      var g := CollapsedFollows(a);
      assert es == a + [e];
      if e == es[k - 1] {
        FollowsSame(a, Collapsed(a), g, e);
        f := g + [|Collapsed(a)| - 1];
      } else {
        FollowsOther(a, Collapsed(a), g, e);
        f := g + [|Collapsed(a)|];
      }
    }
  }

  lemma LastOfSnoc<T>(c: seq<T>, max: nat, e: T)
    requires max > 0 && (c == [] || c[|c| - 1] != e)
    ensures Added(LastOf(c, max), max, e) == LastOf(c + [e], max)
  {
    if |c| >= max {
      var h, k := LastOf(c, max), |c| - max;
      assert h == c[k..] && h[|h| - 1] == c[|c| - 1];
      assert (c + [e])[k + 1..] == h[1..] + [e];
    }
  }

  lemma LastOfRepeat<T>(c: seq<T>, max: nat, e: T)
    requires max == 0 || (c != [] && c[|c| - 1] == e)
    ensures Added(LastOf(c, max), max, e) == LastOf(c, max)
  {
    var h := LastOf(c, max);
    assert max > 0 ==> h[|h| - 1] == e;
  }

  lemma CollapsedSnoc<T>(es: seq<T>, e: T)
    ensures Collapsed(es + [e]) == if es != [] && es[|es| - 1] == e then Collapsed(es) else Collapsed(es) + [e]
  {
    assert (es + [e])[..|es|] == es;
  }

  lemma AddedSnoc<T>(es: seq<T>, max: nat, e: T)
    ensures Added(LastOf(Collapsed(es), max), max, e) == LastOf(Collapsed(es + [e]), max)
  {
    var c := Collapsed(es);
    CollapsedSnoc(es, e);
    if es != [] && es[|es| - 1] == e {
      LastOfRepeat(c, max, e);
    } else if max == 0 {
      LastOfRepeat(c, max, e);
      assert LastOf(c, max) == [] == LastOf(c + [e], max);
    } else {
      LastOfSnoc(c, max, e);
    }
  }

  predicate Latest<T(==)>(h: seq<T>, es: seq<T>, max: nat) { h == LastOf(Collapsed(es), max) }

  lemma LatestSnoc<T>(h: seq<T>, es: seq<T>, max: nat, e: T)
    requires Latest(h, es, max)
    ensures Latest(Added(h, max, e), es + [e], max)
  {
    AddedSnoc(es, max, e);
  }

  lemma {:induction false} AddsFrom<T>(h: seq<T>, done: seq<T>, max: nat, es: seq<T>, goal: seq<T>)
    requires Latest(h, done, max) && Latest(goal, done + es, max)
    ensures AddedAll(h, max, es) == goal
    decreases |es|
  {
    if es == [] {
      assert done + es == done;
    } else {
      var now, next := done + [es[0]], Added(h, max, es[0]);
      LatestSnoc(h, done, max, es[0]);
      assert done + es == now + es[1..];
      AddsFrom(next, now, max, es[1..], goal);
    }
  }

  /** Under adds alone the history is the latest lines, repeats made single. */
  lemma AddsKeepLatest<T>(done: seq<T>, max: nat, es: seq<T>)
    ensures AddedAll(LastOf(Collapsed(done), max), max, es) == LastOf(Collapsed(done + es), max)
  {
    AddsFrom(LastOf(Collapsed(done), max), done, max, es, LastOf(Collapsed(done + es), max));
  }

  /** Cutting a history down and going on adding is like never having kept more. */
  lemma CutThenAdd<T>(done: seq<T>, max: nat, n: nat, es: seq<T>)
    requires n <= max
    ensures LastOf(LastOf(Collapsed(done), max), n) == LastOf(Collapsed(done), n)
    ensures AddedAll(LastOf(LastOf(Collapsed(done), max), n), n, es) == LastOf(Collapsed(done + es), n)
  {
    AddsKeepLatest(done, n, es);
  }

  // ---------- walking ----------

  /** A walk through the history: the line left is stored, `shown` is the one to show. */
  datatype Walk<T> = Walk(history: seq<T>, index: nat, shown: T)

  /** One entry up or down; at either end the line stays. */
  function Walked<T>(w: Walk<T>, up: bool): (r: Walk<T>)
    requires w.index < |w.history|
    ensures r.index < |r.history|
  {
    if |w.history| <= 1 then w
    else
      var h := w.history[|w.history| - 1 - w.index := w.shown];
      if up then
        if w.index + 1 < |h| then Walk(h, w.index + 1, h[|h| - 2 - w.index]) else Walk(h, w.index, w.shown)
      else
        if w.index > 0 then Walk(h, w.index - 1, h[|h| - w.index]) else Walk(h, w.index, w.shown)
  }

  /** Going one way and back shows the line left, and loses none. */
  lemma ThereAndBack<T>(w: Walk<T>, up: bool)
    requires w.index < |w.history| && |w.history| > 1
    requires if up then w.index + 1 < |w.history| else w.index > 0
    ensures var r := Walked(Walked(w, up), !up);
      r.index == w.index && r.shown == w.shown && r.history == w.history[|w.history| - 1 - w.index := w.shown]
  {
    var m := Walked(w, up);
    assert m.history[|m.history| - 1 - m.index := m.shown] == m.history;
  }

  /** The same way `k` times. */
  function WalkedBy<T>(w: Walk<T>, up: bool, k: nat): (r: Walk<T>)
    requires w.index < |w.history|
    ensures r.index < |r.history|
    decreases k
  {
    if k == 0 then w else Walked(WalkedBy(w, up, k - 1), up)
  }

  /** A line that was not edited changes nothing when it is left. */
  lemma WalkOn<T>(w: Walk<T>, up: bool)
    requires w.index < |w.history| && w.shown == w.history[|w.history| - 1 - w.index]
    requires if up then w.index + 1 < |w.history| else w.index > 0
    ensures var r := Walked(w, up);
      && r.index == (if up then w.index + 1 else w.index - 1)
      && r.history == w.history && r.shown == w.history[|w.history| - 1 - r.index]
  {
    assert w.history[|w.history| - 1 - w.index := w.shown] == w.history;
  }

  /** `k` entries up or down show the `k`-th entry from here, and store the line left and nothing else. */
  lemma {:induction false} WalkShows<T>(w: Walk<T>, up: bool, k: nat)
    requires w.index < |w.history| && k > 0 && (if up then w.index + k < |w.history| else k <= w.index)
    ensures var r, n := WalkedBy(w, up, k), |w.history|;
      && r.index == (if up then w.index + k else w.index - k)
      && r.history == w.history[n - 1 - w.index := w.shown] && r.shown == w.history[n - 1 - r.index]
  {
    var m := WalkedBy(w, up, k - 1);
    if k > 1 {
      WalkShows(w, up, k - 1);
      WalkOn(m, up);
    } else {
      assert m == w;
    }
  }

  /** Past either end nothing moves. */
  lemma WalkEnds<T>(w: Walk<T>, up: bool)
    requires w.index < |w.history| && (if up then w.index + 1 == |w.history| else w.index == 0)
    ensures Walked(w, up).index == w.index && Walked(w, up).shown == w.shown
  {
  }

  // ---------- the array ----------

  /** The history in memory: an array that is filled and then shifted. */
  class History<T(==,0)> {
    var slots: array?<T>
    var len: nat
    var maxLen: nat

    ghost predicate Valid()
      reads this, slots
    {
      len <= maxLen && (slots == null ==> len == 0) && (slots != null ==> slots.Length == maxLen)
    }

    ghost function Entries(): (h: seq<T>)
      reads this, slots
      requires Valid()
      ensures |h| == len <= maxLen
    {
      if slots == null then [] else slots[..len]
    }

    constructor (maxLen: nat)
      ensures Valid() && Entries() == [] && this.maxLen == maxLen && slots == null
    {
      slots, len, this.maxLen := null, 0, maxLen;
    }

    method Add(line: T) returns (r: int)
      requires Valid()
      modifies this, slots
      ensures Valid() && maxLen == old(maxLen) && (slots == old(slots) || fresh(slots))
      ensures Entries() == Added(old(Entries()), maxLen, line)
      ensures r == if Refused(old(Entries()), maxLen, line) then 0 else 1
    {
      ghost var was := Entries();
      if maxLen == 0 { return 0; }
      if slots == null { slots := new T[maxLen]; }
      if len > 0 && slots[len - 1] == line { return 0; }
      if len == maxLen {
        forall i | 0 <= i < maxLen - 1 { slots[i] := slots[i + 1]; }
        len := len - 1;
      }
      slots[len] := line;
      len := len + 1;
      assert Entries() == (if |was| == maxLen then was[1..] else was) + [line];
      return 1;
    }

    method SetMaxLen(n: int) returns (r: int)
      requires Valid()
      modifies this
      ensures Valid() && (slots == old(slots) || fresh(slots))
      ensures n < 1 ==> r == 0 && maxLen == old(maxLen) && Entries() == old(Entries())
      ensures n >= 1 ==> r == 1 && maxLen == n && Entries() == LastOf(old(Entries()), n)
    {
      if n < 1 { return 0; }
      if slots != null {
        var toCopy := len;
        var copy := new T[n];
        if n < toCopy { toCopy := n; }
        forall i | 0 <= i < toCopy { copy[i] := slots[len - toCopy + i]; }
        slots := copy;
      }
      maxLen := n;
      if len > maxLen { len := maxLen; }
      return 1;
    }

    /** One entry up or down, keeping what was edited. */
    method Next(index: nat, line: T, up: bool) returns (newIndex: nat, shown: T)
      requires Valid() && index < len
      modifies slots
      ensures Valid() && Walk(Entries(), newIndex, shown) == Walked(Walk(old(Entries()), index, line), up)
    {
      newIndex, shown := index, line;
      if len > 1 {
        slots[len - 1 - index] := line;
        if up {
          if index + 1 >= len { return; }
          newIndex := index + 1;
        } else {
          if index == 0 { return; }
          newIndex := index - 1;
        }
        shown := slots[len - 1 - newIndex];
      }
    }
  }
}
