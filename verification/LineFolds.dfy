/** The ranges of the edited line that are shown as markers, and how they follow the edits. */
module LineFolds {

  /** A range of hidden bytes. */
  datatype Fold = Fold(start: nat, end: nat)

  const MAX_FOLDS: nat := 16

  /** Folds of a line of `len` bytes: non-empty, sorted, disjoint, few. */
  predicate FoldsOk(fs: seq<Fold>, len: nat) {
    && |fs| <= MAX_FOLDS
    && (forall i :: 0 <= i < |fs| ==> fs[i].start < fs[i].end <= len)
    && (forall i, j :: 0 <= i < j < |fs| ==> fs[i].end <= fs[j].start)
  }

  /** Folds that end before others start. */
  predicate AllBefore(a: seq<Fold>, b: seq<Fold>) {
    forall i, j :: 0 <= i < |a| && 0 <= j < |b| ==> a[i].end <= b[j].start
  }

  lemma ConcatOk(a: seq<Fold>, b: seq<Fold>, len: nat)
    requires FoldsOk(a, len) && FoldsOk(b, len) && |a| + |b| <= MAX_FOLDS && AllBefore(a, b)
    ensures FoldsOk(a + b, len)
  {
    var c := a + b;
    forall i, j | 0 <= i < j < |c| ensures c[i].end <= c[j].start {
      if j < |a| {
        assert a[i].end <= a[j].start;
      } else if i < |a| {
        assert a[i].end <= b[j - |a|].start;
      } else {
        assert b[i - |a|].end <= b[j - |a|].start;
      }
    }
  }

  lemma SplitOk(fs: seq<Fold>, j: nat, len: nat)
    requires FoldsOk(fs, len) && j <= |fs|
    ensures FoldsOk(fs[..j], len) && FoldsOk(fs[j..], len) && AllBefore(fs[..j], fs[j..])
  {
  }

  /** One change of the line: `n` bytes inserted or deleted at `pos`. */
  datatype Edit = Insert(pos: nat, n: nat) | Delete(pos: nat, n: nat)

  predicate Fits(e: Edit, len: nat) { if e.Insert? then e.pos <= len else e.pos + e.n <= len }

  function NewLen(e: Edit, len: nat): nat
    requires Fits(e, len)
  {
    if e.Insert? then len + e.n else len - e.n
  }

  /** The edit spoils the fold. */
  predicate Touched(f: Fold, e: Edit) {
    if e.Insert? then f.start < e.pos < f.end else f.start < e.pos + e.n && e.pos < f.end
  }

  /** Where an untouched fold ends up. */
  function Moved(f: Fold, e: Edit): Fold
    requires !Touched(f, e)
  {
    if e.Insert? && e.pos <= f.start then Fold(f.start + e.n, f.end + e.n)
    else if e.Delete? && e.pos + e.n <= f.start <= f.end then Fold(f.start - e.n, f.end - e.n)
    else f
  }

  /** The folds left after an edit. */
  function AfterEdit(fs: seq<Fold>, e: Edit): seq<Fold> {
    if fs == [] then []
    else (if Touched(fs[0], e) then [] else [Moved(fs[0], e)]) + AfterEdit(fs[1..], e)
  }

  /** What is left comes from an untouched fold. */
  lemma {:induction false} AfterFrom(fs: seq<Fold>, e: Edit, j: nat) returns (k: nat)
    requires j < |AfterEdit(fs, e)|
    ensures k < |fs| && !Touched(fs[k], e) && AfterEdit(fs, e)[j] == Moved(fs[k], e)
  {
    if Touched(fs[0], e) {
      k := AfterFrom(fs[1..], e, j);
      k := k + 1;
    } else if j == 0 {
      k := 0;
    } else {
      k := AfterFrom(fs[1..], e, j - 1);
      k := k + 1;
    }
  }

  /** Every untouched fold is left. */
  lemma {:induction false} AfterKeeps(fs: seq<Fold>, e: Edit, k: nat)
    requires k < |fs| && !Touched(fs[k], e)
    ensures Moved(fs[k], e) in AfterEdit(fs, e)
  {
    if k > 0 { AfterKeeps(fs[1..], e, k - 1); }
  }

  lemma {:induction false} AfterFewer(fs: seq<Fold>, e: Edit)
    ensures |AfterEdit(fs, e)| <= |fs|
  {
    if fs != [] { AfterFewer(fs[1..], e); }
  }

  lemma {:induction false} AfterNothing(fs: seq<Fold>, e: Edit)
    requires e.n == 0 && forall i :: 0 <= i < |fs| ==> !Touched(fs[i], e)
    ensures AfterEdit(fs, e) == fs
  {
    if fs != [] { AfterNothing(fs[1..], e); }
  }

  /** Edits keep the folds in order. */
  lemma {:induction false} AfterOk(fs: seq<Fold>, e: Edit, len: nat)
    requires FoldsOk(fs, len) && Fits(e, len)
    ensures FoldsOk(AfterEdit(fs, e), NewLen(e, len))
  {
    if fs != [] {
      SplitOk(fs, 1, len);
      AfterOk(fs[1..], e, len);
      AfterFewer(fs[1..], e);
      if !Touched(fs[0], e) {
        FirstStays(fs, e, len);
        ConcatOk([Moved(fs[0], e)], AfterEdit(fs[1..], e), NewLen(e, len));
      }
    }
  }

  lemma FirstStays(fs: seq<Fold>, e: Edit, len: nat)
    requires fs != [] && FoldsOk(fs, len) && Fits(e, len) && !Touched(fs[0], e)
    ensures FoldsOk([Moved(fs[0], e)], NewLen(e, len)) && AllBefore([Moved(fs[0], e)], AfterEdit(fs[1..], e))
  {
    var rest := AfterEdit(fs[1..], e);
    forall j | 0 <= j < |rest| ensures Moved(fs[0], e).end <= rest[j].start {
      var k := AfterFrom(fs[1..], e, j);
      assert fs[0].end <= fs[k + 1].start;
    }
  }

  // ---------- what happens to the bytes ----------

  /** The line after the edit; `bytes` are the inserted ones. */
  function Edited<T>(text: seq<T>, e: Edit, bytes: seq<T>): (r: seq<T>)
    requires Fits(e, |text|) && (e.Insert? ==> |bytes| == e.n)
    ensures |r| == NewLen(e, |text|)
  {
    if e.Insert? then text[..e.pos] + bytes + text[e.pos..] else text[..e.pos] + text[e.pos + e.n..]
  }

  /** A surviving fold hides the same bytes as before. */
  lemma SameBytes<T>(text: seq<T>, e: Edit, bytes: seq<T>, f: Fold)
    requires Fits(e, |text|) && (e.Insert? ==> |bytes| == e.n)
    requires f.start < f.end <= |text| && !Touched(f, e)
    ensures Moved(f, e).end <= NewLen(e, |text|)
    ensures Edited(text, e, bytes)[Moved(f, e).start..Moved(f, e).end] == text[f.start..f.end]
  {
  }

  /** The place in the old line of byte `k` of the new one; none for inserted bytes. */
  function Origin(e: Edit, k: int): int {
    if k < e.pos then k
    else if e.Delete? then k + e.n
    else if k < e.pos + e.n then -1
    else k - e.n
  }

  /** The bytes of the fold stand side by side from `a` on. */
  predicate Together(f: Fold, e: Edit, a: int) {
    forall k {:trigger Origin(e, k)} :: a <= k < a + (f.end - f.start) ==> Origin(e, k) == f.start + (k - a)
  }

  /** A non-empty edit drops a fold just when it tears its bytes apart. */
  lemma DroppedIffTorn(f: Fold, e: Edit)
    requires f.start < f.end && e.n > 0
    ensures Touched(f, e) <==> forall a :: 0 <= a ==> !Together(f, e, a)
  {
    if Touched(f, e) {
      forall a | 0 <= a ensures !Together(f, e, a) {
        var last := a + (f.end - f.start) - 1;
        var at := if f.start <= e.pos then a + (e.pos - f.start) else a;
        assert Origin(e, a) == f.start && Origin(e, last) == f.end - 1 && Origin(e, at) == f.start + (at - a) ==> false;
      }
    } else {
      assert Together(f, e, Moved(f, e).start);
    }
  }

  // ---------- new folds ----------

  /** The folds that start no later than `start`, counted from the right. */
  function Slot(fs: seq<Fold>, start: nat): (j: nat)
    ensures j <= |fs|
    ensures j > 0 ==> fs[j - 1].start <= start
    ensures forall k :: j <= k < |fs| ==> start < fs[k].start
  {
    if fs == [] || fs[|fs| - 1].start <= start then |fs| else Slot(fs[..|fs| - 1], start)
  }

  lemma SlotIs(fs: seq<Fold>, start: nat, j: nat)
    requires j <= |fs| && (j > 0 ==> fs[j - 1].start <= start) && forall k :: j <= k < |fs| ==> start < fs[k].start
    ensures j == Slot(fs, start)
  {
    var i := Slot(fs, start);
    if i > 0 { var last := fs[i - 1]; }
  }

  function Added(fs: seq<Fold>, start: nat, end: nat): seq<Fold> {
    if start >= end || |fs| >= MAX_FOLDS then fs
    else var j := Slot(fs, start); fs[..j] + [Fold(start, end)] + fs[j..]
  }

  lemma InsertAt(fs: seq<Fold>, j: nat, f: Fold)
    requires j <= |fs|
    ensures var r := fs[..j] + [f] + fs[j..];
      && |r| == |fs| + 1 && r[j] == f
      && (forall k :: 0 <= k < j ==> r[k] == fs[k])
      && (forall k :: j < k < |r| ==> r[k] == fs[k - 1])
  {
  }

  predicate Overlap(fs: seq<Fold>, start: nat, end: nat) {
    exists i :: 0 <= i < |fs| && fs[i].start < end && start < fs[i].end
  }

  /** A range that meets no fold can become one. */
  lemma AddedOk(fs: seq<Fold>, start: nat, end: nat, len: nat)
    requires FoldsOk(fs, len) && end <= len && !Overlap(fs, start, end)
    ensures FoldsOk(Added(fs, start, end), len)
  {
    if start < end && |fs| < MAX_FOLDS {
      var j, f := Slot(fs, start), Fold(start, end);
      SplitOk(fs, j, len);
      SlotParts(fs, start, end, len);
      InsertedOk(fs[..j], f, fs[j..], len);
    }
  }

  /** The folds before stay, and the new one is among them if there is room. */
  lemma AddedHolds(fs: seq<Fold>, start: nat, end: nat, f: Fold)
    ensures f in Added(fs, start, end) <==> f in fs || (f == Fold(start, end) && start < end && |fs| < MAX_FOLDS)
    ensures |Added(fs, start, end)| == if start < end && |fs| < MAX_FOLDS then |fs| + 1 else |fs|
  {
    var j := Slot(fs, start);
    assert fs == fs[..j] + fs[j..];
  }

  lemma InsertedOk(a: seq<Fold>, f: Fold, b: seq<Fold>, len: nat)
    requires FoldsOk(a, len) && FoldsOk(b, len) && |a| + |b| < MAX_FOLDS && f.start < f.end <= len
    requires AllBefore(a, [f]) && AllBefore([f], b) && AllBefore(a, b)
    ensures FoldsOk(a + [f] + b, len)
  {
    assert FoldsOk([f], len);
    ConcatOk(a, [f], len);
    forall i, j | 0 <= i < |a + [f]| && 0 <= j < |b| ensures (a + [f])[i].end <= b[j].start {
      if i == |a| { assert [f][0].end <= b[j].start; }
    }
    ConcatOk(a + [f], b, len);
  }

  lemma SlotParts(fs: seq<Fold>, start: nat, end: nat, len: nat)
    requires FoldsOk(fs, len) && start < end && !Overlap(fs, start, end)
    ensures var j := Slot(fs, start); AllBefore(fs[..j], [Fold(start, end)]) && AllBefore([Fold(start, end)], fs[j..])
  {
    var j := Slot(fs, start);
    forall k | 0 <= k < j ensures fs[k].end <= start {
      assert k < j - 1 ==> fs[k].end <= fs[j - 1].start;
      assert !(fs[j - 1].start < end && start < fs[j - 1].end);
    }
    forall k | j <= k < |fs| ensures end <= fs[k].start {
      assert start < fs[k].end;
    }
  }

  /** Inserted bytes meet no fold, so they can be folded at once. */
  lemma InsertedIsFree(fs: seq<Fold>, pos: nat, n: nat, len: nat, gs: seq<Fold>)
    requires FoldsOk(fs, len) && pos <= len && gs == AfterEdit(fs, Insert(pos, n))
    ensures !Overlap(gs, pos, pos + n)
  {
    var e := Insert(pos, n);
    forall i | 0 <= i < |gs| ensures !(gs[i].start < pos + n && pos < gs[i].end) {
      var k := AfterFrom(fs, e, i);
      assert fs[k].start < fs[k].end;
    }
  }

  // ---------- the table ----------

  /** The folds to end up with when the first `j` are adjusted already. */
  function Goal(fs: seq<Fold>, j: nat, e: Edit): seq<Fold>
    requires j <= |fs|
  {
    fs[..j] + AfterEdit(fs[j..], e)
  }

  lemma GoalKept(fs: seq<Fold>, j: nat, e: Edit)
    requires j < |fs| && !Touched(fs[j], e)
    ensures Goal(fs[j := Moved(fs[j], e)], j + 1, e) == Goal(fs, j, e)
  {
    var gs := fs[j := Moved(fs[j], e)];
    assert gs[j + 1..] == fs[j..][1..] && gs[..j + 1] == fs[..j] + [Moved(fs[j], e)];
  }

  lemma GoalDropped(fs: seq<Fold>, j: nat, e: Edit)
    requires j < |fs| && Touched(fs[j], e)
    ensures Goal(fs[..j] + fs[j + 1..], j, e) == Goal(fs, j, e)
  {
    var gs := fs[..j] + fs[j + 1..];
    assert gs[j..] == fs[j..][1..] && gs[..j] == fs[..j];
  }

  class FoldTable {
    const starts: array<nat>
    const ends: array<nat>
    var count: nat
    ghost var folds: seq<Fold>

    /** The first `count` entries of the arrays hold the folds. */
    ghost predicate Valid()
      reads this, starts, ends
    {
      && starts.Length == MAX_FOLDS && ends.Length == MAX_FOLDS && starts != ends
      && count == |folds| <= MAX_FOLDS
      && (forall i :: 0 <= i < count ==> starts[i] == folds[i].start)
      && (forall i :: 0 <= i < count ==> ends[i] == folds[i].end)
    }

    constructor ()
      ensures Valid() && fresh(starts) && fresh(ends) && folds == []
    {
      starts, ends, count, folds := new nat[MAX_FOLDS], new nat[MAX_FOLDS], 0, [];
    }

    method Clear()
      requires Valid()
      modifies this
      ensures Valid() && folds == []
    {
      count, folds := 0, [];
    }

    method Add(start: nat, end: nat)
      requires Valid()
      modifies this, starts, ends
      ensures Valid() && folds == Added(old(folds), start, end)
    {
      if start >= end || count == MAX_FOLDS { return; }
      var j := OpenSlot(start);
      starts[j], ends[j] := start, end;
      count := count + 1;
      InsertAt(folds, j, Fold(start, end));
      folds := folds[..j] + [Fold(start, end)] + folds[j..];
    }

    /** Shifts the folds behind `start` one place up. */
    method OpenSlot(start: nat) returns (j: nat)
      requires Valid() && count < MAX_FOLDS
      modifies starts, ends
      ensures j == Slot(folds, start)
      ensures forall k :: 0 <= k < j ==> starts[k] == folds[k].start
      ensures forall k :: 0 <= k < j ==> ends[k] == folds[k].end
      ensures forall k :: j < k <= count ==> starts[k] == folds[k - 1].start
      ensures forall k :: j < k <= count ==> ends[k] == folds[k - 1].end
    {
      j := count;
      while j > 0 && start < starts[j - 1]
        invariant 0 <= j <= count
        invariant forall k :: j <= k < count ==> start < folds[k].start
        invariant forall k :: 0 <= k < j ==> starts[k] == folds[k].start
        invariant forall k :: 0 <= k < j ==> ends[k] == folds[k].end
        invariant forall k :: j < k <= count ==> starts[k] == folds[k - 1].start
        invariant forall k :: j < k <= count ==> ends[k] == folds[k - 1].end
      {
        starts[j], ends[j] := starts[j - 1], ends[j - 1];
        j := j - 1;
      }
      SlotIs(folds, start, j);
    }

    method Remove(j: nat)
      requires Valid() && j < count
      modifies this, starts, ends
      ensures Valid() && folds == old(folds)[..j] + old(folds)[j + 1..]
    {
      forall i | j <= i < count - 1 { starts[i] := starts[i + 1]; }
      forall i | j <= i < count - 1 { ends[i] := ends[i + 1]; }
      count := count - 1;
      folds := folds[..j] + folds[j + 1..];
    }

    method RangeOverlaps(pos: nat, len: nat) returns (r: bool)
      requires Valid()
      ensures r <==> Overlap(folds, pos, pos + len)
    {
      var j := 0;
      while j < count
        invariant j <= count && forall i :: 0 <= i < j ==> !(folds[i].start < pos + len && pos < folds[i].end)
      {
        if pos + len > starts[j] && pos < ends[j] { return true; }
        j := j + 1;
      }
      return false;
    }

    method AdjustAfterInsert(pos: nat, len: nat)
      requires Valid()
      modifies this, starts, ends
      ensures Valid() && folds == AfterEdit(old(folds), Insert(pos, len))
    {
      ghost var e := Insert(pos, len);
      var j := 0;
      assert folds[0..] == folds;
      while j < count
        invariant Valid() && j <= count && Goal(folds, j, e) == AfterEdit(old(folds), e)
        decreases count - j
      {
        if pos <= starts[j] {
          GoalKept(folds, j, e);
          starts[j], ends[j] := starts[j] + len, ends[j] + len;
          folds := folds[j := Moved(folds[j], e)];
          j := j + 1;
        } else if pos < ends[j] {
          GoalDropped(folds, j, e);
          Remove(j);
        } else {
          GoalKept(folds, j, e);
          assert folds[j := folds[j]] == folds;
          j := j + 1;
        }
      }
    }

    method AdjustAfterDelete(pos: nat, len: nat)
      requires Valid() && forall i :: 0 <= i < |folds| ==> folds[i].start <= folds[i].end
      modifies this, starts, ends
      ensures Valid() && folds == AfterEdit(old(folds), Delete(pos, len))
    {
      ghost var e := Delete(pos, len);
      var j := 0;
      assert folds[0..] == folds;
      while j < count
        invariant Valid() && j <= count && Goal(folds, j, e) == AfterEdit(old(folds), e)
        invariant forall i :: j <= i < count ==> folds[i].start <= folds[i].end
        decreases count - j
      {
        if pos + len <= starts[j] {
          GoalKept(folds, j, e);
          starts[j], ends[j] := starts[j] - len, ends[j] - len;
          folds := folds[j := Moved(folds[j], e)];
          j := j + 1;
        } else if pos >= ends[j] {
          GoalKept(folds, j, e);
          assert folds[j := folds[j]] == folds;
          j := j + 1;
        } else {
          GoalDropped(folds, j, e);
          Remove(j);
        }
      }
    }
  }
}
