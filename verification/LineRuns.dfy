/** What holds over whole runs of editing commands. */
module LineRuns {
  import opened Bytes
  import opened Utf8
  import opened LineFolds
  import opened LinePaste
  import opened LineModel

  /** The line after a run of commands. */
  function Run(l: Line, cs: seq<Command>): (r: Line)
    requires LineOk(l) && forall i :: 0 <= i < |cs| ==> CommandOk(cs[i], l.limit)
    ensures LineOk(r) && r.limit == l.limit && r.mask == l.mask
    decreases |cs|
  {
    if cs == [] then l else StepKeepsLimit(l, cs[0]); Run(Step(l, cs[0]), cs[1..])
  }

  lemma StepKeepsLimit(l: Line, c: Command)
    requires LineOk(l) && CommandOk(c, l.limit)
    ensures Step(l, c).limit == l.limit && Step(l, c).mask == l.mask
  {
  }

  /** The change a command makes to the bytes; none for a mere cursor move. */
  function EditOf(l: Line, c: Command): (e: Edit)
    requires LineOk(l) && CommandOk(c, l.limit) && !c.Transpose? && !c.Recall?
    ensures Fits(e, |l.text|)
  {
    match c
    case InsertText(bytes) => if |l.text| + |bytes| > l.limit then Insert(0, 0) else Insert(l.pos, |bytes|)
    case PasteText(input) =>
      var k := PasteLength(input);
      if k == 0 || k > PasteMax(l) then Insert(0, 0) else Insert(l.pos, |Normalized(input[..k])|)
    case DeleteRight => Delete(l.pos, NextStop(l, l.pos) - l.pos)
    case Backspace => Delete(PrevStop(l, l.pos), l.pos - PrevStop(l, l.pos))
    case DeletePrevWord => Delete(WordStart(l), l.pos - WordStart(l))
    case KillLine => Delete(0, |l.text|)
    case KillToEnd => Delete(l.pos, |l.text| - l.pos)
    case MoveLeft | MoveRight | MoveHome | MoveEnd => Insert(0, 0)
  }

  /** The inserted bytes. */
  function BytesOf(l: Line, c: Command): seq<byte>
    requires LineOk(l) && CommandOk(c, l.limit) && !c.Transpose? && !c.Recall?
  {
    if EditOf(l, c).Delete? || EditOf(l, c).n == 0 then []
    else if c.InsertText? then c.bytes
    else if c.PasteText? then Normalized(c.input[..PasteLength(c.input)])
    else []
  }

  /** The pasted bytes are folded. */
  predicate Folds(l: Line, c: Command)
    requires LineOk(l) && CommandOk(c, l.limit)
  {
    c.PasteText? && !l.mask && EditOf(l, c).n > 0 && ShouldFold(BytesOf(l, c))
  }

  /** The folds that follow the edit, and the new one. */
  function FoldsAfter(l: Line, c: Command): seq<Fold>
    requires LineOk(l) && CommandOk(c, l.limit) && !c.Transpose? && !c.Recall?
  {
    var e := EditOf(l, c);
    if Folds(l, c) then Added(AfterEdit(l.folds, e), l.pos, l.pos + e.n) else AfterEdit(l.folds, e)
  }

  lemma {:induction false} AfterAll(fs: seq<Fold>, e: Edit)
    requires forall i :: 0 <= i < |fs| ==> Touched(fs[i], e)
    ensures AfterEdit(fs, e) == []
  {
    if fs != [] { AfterAll(fs[1..], e); }
  }

  lemma NoEdit(l: Line)
    requires LineOk(l)
    ensures Edited(l.text, Insert(0, 0), []) == l.text && AfterEdit(l.folds, Insert(0, 0)) == l.folds
  {
    AfterNothing(l.folds, Insert(0, 0));
  }

  lemma KillsAll(l: Line)
    requires LineOk(l)
    ensures Edited(l.text, Delete(0, |l.text|), []) == [] && AfterEdit(l.folds, Delete(0, |l.text|)) == []
  {
    AfterAll(l.folds, Delete(0, |l.text|));
  }

  /** But for a swap and a recall, a command edits the bytes in one place, and the folds follow. */
  lemma StepIsEdit(l: Line, c: Command)
    requires LineOk(l) && CommandOk(c, l.limit) && !c.Transpose? && !c.Recall?
    ensures var e, r := EditOf(l, c), Step(l, c);
      && (e.Insert? ==> |BytesOf(l, c)| == e.n)
      && r.text == Edited(l.text, e, BytesOf(l, c))
      && r.folds == FoldsAfter(l, c)
  {
    if c.PasteText? {
      PasteIsEdit(l, c);
    } else if c.InsertText? {
      InsertIsEdit(l, c);
    } else if IsDeletion(c) {
      DeletionIsEdit(l, c);
    } else if IsMove(c) {
      MoveIsEdit(l, c);
    } else {
      KillsAll(l);
    }
  }

  predicate IsDeletion(c: Command) { c.DeleteRight? || c.Backspace? || c.DeletePrevWord? || c.KillToEnd? }

  predicate IsMove(c: Command) { c.MoveLeft? || c.MoveRight? || c.MoveHome? || c.MoveEnd? }

  /** Where the bytes a command deletes start and end. */
  function Span(l: Line, c: Command): (s: (nat, nat))
    requires LineOk(l) && IsDeletion(c)
    ensures s.0 <= s.1 && Boundary(l.text, s.0) && Boundary(l.text, s.1)
  {
    match c
    case DeleteRight => (l.pos, NextStop(l, l.pos))
    case Backspace => (PrevStop(l, l.pos), l.pos)
    case DeletePrevWord => (WordStart(l), l.pos)
    case KillToEnd => (l.pos, |l.text|)
  }

  lemma SpanIs(l: Line, c: Command)
    requires LineOk(l) && IsDeletion(c)
    ensures Step(l, c) == Removed(l, Span(l, c).0, Span(l, c).1)
    ensures EditOf(l, c) == Delete(Span(l, c).0, Span(l, c).1 - Span(l, c).0)
  {
  }

  lemma DeletionIsEdit(l: Line, c: Command)
    requires LineOk(l) && IsDeletion(c)
    ensures var e, r := EditOf(l, c), Step(l, c);
      e.Delete? && BytesOf(l, c) == [] && r.text == Edited(l.text, e, []) && r.folds == AfterEdit(l.folds, e)
  {
    SpanIs(l, c);
    RemovedIs(l, Span(l, c).0, Span(l, c).1);
  }

  lemma RemovedIs(l: Line, a: nat, b: nat)
    requires LineOk(l) && a <= b && Boundary(l.text, a) && Boundary(l.text, b)
    ensures var e, r := Delete(a, b - a), Removed(l, a, b);
      r.text == Edited(l.text, e, []) && r.folds == AfterEdit(l.folds, e)
  {
  }

  lemma MoveIsEdit(l: Line, c: Command)
    requires LineOk(l) && IsMove(c)
    ensures var e, r := EditOf(l, c), Step(l, c);
      e == Insert(0, 0) && BytesOf(l, c) == [] && r.text == Edited(l.text, e, []) && r.folds == AfterEdit(l.folds, e)
  {
    NoEdit(l);
    assert Step(l, c) == l.(pos := Step(l, c).pos);
  }

  lemma InsertIsEdit(l: Line, c: Command)
    requires LineOk(l) && CommandOk(c, l.limit) && c.InsertText?
    ensures var e, r := EditOf(l, c), Step(l, c);
      && e.Insert? && |BytesOf(l, c)| == e.n
      && r.text == Edited(l.text, e, BytesOf(l, c)) && r.folds == AfterEdit(l.folds, e)
  {
    if |l.text| + |c.bytes| > l.limit {
      NoEdit(l);
    } else {
      assert BytesOf(l, c) == c.bytes;
    }
  }

  /** The folds once `n` is pasted; its bytes become a fold if there are many. */
  function FoldsWith(l: Line, n: seq<byte>): seq<Fold> {
    var gs := AfterEdit(l.folds, Insert(l.pos, |n|));
    if !l.mask && ShouldFold(n) then Added(gs, l.pos, l.pos + |n|) else gs
  }

  lemma PlacedIs(l: Line, n: seq<byte>, r: Line)
    requires LineOk(l) && IsText(n) && |l.text| + |n| <= l.limit
    requires r == if !l.mask && ShouldFold(n) then Folded(l, n) else Inserted(l, n)
    ensures r.text == Edited(l.text, Insert(l.pos, |n|), n) && r.folds == FoldsWith(l, n)
  {
  }

  lemma PastedIs(l: Line, s: seq<byte>)
    requires LineOk(l) && IsText(s) && 0 < |s| <= PasteMax(l)
    ensures var n, r := Normalized(s), Pasted(l, s);
      |n| > 0 && r.text == Edited(l.text, Insert(l.pos, |n|), n) && r.folds == FoldsWith(l, n)
  {
    SomethingLeft(s);
    NormalizedText(s);
    PlacedIs(l, Normalized(s), Pasted(l, s));
  }

  lemma PasteFolds(l: Line, c: Command, n: seq<byte>)
    requires LineOk(l) && CommandOk(c, l.limit) && c.PasteText?
    requires EditOf(l, c) == Insert(l.pos, |n|) && |n| > 0 && BytesOf(l, c) == n
    ensures FoldsAfter(l, c) == FoldsWith(l, n)
  {
    assert Folds(l, c) <==> !l.mask && ShouldFold(n);
  }

  lemma PasteIsEdit(l: Line, c: Command)
    requires LineOk(l) && CommandOk(c, l.limit) && c.PasteText?
    ensures var e, r := EditOf(l, c), Step(l, c);
      && e.Insert? && |BytesOf(l, c)| == e.n
      && r.text == Edited(l.text, e, BytesOf(l, c)) && r.folds == FoldsAfter(l, c)
  {
    var s := c.input[..PasteLength(c.input)];
    assert Step(l, c) == Pasted(l, s);
    if s == [] || |s| > PasteMax(l) {
      NoEdit(l);
      assert EditOf(l, c) == Insert(0, 0) && BytesOf(l, c) == [] && !Folds(l, c);
    } else {
      var n := Normalized(s);
      PastedIs(l, s);
      assert EditOf(l, c) == Insert(l.pos, |n|) && BytesOf(l, c) == n;
      PasteFolds(l, c, n);
    }
  }

  lemma {:induction false} SomethingLeft(s: seq<byte>)
    requires s != []
    ensures Normalized(s) != []
  {
    if |s| > 1 { SomethingLeft(s[..|s| - 1]); }
  }

  // ---------- what folds hide ----------

  function HiddenBy(l: Line, f: Fold): seq<byte>
    requires f.start <= f.end <= |l.text|
  {
    l.text[f.start..f.end]
  }

  /** A fold of the line hides exactly `s`. */
  predicate Hides(l: Line, s: seq<byte>)
    requires LineOk(l)
  {
    exists i :: 0 <= i < |l.folds| && HiddenBy(l, l.folds[i]) == s
  }

  lemma FoldsAfterHolds(l: Line, c: Command, g: Fold)
    requires LineOk(l) && CommandOk(c, l.limit) && !c.Transpose? && !c.Recall?
    ensures g in AfterEdit(l.folds, EditOf(l, c)) ==> g in FoldsAfter(l, c)
    ensures g in FoldsAfter(l, c) ==>
      g in AfterEdit(l.folds, EditOf(l, c)) || (Folds(l, c) && g == Fold(l.pos, l.pos + EditOf(l, c).n))
  {
    AddedHolds(AfterEdit(l.folds, EditOf(l, c)), l.pos, l.pos + EditOf(l, c).n, g);
  }

  lemma EditKeeps(l: Line, e: Edit, bytes: seq<byte>, r: Line, i: nat)
    requires LineOk(l) && LineOk(r) && Fits(e, |l.text|) && (e.Insert? ==> |bytes| == e.n)
    requires r.text == Edited(l.text, e, bytes) && i < |l.folds| && !Touched(l.folds[i], e)
    requires Moved(l.folds[i], e) in r.folds
    ensures Hides(r, HiddenBy(l, l.folds[i]))
  {
    SameBytes(l.text, e, bytes, l.folds[i]);
    var j :| 0 <= j < |r.folds| && r.folds[j] == Moved(l.folds[i], e);
    assert HiddenBy(r, r.folds[j]) == HiddenBy(l, l.folds[i]);
  }

  lemma EditHides(l: Line, e: Edit, bytes: seq<byte>, r: Line, g: Fold)
    requires LineOk(l) && LineOk(r) && Fits(e, |l.text|) && (e.Insert? ==> |bytes| == e.n)
    requires r.text == Edited(l.text, e, bytes) && g in AfterEdit(l.folds, e)
    ensures g.start <= g.end <= |r.text| && Hides(l, HiddenBy(r, g))
  {
    var k :| 0 <= k < |AfterEdit(l.folds, e)| && AfterEdit(l.folds, e)[k] == g;
    var i := AfterFrom(l.folds, e, k);
    SameBytes(l.text, e, bytes, l.folds[i]);
    assert HiddenBy(l, l.folds[i]) == HiddenBy(r, g);
  }

  /** A fold survives an edit that does not touch it, and hides the same bytes. */
  lemma StepKeeps(l: Line, c: Command, i: nat)
    requires LineOk(l) && CommandOk(c, l.limit) && i < |l.folds| && !c.Recall?
    requires c.Transpose? || !Touched(l.folds[i], EditOf(l, c))
    ensures Hides(Step(l, c), HiddenBy(l, l.folds[i]))
  {
    if c.Transpose? {
      SwapKeeps(l, i);
    } else {
      var e := EditOf(l, c);
      StepIsEdit(l, c);
      AfterKeeps(l.folds, e, i);
      FoldsAfterHolds(l, c, Moved(l.folds[i], e));
      EditKeeps(l, e, BytesOf(l, c), Step(l, c), i);
    }
  }

  lemma SwapKeeps(l: Line, i: nat)
    requires LineOk(l) && i < |l.folds|
    ensures var r := Transposed(l); r.folds == l.folds && HiddenBy(r, l.folds[i]) == HiddenBy(l, l.folds[i])
  {
    var r, f := Transposed(l), l.folds[i];
    if r != l {
      var a, c := PrevStop(l, l.pos), NextStop(l, l.pos);
      assert !(f.start < c && a < f.end);
      SwapSlice(l.text, a, l.pos, c, f);
    }
  }

  lemma SwapSlice(text: seq<byte>, a: nat, b: nat, c: nat, f: Fold)
    requires a <= b <= c <= |text| && f.start < f.end <= |text| && (f.end <= a || c <= f.start)
    ensures Swapped(text, a, b, c)[f.start..f.end] == text[f.start..f.end]
  {
  }

  /** Every fold is an old one that hides the same bytes, or hides what the command brought in. */
  lemma StepHides(l: Line, c: Command, j: nat)
    requires LineOk(l) && CommandOk(c, l.limit) && j < |Step(l, c).folds|
    ensures var s := HiddenBy(Step(l, c), Step(l, c).folds[j]);
      || Hides(l, s)
      || (c.PasteText? && s == Normalized(c.input[..PasteLength(c.input)]))
      || (c.Recall? && s == HiddenBy(Step(l, c), HistoryFold(c.entry)))
  {
    if c.Transpose? {
      SwapKeeps(l, j);
    } else if !c.Recall? {
      var r := Step(l, c);
      var g := r.folds[j];
      StepIsEdit(l, c);
      FoldsAfterHolds(l, c, g);
      if g in AfterEdit(l.folds, EditOf(l, c)) {
        EditHides(l, EditOf(l, c), BytesOf(l, c), r, g);
      } else {
        assert HiddenBy(r, g) == BytesOf(l, c);
      }
    }
  }

  /** `s` was folded by a command of the run. */
  predicate Brought(cs: seq<Command>, s: seq<byte>) {
    exists i :: 0 <= i < |cs| && BroughtBy(cs[i], s)
  }

  predicate BroughtBy(c: Command, s: seq<byte>) {
    || (c.PasteText? && s == Normalized(c.input[..PasteLength(c.input)]))
    || (c.Recall? && IsText(c.entry) && c.entry != [] && s == c.entry[HistoryFold(c.entry).start..HistoryFold(c.entry).end])
  }

  /** Over any run a fold hides exactly what one paste or recall brought in, whatever was edited since. */
  lemma {:induction false} RunHides(l: Line, cs: seq<Command>, j: nat)
    requires LineOk(l) && forall i :: 0 <= i < |cs| ==> CommandOk(cs[i], l.limit)
    requires j < |Run(l, cs).folds|
    ensures var s := HiddenBy(Run(l, cs), Run(l, cs).folds[j]); Hides(l, s) || Brought(cs, s)
    decreases |cs|
  {
    var s := HiddenBy(Run(l, cs), Run(l, cs).folds[j]);
    if cs == [] {
      assert HiddenBy(l, l.folds[j]) == s;
    } else {
      StepKeepsLimit(l, cs[0]);
      var m := Step(l, cs[0]);
      RunHides(m, cs[1..], j);
      if Brought(cs[1..], s) {
        var i :| 0 <= i < |cs[1..]| && BroughtBy(cs[1..][i], s);
        assert BroughtBy(cs[i + 1], s);
      } else {
        var i :| 0 <= i < |m.folds| && HiddenBy(m, m.folds[i]) == s;
        StepHides(l, cs[0], i);
        assert Hides(l, s) || BroughtBy(cs[0], s);
      }
    }
  }

  // ---------- undoing an insertion ----------

  predicate InsideFold(fs: seq<Fold>, p: nat) {
    exists i :: 0 <= i < |fs| && fs[i].start < p < fs[i].end
  }

  lemma {:induction false} UndoFolds(fs: seq<Fold>, p: nat, n: nat)
    requires n > 0 && forall i :: 0 <= i < |fs| ==> fs[i].start < fs[i].end && !Touched(fs[i], Insert(p, n))
    ensures AfterEdit(AfterEdit(fs, Insert(p, n)), Delete(p, n)) == fs
  {
    if fs != [] {
      UndoFolds(fs[1..], p, n);
      var gs := AfterEdit(fs, Insert(p, n));
      assert gs[1..] == AfterEdit(fs[1..], Insert(p, n));
    }
  }

  lemma {:induction false} FewerFolds(fs: seq<Fold>, e: Edit, i: nat)
    requires i < |fs| && Touched(fs[i], e)
    ensures |AfterEdit(fs, e)| < |fs|
  {
    AfterFewer(fs[1..], e);
    if i > 0 { FewerFolds(fs[1..], e, i - 1); }
  }

  /** Removing what was just inserted restores the line, unless the cursor stood inside a fold. */
  lemma UndoInsert(l: Line, c: seq<byte>)
    requires LineOk(l) && IsText(c) && c != [] && |l.text| + |c| <= l.limit
    ensures var m := Inserted(l, c);
      && Boundary(m.text, l.pos)
      && (Removed(m, l.pos, m.pos) == l <==> !InsideFold(l.folds, l.pos))
  {
    var m, gs := Inserted(l, c), AfterEdit(AfterEdit(l.folds, Insert(l.pos, |c|)), Delete(l.pos, |c|));
    UndoIs(l, c, m, gs);
    UndoFoldsIff(l.folds, l.pos, |c|, gs);
  }

  lemma UndoIs(l: Line, c: seq<byte>, m: Line, gs: seq<Fold>)
    requires LineOk(l) && IsText(c) && |l.text| + |c| <= l.limit && m == Inserted(l, c)
    requires gs == AfterEdit(m.folds, Delete(l.pos, |c|))
    ensures Boundary(m.text, l.pos) && Removed(m, l.pos, m.pos) == l.(folds := gs)
  {
    EditedText(l.text, Insert(l.pos, |c|), c, m.text);
    UndoText(l.text, l.pos, c);
  }

  lemma UndoText(text: seq<byte>, p: nat, c: seq<byte>)
    requires p <= |text|
    ensures Edited(Edited(text, Insert(p, |c|), c), Delete(p, |c|), []) == text
  {
    var t := Edited(text, Insert(p, |c|), c);
    assert t[..p] == text[..p] && t[p + |c|..] == text[p..];
  }

  lemma UndoFoldsIff(fs: seq<Fold>, p: nat, n: nat, gs: seq<Fold>)
    requires n > 0 && forall i :: 0 <= i < |fs| ==> fs[i].start < fs[i].end
    requires gs == AfterEdit(AfterEdit(fs, Insert(p, n)), Delete(p, n))
    ensures gs == fs <==> !InsideFold(fs, p)
  {
    if i :| 0 <= i < |fs| && Touched(fs[i], Insert(p, n)) {
      FewerFolds(fs, Insert(p, n), i);
      AfterFewer(AfterEdit(fs, Insert(p, n)), Delete(p, n));
    } else {
      UndoFolds(fs, p, n);
    }
  }
}
