/** The edited line as a text with a cursor and folds, and what the commands make of it. */
module LineModel {
  import opened Bytes
  import opened Utf8
  import opened Utf8Cluster
  import opened LineFolds
  import opened LinePaste

  /** `limit` is the largest length; in mask mode folds are not displayed. */
  datatype Line = Line(text: seq<byte>, pos: nat, folds: seq<Fold>, limit: nat, mask: bool)

  /** Both ends of every fold stand on code point boundaries. */
  predicate OnBoundaries(text: seq<byte>, fs: seq<Fold>) {
    forall i :: 0 <= i < |fs| ==> Boundary(text, fs[i].start) && Boundary(text, fs[i].end)
  }

  /** The folds are in order within the text. */
  predicate FoldsFit(text: seq<byte>, fs: seq<Fold>) { FoldsOk(fs, |text|) && OnBoundaries(text, fs) }

  predicate LineOk(l: Line) {
    && IsText(l.text) && |l.text| <= l.limit
    && Boundary(l.text, l.pos)
    && FoldsFit(l.text, l.folds)
  }

  // ---------- edits ----------

  /** The edit starts and ends on boundaries. */
  predicate EditOk(text: seq<byte>, e: Edit, bytes: seq<byte>) {
    && Boundary(text, e.pos)
    && (e.Insert? ==> |bytes| == e.n && IsText(bytes))
    && (e.Delete? ==> Boundary(text, e.pos + e.n))
  }

  lemma EditedText(text: seq<byte>, e: Edit, bytes: seq<byte>, t: seq<byte>)
    requires IsText(text) && EditOk(text, e, bytes) && t == Edited(text, e, bytes)
    ensures IsText(t) && Boundary(t, e.pos) && (e.Insert? ==> Boundary(t, e.pos + e.n))
  {
    if e.Insert? {
      SpliceText(text, e.pos, e.pos, bytes);
    } else {
      SpliceText(text, e.pos, e.pos + e.n, []);
      assert text[..e.pos] + [] + text[e.pos + e.n..] == t;
    }
  }

  lemma InsertBoundary(text: seq<byte>, pos: nat, bytes: seq<byte>, t: seq<byte>, q: nat)
    requires Boundary(text, pos) && Boundary(bytes, 0) && Boundary(text, q) && t == text[..pos] + bytes + text[pos..]
    ensures (q <= pos ==> Boundary(t, q)) && (q >= pos ==> Boundary(t, q + |bytes|))
  {
  }

  lemma DeleteBoundary(text: seq<byte>, pos: nat, n: nat, t: seq<byte>, q: nat)
    requires Boundary(text, pos) && Boundary(text, pos + n) && Boundary(text, q) && t == text[..pos] + text[pos + n..]
    ensures (q <= pos ==> Boundary(t, q)) && (q >= pos + n ==> Boundary(t, q - n))
  {
  }

  lemma MovedBoundaries(text: seq<byte>, e: Edit, bytes: seq<byte>, t: seq<byte>, f: Fold)
    requires EditOk(text, e, bytes) && t == Edited(text, e, bytes) && f.start < f.end && !Touched(f, e)
    requires Boundary(text, f.start) && Boundary(text, f.end)
    ensures Boundary(t, Moved(f, e).start) && Boundary(t, Moved(f, e).end)
  {
    if e.Insert? {
      InsertBoundary(text, e.pos, bytes, t, f.start);
      InsertBoundary(text, e.pos, bytes, t, f.end);
    } else {
      DeleteBoundary(text, e.pos, e.n, t, f.start);
      DeleteBoundary(text, e.pos, e.n, t, f.end);
    }
  }

  /** An edit keeps the folds in order and on boundaries. */
  lemma AfterFits(text: seq<byte>, e: Edit, bytes: seq<byte>, t: seq<byte>, fs: seq<Fold>, gs: seq<Fold>)
    requires EditOk(text, e, bytes) && FoldsFit(text, fs) && t == Edited(text, e, bytes) && gs == AfterEdit(fs, e)
    ensures FoldsFit(t, gs)
  {
    AfterOk(fs, e, |text|);
    forall j | 0 <= j < |gs| ensures Boundary(t, gs[j].start) && Boundary(t, gs[j].end) {
      var k := AfterFrom(fs, e, j);
      MovedBoundaries(text, e, bytes, t, fs[k]);
    }
  }

  /** The line after an edit, the cursor at `pos`. */
  function Change(l: Line, e: Edit, bytes: seq<byte>, pos: nat): (r: Line)
    requires LineOk(l) && EditOk(l.text, e, bytes) && NewLen(e, |l.text|) <= l.limit
    requires pos == e.pos || (e.Insert? && pos == e.pos + e.n)
    ensures LineOk(r)
  {
    var t, gs := Edited(l.text, e, bytes), AfterEdit(l.folds, e);
    EditedText(l.text, e, bytes, t);
    AfterFits(l.text, e, bytes, t, l.folds, gs);
    l.(text := t, folds := gs, pos := pos)
  }

  // ---------- cursor steps ----------

  /** The end of the fold that starts at `p`. */
  function EndOf(fs: seq<Fold>, p: nat): nat {
    if fs == [] then p else if fs[0].start == p then fs[0].end else EndOf(fs[1..], p)
  }

  /** The start of the fold that ends at `p`. */
  function StartOf(fs: seq<Fold>, p: nat): nat {
    if fs == [] then p else if fs[0].end == p then fs[0].start else StartOf(fs[1..], p)
  }

  lemma {:induction false} EndOfIs(text: seq<byte>, fs: seq<Fold>, p: nat)
    requires FoldsOk(fs, |text|) && OnBoundaries(text, fs)
    ensures EndOf(fs, p) == p || (p < EndOf(fs, p) && Boundary(text, EndOf(fs, p)))
  {
    if fs != [] {
      SplitOk(fs, 1, |text|);
      EndOfIs(text, fs[1..], p);
    }
  }

  lemma {:induction false} StartOfIs(text: seq<byte>, fs: seq<Fold>, p: nat)
    requires FoldsOk(fs, |text|) && OnBoundaries(text, fs)
    ensures StartOf(fs, p) == p || (StartOf(fs, p) < p && Boundary(text, StartOf(fs, p)))
  {
    if fs != [] {
      SplitOk(fs, 1, |text|);
      StartOfIs(text, fs[1..], p);
    }
  }

  function Shown(l: Line): seq<Fold> { if l.mask then [] else l.folds }

  /** One step right: over a whole fold, or over one cluster. */
  function NextStop(l: Line, p: nat): (q: nat)
    requires LineOk(l) && Boundary(l.text, p)
    ensures p <= q && Boundary(l.text, q) && (p < |l.text| ==> p < q)
  {
    EndOfIs(l.text, Shown(l), p);
    var q := EndOf(Shown(l), p);
    if q != p then q else FirstEnd(l.text, p)
  }

  /** One step left. */
  function PrevStop(l: Line, p: nat): (q: nat)
    requires LineOk(l) && Boundary(l.text, p)
    ensures q <= p && Boundary(l.text, q) && (p > 0 ==> q < p)
  {
    StartOfIs(l.text, Shown(l), p);
    var q := StartOf(Shown(l), p);
    if q != p then q else LastStart(l.text, p)
  }

  const SPACE: byte := 32

  /** Steps left as long as the byte before is a space, or is none. */
  function SkipBack(l: Line, p: nat, spaces: bool): (q: nat)
    requires LineOk(l) && Boundary(l.text, p)
    ensures q <= p && Boundary(l.text, q)
    ensures q == 0 || (l.text[q - 1] == SPACE) != spaces
    decreases p
  {
    if p > 0 && (l.text[p - 1] == SPACE) == spaces then SkipBack(l, PrevStop(l, p), spaces) else p
  }

  /** The start of the word before the cursor. */
  function WordStart(l: Line): (q: nat)
    requires LineOk(l)
    ensures q <= l.pos && Boundary(l.text, q) && (q == 0 || l.text[q - 1] == SPACE)
  {
    SkipBack(l, SkipBack(l, l.pos, true), false)
  }

  // ---------- commands ----------

  datatype Command =
    | InsertText(bytes: seq<byte>)
    | PasteText(input: seq<byte>)
    | Recall(entry: seq<byte>)
    | DeleteRight
    | Backspace
    | DeletePrevWord
    | KillLine
    | KillToEnd
    | Transpose
    | MoveLeft
    | MoveRight
    | MoveHome
    | MoveEnd

  /** What is typed, pasted or recalled is well-formed text, and history entries fit the line. */
  predicate CommandOk(c: Command, limit: nat) {
    match c
    case InsertText(bytes) => IsText(bytes)
    case PasteText(input) => IsText(input[..PasteLength(input)])
    case Recall(entry) => IsText(entry) && |entry| <= limit
    case _ => true
  }

  const PASTE_FOLD_THRESHOLD: nat := 200

  predicate ShouldFold(bytes: seq<byte>) { LF in bytes || |bytes| >= PASTE_FOLD_THRESHOLD }

  /** How much can be pasted; nothing once all folds are used. */
  function PasteMax(l: Line): (n: nat)
    ensures |l.text| <= l.limit ==> |l.text| + n <= l.limit
    ensures n > 0 ==> |l.folds| != MAX_FOLDS
    ensures |l.text| <= l.limit && |l.folds| != MAX_FOLDS ==> n <= PASTE_MAX_BYTES && (n == PASTE_MAX_BYTES || |l.text| + n == l.limit)
  {
    var room := if l.limit > |l.text| then l.limit - |l.text| else 0;
    if |l.folds| == MAX_FOLDS then 0 else if room > PASTE_MAX_BYTES then PASTE_MAX_BYTES else room
  }

  function Inserted(l: Line, bytes: seq<byte>): (r: Line)
    requires LineOk(l) && IsText(bytes)
    ensures LineOk(r)
  {
    if |l.text| + |bytes| > l.limit then l
    else Change(l, Insert(l.pos, |bytes|), bytes, l.pos + |bytes|)
  }

  /** Inserted bytes become a fold. */
  function Folded(l: Line, bytes: seq<byte>): (r: Line)
    requires LineOk(l) && IsText(bytes) && |l.text| + |bytes| <= l.limit
    ensures LineOk(r)
  {
    var e := Insert(l.pos, |bytes|);
    var t, gs := Edited(l.text, e, bytes), AfterEdit(l.folds, e);
    EditedText(l.text, e, bytes, t);
    FoldedOk(l.text, l.pos, bytes, t, l.folds, gs);
    l.(text := t, pos := l.pos + |bytes|, folds := Added(gs, l.pos, l.pos + |bytes|))
  }

  lemma FoldedOk(text: seq<byte>, pos: nat, bytes: seq<byte>, t: seq<byte>, fs: seq<Fold>, gs: seq<Fold>)
    requires Boundary(text, pos) && IsText(bytes) && FoldsFit(text, fs)
    requires t == Edited(text, Insert(pos, |bytes|), bytes) && Boundary(t, pos) && Boundary(t, pos + |bytes|)
    requires gs == AfterEdit(fs, Insert(pos, |bytes|))
    ensures FoldsFit(t, Added(gs, pos, pos + |bytes|))
  {
    AfterFits(text, Insert(pos, |bytes|), bytes, t, fs, gs);
    InsertedIsFree(fs, pos, |bytes|, |text|, gs);
    AddedGood(t, gs, pos, pos + |bytes|);
  }

  lemma AddedGood(text: seq<byte>, fs: seq<Fold>, start: nat, end: nat)
    requires FoldsFit(text, fs) && !Overlap(fs, start, end) && Boundary(text, start) && Boundary(text, end)
    ensures FoldsFit(text, Added(fs, start, end))
  {
    AddedOk(fs, start, end, |text|);
    AddedOnBoundaries(text, fs, start, end);
  }

  lemma AddedOnBoundaries(text: seq<byte>, fs: seq<Fold>, start: nat, end: nat)
    requires OnBoundaries(text, fs) && Boundary(text, start) && Boundary(text, end)
    ensures OnBoundaries(text, Added(fs, start, end))
  {
    InsertAt(fs, Slot(fs, start), Fold(start, end));
  }

  function Pasted(l: Line, bytes: seq<byte>): (r: Line)
    requires LineOk(l) && IsText(bytes)
    ensures LineOk(r)
  {
    if bytes == [] || |bytes| > PasteMax(l) then l
    else
      NormalizedText(bytes);
      var n := Normalized(bytes);
      if !l.mask && ShouldFold(n) then Folded(l, n) else Inserted(l, n)
  }

  /** The largest character that can be swapped. */
  const SWAP_MAX: nat := 32

  function Swapped(text: seq<byte>, a: nat, b: nat, c: nat): (r: seq<byte>)
    requires a <= b <= c <= |text|
    ensures |r| == |text|
  {
    text[..a] + text[b..c] + text[a..b] + text[c..]
  }

  function Transposed(l: Line): (r: Line)
    requires LineOk(l)
    ensures LineOk(r)
  {
    if l.pos == 0 || l.pos == |l.text| then l
    else
      var a, c := PrevStop(l, l.pos), NextStop(l, l.pos);
      if l.pos - a > SWAP_MAX || c - l.pos > SWAP_MAX || Overlap(l.folds, a, c) then l
      else
        SwappedOk(l.text, a, l.pos, c, l.folds);
        l.(text := Swapped(l.text, a, l.pos, c), pos := c)
  }

  lemma SwappedOk(text: seq<byte>, a: nat, b: nat, c: nat, fs: seq<Fold>)
    requires IsText(text) && a < b < c && Boundary(text, a) && Boundary(text, b) && Boundary(text, c)
    requires FoldsOk(fs, |text|) && OnBoundaries(text, fs) && !Overlap(fs, a, c)
    ensures IsText(Swapped(text, a, b, c)) && Boundary(Swapped(text, a, b, c), c)
    ensures OnBoundaries(Swapped(text, a, b, c), fs)
  {
    BetweenText(text, a, b);
    BetweenText(text, b, c);
    ConcatText(text[b..c], text[a..b]);
    SpliceText(text, a, c, text[b..c] + text[a..b]);
    var t := Swapped(text, a, b, c);
    assert t == text[..a] + (text[b..c] + text[a..b]) + text[c..];
    assert forall i {:trigger t[i]} :: (0 <= i < a || c <= i < |t|) ==> t[i] == text[i];
    assert Boundary(t, a) && Boundary(t, c);
    forall i | 0 <= i < |fs| ensures Boundary(t, fs[i].start) && Boundary(t, fs[i].end) {
      assert !(fs[i].start < c && a < fs[i].end);
    }
  }

  /** The line without the bytes from `a` to `b`, the cursor where they were. */
  function Removed(l: Line, a: nat, b: nat): (r: Line)
    requires LineOk(l) && a <= b && Boundary(l.text, a) && Boundary(l.text, b)
    ensures LineOk(r)
  {
    Change(l, Delete(a, b - a), [], a)
  }

  function MovedTo(l: Line, p: nat): (r: Line)
    requires LineOk(l) && Boundary(l.text, p)
    ensures LineOk(r)
  {
    l.(pos := p)
  }

  function Cleared(l: Line): (r: Line)
    ensures LineOk(r)
  {
    l.(text := [], pos := 0, folds := [])
  }

  /** The context kept around the fold of a history entry, in clusters. */
  const FOLD_CONTEXT: nat := 8

  /** Up to `n` clusters further right, and whether one of them starts with a newline. */
  function ContextRight(text: seq<byte>, p: nat, n: nat): (r: (nat, bool))
    requires IsText(text) && Boundary(text, p)
    ensures p <= r.0 && Boundary(text, r.0)
    decreases n
  {
    if p == |text| || n == 0 then (p, false)
    else var r := ContextRight(text, FirstEnd(text, p), n - 1); (r.0, r.1 || text[p] == LF)
  }

  function ContextLeft(text: seq<byte>, p: nat, n: nat): (r: (nat, bool))
    requires IsText(text) && Boundary(text, p)
    ensures r.0 <= p && Boundary(text, r.0)
  {
    if p == 0 || n == 0 then (p, false)
    else var q := LastStart(text, p); var r := ContextLeft(text, q, n - 1); (r.0, r.1 || text[q] == LF)
  }

  /** The fold of a recalled entry: all but some context on each side. */
  function HistoryFold(text: seq<byte>): (f: Fold)
    requires IsText(text) && text != []
    ensures f.start < f.end && Boundary(text, f.start) && Boundary(text, f.end)
  {
    if |text| <= 2 * FOLD_CONTEXT then Fold(0, |text|)
    else
      var a, b := ContextRight(text, 0, FOLD_CONTEXT), ContextLeft(text, |text|, FOLD_CONTEXT);
      var start, end := if a.1 then 0 else a.0, if b.1 then |text| else b.0;
      if start >= end then Fold(0, |text|) else Fold(start, end)
  }

  /** The folds of a recalled entry: one if it is long or has newlines. */
  function EntryFolds(entry: seq<byte>, mask: bool): (fs: seq<Fold>)
    requires IsText(entry)
    ensures FoldsFit(entry, fs)
  {
    if entry == [] || mask || !ShouldFold(entry) then [] else [HistoryFold(entry)]
  }

  /** An entry replaces the line; folds of the old line go. */
  function Recalled(l: Line, entry: seq<byte>): (r: Line)
    requires IsText(entry) && |entry| <= l.limit
    ensures LineOk(r)
  {
    l.(text := entry, pos := |entry|, folds := EntryFolds(entry, l.mask))
  }

  /** What a command makes of the line. */
  function Step(l: Line, c: Command): (r: Line)
    requires LineOk(l) && CommandOk(c, l.limit)
    ensures LineOk(r)
  {
    match c
    case InsertText(bytes) => Inserted(l, bytes)
    case PasteText(input) => Pasted(l, input[..PasteLength(input)])
    case Recall(entry) => Recalled(l, entry)
    case DeleteRight => Removed(l, l.pos, NextStop(l, l.pos))
    case Backspace => Removed(l, PrevStop(l, l.pos), l.pos)
    case DeletePrevWord => Removed(l, WordStart(l), l.pos)
    case KillLine => Cleared(l)
    case KillToEnd => Removed(l, l.pos, |l.text|)
    case Transpose => Transposed(l)
    case MoveLeft => MovedTo(l, PrevStop(l, l.pos))
    case MoveRight => MovedTo(l, NextStop(l, l.pos))
    case MoveHome => MovedTo(l, 0)
    case MoveEnd => MovedTo(l, |l.text|)
  }
}
