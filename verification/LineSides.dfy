/** What the commands do, told by the text on both sides of the cursor and the stops of the cursor. */
module LineSides {
  import opened Bytes
  import opened Utf8
  import opened Utf8Cluster
  import opened LineFolds
  import opened LinePaste
  import opened LineModel

  // ---------- stops ----------

  lemma {:induction false} EndOfFold(fs: seq<Fold>, len: nat, p: nat, i: nat)
    requires FoldsOk(fs, len) && i < |fs| && fs[i].start == p
    ensures EndOf(fs, p) == fs[i].end
  {
    if i > 0 {
      SplitOk(fs, 1, len);
      EndOfFold(fs[1..], len, p, i - 1);
    }
  }

  lemma {:induction false} EndOfNone(fs: seq<Fold>, p: nat)
    requires forall i :: 0 <= i < |fs| ==> fs[i].start != p
    ensures EndOf(fs, p) == p
  {
    if fs != [] { EndOfNone(fs[1..], p); }
  }

  lemma {:induction false} StartOfFold(fs: seq<Fold>, len: nat, p: nat, i: nat)
    requires FoldsOk(fs, len) && i < |fs| && fs[i].end == p
    ensures StartOf(fs, p) == fs[i].start
  {
    if i > 0 {
      SplitOk(fs, 1, len);
      StartOfFold(fs[1..], len, p, i - 1);
    }
  }

  lemma {:induction false} StartOfNone(fs: seq<Fold>, p: nat)
    requires forall i :: 0 <= i < |fs| ==> fs[i].end != p
    ensures StartOf(fs, p) == p
  {
    if fs != [] { StartOfNone(fs[1..], p); }
  }

  /** A step right goes over the fold that starts there, and only else over a cluster. */
  lemma NextStopIs(l: Line, p: nat)
    requires LineOk(l) && Boundary(l.text, p)
    ensures forall i :: 0 <= i < |Shown(l)| && Shown(l)[i].start == p ==> NextStop(l, p) == Shown(l)[i].end
    ensures (forall i :: 0 <= i < |Shown(l)| ==> Shown(l)[i].start != p) ==> NextStop(l, p) == FirstEnd(l.text, p)
  {
    var fs := Shown(l);
    forall i | 0 <= i < |fs| && fs[i].start == p ensures NextStop(l, p) == fs[i].end {
      EndOfFold(fs, |l.text|, p, i);
    }
    if forall i :: 0 <= i < |fs| ==> fs[i].start != p { EndOfNone(fs, p); }
  }

  /** A step left goes over the fold that ends there, and only else over a cluster. */
  lemma PrevStopIs(l: Line, p: nat)
    requires LineOk(l) && Boundary(l.text, p)
    ensures forall i :: 0 <= i < |Shown(l)| && Shown(l)[i].end == p ==> PrevStop(l, p) == Shown(l)[i].start
    ensures (forall i :: 0 <= i < |Shown(l)| ==> Shown(l)[i].end != p) ==> PrevStop(l, p) == LastStart(l.text, p)
  {
    var fs := Shown(l);
    forall i | 0 <= i < |fs| && fs[i].end == p ensures PrevStop(l, p) == fs[i].start {
      StartOfFold(fs, |l.text|, p, i);
    }
    if forall i :: 0 <= i < |fs| ==> fs[i].end != p { StartOfNone(fs, p); }
  }

  // ---------- the word before the cursor ----------

  /** Stops from `path[0]` leftwards. */
  predicate GoesLeft(l: Line, path: seq<nat>)
    requires LineOk(l)
  {
    && path != [] && (forall i :: 0 <= i < |path| ==> Boundary(l.text, path[i]))
    && forall i :: 0 <= i < |path| - 1 ==> path[i] > 0 && path[i + 1] == PrevStop(l, path[i])
  }

  /** Each stop but the last has a space before it, or each has none. */
  predicate Over(l: Line, path: seq<nat>, spaces: bool)
    requires LineOk(l) && GoesLeft(l, path)
  {
    forall i :: 0 <= i < |path| - 1 ==> (l.text[path[i] - 1] == SPACE) == spaces
  }

  function Last(path: seq<nat>): nat
    requires path != []
  {
    path[|path| - 1]
  }

  /** From the cursor stops go left over spaces to `Last(a)` and from there over others to `q`; both go
  as far as they can. */
  predicate WordPath(l: Line, a: seq<nat>, b: seq<nat>, q: nat)
    requires LineOk(l)
  {
    && GoesLeft(l, a) && a[0] == l.pos && Over(l, a, true) && (Last(a) == 0 || l.text[Last(a) - 1] != SPACE)
    && GoesLeft(l, b) && b[0] == Last(a) && Over(l, b, false) && (Last(b) == 0 || l.text[Last(b) - 1] == SPACE)
    && q == Last(b)
  }

  ghost predicate IsWordStart(l: Line, q: nat)
    requires LineOk(l)
  {
    exists a: seq<nat>, b: seq<nat> :: WordPath(l, a, b, q)
  }

  lemma OneStopMore(l: Line, p: nat, rest: seq<nat>, spaces: bool)
    requires LineOk(l) && Boundary(l.text, p) && p > 0 && (l.text[p - 1] == SPACE) == spaces
    requires GoesLeft(l, rest) && Over(l, rest, spaces) && rest[0] == PrevStop(l, p)
    ensures GoesLeft(l, [p] + rest) && Over(l, [p] + rest, spaces) && Last([p] + rest) == Last(rest)
  {
    var path := [p] + rest;
    forall i | 0 <= i < |path| ensures Boundary(l.text, path[i]) {
      if i > 0 { assert path[i] == rest[i - 1]; }
    }
    forall i | 0 <= i < |path| - 1
      ensures path[i] > 0 && path[i + 1] == PrevStop(l, path[i]) && (l.text[path[i] - 1] == SPACE) == spaces
    {
      assert path[i + 1] == rest[i];
      if i > 0 { assert path[i] == rest[i - 1] && rest[i] == PrevStop(l, rest[i - 1]); }
    }
  }

  lemma {:induction false} SkipBackPath(l: Line, p: nat, spaces: bool) returns (path: seq<nat>)
    requires LineOk(l) && Boundary(l.text, p)
    ensures GoesLeft(l, path) && path[0] == p && Over(l, path, spaces) && Last(path) == SkipBack(l, p, spaces)
    decreases p
  {
    if p > 0 && (l.text[p - 1] == SPACE) == spaces {
      var rest := SkipBackPath(l, PrevStop(l, p), spaces);
      OneStopMore(l, p, rest, spaces);
      path := [p] + rest;
    } else {
      path := [p];
    }
  }

  /** A path over `spaces` or others, as far as it goes. */
  predicate RunsOut(l: Line, path: seq<nat>, p: nat, spaces: bool, q: nat)
    requires LineOk(l)
  {
    GoesLeft(l, path) && path[0] == p && Over(l, path, spaces) && Last(path) == q && (q == 0 || (l.text[q - 1] == SPACE) != spaces)
  }

  lemma SkipRunsOut(l: Line, p: nat, spaces: bool, q: nat) returns (path: seq<nat>)
    requires LineOk(l) && Boundary(l.text, p) && q == SkipBack(l, p, spaces)
    ensures true == RunsOut(l, path, p, spaces, q)
  {
    path := SkipBackPath(l, p, spaces);
  }

  lemma JoinRuns(l: Line, a: seq<nat>, b: seq<nat>, m: nat, q: nat)
    requires LineOk(l) && true == RunsOut(l, a, l.pos, true, m) && true == RunsOut(l, b, m, false, q)
    ensures true == WordPath(l, a, b, q)
  {
  }

  /** The start of the word is reached over spaces first and then over others; before the cursor there
  is always something to delete. */
  lemma WordStartIs(l: Line) returns (a: seq<nat>, b: seq<nat>)
    requires LineOk(l)
    ensures true == WordPath(l, a, b, WordStart(l)) && (l.pos > 0 ==> WordStart(l) < l.pos)
  {
    var m, q := SkipBack(l, l.pos, true), WordStart(l);
    a := SkipRunsOut(l, l.pos, true, m);
    b := SkipRunsOut(l, m, false, q);
    JoinRuns(l, a, b, m, q);
    WordPathFalls(l, a, b, q);
  }

  lemma WordPathFalls(l: Line, a: seq<nat>, b: seq<nat>, q: nat)
    requires LineOk(l) && true == WordPath(l, a, b, q)
    ensures l.pos > 0 ==> q < l.pos
  {
    PathFalls(l, a);
    PathFalls(l, b);
  }

  lemma HasWordStart(l: Line)
    requires LineOk(l)
    ensures IsWordStart(l, WordStart(l))
  {
    var a, b := WordStartIs(l);
    assert WordPath(l, a, b, WordStart(l));
  }

  lemma {:induction false} PathFalls(l: Line, path: seq<nat>)
    requires LineOk(l) && GoesLeft(l, path)
    ensures Last(path) <= path[0] && (|path| > 1 ==> Last(path) < path[0])
    decreases |path|
  {
    if |path| > 1 { PathFalls(l, path[1..]); }
  }

  /** Every space is a cluster of its own. */
  ghost predicate SpacesAlone(text: seq<byte>)
    requires IsText(text)
  {
    forall p: nat {:trigger LastStart(text, p)} :: 0 < p && Boundary(text, p) ==>
      LastStart(text, p) == p - 1 || SPACE !in text[LastStart(text, p)..p]
  }

  lemma ClusterBytes(text: seq<byte>, p: nat, q: nat, k: nat)
    requires IsText(text) && SpacesAlone(text) && 0 < p && Boundary(text, p) && q == LastStart(text, p) && q <= k < p
    ensures text[k] == SPACE <==> text[p - 1] == SPACE
  {
    if q != p - 1 {
      var w := text[q..p];
      assert SPACE !in w;
      assert w[k - q] == text[k] && w[p - 1 - q] == text[p - 1];
    }
  }

  lemma PathRest(l: Line, path: seq<nat>, spaces: bool)
    requires LineOk(l) && GoesLeft(l, path) && Over(l, path, spaces) && |path| > 1
    ensures GoesLeft(l, path[1..]) && Over(l, path[1..], spaces) && Last(path[1..]) == Last(path) && path[1..][0] == path[1]
  {
  }

  lemma {:induction false} PathBytes(l: Line, path: seq<nat>, spaces: bool, k: nat)
    requires LineOk(l) && GoesLeft(l, path) && Over(l, path, spaces) && Shown(l) == [] && SpacesAlone(l.text)
    requires Last(path) <= k < path[0]
    ensures (l.text[k] == SPACE) == spaces
    decreases |path|
  {
    if |path| > 1 {
      var p, q := path[0], path[1];
      PrevStopIs(l, p);
      if k < q {
        PathRest(l, path, spaces);
        PathBytes(l, path[1..], spaces, k);
      } else {
        ClusterBytes(l.text, p, q, k);
      }
    }
  }

  /** Without folds, and with spaces that stand alone, a word without spaces and the spaces behind it go. */
  lemma WordThenSpaces(l: Line) returns (mid: nat)
    requires LineOk(l) && Shown(l) == [] && SpacesAlone(l.text)
    ensures var q := WordStart(l);
      && q <= mid <= l.pos && (q == 0 || l.text[q - 1] == SPACE) && (mid == q ==> mid == 0)
      && (forall k :: q <= k < mid ==> l.text[k] != SPACE) && (forall k :: mid <= k < l.pos ==> l.text[k] == SPACE)
  {
    var a, b := WordStartIs(l);
    mid := Last(a);
    PathFalls(l, a);
    PathFalls(l, b);
    forall k | mid <= k < l.pos ensures l.text[k] == SPACE { PathBytes(l, a, true, k); }
    forall k | WordStart(l) <= k < mid ensures l.text[k] != SPACE { PathBytes(l, b, false, k); }
  }

  // ---------- both sides of the cursor ----------

  function Left(l: Line): seq<byte>
    requires l.pos <= |l.text|
  {
    l.text[..l.pos]
  }

  function Right(l: Line): seq<byte>
    requires l.pos <= |l.text|
  {
    l.text[l.pos..]
  }

  /** What typing, pasting and recalling leave on both sides. */
  lemma InputSides(l: Line, c: Command)
    requires LineOk(l) && CommandOk(c, l.limit)
    ensures var r := Step(l, c);
      match c
      case InsertText(bytes) =>
        if |l.text| + |bytes| <= l.limit then Left(r) == Left(l) + bytes && Right(r) == Right(l) else r == l
      case PasteText(input) =>
        var k := PasteLength(input);
        if 0 < k <= PasteMax(l) then Left(r) == Left(l) + Normalized(input[..k]) && Right(r) == Right(l) else r == l
      case Recall(entry) => Left(r) == entry && Right(r) == []
      case _ => true
  {
  }

  lemma RemovedSides(l: Line, a: nat, b: nat)
    requires LineOk(l) && a <= b && Boundary(l.text, a) && Boundary(l.text, b)
    ensures var r := Removed(l, a, b); Left(r) == l.text[..a] && Right(r) == l.text[b..]
  {
  }

  lemma Slices<T>(s: seq<T>, p: nat, a: nat, b: nat)
    requires a <= p <= b <= |s|
    ensures s[..p][..a] == s[..a] && s[p..][b - p..] == s[b..] && s[..p][a..] == s[a..p] && s[p..][..b - p] == s[p..b]
  {
  }

  /** A paste of 200 bytes or more, or with newlines, is folded where it stands, as long as there is room
  for a fold; any other paste adds no fold. */
  lemma PasteFolds(l: Line, bytes: seq<byte>, n: seq<byte>, r: Line)
    requires LineOk(l) && IsText(bytes) && 0 < |bytes| <= PasteMax(l) && n == Normalized(bytes) && r == Pasted(l, bytes)
    ensures !l.mask && (10 in n || |n| >= 200) ==> Fold(l.pos, l.pos + |n|) in r.folds
    ensures l.mask || (10 !in n && |n| < 200) ==> r.folds == AfterEdit(l.folds, Insert(l.pos, |n|))
  {
    NormalizedText(bytes);
    if !l.mask && ShouldFold(n) {
      FoldIsAdded(l, n, r);
    }
  }

  lemma FoldIsAdded(l: Line, n: seq<byte>, r: Line)
    requires LineOk(l) && IsText(n) && n != [] && |l.text| + |n| <= l.limit && |l.folds| < MAX_FOLDS && r == Folded(l, n)
    ensures Fold(l.pos, l.pos + |n|) in r.folds
  {
    var gs := AfterEdit(l.folds, Insert(l.pos, |n|));
    AfterFewer(l.folds, Insert(l.pos, |n|));
    assert r.folds == Added(gs, l.pos, l.pos + |n|);
    AddedHolds(gs, l.pos, l.pos + |n|, Fold(l.pos, l.pos + |n|));
  }

  /** What deletions leave on both sides. */
  lemma DeletionSides(l: Line, c: Command)
    requires LineOk(l) && CommandOk(c, l.limit)
    ensures var r := Step(l, c);
      match c
      case DeleteRight => Left(r) == Left(l) && Right(r) == Right(l)[NextStop(l, l.pos) - l.pos..]
      case Backspace => Left(r) == Left(l)[..PrevStop(l, l.pos)] && Right(r) == Right(l)
      case DeletePrevWord => Left(r) == Left(l)[..WordStart(l)] && Right(r) == Right(l)
      case KillLine => Left(r) == [] && Right(r) == []
      case KillToEnd => Left(r) == Left(l) && Right(r) == []
      case _ => true
  {
    var p := l.pos;
    match c
    case DeleteRight => Slices(l.text, p, p, NextStop(l, p)); RemovedSides(l, p, NextStop(l, p));
    case Backspace => Slices(l.text, p, PrevStop(l, p), p); RemovedSides(l, PrevStop(l, p), p);
    case DeletePrevWord => Slices(l.text, p, WordStart(l), p); RemovedSides(l, WordStart(l), p);
    case KillToEnd => RemovedSides(l, p, |l.text|);
    case _ =>
  }

  lemma Whole<T>(s: seq<T>, p: nat)
    requires p <= |s|
    ensures s[..p] + s[p..] == s
  {
  }

  /** Moves leave the text, and put the cursor at a stop or at an end. */
  lemma MoveSides(l: Line, c: Command, q: nat)
    requires LineOk(l) && CommandOk(c, l.limit) && q == Step(l, c).pos
    requires c.MoveLeft? || c.MoveRight? || c.MoveHome? || c.MoveEnd?
    ensures var r := Step(l, c); Left(r) + Right(r) == Left(l) + Right(l) && r == l.(pos := q)
    ensures c.MoveLeft? ==> q == PrevStop(l, l.pos) && Left(Step(l, c)) == Left(l)[..q]
    ensures c.MoveRight? ==> q == NextStop(l, l.pos) && Right(Step(l, c)) == Right(l)[q - l.pos..]
    ensures c.MoveHome? ==> Left(Step(l, c)) == []
    ensures c.MoveEnd? ==> Right(Step(l, c)) == []
  {
    Whole(l.text, l.pos);
    Whole(l.text, q);
    if c.MoveLeft? { Slices(l.text, l.pos, q, l.pos); }
    if c.MoveRight? { Slices(l.text, l.pos, l.pos, q); }
  }

  /** Where a swap does nothing. */
  predicate NoSwap(l: Line, a: nat, c: nat) {
    a >= l.pos || c <= l.pos || l.pos - a > SWAP_MAX || c - l.pos > SWAP_MAX || Overlap(l.folds, a, c)
  }

  lemma SwapIs(l: Line, a: nat, c: nat, r: Line)
    requires LineOk(l) && a == PrevStop(l, l.pos) && c == NextStop(l, l.pos) && r == Transposed(l)
    ensures a <= l.pos <= c <= |l.text|
    ensures r == if NoSwap(l, a, c) then l else l.(text := Swapped(l.text, a, l.pos, c), pos := c)
  {
    if l.pos == 0 {
      assert a >= l.pos;
    } else if l.pos == |l.text| {
      assert c <= l.pos;
    } else {
      assert a < l.pos < c;
    }
  }

  lemma SwapIsStep(l: Line)
    requires LineOk(l)
    ensures Step(l, Transpose) == Transposed(l)
  {
  }

  /** A swap exchanges the stretches up to the stops on both sides, and the cursor is behind them; folds
  stay. At the ends, with long stretches and where a fold is met nothing happens. */
  lemma SwapSides(l: Line, a: nat, c: nat, r: Line)
    requires LineOk(l) && a == PrevStop(l, l.pos) && c == NextStop(l, l.pos) && r == Transposed(l)
    ensures a <= l.pos <= c <= |l.text|
    ensures if NoSwap(l, a, c) then r == l
      else r.folds == l.folds && Left(r) == l.text[..a] + l.text[l.pos..c] + l.text[a..l.pos] && Right(r) == l.text[c..]
  {
    SwapIs(l, a, c, r);
    SwappedSides(l.text, a, l.pos, c);
  }

  lemma SwappedSides(text: seq<byte>, a: nat, p: nat, c: nat)
    requires a <= p <= c <= |text|
    ensures Swapped(text, a, p, c)[..c] == text[..a] + text[p..c] + text[a..p] && Swapped(text, a, p, c)[c..] == text[c..]
  {
  }

  // ---------- the fold of a recalled entry ----------

  /** Clusters from `path[0]` rightwards. */
  predicate WalksRight(text: seq<byte>, path: seq<nat>)
    requires IsText(text)
  {
    && path != [] && (forall i :: 0 <= i < |path| ==> Boundary(text, path[i]))
    && forall i :: 0 <= i < |path| - 1 ==> path[i] < |text| && path[i + 1] == FirstEnd(text, path[i])
  }

  /** Clusters from `path[0]` leftwards. */
  predicate WalksLeft(text: seq<byte>, path: seq<nat>)
    requires IsText(text)
  {
    && path != [] && (forall i :: 0 <= i < |path| ==> Boundary(text, path[i]))
    && forall i :: 0 <= i < |path| - 1 ==> path[i] > 0 && path[i + 1] == LastStart(text, path[i])
  }

  /** A cluster from one of the places starts with a newline. */
  predicate HasNewline(text: seq<byte>, starts: seq<nat>) { exists i :: 0 <= i < |starts| && starts[i] < |text| && text[starts[i]] == LF }

  lemma {:induction false} ContextRightWalk(text: seq<byte>, p: nat, n: nat) returns (path: seq<nat>)
    requires IsText(text) && Boundary(text, p)
    ensures WalksRight(text, path) && path[0] == p && |path| <= n + 1 && (|path| == n + 1 || Last(path) == |text|)
    ensures ContextRight(text, p, n) == (Last(path), HasNewline(text, path[..|path| - 1]))
    decreases n
  {
    path := [p];
    if p < |text| && n > 0 {
      var rest := ContextRightWalk(text, FirstEnd(text, p), n - 1);
      path := [p] + rest;
      MoreNewlines(text, p, rest[..|rest| - 1], path[..|path| - 1]);
    }
  }

  lemma MoreNewlines(text: seq<byte>, p: nat, rest: seq<nat>, all: seq<nat>)
    requires all == [p] + rest && p < |text|
    ensures HasNewline(text, all) <==> text[p] == LF || HasNewline(text, rest)
  {
    if HasNewline(text, rest) {
      var i :| 0 <= i < |rest| && rest[i] < |text| && text[rest[i]] == LF;
      assert all[i + 1] == rest[i];
    }
    if text[p] == LF { assert all[0] == p; }
  }

  lemma {:induction false} ContextLeftWalk(text: seq<byte>, p: nat, n: nat) returns (path: seq<nat>)
    requires IsText(text) && Boundary(text, p)
    ensures WalksLeft(text, path) && path[0] == p && |path| <= n + 1 && (|path| == n + 1 || Last(path) == 0)
    ensures ContextLeft(text, p, n) == (Last(path), HasNewline(text, path[1..]))
    decreases n
  {
    path := [p];
    if p > 0 && n > 0 {
      var q := LastStart(text, p);
      var rest := ContextLeftWalk(text, q, n - 1);
      path := [p] + rest;
      assert path[1..] == rest == [q] + rest[1..];
      MoreNewlines(text, q, rest[1..], rest);
    }
  }

  /** The fold of a long entry leaves eight clusters, or all there are, on each side, and none on a side
  where they have a newline; an entry with no more than that is folded whole. */
  lemma HistoryFoldIs(text: seq<byte>) returns (u: seq<nat>, w: seq<nat>)
    requires IsText(text) && text != []
    ensures WalksRight(text, u) && u[0] == 0 && |u| <= FOLD_CONTEXT + 1 && (|u| == FOLD_CONTEXT + 1 || Last(u) == |text|)
    ensures WalksLeft(text, w) && w[0] == |text| && |w| <= FOLD_CONTEXT + 1 && (|w| == FOLD_CONTEXT + 1 || Last(w) == 0)
    ensures var start := if HasNewline(text, u[..|u| - 1]) then 0 else Last(u);
      var end := if HasNewline(text, w[1..]) then |text| else Last(w);
      HistoryFold(text) == if |text| > 2 * FOLD_CONTEXT && start < end then Fold(start, end) else Fold(0, |text|)
  {
    u := ContextRightWalk(text, 0, FOLD_CONTEXT);
    w := ContextLeftWalk(text, |text|, FOLD_CONTEXT);
  }
}
