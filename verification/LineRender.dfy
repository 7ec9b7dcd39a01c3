/** What the line looks like on the terminal when its folds are shown as markers. */
module LineRender {
  import opened Bytes
  import opened Utf8
  import opened LineFolds

  // ---------- markers ----------

  const NEWLINE: byte := 10

  function Lines(bytes: seq<byte>): (n: nat)
    ensures 1 <= n <= |bytes| + 1
  {
    if bytes == [] then 1 else Lines(bytes[..|bytes| - 1]) + (if bytes[|bytes| - 1] == NEWLINE then 1 else 0)
  }

  method CountLines(bytes: seq<byte>) returns (lines: nat)
    ensures lines == Lines(bytes)
  {
    lines := 1;
    for j := 0 to |bytes|
      invariant lines == Lines(bytes[..j])
    {
      assert bytes[..j + 1][..j] == bytes[..j];
      if bytes[j] == NEWLINE { lines := lines + 1; }
    }
    assert bytes[..|bytes|] == bytes;
  }

  function Decimal(n: nat): (s: seq<byte>)
    ensures s != []
  {
    if n < 10 then [48 + n] else Decimal(n / 10) + [48 + n % 10]
  }

  /** "[... " */
  const OPENING: seq<byte> := [91, 46, 46, 46, 32]
  /** " pasted lines ...]" */
  const LINES_CLOSING: seq<byte> := [32, 112, 97, 115, 116, 101, 100, 32, 108, 105, 110, 101, 115, 32, 46, 46, 46, 93]
  /** " pasted chars ...]" */
  const CHARS_CLOSING: seq<byte> := [32, 112, 97, 115, 116, 101, 100, 32, 99, 104, 97, 114, 115, 32, 46, 46, 46, 93]

  /** The text shown for hidden bytes. */
  function Marker(hidden: seq<byte>): (m: seq<byte>)
    ensures m != []
  {
    if Lines(hidden) > 1 then OPENING + Decimal(Lines(hidden)) + LINES_CLOSING
    else OPENING + Decimal(|hidden|) + CHARS_CLOSING
  }

  method RenderedText(hidden: seq<byte>) returns (m: seq<byte>)
    ensures m == Marker(hidden)
  {
    var lines := CountLines(hidden);
    if lines > 1 {
      m := OPENING + Decimal(lines) + LINES_CLOSING;
    } else {
      m := OPENING + Decimal(|hidden|) + CHARS_CLOSING;
    }
  }

  predicate AllDigits(s: seq<byte>) { forall i :: 0 <= i < |s| ==> 48 <= s[i] < 58 }

  /** The number that digits stand for. */
  function ReadNumber(s: seq<byte>): int {
    if s == [] then 0 else 10 * ReadNumber(s[..|s| - 1]) + (s[|s| - 1] as int) - 48
  }

  /** The digits of a number read back as the number, without leading zeros. */
  lemma {:induction false} DecimalReads(n: nat)
    ensures AllDigits(Decimal(n)) && ReadNumber(Decimal(n)) == n && (Decimal(n)[0] == 48 ==> n == 0)
  {
    if n >= 10 {
      DecimalReads(n / 10);
      var s := Decimal(n);
      assert s[..|s| - 1] == Decimal(n / 10);
    }
  }

  /** One line more than there are newlines. */
  lemma {:induction false} LinesAre(bytes: seq<byte>)
    ensures Lines(bytes) == multiset(bytes)[NEWLINE] + 1
  {
    if bytes != [] {
      LinesAre(bytes[..|bytes| - 1]);
      assert bytes == bytes[..|bytes| - 1] + [bytes[|bytes| - 1]];
    }
  }

  /** The marker tells the number of lines where there are newlines, and else the number of bytes. */
  lemma MarkerTells(hidden: seq<byte>) returns (digits: seq<byte>)
    ensures digits != [] && AllDigits(digits) && Marker(hidden) == OPENING + digits + (if NEWLINE in hidden then LINES_CLOSING else CHARS_CLOSING)
    ensures ReadNumber(digits) == if NEWLINE in hidden then multiset(hidden)[NEWLINE] + 1 else |hidden|
  {
    LinesAre(hidden);
    assert NEWLINE in hidden <==> NEWLINE in multiset(hidden);
    digits := if NEWLINE in hidden then Decimal(Lines(hidden)) else Decimal(|hidden|);
    DecimalReads(if NEWLINE in hidden then Lines(hidden) else |hidden|);
  }

  function Pow10(d: nat): nat { if d == 0 then 1 else 10 * Pow10(d - 1) }

  lemma {:induction false} DecimalLength(n: nat, d: nat)
    requires n < Pow10(d) && d > 0
    ensures |Decimal(n)| <= d
  {
    if n >= 10 {
      assert n / 10 < Pow10(d - 1);
      DecimalLength(n / 10, d - 1);
    }
  }

  /** The marker of any line that fits in memory fits in its 64-byte field with the terminator. */
  lemma MarkerFits(hidden: seq<byte>)
    requires |hidden| < 0xFFFF_FFFF_FFFF_FFFF
    ensures |Marker(hidden)| < 64
  {
    assert Pow10(5) == 100000 && Pow10(10) == 100000 * 100000 && Pow10(15) == 100000 * Pow10(10);
    assert Pow10(20) == 100000 * Pow10(15);
    DecimalLength(|hidden|, 20);
    DecimalLength(Lines(hidden), 20);
  }

  // ---------- the line in pieces ----------

  datatype Piece = Plain(bytes: seq<byte>) | Hidden(bytes: seq<byte>)

  /** Folds that lie in order from `src` on. */
  predicate From(fs: seq<Fold>, src: nat, len: nat) {
    FoldsOk(fs, len) && src <= len && (fs != [] ==> src <= fs[0].start)
  }

  lemma FromRest(fs: seq<Fold>, src: nat, len: nat)
    requires From(fs, src, len) && fs != []
    ensures From(fs[1..], fs[0].end, len)
  {
  }

  /** The line from `src` on, cut at its folds. */
  function Pieces(text: seq<byte>, fs: seq<Fold>, src: nat): (ps: seq<Piece>)
    requires From(fs, src, |text|)
  {
    if fs == [] then [Plain(text[src..])]
    else
      FromRest(fs, src, |text|);
      [Plain(text[src..fs[0].start]), Hidden(text[fs[0].start..fs[0].end])] + Pieces(text, fs[1..], fs[0].end)
  }

  function Raw(ps: seq<Piece>): seq<byte> {
    if ps == [] then [] else ps[0].bytes + Raw(ps[1..])
  }

  function View(ps: seq<Piece>): seq<byte> {
    if ps == [] then [] else (if ps[0].Plain? then ps[0].bytes else Marker(ps[0].bytes)) + View(ps[1..])
  }

  function Hiddens(ps: seq<Piece>): seq<seq<byte>> {
    if ps == [] then [] else (if ps[0].Plain? then [] else [ps[0].bytes]) + Hiddens(ps[1..])
  }

  /** The pieces make up the line. */
  lemma {:induction false} RawPieces(text: seq<byte>, fs: seq<Fold>, src: nat)
    requires From(fs, src, |text|)
    ensures Raw(Pieces(text, fs, src)) == text[src..]
  {
    var ps := Pieces(text, fs, src);
    if fs == [] {
      assert ps[1..] == [];
    } else {
      var f := fs[0];
      FromRest(fs, src, |text|);
      RawPieces(text, fs[1..], f.end);
      assert ps[1..][1..] == Pieces(text, fs[1..], f.end);
      assert text[src..] == text[src..f.start] + text[f.start..f.end] + text[f.end..];
    }
  }

  lemma HiddensTwo(a: seq<byte>, b: seq<byte>, ps: seq<Piece>)
    ensures Hiddens([Plain(a), Hidden(b)] + ps) == [b] + Hiddens(ps)
  {
    var all := [Plain(a), Hidden(b)] + ps;
    assert all[1..][1..] == ps;
    assert Hiddens(all) == Hiddens(all[1..]);
  }

  /** The hidden pieces are what the folds cover. */
  lemma {:induction false} HiddenPieces(text: seq<byte>, fs: seq<Fold>, src: nat, hs: seq<seq<byte>>)
    requires From(fs, src, |text|) && hs == Hiddens(Pieces(text, fs, src))
    ensures |hs| == |fs| && forall i :: 0 <= i < |fs| ==> hs[i] == text[fs[i].start..fs[i].end]
  {
    var ps := Pieces(text, fs, src);
    if fs == [] {
      assert ps[1..] == [];
    } else {
      FromRest(fs, src, |text|);
      var rest := Hiddens(Pieces(text, fs[1..], fs[0].end));
      HiddenPieces(text, fs[1..], fs[0].end, rest);
      HiddensTwo(text[src..fs[0].start], text[fs[0].start..fs[0].end], Pieces(text, fs[1..], fs[0].end));
      assert hs == [text[fs[0].start..fs[0].end]] + rest;
    }
  }

  /** What is displayed from `src` on. */
  function Rendered(text: seq<byte>, fs: seq<Fold>, src: nat): seq<byte>
    requires From(fs, src, |text|)
  {
    View(Pieces(text, fs, src))
  }

  lemma RenderedStep(text: seq<byte>, fs: seq<Fold>, src: nat)
    requires From(fs, src, |text|)
    ensures fs == [] ==> Rendered(text, fs, src) == text[src..]
    ensures fs != [] ==>
      var f := fs[0];
      && From(fs[1..], f.end, |text|)
      && Rendered(text, fs, src) == text[src..f.start] + Marker(text[f.start..f.end]) + Rendered(text, fs[1..], f.end)
  {
    if fs == [] {
      ViewPlain(text[src..]);
    } else {
      FromRest(fs, src, |text|);
      ViewTwo(text[src..fs[0].start], text[fs[0].start..fs[0].end], Pieces(text, fs[1..], fs[0].end));
    }
  }

  lemma ViewPlain(a: seq<byte>)
    ensures View([Plain(a)]) == a
  {
    assert [Plain(a)][1..] == [];
  }

  lemma ViewTwo(a: seq<byte>, b: seq<byte>, ps: seq<Piece>)
    ensures View([Plain(a), Hidden(b)] + ps) == a + Marker(b) + View(ps)
  {
    var qs := [Plain(a), Hidden(b)] + ps;
    assert qs[1..] == [Hidden(b)] + ps && qs[1..][1..] == ps;
    assert View(qs[1..]) == Marker(b) + View(ps);
  }

  // ---------- the cursor ----------

  predicate InFold(fs: seq<Fold>, p: nat) {
    exists i :: 0 <= i < |fs| && fs[i].start < p < fs[i].end
  }

  lemma NotInRest(fs: seq<Fold>, p: nat)
    requires fs != [] && !InFold(fs, p)
    ensures !(fs[0].start < p < fs[0].end) && !InFold(fs[1..], p)
  {
    assert forall i :: 0 <= i < |fs[1..]| ==> fs[1..][i] == fs[i + 1];
  }

  /** The displayed place of position `p`, counted from the one of `src`. */
  function CursorOf(text: seq<byte>, fs: seq<Fold>, src: nat, p: nat): (c: nat)
    requires From(fs, src, |text|) && src <= p <= |text|
  {
    if fs == [] || p <= fs[0].start then p - src
    else
      FromRest(fs, src, |text|);
      var f := fs[0];
      f.start - src + |Marker(text[f.start..f.end])| + (if p < f.end then 0 else CursorOf(text, fs[1..], f.end, p))
  }

  /** The cursor stays on the displayed line. */
  lemma {:induction false} CursorWithin(text: seq<byte>, fs: seq<Fold>, src: nat, p: nat)
    requires From(fs, src, |text|) && src <= p <= |text|
    ensures CursorOf(text, fs, src, p) <= |Rendered(text, fs, src)|
  {
    RenderedStep(text, fs, src);
    if fs != [] && p >= fs[0].end { CursorWithin(text, fs[1..], fs[0].end, p); }
  }

  /** The cursor never moves the other way. */
  lemma {:induction false} CursorMonotone(text: seq<byte>, fs: seq<Fold>, src: nat, p: nat, q: nat)
    requires From(fs, src, |text|) && src <= p <= q <= |text|
    ensures CursorOf(text, fs, src, p) <= CursorOf(text, fs, src, q)
  {
    if fs != [] && p >= fs[0].end {
      FromRest(fs, src, |text|);
      CursorMonotone(text, fs[1..], fs[0].end, p, q);
    }
  }

  /** Outside folds different positions are displayed at different places. */
  lemma {:induction false} CursorStrict(text: seq<byte>, fs: seq<Fold>, src: nat, p: nat, q: nat)
    requires From(fs, src, |text|) && src <= p < q <= |text| && !InFold(fs, p) && !InFold(fs, q)
    ensures CursorOf(text, fs, src, p) < CursorOf(text, fs, src, q)
  {
    if fs != [] {
      FromRest(fs, src, |text|);
      var f := fs[0];
      NotInRest(fs, p);
      NotInRest(fs, q);
      if p >= f.end {
        CursorStrict(text, fs[1..], f.end, p, q);
      }
    }
  }

  /** Inside a fold the cursor stands after the marker, where the end of the fold is displayed. */
  lemma {:induction false} CursorInFold(text: seq<byte>, fs: seq<Fold>, src: nat, p: nat, i: nat)
    requires From(fs, src, |text|) && src <= p <= |text| && i < |fs| && fs[i].start < p < fs[i].end
    ensures CursorOf(text, fs, src, p) == CursorOf(text, fs, src, fs[i].end)
  {
    FromRest(fs, src, |text|);
    if i > 0 {
      assert fs[0].end <= fs[i].start;
      CursorInFold(text, fs[1..], fs[0].end, p, i - 1);
    }
  }

  /** The folds that end by `p`. */
  function Until(fs: seq<Fold>, src: nat, len: nat, p: nat): (us: seq<Fold>)
    requires From(fs, src, len) && src <= p
    ensures From(us, src, p) && |us| <= |fs|
  {
    if fs == [] || fs[0].end > p then []
    else
      FromRest(fs, src, len);
      var us := Until(fs[1..], fs[0].end, len, p);
      FromCons(fs[0], us, src, p);
      [fs[0]] + us
  }

  lemma FromCons(f: Fold, us: seq<Fold>, src: nat, p: nat)
    requires f.start < f.end && src <= f.start && From(us, f.end, p) && |us| < MAX_FOLDS
    ensures From([f] + us, src, p)
  {
    forall j | 0 <= j < |us| ensures f.end <= us[j].start {
      if j > 0 { assert us[0].end <= us[j].start; }
    }
    ConcatOk([f], us, p);
  }

  lemma SliceOfPrefix(text: seq<byte>, p: nat, a: nat, b: nat)
    requires a <= b <= p <= |text|
    ensures text[..p][a..b] == text[a..b]
  {
  }

  lemma CutFurther(a: seq<byte>, b: seq<byte>, c: nat)
    requires c <= |b|
    ensures (a + b)[..|a| + c] == a + b[..c]
  {
  }

  /** Left of the cursor stands the display of the text before it. */
  lemma {:induction false} CursorCuts(text: seq<byte>, fs: seq<Fold>, src: nat, p: nat)
    requires From(fs, src, |text|) && src <= p <= |text| && !InFold(fs, p)
    ensures CursorOf(text, fs, src, p) <= |Rendered(text, fs, src)|
    ensures Rendered(text, fs, src)[..CursorOf(text, fs, src, p)] == Rendered(text[..p], Until(fs, src, |text|, p), src)
  {
    var us := Until(fs, src, |text|, p);
    CursorWithin(text, fs, src, p);
    RenderedStep(text, fs, src);
    RenderedStep(text[..p], us, src);
    if fs != [] {
      var f := fs[0];
      NotInRest(fs, p);
      if f.end <= p {
        assert us[1..] == Until(fs[1..], f.end, |text|, p);
        CursorCuts(text, fs[1..], f.end, p);
        SliceOfPrefix(text, p, src, f.start);
        SliceOfPrefix(text, p, f.start, f.end);
        CutFurther(text[src..f.start] + Marker(text[f.start..f.end]), Rendered(text, fs[1..], f.end), CursorOf(text, fs[1..], f.end, p));
      } else {
        assert text[..p][src..] == text[src..p];
      }
    }
  }

  // ---------- rendering ----------

  /** Those of the first `n` folds that fit the line. */
  function Usable(fs: seq<Fold>, n: nat, len: nat): seq<Fold>
    requires n <= |fs|
  {
    if n == 0 then []
    else
      var f := fs[n - 1];
      Usable(fs, n - 1, len) + (if f.start >= f.end || f.end > len then [] else [f])
  }

  /** In an editor that keeps its folds in order all of them are rendered. */
  lemma {:induction false} AllUsable(fs: seq<Fold>, n: nat, len: nat, us: seq<Fold>)
    requires FoldsOk(fs, len) && n <= |fs| && us == Usable(fs, n, len)
    ensures us == fs[..n]
  {
    if n > 0 {
      AllUsable(fs, n - 1, len, Usable(fs, n - 1, len));
      var f := fs[n - 1];
      assert us == fs[..n - 1] + [f];
    }
  }

  /** The folds fit the line, and `shown` holds their markers. */
  predicate Shown(text: seq<byte>, fs: seq<Fold>, shown: seq<seq<byte>>) {
    && |shown| == |fs|
    && forall i :: 0 <= i < |fs| ==> fs[i].start < fs[i].end <= |text| && shown[i] == Marker(text[fs[i].start..fs[i].end])
  }

  lemma ShownMore(text: seq<byte>, fs: seq<Fold>, shown: seq<seq<byte>>, f: Fold, m: seq<byte>)
    requires Shown(text, fs, shown) && f.start < f.end <= |text| && m == Marker(text[f.start..f.end])
    ensures Shown(text, fs + [f], shown + [m])
  {
  }

  method GetRenderFolds(table: FoldTable, text: seq<byte>, maskmode: bool) returns (fs: seq<Fold>, shown: seq<seq<byte>>)
    requires table.Valid()
    ensures fs == if text == [] || maskmode then [] else Usable(table.folds, |table.folds|, |text|)
    ensures Shown(text, fs, shown)
  {
    fs, shown := [], [];
    if |text| == 0 || maskmode { return; }
    for j := 0 to table.count
      invariant fs == Usable(table.folds, j, |text|) && Shown(text, fs, shown)
    {
      var start, end := table.starts[j], table.ends[j];
      assert table.folds[j] == Fold(start, end);
      if start >= end || end > |text| { continue; }
      var m := RenderedText(text[start..end]);
      ShownMore(text, fs, shown, Fold(start, end), m);
      fs, shown := fs + [Fold(start, end)], shown + [m];
    }
  }

  method Copy(r: array<byte>, dst: nat, bytes: seq<byte>)
    requires dst + |bytes| <= r.Length
    modifies r
    ensures r[..dst + |bytes|] == old(r[..dst]) + bytes
  {
    forall i | 0 <= i < |bytes| { r[dst + i] := bytes[i]; }
  }

  /** The displayed line, with a terminator, and the cursor on it. */
  method RenderBuffer(table: FoldTable, text: seq<byte>, lpos: nat, maskmode: bool)
    returns (r: array<byte>, outlen: nat, outpos: nat)
    requires table.Valid() && FoldsOk(table.folds, |text|) && lpos <= |text|
    ensures fresh(r) && r.Length == outlen + 1 && r[outlen] == 0
    ensures var fs := if maskmode then [] else table.folds;
      From(fs, 0, |text|) && r[..outlen] == Rendered(text, fs, 0) && outpos == CursorOf(text, fs, 0, lpos)
  {
    var fs, shown := GetRenderFolds(table, text, maskmode);
    ghost var all := table.folds;
    AllUsable(all, |all|, |text|, Usable(all, |all|, |text|));
    assert all[..|all|] == all;
    RenderedStep(text, fs, 0);
    if |fs| == 0 {
      r := PlainCopy(text);
      return r, |text|, lpos;
    }
    r, outlen, outpos := RenderFolded(text, fs, shown, lpos);
  }

  /** A copy of the line with a terminator. */
  method PlainCopy(text: seq<byte>) returns (r: array<byte>)
    ensures fresh(r) && r.Length == |text| + 1 && r[|text|] == 0 && r[..|text|] == text
  {
    r := new byte[|text| + 1];
    Copy(r, 0, text);
    r[|text|] := 0;
  }

  lemma Regroup(a: seq<byte>, b: seq<byte>, c: seq<byte>, d: seq<byte>)
    ensures a + b + c + d == a + (b + c + d)
  {
  }

  /** One gap and the marker after it; the cursor is set once it is reached. */
  method RenderFold(r: array<byte>, dst: nat, text: seq<byte>, src: nat, f: Fold, m: seq<byte>,
                    lpos: nat, outpos: nat, posSet: bool)
    returns (newDst: nat, newPos: nat, isSet: bool)
    requires src <= f.start < f.end <= |text| && dst + (f.start - src) + |m| <= r.Length && (!posSet ==> src <= lpos)
    modifies r
    ensures newDst == dst + (f.start - src) + |m| && r[..newDst] == old(r[..dst]) + text[src..f.start] + m
    ensures isSet <==> posSet || lpos <= f.end
    ensures newPos == if posSet || lpos > f.end then outpos else if lpos <= f.start then dst + (lpos - src) else newDst
  {
    newDst, newPos, isSet := dst, outpos, posSet;
    if !isSet && lpos <= f.start {
      newPos, isSet := newDst + (lpos - src), true;
    }
    Copy(r, newDst, text[src..f.start]);
    newDst := newDst + (f.start - src);
    if !isSet && lpos < f.end {
      newPos, isSet := newDst + |m|, true;
    }
    Copy(r, newDst, m);
    newDst := newDst + |m|;
    if !isSet && lpos == f.end {
      newPos, isSet := newDst, true;
    }
  }

  /** With the rendering from `src` on, `done` becomes `all`. */
  predicate Leads(done: seq<byte>, text: seq<byte>, fs: seq<Fold>, src: nat, all: seq<byte>) {
    From(fs, src, |text|) && done + Rendered(text, fs, src) == all
  }

  lemma NextMarker(done: seq<byte>, text: seq<byte>, fs: seq<Fold>, src: nat, all: seq<byte>, f: Fold, m: seq<byte>)
    requires fs != [] && f == fs[0] && Leads(done, text, fs, src, all) && m == Marker(text[f.start..f.end])
    ensures src <= f.start < f.end <= |text|
    ensures Leads(done + text[src..f.start] + m, text, fs[1..], f.end, all)
  {
    RenderedStep(text, fs, src);
    Regroup(done, text[src..f.start], m, Rendered(text, fs[1..], f.end));
  }

  /** The cursor is set, or still to come. */
  predicate CursorLeads(posSet: bool, outpos: nat, dst: nat, text: seq<byte>, fs: seq<Fold>, src: nat, lpos: nat, cursor: nat) {
    if posSet then outpos == cursor
    else From(fs, src, |text|) && src <= lpos <= |text| && dst + CursorOf(text, fs, src, lpos) == cursor
  }

  lemma NextCursor(outpos: nat, dst: nat, text: seq<byte>, fs: seq<Fold>, src: nat, lpos: nat, cursor: nat, f: Fold, newDst: nat)
    requires fs != [] && f == fs[0] && From(fs, src, |text|) && CursorLeads(false, outpos, dst, text, fs, src, lpos, cursor)
    requires newDst == dst + (f.start - src) + |Marker(text[f.start..f.end])|
    ensures if lpos <= f.start then cursor == dst + (lpos - src)
            else if lpos <= f.end then cursor == newDst
            else CursorLeads(false, outpos, newDst, text, fs[1..], f.end, lpos, cursor)
  {
    FromRest(fs, src, |text|);
    var rest := fs[1..];
    if lpos == f.end { assert CursorOf(text, rest, f.end, lpos) == 0; }
    assert cursor == dst + CursorOf(text, fs, src, lpos);
  }

  /** Gaps are copied, folds are replaced by their markers. */
  method RenderFolded(text: seq<byte>, fs: seq<Fold>, shown: seq<seq<byte>>, lpos: nat)
    returns (r: array<byte>, outlen: nat, outpos: nat)
    requires From(fs, 0, |text|) && lpos <= |text| && Shown(text, fs, shown)
    ensures fresh(r) && r.Length == outlen + 1 && r[outlen] == 0
    ensures r[..outlen] == Rendered(text, fs, 0) && outpos == CursorOf(text, fs, 0, lpos)
  {
    var len := RenderedLength(text, fs, shown);
    r := new byte[len + 1];
    var src: nat, dst: nat, posSet := 0, 0, false;
    outpos := 0;
    ghost var left, all, cursor := fs, Rendered(text, fs, 0), CursorOf(text, fs, 0, lpos);
    assert r[..0] + all == all;
    for j := 0 to |fs|
      invariant left == fs[j..] && dst <= len && Leads(r[..dst], text, left, src, all)
      invariant CursorLeads(posSet, outpos, dst, text, left, src, lpos, cursor)
    {
      var f, m := fs[j], shown[j];
      NextMarker(r[..dst], text, left, src, all, f, m);
      if !posSet { NextCursor(outpos, dst, text, left, src, lpos, cursor, f, dst + (f.start - src) + |m|); }
      dst, outpos, posSet := RenderFold(r, dst, text, src, f, m, lpos, outpos, posSet);
      src, left := f.end, left[1..];
    }
    RenderedStep(text, left, src);
    if !posSet { outpos := dst + (lpos - src); }
    Copy(r, dst, text[src..]);
    r[len] := 0;
    outlen := len;
  }

  /** How much longer the displayed line is. */
  function Extra(text: seq<byte>, fs: seq<Fold>): int
    requires FoldsOk(fs, |text|)
  {
    if fs == [] then 0
    else
      SplitOk(fs, 1, |text|);
      |Marker(text[fs[0].start..fs[0].end])| - (fs[0].end - fs[0].start) + Extra(text, fs[1..])
  }

  lemma {:induction false} ExtraIs(text: seq<byte>, fs: seq<Fold>, src: nat)
    requires From(fs, src, |text|)
    ensures |Rendered(text, fs, src)| == |text| - src + Extra(text, fs)
  {
    RenderedStep(text, fs, src);
    if fs != [] { ExtraIs(text, fs[1..], fs[0].end); }
  }

  /** The length to allocate. */
  method RenderedLength(text: seq<byte>, fs: seq<Fold>, shown: seq<seq<byte>>) returns (n: nat)
    requires From(fs, 0, |text|) && |shown| == |fs|
    requires forall i :: 0 <= i < |fs| ==> shown[i] == Marker(text[fs[i].start..fs[i].end])
    ensures n == |Rendered(text, fs, 0)|
  {
    var len: int := |text|;
    assert fs[0..] == fs;
    for j := 0 to |fs|
      invariant FoldsOk(fs[j..], |text|) && len + Extra(text, fs[j..]) == |text| + Extra(text, fs)
    {
      SplitOk(fs[j..], 1, |text|);
      assert fs[j..][1..] == fs[j + 1..] && fs[j..][0] == fs[j];
      len := len - (fs[j].end - fs[j].start);
      len := len + |shown[j]|;
    }
    ExtraIs(text, fs, 0);
    n := len;
  }
}
