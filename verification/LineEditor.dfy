/** The line editor: a byte buffer with cursor and fold table, updated in place. */
module LineEditor {
  import opened Bytes
  import opened Utf8
  import opened Utf8Cluster
  import opened LineFolds
  import opened LinePaste
  import opened LineModel
  import LineSides
  import LineRender

  /** The largest line of a growable buffer. */
  const MAX_LINE: nat := 1024 * 1024
  const SIZE_MAX: nat := 0xFFFF_FFFF_FFFF_FFFF

  type GoodLine = l: Line | LineOk(l) witness Line([], 0, [], 0, false)

  // ---------- moving bytes ----------

  /** Opens a gap at `at` in the first `len` bytes, copies `c` in and puts the terminator behind. */
  method InsertBytes(buf: array<byte>, len: nat, at: nat, c: seq<byte>, ghost text: seq<byte>)
    requires at <= len && len + |c| < buf.Length && buf[..len] == text
    modifies buf
    ensures buf[..len + |c|] == text[..at] + c + text[at..] && buf[len + |c|] == 0
  {
    forall i | at <= i < len { buf[i + |c|] := buf[i]; }
    forall i | 0 <= i < |c| { buf[at + i] := c[i]; }
    buf[len + |c|] := 0;
  }

  /** Closes the gap of `n` bytes at `at` in the first `len` bytes and puts the terminator behind. */
  method RemoveBytes(buf: array<byte>, len: nat, at: nat, n: nat, ghost text: seq<byte>)
    requires at + n <= len < buf.Length && buf[..len] == text
    modifies buf
    ensures buf[..len - n] == text[..at] + text[at + n..] && buf[len - n] == 0
  {
    forall i | at <= i < len - n { buf[i] := buf[i + n]; }
    buf[len - n] := 0;
  }

  /** Fills the buffer with `c` and the terminator. */
  method CopyBytes(buf: array<byte>, c: seq<byte>)
    requires |c| < buf.Length
    modifies buf
    ensures buf[..|c|] == c && buf[|c|] == 0
  {
    forall i | 0 <= i < |c| { buf[i] := c[i]; }
    buf[|c|] := 0;
  }

  /** Swaps the bytes from `a` to `b` with those from `b` to `c`. */
  method SwapBytes(buf: array<byte>, len: nat, a: nat, b: nat, c: nat)
    requires a <= b <= c <= len <= buf.Length
    modifies buf
    ensures buf[..len] == Swapped(old(buf[..len]), a, b, c)
    ensures forall i :: len <= i < buf.Length ==> buf[i] == old(buf[i])
  {
    var tmp := buf[b..c];
    forall i | a <= i < b { buf[i + (c - b)] := buf[i]; }
    forall i | 0 <= i < c - b { buf[a + i] := tmp[i]; }
    ghost var s := Swapped(old(buf[..len]), a, b, c);
    SwappedAt(old(buf[..len]), a, b, c);
    forall i | 0 <= i < len ensures buf[i] == s[i] {
      if a <= i < a + (c - b) { assert buf[a + (i - a)] == tmp[i - a]; }
    }
  }

  lemma SwappedAt(s: seq<byte>, a: nat, b: nat, c: nat)
    requires a <= b <= c <= |s|
    ensures var r := Swapped(s, a, b, c);
      && (forall i :: 0 <= i < a || c <= i < |s| ==> r[i] == s[i])
      && (forall i :: a <= i < a + (c - b) ==> r[i] == s[i + (b - a)])
      && (forall i :: a + (c - b) <= i < c ==> r[i] == s[i - (c - b)])
  {
  }

  /** The pasted bytes with their newlines normalized in place. */
  method NormalizedBytes(data: seq<byte>) returns (n: seq<byte>)
    ensures n == Normalized(data)
  {
    var a := new byte[|data|](i requires 0 <= i < |data| => data[i]);
    assert a[..|data|] == data;
    var w := Normalize(a, |data|);
    n := a[..w];
  }

  /** The end of the first fold that starts at `p`. */
  method FindStart(fs: seq<Fold>, p: nat) returns (q: nat)
    ensures q == EndOf(fs, p)
  {
    assert fs[0..] == fs;
    for j := 0 to |fs|
      invariant EndOf(fs, p) == EndOf(fs[j..], p)
    {
      assert fs[j..][1..] == fs[j + 1..];
      if p == fs[j].start { return fs[j].end; }
    }
    q := p;
  }

  /** The start of the first fold that ends at `p`. */
  method FindEnd(fs: seq<Fold>, p: nat) returns (q: nat)
    ensures q == StartOf(fs, p)
  {
    assert fs[0..] == fs;
    for j := 0 to |fs|
      invariant StartOf(fs, p) == StartOf(fs[j..], p)
    {
      assert fs[j..][1..] == fs[j + 1..];
      if p == fs[j].end { return fs[j].start; }
    }
    q := p;
  }

  class Editor {
    var buf: array<byte>
    var buflen: nat
    /** 0 when the buffer is fixed. */
    const buflenMax: nat
    var len: nat
    var pos: nat
    const table: FoldTable
    const maskmode: bool
    ghost var text: seq<byte>
    /** What the line is; always in order. */
    ghost var line: GoodLine

    ghost function Limit(): nat
      reads this
    {
      if buflenMax == 0 then buflen else buflenMax
    }

    /** The buffer holds the text and a terminator. */
    ghost predicate Shape()
      reads this, buf
    {
      && len == |text| <= buflen < buf.Length && buf[..len] == text && buf[len] == 0
      && buflen < SIZE_MAX && (buflenMax == 0 || (buflenMax == MAX_LINE && buflen <= MAX_LINE))
      && (buf as object) != table.starts && (buf as object) != table.ends
    }

    ghost predicate Memory()
      reads this, buf, table, table.starts, table.ends
    {
      Shape() && table.Valid()
    }

    /** The fields hold the line. */
    ghost predicate Valid()
      reads this, buf, table, table.starts, table.ends
    {
      Memory() && line == Line(text, pos, table.folds, Limit(), maskmode)
    }

    constructor (buflen: nat, growable: bool, maskmode: bool)
      requires 0 < buflen < SIZE_MAX && (growable ==> buflen <= MAX_LINE)
      ensures Valid() && fresh(buf) && fresh(table) && fresh(table.starts) && fresh(table.ends)
      ensures line.text == [] && line.pos == 0 && line.folds == [] && line.mask == maskmode
      ensures line.limit == if growable then MAX_LINE else buflen - 1
    {
      var b := new byte[buflen];
      var t := new FoldTable();
      b[0] := 0;
      this.buf, this.buflen, this.buflenMax := b, buflen - 1, if growable then MAX_LINE else 0;
      this.len, this.pos, this.table, this.maskmode := 0, 0, t, maskmode;
      this.text := [];
      this.line := Line([], 0, [], if growable then MAX_LINE else buflen - 1, maskmode);
    }

    /** Makes room for `needed` bytes; it fails only past the limit. */
    method EditGrow(needed: nat) returns (ok: bool)
      requires Memory()
      modifies `buf, `buflen
      ensures Memory() && Limit() == old(Limit()) && (buf == old(buf) || fresh(buf))
      ensures ok <==> needed <= Limit()
      ensures if ok then needed <= buflen else buflen == old(buflen)
    {
      if needed <= buflen { return true; }
      if buflenMax == 0 || needed > buflenMax { return false; }
      var newlen := if buflen != 0 then buflen else 16;
      while newlen < needed
        invariant 0 < newlen <= buflenMax && buflen <= newlen
        decreases needed - newlen
      {
        if newlen > buflenMax / 2 {
          newlen := buflenMax;
          break;
        }
        newlen := newlen * 2;
      }
      var b := new byte[newlen + 1];
      forall i | 0 <= i <= len { b[i] := buf[i]; }
      buf, buflen := b, newlen;
      return true;
    }

    /** Inserts bytes at the cursor and lets the folds follow. */
    method InsertRange(c: seq<byte>)
      requires Memory() && pos <= len && len + |c| <= buflen
      modifies `pos, `len, `text, buf, table, table.starts, table.ends
      ensures Memory() && pos == old(pos) + |c|
      ensures text == old(text)[..old(pos)] + c + old(text)[old(pos)..]
      ensures table.folds == AfterEdit(old(table.folds), Insert(old(pos), |c|))
    {
      var insertPos := pos;
      InsertBytes(buf, len, pos, c, text);
      text := text[..pos] + c + text[pos..];
      pos, len := pos + |c|, len + |c|;
      table.AdjustAfterInsert(insertPos, |c|);
    }

    /** Removes `n` bytes at `at` and lets the folds follow. */
    method RemoveRange(at: nat, n: nat)
      requires Memory() && at + n <= len && FoldsOk(table.folds, len)
      modifies `len, `text, buf, table, table.starts, table.ends
      ensures Memory() && text == old(text)[..at] + old(text)[at + n..]
      ensures table.folds == AfterEdit(old(table.folds), LineFolds.Delete(at, n))
    {
      table.AdjustAfterDelete(at, n);
      RemoveBytes(buf, len, at, n, text);
      text := text[..at] + text[at + n..];
      len := len - n;
    }

    /** Ends the line at the cursor. */
    method CutOff()
      requires Memory() && pos <= len && FoldsOk(table.folds, len)
      modifies `len, `text, buf, table, table.starts, table.ends
      ensures Memory() && text == old(text)[..pos] + old(text)[|old(text)|..]
      ensures table.folds == AfterEdit(old(table.folds), LineFolds.Delete(pos, |old(text)| - pos))
    {
      table.AdjustAfterDelete(pos, len - pos);
      buf[pos] := 0;
      text := text[..pos];
      len := pos;
    }

    /** Swaps the bytes before the cursor with those after it. */
    method SwapRange(prevLen: nat, currLen: nat, ghost s: seq<byte>)
      requires Memory() && prevLen <= pos && pos + currLen <= len && s == Swapped(text, pos - prevLen, pos, pos + currLen)
      modifies `text, buf
      ensures Memory() && text == s
    {
      SwapBytes(buf, len, pos - prevLen, pos, pos + currLen);
      text := s;
    }

    // ---------- cursor steps ----------

    /** The bytes to move right from `p`. */
    method EditNextLen(p: nat) returns (n: nat)
      requires Valid() && Boundary(line.text, p)
      ensures p + n == NextStop(line, p)
    {
      var bytes := buf[..len];
      var fs, _ := LineRender.GetRenderFolds(table, bytes, maskmode);
      ShownFolds(table.folds, |bytes|);
      assert fs == Shown(line);
      EndOfIs(line.text, fs, p);
      var q := FindStart(fs, p);
      if q != p { return q - p; }
      n := NextCharLen(bytes, p);
    }

    /** The bytes to move left from `p`. */
    method EditPrevLen(p: nat) returns (n: nat)
      requires Valid() && Boundary(line.text, p)
      ensures p - n == PrevStop(line, p)
    {
      var bytes := buf[..len];
      var fs, _ := LineRender.GetRenderFolds(table, bytes, maskmode);
      ShownFolds(table.folds, |bytes|);
      assert fs == Shown(line);
      StartOfIs(line.text, fs, p);
      var q := FindEnd(fs, p);
      if q != p { return p - q; }
      n := PrevCharLen(bytes, p);
    }

    method MoveLeft()
      requires Valid()
      modifies `pos, `line
      ensures Valid() && line == MovedTo(old(line), PrevStop(old(line), old(line).pos))
    {
      if pos > 0 {
        var n := EditPrevLen(pos);
        pos := pos - n;
        line := MovedTo(line, pos);
      }
    }

    method MoveRight()
      requires Valid()
      modifies `pos, `line
      ensures Valid() && line == MovedTo(old(line), NextStop(old(line), old(line).pos))
    {
      if pos != len {
        var n := EditNextLen(pos);
        pos := pos + n;
        line := MovedTo(line, pos);
      }
    }

    method MoveHome()
      requires Valid()
      modifies `pos, `line
      ensures Valid() && line == MovedTo(old(line), 0)
    {
      if pos != 0 {
        pos := 0;
        line := MovedTo(line, 0);
      }
    }

    method MoveEnd()
      requires Valid()
      modifies `pos, `line
      ensures Valid() && line == MovedTo(old(line), |old(line).text|)
    {
      if pos != len {
        pos := len;
        line := MovedTo(line, len);
      }
    }

    // ---------- edits ----------

    /** Inserts text at the cursor unless the line would get too long. */
    method InsertNoRefresh(c: seq<byte>) returns (ok: bool)
      requires Valid() && IsText(c)
      modifies this, buf, table, table.starts, table.ends
      ensures Valid() && (buf == old(buf) || fresh(buf))
      ensures line == Inserted(old(line), c)
      ensures ok <==> |old(line).text| + |c| <= old(line).limit
    {
      if |c| > SIZE_MAX - len { return false; }
      ok := EditGrow(len + |c|);
      if !ok { return; }
      InsertRange(c);
      line := Inserted(line, c);
    }

    /** Removes `n` bytes at `at` and puts the cursor there. */
    method Cut(at: nat, n: nat)
      requires Valid() && Boundary(line.text, at) && Boundary(line.text, at + n)
      modifies this, buf, table, table.starts, table.ends
      ensures Valid() && buf == old(buf)
      ensures line == Removed(old(line), at, at + n)
    {
      RemovedFields(line, at, n);
      RemoveRange(at, n);
      pos := at;
      line := Removed(line, at, at + n);
    }

    method Delete()
      requires Valid()
      modifies this, buf, table, table.starts, table.ends
      ensures Valid() && buf == old(buf)
      ensures line == Removed(old(line), old(line).pos, NextStop(old(line), old(line).pos))
    {
      if len > 0 && pos < len {
        var n := EditNextLen(pos);
        Cut(pos, n);
      } else {
        NothingRemoved(line, pos);
      }
    }

    method Backspace()
      requires Valid()
      modifies this, buf, table, table.starts, table.ends
      ensures Valid() && buf == old(buf)
      ensures line == Removed(old(line), PrevStop(old(line), old(line).pos), old(line).pos)
    {
      if pos > 0 && len > 0 {
        var n := EditPrevLen(pos);
        Cut(pos - n, n);
      } else {
        NothingRemoved(line, pos);
      }
    }

    /** One step left within a run of spaces, or of other characters. */
    method StepLeft(p: nat, spaces: bool) returns (q: nat)
      requires Valid() && Boundary(line.text, p) && p > 0 && (line.text[p - 1] == SPACE) == spaces
      ensures q < p && Boundary(line.text, q) && SkipBack(line, q, spaces) == SkipBack(line, p, spaces)
    {
      var n := EditPrevLen(p);
      q := p - n;
      SkipStep(line, p, spaces, q);
    }

    /** Steps left from `start` over spaces, or over other characters. */
    method SkipLeft(start: nat, spaces: bool) returns (p: nat)
      requires Valid() && Boundary(line.text, start)
      ensures p == SkipBack(line, start, spaces)
    {
      p := start;
      assert line.text == buf[..len];
      while p > 0 && (buf[p - 1] == SPACE) == spaces
        invariant Boundary(line.text, p) && SkipBack(line, p, spaces) == SkipBack(line, start, spaces)
        decreases p
      {
        p := StepLeft(p, spaces);
      }
    }

    method DeletePrevWord()
      requires Valid()
      modifies this, buf, table, table.starts, table.ends
      ensures Valid() && buf == old(buf)
      ensures line == Removed(old(line), WordStart(old(line)), old(line).pos)
      ensures LineSides.IsWordStart(old(line), WordStart(old(line)))
    {
      LineSides.HasWordStart(line);
      var p := SkipLeft(pos, true);
      p := SkipLeft(p, false);
      Cut(p, pos - p);
    }

    method KillLine()
      requires Valid()
      modifies this, buf, table, table.starts, table.ends
      ensures Valid() && buf == old(buf)
      ensures line == Cleared(old(line))
    {
      buf[0] := 0;
      pos, len, text, line := 0, 0, [], Cleared(line);
      table.Clear();
    }

    method KillToEnd()
      requires Valid()
      modifies this, buf, table, table.starts, table.ends
      ensures Valid() && buf == old(buf)
      ensures line == Removed(old(line), old(line).pos, |old(line).text|)
    {
      ghost var was := text;
      CutOff();
      line := Removed(line, pos, |was|);
    }

    /** Swaps the bytes on both sides of the cursor, which moves behind them. */
    method SwapTo(prevLen: nat, currLen: nat, ghost a: nat, ghost c: nat, ghost r: GoodLine)
      requires Valid() && a + prevLen == pos && pos + currLen == c && Swaps(line, a, c, r)
      modifies this, buf
      ensures Valid() && buf == old(buf) && line == r
    {
      SwapRange(prevLen, currLen, r.text);
      if pos + currLen <= len { pos := pos + currLen; }
      line := r;
    }

    method SwapAround(prevLen: nat, currLen: nat)
      requires Valid() && CanSwap(line, pos - prevLen, pos + currLen)
      modifies this, buf
      ensures Valid() && buf == old(buf) && line == Transposed(old(line))
    {
      ghost var a, c := pos - prevLen, pos + currLen;
      TransposedIs(line, a, c);
      SwapTo(prevLen, currLen, a, c, Transposed(line));
    }

    /** Swaps the characters around the cursor unless they are hidden or too large. */
    method Transpose() returns (beep: bool)
      requires Valid()
      modifies this, buf
      ensures Valid() && buf == old(buf)
      ensures line == Transposed(old(line))
    {
      beep := false;
      if 0 < pos < len {
        var prevLen := EditPrevLen(pos);
        var currLen := EditNextLen(pos);
        var prevStart := pos - prevLen;
        if prevLen > SWAP_MAX || currLen > SWAP_MAX { return; }
        var overlaps := table.RangeOverlaps(prevStart, prevLen + currLen);
        if overlaps { return true; }
        SwapAround(prevLen, currLen);
      }
    }

    // ---------- pastes ----------

    /** Appends to the pasted bytes; it fails only past `maxlen`. */
    method PasteBufferAppend(data: seq<byte>, cap: nat, s: seq<byte>, maxlen: nat)
      returns (ok: bool, newData: seq<byte>, newCap: nat)
      requires Memory() && cap <= PASTE_MAX_BYTES && maxlen <= PASTE_MAX_BYTES && len + maxlen <= Limit()
      modifies `buf, `buflen
      ensures Memory() && Limit() == old(Limit()) && (buf == old(buf) || fresh(buf))
      ensures ok <==> |data| + |s| <= maxlen
      ensures newData == (if ok then data + s else data) && newCap <= PASTE_MAX_BYTES
    {
      ok, newData, newCap := false, data, cap;
      if |data| > maxlen || |s| > maxlen - |data| { return; }
      var needed := |data| + |s|;
      var grown := EditGrow(len + needed);
      if !grown { return; }
      ok, newCap := PasteBufferReserve(cap, |data|, |s|);
      if !ok { return; }
      newData := data + s;
    }

    /** Appends unless some earlier bytes did not fit. */
    method Collect(data: seq<byte>, cap: nat, overflowed: bool, s: seq<byte>, maxlen: nat, ghost all: seq<byte>)
      returns (newData: seq<byte>, newCap: nat, isOver: bool)
      requires Memory() && cap <= PASTE_MAX_BYTES && maxlen <= PASTE_MAX_BYTES && len + maxlen <= Limit()
      requires Collected(all, data, overflowed, maxlen)
      modifies `buf, `buflen
      ensures Memory() && Limit() == old(Limit()) && (buf == old(buf) || fresh(buf))
      ensures newCap <= PASTE_MAX_BYTES && Collected(all + s, newData, isOver, maxlen)
    {
      newData, newCap, isOver := data, cap, overflowed;
      if !overflowed {
        var ok;
        ok, newData, newCap := PasteBufferAppend(data, cap, s, maxlen);
        isOver := !ok;
      }
    }

    /** Takes in one more byte; the `m` bytes of the terminator held back come first if it does not go on with them. */
    method TakeByte(data: seq<byte>, cap: nat, overflowed: bool, c: byte, m: nat, maxlen: nat, ghost input: seq<byte>, ghost i: nat)
      returns (newData: seq<byte>, newCap: nat, isOver: bool, held: nat)
      requires Memory() && cap <= PASTE_MAX_BYTES && maxlen <= PASTE_MAX_BYTES && len + maxlen <= Limit()
      requires m <= i < |input| && m < |END| && c == input[i] && Ends(input[..i], m)
      requires Collected(input[..i - m], data, overflowed, maxlen)
      modifies `buf, `buflen
      ensures Memory() && Limit() == old(Limit()) && (buf == old(buf) || fresh(buf))
      ensures newCap <= PASTE_MAX_BYTES && held == Matching(m, c)
      ensures Collected(input[..i + 1 - held], newData, isOver, maxlen)
    {
      newData, newCap, isOver, held := data, cap, overflowed, 0;
      if c == END[m] {
        held := m + 1;
        return;
      }
      HeldBack(input, i, m);
      if m > 0 {
        newData, newCap, isOver := Collect(data, cap, overflowed, END[..m], maxlen, input[..i - m]);
        if c == END[0] {
          held := 1;
          return;
        }
      }
      newData, newCap, isOver := Collect(newData, newCap, isOver, [c], maxlen, input[..i]);
    }

    /** Takes in the next byte of a paste that stops at `k`. */
    method TakeNext(data: seq<byte>, cap: nat, overflowed: bool, input: seq<byte>, i: nat, m: nat, maxlen: nat, ghost k: nat)
      returns (newData: seq<byte>, newCap: nat, isOver: bool, held: nat)
      requires Memory() && cap <= PASTE_MAX_BYTES && maxlen <= PASTE_MAX_BYTES && len + maxlen <= Limit()
      requires Matched(input, i, m, k) && i < |input| && k == PasteLength(input)
      requires Collected(input[..i - m], data, overflowed, maxlen)
      modifies `buf, `buflen
      ensures Memory() && Limit() == old(Limit()) && (buf == old(buf) || fresh(buf)) && newCap <= PASTE_MAX_BYTES
      ensures if held == |END| then k + held == i + 1 && Consumes(input, k, i + 1) else Matched(input, i + 1, held, k)
      ensures held <= i + 1 && Collected(input[..i + 1 - held], newData, isOver, maxlen)
    {
      MatchStep(input, i, m, k);
      newData, newCap, isOver, held := TakeByte(data, cap, overflowed, input[i], m, maxlen, input, i);
    }

    /** Reads the pasted bytes up to the terminator. */
    method ReadPaste(input: seq<byte>, maxlen: nat) returns (data: seq<byte>, overflowed: bool, consumed: nat)
      requires Memory() && maxlen <= PASTE_MAX_BYTES && len + maxlen <= Limit()
      modifies `buf, `buflen
      ensures Memory() && Limit() == old(Limit()) && (buf == old(buf) || fresh(buf))
      ensures var k := PasteLength(input);
        Collected(input[..k], data, overflowed, maxlen) && Consumes(input, k, consumed)
    {
      data, overflowed := [], false;
      var cap: nat, m: nat, i: nat := 0, 0, 0;
      ghost var k := PasteLength(input);
      while i < |input|
        invariant Matched(input, i, m, k)
        invariant Memory() && Limit() == old(Limit()) && (buf == old(buf) || fresh(buf)) && cap <= PASTE_MAX_BYTES
        invariant Collected(input[..i - m], data, overflowed, maxlen)
      {
        data, cap, overflowed, m := TakeNext(data, cap, overflowed, input, i, m, maxlen, k);
        i := i + 1;
        if m == |END| { return data, overflowed, i; }
      }
      StopsAtEnd(input, m, k);
      consumed := i;
    }

    method AddFold(start: nat, end: nat, ghost r: GoodLine)
      requires Valid() && FoldsMore(line, start, end, r)
      modifies `line, table, table.starts, table.ends
      ensures Valid() && line == r
    {
      table.Add(start, end);
      line := r;
    }

    /** Remembers the bytes just inserted as a fold. */
    method FoldInserted(start: nat, n: seq<byte>, ghost l: GoodLine)
      requires Valid() && IsText(n) && |l.text| + |n| <= l.limit && line == Inserted(l, n) && start == l.pos
      modifies `line, table, table.starts, table.ends
      ensures Valid() && line == Folded(l, n)
    {
      FoldedIs(l, n, line);
      AddFold(start, start + |n|, Folded(l, n));
    }

    /** Inserts normalized bytes, as a fold if they are many or have newlines. */
    method InsertPasted(n: seq<byte>)
      requires Valid() && IsText(n) && |line.text| + |n| <= line.limit
      modifies this, buf, table, table.starts, table.ends
      ensures Valid() && (buf == old(buf) || fresh(buf))
      ensures line == if !old(line).mask && ShouldFold(n) then Folded(old(line), n) else Inserted(old(line), n)
    {
      ghost var l := line;
      var start := pos;
      var ok := InsertNoRefresh(n);
      if !maskmode && ShouldFold(n) { FoldInserted(start, n, l); }
    }

    /** The room for a paste. */
    method PasteRoom() returns (maxlen: nat)
      requires Valid()
      ensures maxlen == PasteMax(line)
    {
      maxlen := if buflenMax != 0 then buflenMax else buflen;
      maxlen := if maxlen > len then maxlen - len else 0;
      if maxlen > PASTE_MAX_BYTES { maxlen := PASTE_MAX_BYTES; }
      if table.count == MAX_FOLDS { maxlen := 0; }
    }

    /** Reads a paste from the input and inserts it; too large a paste is dropped. */
    method EditPaste(input: seq<byte>) returns (consumed: nat, beep: bool)
      requires Valid() && IsText(input[..PasteLength(input)])
      modifies this, buf, table, table.starts, table.ends
      ensures Valid() && (buf == old(buf) || fresh(buf))
      ensures line == Pasted(old(line), input[..PasteLength(input)])
      ensures beep <==> PasteLength(input) > PasteMax(old(line))
      ensures Consumes(input, PasteLength(input), consumed)
    {
      var maxlen := PasteRoom();
      var data, overflowed;
      data, overflowed, consumed := ReadPaste(input, maxlen);
      beep := overflowed;
      if overflowed || data == [] { return; }
      var n := NormalizedBytes(data);
      NormalizedText(data);
      InsertPasted(n);
    }

    // ---------- history ----------

    /** How much of a history entry the buffer takes: all of it within the limit, else what fits now. */
    ghost function Kept(entry: seq<byte>): (n: nat)
      requires Memory()
      reads this, buf, table, table.starts, table.ends
      ensures n <= |entry| && n <= Limit()
    {
      if |entry| <= Limit() then |entry| else buflen
    }

    /** Replaces the line by a history entry, cut off if it is too long. */
    method Recall(entry: seq<byte>)
      requires Valid() && IsText(entry[..Kept(entry)])
      modifies this, buf, table, table.starts, table.ends
      ensures Valid() && (buf == old(buf) || fresh(buf))
      ensures line == Recalled(old(line), entry[..old(Kept(entry))])
      ensures line.text == if |entry| <= old(Limit()) then entry else entry[..old(buflen)]
    {
      var n := LoadEntry(entry);
      FoldEntry(entry[..n]);
      line := Recalled(line, entry[..n]);
    }

    method FoldEntry(entry: seq<byte>)
      requires Memory() && IsText(entry) && table.folds == []
      modifies table, table.starts, table.ends
      ensures Memory() && table.folds == EntryFolds(entry, maskmode)
    {
      var needed, f := BuildHistoryFold(entry, maskmode);
      if needed { table.Add(f.start, f.end); }
    }

    method LoadEntry(entry: seq<byte>) returns (n: nat)
      requires Memory()
      modifies `buf, `buflen, `len, `pos, `text, buf, table
      ensures n == old(Kept(entry))
      ensures Memory() && (buf == old(buf) || fresh(buf)) && Limit() == old(Limit())
      ensures text == entry[..n] && pos == n && table.folds == []
    {
      var ok := EditGrow(|entry|);
      n := |entry|;
      if !ok && n > buflen { n := buflen; }
      CopyBytes(buf, entry[..n]);
      len, pos, text := n, n, entry[..n];
      table.Clear();
    }
  }

  /** `r` is the line `l` with one more fold. */
  predicate FoldsMore(l: Line, start: nat, end: nat, r: Line) {
    && r.text == l.text && r.pos == l.pos && r.limit == l.limit && r.mask == l.mask
    && r.folds == Added(l.folds, start, end)
  }

  lemma FoldedIs(l: Line, bytes: seq<byte>, m: Line)
    requires LineOk(l) && IsText(bytes) && |l.text| + |bytes| <= l.limit && m == Inserted(l, bytes)
    ensures FoldsMore(m, l.pos, l.pos + |bytes|, Folded(l, bytes))
  {
  }

  /** The fold of a recalled entry, if it needs one. */
  method BuildHistoryFold(text: seq<byte>, maskmode: bool) returns (needed: bool, f: Fold)
    requires IsText(text)
    ensures needed <==> text != [] && !maskmode && ShouldFold(text)
    ensures needed ==> f == HistoryFold(text)
  {
    f := Fold(0, 0);
    if text == [] || maskmode { return false, f; }
    if !ShouldFold(text) { return false, f; }
    needed, f := true, Fold(0, |text|);
    if |text| > FOLD_CONTEXT * 2 {
      var start := LeftContext(text);
      var end := RightContext(text);
      f := if start >= end then Fold(0, |text|) else Fold(start, end);
    }
  }

  /** Where the fold starts, after some context unless that has a newline. */
  method LeftContext(text: seq<byte>) returns (start: nat)
    requires IsText(text)
    ensures start == var a := ContextRight(text, 0, FOLD_CONTEXT); if a.1 then 0 else a.0
  {
    var pos: nat, chars, nl := 0, 0, false;
    ghost var end := ContextRight(text, 0, FOLD_CONTEXT);
    while pos < |text| && chars < FOLD_CONTEXT
      invariant Boundary(text, pos) && chars <= FOLD_CONTEXT && ReachesRight(text, pos, FOLD_CONTEXT - chars, nl, end)
      decreases FOLD_CONTEXT - chars
    {
      pos, nl := StepContext(text, pos, nl, FOLD_CONTEXT - chars, end);
      chars := chars + 1;
    }
    start := if nl then 0 else pos;
  }

  /** One cluster further; a newline at its start is noted. */
  method StepContext(text: seq<byte>, pos: nat, nl: bool, ghost n: nat, ghost end: (nat, bool)) returns (next: nat, isNl: bool)
    requires IsText(text) && Boundary(text, pos) && pos < |text| && n > 0 && ReachesRight(text, pos, n, nl, end)
    ensures Boundary(text, next) && ReachesRight(text, next, n - 1, isNl, end)
  {
    var step := NextCharLen(text, pos);
    ReachRight(text, pos, n, nl, end, pos + step);
    next, isNl := pos + step, nl || text[pos] == LF;
  }

  /** Where the fold ends, before some context unless that has a newline. */
  method RightContext(text: seq<byte>) returns (end: nat)
    requires IsText(text)
    ensures end == var b := ContextLeft(text, |text|, FOLD_CONTEXT); if b.1 then |text| else b.0
  {
    var pos: nat, chars, nl := |text|, 0, false;
    ghost var start := ContextLeft(text, |text|, FOLD_CONTEXT);
    while pos > 0 && chars < FOLD_CONTEXT
      invariant Boundary(text, pos) && chars <= FOLD_CONTEXT && ReachesLeft(text, pos, FOLD_CONTEXT - chars, nl, start)
      decreases FOLD_CONTEXT - chars
    {
      pos, nl := StepContextBack(text, pos, nl, FOLD_CONTEXT - chars, start);
      chars := chars + 1;
    }
    end := if nl then |text| else pos;
  }

  /** One cluster back; a newline at its start is noted. */
  method StepContextBack(text: seq<byte>, pos: nat, nl: bool, ghost n: nat, ghost start: (nat, bool)) returns (next: nat, isNl: bool)
    requires IsText(text) && Boundary(text, pos) && pos > 0 && n > 0 && ReachesLeft(text, pos, n, nl, start)
    ensures Boundary(text, next) && ReachesLeft(text, next, n - 1, isNl, start)
  {
    var step := PrevCharLen(text, pos);
    ReachLeft(text, pos, n, nl, start, pos - step);
    next, isNl := pos - step, nl || text[pos - step] == LF;
  }

  /** The context still to come ends at `end.0`, and it or what came before has a newline just if `end.1`. */
  predicate ReachesRight(text: seq<byte>, p: nat, n: nat, nl: bool, end: (nat, bool))
    requires IsText(text) && Boundary(text, p)
  {
    ContextRight(text, p, n).0 == end.0 && (ContextRight(text, p, n).1 || nl <==> end.1)
  }

  lemma ReachRight(text: seq<byte>, p: nat, n: nat, nl: bool, end: (nat, bool), q: nat)
    requires IsText(text) && Boundary(text, p) && p < |text| && n > 0 && q == FirstEnd(text, p)
    requires ReachesRight(text, p, n, nl, end)
    ensures Boundary(text, q) && ReachesRight(text, q, n - 1, nl || text[p] == LF, end)
  {
  }

  predicate ReachesLeft(text: seq<byte>, p: nat, n: nat, nl: bool, start: (nat, bool))
    requires IsText(text) && Boundary(text, p)
  {
    ContextLeft(text, p, n).0 == start.0 && (ContextLeft(text, p, n).1 || nl <==> start.1)
  }

  lemma ReachLeft(text: seq<byte>, p: nat, n: nat, nl: bool, start: (nat, bool), q: nat)
    requires IsText(text) && Boundary(text, p) && p > 0 && n > 0 && q == LastStart(text, p)
    requires ReachesLeft(text, p, n, nl, start)
    ensures q < p && Boundary(text, q) && ReachesLeft(text, q, n - 1, nl || text[q] == LF, start)
  {
  }

  /** `data` is all that was read, unless that is too much. */
  predicate Collected(all: seq<byte>, data: seq<byte>, overflowed: bool, maxlen: nat) {
    (overflowed <==> |all| > maxlen) && (!overflowed ==> data == all)
  }

  lemma HeldBack(input: seq<byte>, i: nat, m: nat)
    requires m <= i < |input| && m < |END| && Ends(input[..i], m)
    ensures input[..i - m] + END[..m] == input[..i] && input[..i] + [input[i]] == input[..i + 1]
  {
    assert input[..i][i - m..] == END[..m];
    assert input[..i] == input[..i - m] + input[..i][i - m..];
  }

  /** The first `m` bytes of the terminator stand before `i`, and the paste stops at `k`. */
  predicate Matched(input: seq<byte>, i: nat, m: nat, k: nat) {
    m <= i <= |input| && m < |END| && Ends(input[..i], m) && StopAt(input, i, m) == k
  }

  /** The terminator is consumed with the paste. */
  predicate Consumes(input: seq<byte>, k: nat, n: nat) {
    n == if IsFirst(input, k) then k + |END| else |input|
  }

  lemma MatchStep(input: seq<byte>, i: nat, m: nat, k: nat)
    requires Matched(input, i, m, k) && i < |input| && k == PasteLength(input)
    ensures var n := Matching(m, input[i]);
      if n == |END| then k + n == i + 1 && Consumes(input, k, i + 1) else Matched(input, i + 1, n, k)
  {
    assert input[..i + 1] == input[..i] + [input[i]];
    EndsSnoc(input[..i], input[i], m);
    EndsSnoc(input[..i], input[i], 0);
  }

  lemma StopsAtEnd(input: seq<byte>, m: nat, k: nat)
    requires Matched(input, |input|, m, k)
    ensures k == |input| - m && Consumes(input, k, |input|)
  {
  }

  lemma ShownFolds(fs: seq<Fold>, len: nat)
    requires FoldsOk(fs, len)
    ensures LineRender.Usable(fs, |fs|, len) == fs
  {
    LineRender.AllUsable(fs, |fs|, len, LineRender.Usable(fs, |fs|, len));
    assert fs[..|fs|] == fs;
  }

  lemma SkipStep(l: Line, p: nat, spaces: bool, q: nat)
    requires LineOk(l) && Boundary(l.text, p) && p > 0 && (l.text[p - 1] == SPACE) == spaces && q == PrevStop(l, p)
    ensures q < p && Boundary(l.text, q) && SkipBack(l, q, spaces) == SkipBack(l, p, spaces)
  {
  }

  /** The characters from `a` to `c` around the cursor can be swapped. */
  predicate CanSwap(l: Line, a: int, c: int)
    requires LineOk(l)
  {
    && 0 < l.pos < |l.text| && a == PrevStop(l, l.pos) && c == NextStop(l, l.pos)
    && l.pos - a <= SWAP_MAX && c - l.pos <= SWAP_MAX && !Overlap(l.folds, a, c)
  }

  predicate Swaps(l: Line, a: nat, c: nat, r: Line) {
    && a <= l.pos <= c <= |l.text| && r.text == Swapped(l.text, a, l.pos, c) && r.pos == c
    && r.folds == l.folds && r.limit == l.limit && r.mask == l.mask
  }

  lemma TransposedIs(l: Line, a: nat, c: nat)
    requires LineOk(l) && CanSwap(l, a, c)
    ensures Swaps(l, a, c, Transposed(l))
  {
  }

  lemma RemovedFields(l: Line, at: nat, n: nat)
    requires LineOk(l) && Boundary(l.text, at) && Boundary(l.text, at + n)
    ensures Removed(l, at, at + n) ==
      Line(l.text[..at] + l.text[at + n..], at, AfterEdit(l.folds, LineFolds.Delete(at, n)), l.limit, l.mask)
  {
  }

  lemma NothingRemoved(l: Line, p: nat)
    requires LineOk(l) && l.pos == p && (p == 0 || p == |l.text|)
    ensures Removed(l, p, p) == l
  {
    AfterNothing(l.folds, LineFolds.Delete(p, 0));
  }
}
