/** Reading a bracketed paste: finding its terminator, and the newlines inside. */
module LinePaste {
  import opened Bytes
  import opened Utf8
  import Utf8Cluster

  const ESC: byte := 27

  /** ESC [ 2 0 1 ~ */
  const END: seq<byte> := [27, 91, 50, 48, 49, 126]

  const PASTE_MAX_BYTES: nat := 1024 * 1024

  // ---------- the terminator ----------

  /** `s` ends with the first `j` bytes of the terminator. */
  predicate Ends(s: seq<byte>, j: nat)
    requires j <= |END|
  {
    j <= |s| && s[|s| - j..] == END[..j]
  }

  /** The terminator starts at `k` and nowhere before. */
  predicate IsFirst(s: seq<byte>, k: nat) {
    k + |END| <= |s| && Ends(s[..k + |END|], |END|) && NoneBefore(s, k + |END| - 1)
  }

  /** The terminator does not end at `i` or before. */
  predicate NoneBefore(s: seq<byte>, i: nat)
    requires i <= |s|
  {
    forall k {:trigger s[..k]} :: 0 <= k <= i ==> !Ends(s[..k], |END|)
  }

  /** `m` is the longest part of the terminator that `s` ends with. */
  predicate Pending(s: seq<byte>, m: nat) {
    m < |END| && Ends(s, m) && forall j :: m < j < |END| ==> !Ends(s, j)
  }

  lemma EndsSnoc(s: seq<byte>, c: byte, j: nat)
    requires j < |END|
    ensures Ends(s + [c], j + 1) <==> Ends(s, j) && c == END[j]
  {
    var t := s + [c];
    if j <= |s| {
      assert t[|t| - (j + 1)..] == s[|s| - j..] + [c];
      assert END[..j + 1] == END[..j] + [END[j]];
      if Ends(t, j + 1) {
        var u := t[|t| - (j + 1)..];
        assert u[..j] == s[|s| - j..] && u[j] == c;
      }
    }
  }

  /** No part of the terminator ends with a shorter one. */
  lemma NoBorder(s: seq<byte>, j: nat, m: nat)
    requires 0 < j < m <= |END| && Ends(s, m)
    ensures !Ends(s, j)
  {
    var tail := s[|s| - j..];
    assert tail[0] == s[|s| - m..][m - j] == END[..m][m - j];
    assert END[..j][0] == END[0];
  }

  lemma Advance(s: seq<byte>, m: nat, c: byte)
    requires Pending(s, m) && c == END[m]
    ensures m + 1 == |END| ==> Ends(s + [c], |END|)
    ensures m + 1 < |END| ==> Pending(s + [c], m + 1) && !Ends(s + [c], |END|)
  {
    EndsSnoc(s, c, m);
    forall j | m + 1 < j <= |END| ensures !Ends(s + [c], j) {
      EndsSnoc(s, c, j - 1);
    }
  }

  lemma Reset(s: seq<byte>, m: nat, c: byte)
    requires Pending(s, m) && c != END[m]
    ensures !Ends(s + [c], |END|)
    ensures Pending(s + [c], if c == END[0] then 1 else 0)
  {
    EndsSnoc(s, c, 0);
    forall j | 2 <= j <= |END| ensures !Ends(s + [c], j) {
      EndsSnoc(s, c, j - 1);
      if j - 1 < m { NoBorder(s, j - 1, m); }
    }
  }

  /** A paste is read up to its terminator or, for want of one, up to a part of it at the end of the input. */
  predicate Reads(input: seq<byte>, k: nat) {
    || IsFirst(input, k)
    || (k <= |input| && NoneBefore(input, |input|) && Pending(input, |input| - k))
  }

  /** The bytes of the terminator matched after one more byte; a mismatch starts over. */
  function Matching(m: nat, c: byte): (n: nat)
    requires m < |END|
    ensures n <= m + 1
  {
    if c == END[m] then m + 1 else if m > 0 && c == END[0] then 1 else 0
  }

  lemma MatchingIs(s: seq<byte>, m: nat, c: byte)
    requires Pending(s, m)
    ensures Matching(m, c) == |END| ==> m + 1 == |END| && Ends(s + [c], |END|)
    ensures Matching(m, c) < |END| ==> Pending(s + [c], Matching(m, c)) && !Ends(s + [c], |END|)
  {
    if c == END[m] { Advance(s, m, c); } else { Reset(s, m, c); }
  }

  /** Where the pasted bytes end, when `m` bytes of the terminator stand before `i`. */
  function StopAt(input: seq<byte>, i: nat, m: nat): (k: nat)
    requires i <= |input| && m < |END| && m <= i
    ensures k <= |input|
    decreases |input| - i
  {
    if i == |input| then i - m
    else
      var n := Matching(m, input[i]);
      if n == |END| then i - m else StopAt(input, i + 1, n)
  }

  lemma NoneNext(s: seq<byte>, i: nat)
    requires i < |s| && NoneBefore(s, i) && !Ends(s[..i + 1], |END|)
    ensures NoneBefore(s, i + 1)
  {
    forall k | 0 <= k <= i + 1 ensures !Ends(s[..k], |END|) {
      if k <= i { assert !Ends(s[..k], |END|); }
    }
  }

  /** Starting over at a mismatch finds the first terminator. */
  lemma {:induction false} StopAtReads(input: seq<byte>, i: nat, m: nat, k: nat)
    requires i <= |input| && Pending(input[..i], m) && NoneBefore(input, i) && k == StopAt(input, i, m)
    ensures Reads(input, k)
    decreases |input| - i
  {
    if i == |input| {
      assert input[..i] == input;
    } else {
      var n := Matching(m, input[i]);
      assert input[..i + 1] == input[..i] + [input[i]];
      MatchingIs(input[..i], m, input[i]);
      if n == |END| {
        assert IsFirst(input, i - m);
      } else {
        NoneNext(input, i);
        StopAtReads(input, i + 1, n, k);
      }
    }
  }

  /** The number of pasted bytes. */
  function PasteLength(input: seq<byte>): (k: nat)
    ensures Reads(input, k) && k <= |input|
  {
    assert Pending(input[..0], 0) && NoneBefore(input, 0);
    StopAtReads(input, 0, 0, StopAt(input, 0, 0));
    StopAt(input, 0, 0)
  }

  /** There is only one place to stop. */
  lemma ReadsOnce(input: seq<byte>, k: nat, l: nat)
    requires Reads(input, k) && Reads(input, l)
    ensures k == l
  {
    if IsFirst(input, k) { var upTo := input[..k + |END|]; }
    if IsFirst(input, l) { var upTo := input[..l + |END|]; }
  }

  // ---------- newlines ----------

  const CR: byte := 13
  const LF: byte := 10

  /** Each CR becomes an LF, and an LF right after a CR goes. */
  function Normalized(s: seq<byte>): (r: seq<byte>)
    ensures |r| <= |s|
    ensures CR !in r
  {
    if s == [] then []
    else
      var k := |s| - 1;
      if s[k] == LF && k > 0 && s[k - 1] == CR then Normalized(s[..k])
      else Normalized(s[..k]) + [if s[k] == CR then LF else s[k]]
  }

  lemma NormalizedSnoc(s: seq<byte>, c: byte)
    ensures Normalized(s + [c]) ==
      if c == LF && s != [] && s[|s| - 1] == CR then Normalized(s)
      else Normalized(s) + [if c == CR then LF else c]
  {
    assert (s + [c])[..|s|] == s;
  }

  /** A text with the only newline LF is left alone, and only such a text. */
  lemma {:induction false} NormalizedFixed(s: seq<byte>)
    ensures Normalized(s) == s <==> CR !in s
  {
    if s != [] {
      var k := |s| - 1;
      assert s == s[..k] + [s[k]];
      NormalizedFixed(s[..k]);
      if CR !in s {
        assert CR !in s[..k];
      }
    }
  }

  lemma NormalizedTwice(s: seq<byte>)
    ensures Normalized(Normalized(s)) == Normalized(s)
  {
    NormalizedFixed(Normalized(s));
  }

  lemma PartsStep(a: seq<byte>, b: seq<byte>, c: byte, ab: seq<byte>, na: seq<byte>, nb: seq<byte>)
    requires ab == a + b && na == Normalized(a) && nb == Normalized(b) && Normalized(ab) == na + nb
    requires !(b == [] && a != [] && a[|a| - 1] == CR && c == LF)
    ensures Normalized(ab + [c]) == na + Normalized(b + [c])
  {
    NormalizedSnoc(ab, c);
    NormalizedSnoc(b, c);
    if b != [] { assert ab[|ab| - 1] == b[|b| - 1]; } else { assert ab == a; }
  }

  /** Parts are normalized by themselves unless a CRLF is torn apart. */
  lemma {:induction false} NormalizedParts(a: seq<byte>, b: seq<byte>)
    requires !(a != [] && a[|a| - 1] == CR && b != [] && b[0] == LF)
    ensures Normalized(a + b) == Normalized(a) + Normalized(b)
    decreases |b|
  {
    if b == [] {
      assert a + b == a;
    } else {
      var b0, c := b[..|b| - 1], b[|b| - 1];
      var ab := a + b0;
      assert b == b0 + [c] && a + b == ab + [c];
      assert b0 != [] ==> b0[0] == b[0];
      NormalizedParts(a, b0);
      PartsStep(a, b0, c, ab, Normalized(a), Normalized(b0));
    }
  }

  /** A line without line ends, and what ends it. */
  datatype Row = Row(text: seq<byte>, end: seq<byte>)

  predicate RowOk(r: Row) { CR !in r.text && LF !in r.text && (r.end == [CR] || r.end == [LF] || r.end == [CR, LF]) }

  /** A row that ends with CR is not followed by one that starts with LF. */
  predicate RowsOk(rs: seq<Row>) {
    && (forall i :: 0 <= i < |rs| ==> RowOk(rs[i]))
    && forall i :: 0 < i < |rs| && rs[i - 1].end == [CR] ==> rs[i].text != [] || rs[i].end != [LF]
  }

  function Joined(rs: seq<Row>): seq<byte> { if rs == [] then [] else rs[0].text + rs[0].end + Joined(rs[1..]) }

  /** The rows with LF for every line end. */
  function WithLf(rs: seq<Row>): seq<byte> { if rs == [] then [] else rs[0].text + [LF] + WithLf(rs[1..]) }

  lemma RowNormalized(r: Row)
    requires RowOk(r)
    ensures Normalized(r.text + r.end) == r.text + [LF]
  {
    NormalizedFixed(r.text);
    assert Normalized([CR]) == [LF] && Normalized([LF]) == [LF];
    NormalizedSnoc([CR], LF);
    assert [CR] + [LF] == [CR, LF];
    NormalizedParts(r.text, r.end);
  }

  /** Whatever ends the lines of a text, afterwards it is LF, and the lines are the same. */
  lemma {:induction false} LinesNormalized(rs: seq<Row>)
    requires RowsOk(rs)
    ensures Normalized(Joined(rs)) == WithLf(rs)
  {
    if rs != [] {
      var first, rest := rs[0].text + rs[0].end, Joined(rs[1..]);
      RowNormalized(rs[0]);
      LinesNormalized(rs[1..]);
      if |rs| > 1 { FirstOf(rs[1..]); }
      NormalizedParts(first, rest);
    }
  }

  lemma FirstOf(rs: seq<Row>)
    requires rs != [] && RowOk(rs[0])
    ensures Joined(rs) != [] && Joined(rs)[0] == if rs[0].text == [] then rs[0].end[0] else rs[0].text[0]
  {
  }

  lemma HighSnoc(s: seq<byte>, c: byte)
    requires c >= 0x80
    ensures Normalized(s + [c]) == Normalized(s) + [c]
  {
    NormalizedSnoc(s, c);
  }

  lemma SnocParts(a: seq<byte>, b: seq<byte>, n: seq<byte>)
    requires b != []
    ensures var k := |b| - 1; a + b == a + b[..k] + [b[k]] && n + b == n + b[..k] + [b[k]]
  {
  }

  lemma {:induction false} NormalizedHigh(a: seq<byte>, b: seq<byte>)
    requires forall i :: 0 <= i < |b| ==> b[i] >= 0x80
    ensures Normalized(a + b) == Normalized(a) + b
  {
    if b == [] {
      assert a + b == a;
    } else {
      var k := |b| - 1;
      NormalizedHigh(a, b[..k]);
      HighSnoc(a + b[..k], b[k]);
      SnocParts(a, b, Normalized(a));
    }
  }

  /** Normalizing keeps a text well-formed. */
  lemma {:induction false} NormalizedText(s: seq<byte>)
    requires IsText(s)
    ensures IsText(Normalized(s))
  {
    if s != [] {
      var lead := Utf8Cluster.LeadBefore(s, |s|, |s| - 1);
      SplitText(s, lead);
      NormalizedText(s[..lead]);
      assert CharOk(s, lead);
      if s[lead] >= 0x80 {
        assert s == s[..lead] + s[lead..];
        NormalizedHigh(s[..lead], s[lead..]);
        ConcatText(Normalized(s[..lead]), s[lead..]);
      } else {
        AsciiText(if s[lead] == CR then LF else s[lead]);
        ConcatText(Normalized(s[..lead]), [if s[lead] == CR then LF else s[lead]]);
      }
    }
  }

  lemma AsciiText(c: byte)
    requires c < 0x80
    ensures IsText([c])
  {
    assert CharOk([c], 0);
  }

  lemma NormalizedStep(s: seq<byte>, r: nat)
    requires r < |s| && (r > 0 && s[r - 1] == CR ==> s[r] != LF)
    ensures Normalized(s[..r + 1]) == Normalized(s[..r]) + [if s[r] == CR then LF else s[r]]
    ensures s[r] == CR && r + 1 < |s| && s[r + 1] == LF ==> Normalized(s[..r + 2]) == Normalized(s[..r]) + [LF]
  {
    assert s[..r + 1] == s[..r] + [s[r]];
    NormalizedSnoc(s[..r], s[r]);
    if r + 1 < |s| {
      assert s[..r + 2] == s[..r + 1] + [s[r + 1]];
      NormalizedSnoc(s[..r + 1], s[r + 1]);
    }
  }

  /** The normalization in place. */
  method Normalize(buf: array<byte>, len: nat) returns (w: nat)
    requires len <= buf.Length
    modifies buf
    ensures w <= len && buf[..w] == Normalized(old(buf[..len]))
  {
    ghost var was, done := buf[..len], [];
    var r := 0;
    w := 0;
    while r < len
      invariant w <= r <= len && |done| == w && done == Normalized(was[..r])
      invariant forall i :: 0 <= i < w ==> buf[i] == done[i]
      invariant forall i :: r <= i < len ==> buf[i] == was[i]
      invariant 0 < r < len && was[r - 1] == CR ==> was[r] != LF
    {
      NormalizedStep(was, r);
      done := done + [if was[r] == CR then LF else was[r]];
      if buf[r] == CR {
        buf[w] := LF;
        r := r + (if r + 1 < len && buf[r + 1] == LF then 2 else 1);
      } else {
        buf[w] := buf[r];
        r := r + 1;
      }
      w := w + 1;
    }
    assert was[..len] == was;
  }

  // ---------- the paste buffer ----------

  /** The capacity of the paste buffer for `need` more bytes; it fails only past the maximum. */
  method PasteBufferReserve(cap: nat, len: nat, need: nat) returns (ok: bool, newCap: nat)
    requires cap <= PASTE_MAX_BYTES
    ensures ok <==> len + need <= PASTE_MAX_BYTES
    ensures ok ==> len + need <= newCap <= PASTE_MAX_BYTES && cap <= newCap
    ensures !ok ==> newCap == cap
  {
    if cap >= len + need { return true, cap; }
    var want := if cap != 0 then cap else 64;
    while want < len + need
      invariant cap <= want && 0 < want <= PASTE_MAX_BYTES
      decreases len + need - want
    {
      var doubled := want * 2;
      if doubled <= want || doubled > PASTE_MAX_BYTES {
        want := PASTE_MAX_BYTES;
        break;
      }
      want := doubled;
    }
    if want < len + need { return false, cap; }
    return true, want;
  }
}
