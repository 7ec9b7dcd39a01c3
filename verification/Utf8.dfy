/** UTF-8 text as RFC 3629 defines it, and the decoding the line editor uses. */
module Utf8 {
  import opened Bytes

  /** A byte that continues a code point. */
  predicate IsCont(b: byte) { 0x80 <= b < 0xC0 }

  // ---------- decoding ----------

  /** The length announced by a leading byte; anything unknown counts as one byte. */
  function ByteLen(c: byte): (n: nat)
    ensures 1 <= n <= 4
  {
    if c < 0x80 then 1
    else if 0xC0 <= c < 0xE0 then 2
    else if 0xE0 <= c < 0xF0 then 3
    else if 0xF0 <= c < 0xF8 then 4
    else 1
  }

  /** The payload bits of a continuation byte. */
  function Low6(b: int): (r: int)
    requires 0 <= b
    ensures 0 <= r < 0x40 && (0x80 <= b < 0xC0 ==> r == b - 0x80)
  {
    b % 0x40
  }

  /** The code point at `i`; leading bytes lose their length marker. */
  function DecodeAt(s: seq<byte>, i: nat): (cp: int)
    requires i < |s| && i + ByteLen(s[i]) <= |s|
  {
    var p: int := s[i];
    if p < 0x80 then p
    else if 0xC0 <= p < 0xE0 then (p - 0xC0) * 0x40 + Low6(s[i + 1])
    else if 0xE0 <= p < 0xF0 then ((p - 0xE0) * 0x40 + Low6(s[i + 1])) * 0x40 + Low6(s[i + 2])
    else if 0xF0 <= p < 0xF8 then (((p - 0xF0) * 0x40 + Low6(s[i + 1])) * 0x40 + Low6(s[i + 2])) * 0x40 + Low6(s[i + 3])
    else p
  }

  // ---------- well-formed text ----------

  predicate Boundary(s: seq<byte>, i: int) {
    0 <= i <= |s| && (i < |s| ==> !IsCont(s[i]))
  }

  /** The second byte allowed after a leading byte, as in section 4 of RFC 3629. */
  predicate SecondOk(p: byte, q: byte) {
    && (p == 0xE0 ==> 0xA0 <= q)
    && (p == 0xED ==> q < 0xA0)
    && (p == 0xF0 ==> 0x90 <= q)
    && (p == 0xF4 ==> q < 0x90)
  }

  /** A code point in its only valid encoding starts at `i` and ends at a boundary. */
  predicate CharOk(s: seq<byte>, i: int)
    requires 0 <= i < |s|
  {
    var n := ByteLen(s[i]);
    && (s[i] < 0x80 || 0xC2 <= s[i] < 0xF5)
    && i + n <= |s| && Boundary(s, i + n)
    && (n > 1 ==> IsCont(s[i + 1]) && SecondOk(s[i], s[i + 1]))
    && (n > 2 ==> IsCont(s[i + 2]))
    && (n > 3 ==> IsCont(s[i + 3]))
  }

  predicate IsText(s: seq<byte>) {
    Boundary(s, 0) && forall i {:trigger CharOk(s, i)} :: 0 <= i < |s| && !IsCont(s[i]) ==> CharOk(s, i)
  }

  lemma ConcatText(a: seq<byte>, b: seq<byte>)
    requires IsText(a) && IsText(b)
    ensures IsText(a + b) && Boundary(a + b, |a|)
  {
    var s := a + b;
    forall i | 0 <= i < |s| && !IsCont(s[i]) ensures CharOk(s, i) {
      if i < |a| {
        assert CharOk(a, i);
      } else {
        assert CharOk(b, i - |a|);
      }
    }
  }

  /** The byte at or before `i` that is no continuation byte. */
  lemma {:induction false} LeadAt(s: seq<byte>, i: nat) returns (lead: nat)
    requires IsText(s) && i < |s|
    ensures lead <= i && !IsCont(s[lead]) && forall k {:trigger s[k]} :: lead < k <= i ==> IsCont(s[k])
  {
    lead := i;
    if IsCont(s[i]) { lead := LeadAt(s, i - 1); }
  }

  /** Cutting a text off leaves a text exactly if the cut falls between code points. */
  lemma CutText(s: seq<byte>, n: nat)
    requires IsText(s) && n <= |s|
    ensures IsText(s[..n]) <==> Boundary(s, n)
  {
    if Boundary(s, n) {
      SplitText(s, n);
    } else {
      var lead := LeadAt(s, n);
      assert CharOk(s, lead);
      assert s[..n][lead] == s[lead];
      assert !CharOk(s[..n], lead);
    }
  }

  lemma SplitText(s: seq<byte>, i: int)
    requires IsText(s) && Boundary(s, i)
    ensures IsText(s[..i]) && IsText(s[i..])
  {
    var a, b := s[..i], s[i..];
    assert forall j {:trigger b[j]} :: 0 <= j < |b| ==> b[j] == s[i + j];
    forall j | 0 <= j < |a| && !IsCont(a[j]) ensures CharOk(a, j) {
      assert CharOk(s, j);
    }
    forall j | 0 <= j < |b| && !IsCont(b[j]) ensures CharOk(b, j) {
      assert CharOk(s, i + j);
    }
  }

  lemma BetweenText(s: seq<byte>, i: int, j: int)
    requires IsText(s) && Boundary(s, i) && Boundary(s, j) && i <= j
    ensures IsText(s[i..j])
  {
    SplitText(s, j);
    SplitText(s[..j], i);
    assert s[..j][i..] == s[i..j];
  }

  /** Replacing what stands between two boundaries by a text gives a text. */
  lemma SpliceText(s: seq<byte>, i: int, j: int, t: seq<byte>)
    requires IsText(s) && Boundary(s, i) && Boundary(s, j) && i <= j && IsText(t)
    ensures IsText(s[..i] + t + s[j..])
    ensures Boundary(s[..i] + t + s[j..], i) && Boundary(s[..i] + t + s[j..], i + |t|)
  {
    SplitText(s, i);
    SplitText(s, j);
    ConcatText(s[..i], t);
    ConcatText(s[..i] + t, s[j..]);
  }

  // ---------- the standard's encoding ----------

  /** Unicode scalar values. */
  predicate IsScalar(cp: int) { 0 <= cp < 0xD800 || 0xE000 <= cp < 0x110000 }

  /** The octets of a code point, as in section 3 of RFC 3629. */
  function Encode(cp: int): (s: seq<byte>)
    requires IsScalar(cp)
    ensures 1 <= |s| <= 4
  {
    if cp < 0x80 then [cp]
    else if cp < 0x800 then [0xC0 + cp / 0x40, 0x80 + cp % 0x40]
    else if cp < 0x10000 then [0xE0 + cp / 0x1000, 0x80 + cp / 0x40 % 0x40, 0x80 + cp % 0x40]
    else [0xF0 + cp / 0x40000, 0x80 + cp / 0x1000 % 0x40, 0x80 + cp / 0x40 % 0x40, 0x80 + cp % 0x40]
  }

  predicate AllScalar(cps: seq<int>) { forall i :: 0 <= i < |cps| ==> IsScalar(cps[i]) }

  function EncodeAll(cps: seq<int>): seq<byte>
    requires AllScalar(cps)
  {
    if cps == [] then [] else Encode(cps[0]) + EncodeAll(cps[1..])
  }

  /** Decoding inverts encoding. */
  lemma DecodeEncode(cp: int)
    requires IsScalar(cp)
    ensures IsText(Encode(cp)) && ByteLen(Encode(cp)[0]) == |Encode(cp)| && DecodeAt(Encode(cp), 0) == cp
  {
    var s := Encode(cp);
    if 0x10000 <= cp {
      assert cp / 0x40 / 0x40 == cp / 0x1000 && cp / 0x1000 / 0x40 == cp / 0x40000;
      assert Low6(s[1]) == cp / 0x1000 % 0x40 && Low6(s[2]) == cp / 0x40 % 0x40 && Low6(s[3]) == cp % 0x40;
    } else if 0x800 <= cp {
      assert cp / 0x40 / 0x40 == cp / 0x1000;
      assert Low6(s[1]) == cp / 0x40 % 0x40 && Low6(s[2]) == cp % 0x40;
    }
    assert CharOk(s, 0);
  }

  lemma Digits(a: int, b: int)
    requires 0 <= b < 0x40
    ensures (a * 0x40 + b) / 0x40 == a && (a * 0x40 + b) % 0x40 == b
  {
  }

  /** Encoding inverts decoding. */
  lemma EncodeDecode(s: seq<byte>, i: nat)
    requires i < |s| && CharOk(s, i)
    ensures IsScalar(DecodeAt(s, i)) && Encode(DecodeAt(s, i)) == s[i..i + ByteLen(s[i])]
  {
    var cp, n := DecodeAt(s, i), ByteLen(s[i]);
    if n == 2 {
      Digits(s[i] - 0xC0, Low6(s[i + 1]));
    } else if n == 3 {
      var hi := (s[i] - 0xE0) * 0x40 + Low6(s[i + 1]);
      Digits(s[i] - 0xE0, Low6(s[i + 1]));
      Digits(hi, Low6(s[i + 2]));
      assert cp / 0x1000 == cp / 0x40 / 0x40;
    } else if n == 4 {
      var top := (s[i] - 0xF0) * 0x40 + Low6(s[i + 1]);
      var hi := top * 0x40 + Low6(s[i + 2]);
      Digits(s[i] - 0xF0, Low6(s[i + 1]));
      Digits(top, Low6(s[i + 2]));
      Digits(hi, Low6(s[i + 3]));
      assert cp / 0x1000 == cp / 0x40 / 0x40 && cp / 0x40000 == cp / 0x1000 / 0x40;
      assert Encode(cp)[1] == s[i + 1] && Encode(cp)[2] == s[i + 2] && Encode(cp)[3] == s[i + 3];
    }
  }

  /** The code points from a boundary on. */
  function CodePoints(s: seq<byte>, i: nat): (cps: seq<int>)
    decreases |s| - i
  {
    if i >= |s| || i + ByteLen(s[i]) > |s| then []
    else [DecodeAt(s, i)] + CodePoints(s, i + ByteLen(s[i]))
  }

  lemma {:induction false} EncodedIsText(cps: seq<int>)
    requires AllScalar(cps)
    ensures IsText(EncodeAll(cps))
  {
    if cps != [] {
      DecodeEncode(cps[0]);
      EncodedIsText(cps[1..]);
      ConcatText(Encode(cps[0]), EncodeAll(cps[1..]));
    }
  }

  /** Every text is the encoding of its code points. */
  lemma {:induction false} TextIsEncoded(s: seq<byte>, i: nat, cps: seq<int>)
    requires IsText(s) && Boundary(s, i) && cps == CodePoints(s, i)
    ensures AllScalar(cps) && EncodeAll(cps) == s[i..]
    decreases |s| - i
  {
    if i < |s| {
      assert CharOk(s, i);
      var n := ByteLen(s[i]);
      TextIsEncoded(s, i + n, CodePoints(s, i + n));
      EncodeDecode(s, i);
      assert cps[0] == DecodeAt(s, i) && cps[1..] == CodePoints(s, i + n);
      assert s[i..] == s[i..i + n] + s[i + n..];
    }
  }
}
