/** Base64 as in section 4 of RFC 4648, with a decoder that skips white space. */
module Base64 {
  import opened Bytes

  const PAD: byte := 61

  // ---------- symbols ----------

  /** The symbol of a six-bit value. */
  function Symbol(v: nat): (c: byte)
    requires v < 64
  {
    if v < 26 then 65 + v
    else if v < 52 then 97 + (v - 26)
    else if v < 62 then 48 + (v - 52)
    else if v == 62 then 43
    else 47
  }

  /** The value of a symbol; -1 for all other bytes. */
  function SymbolValue(c: byte): (v: int)
    ensures -1 <= v < 64
  {
    if 65 <= c < 91 then c - 65
    else if 97 <= c < 123 then c - 97 + 26
    else if 48 <= c < 58 then c - 48 + 52
    else if c == 43 then 62
    else if c == 47 then 63
    else -1
  }

  lemma SymbolsAndValues(v: nat, c: byte)
    requires v < 64
    ensures Symbol(v) == c <==> SymbolValue(c) == v
    ensures Symbol(v) != PAD && !IsSpace(Symbol(v))
  {
  }

  const ALPHABET: string := "ABCDEFGHIJKLM" + "NOPQRSTUVWXYZ" + "abcdefghijklm" + "nopqrstuvwxyz" + "0123456789+/"

  /** The symbols in the order of table 1 of RFC 4648. */
  lemma AlphabetIs(v: nat)
    requires v < 64
    ensures |ALPHABET| == 64 && Symbol(v) as char == ALPHABET[v]
  {
  }

  predicate IsSpace(c: byte) { c == 32 || c == 9 || c == 10 || c == 13 }

  predicate IsValid(c: byte) { SymbolValue(c) >= 0 || c == PAD }

  // ---------- encoding ----------

  /** The symbols of up to three bytes. */
  function EncodedGroup(g: seq<byte>): (s: seq<byte>)
    requires 0 < |g| <= 3
    ensures |s| == 4
  {
    var a := g[0];
    var b := if |g| > 1 then g[1] else 0;
    var c := if |g| > 2 then g[2] else 0;
    [Symbol(a / 4),
     Symbol(a % 4 * 16 + b / 16),
     if |g| > 1 then Symbol(b % 16 * 4 + c / 64) else PAD,
     if |g| > 2 then Symbol(c % 64) else PAD]
  }

  function Encoded(data: seq<byte>): (s: seq<byte>) {
    if data == [] then []
    else if |data| <= 3 then EncodedGroup(data)
    else EncodedGroup(data[..3]) + Encoded(data[3..])
  }

  function ValueAt(s: seq<byte>, i: nat): int
    requires i < |s|
  {
    if SymbolValue(s[i]) < 0 then 0 else SymbolValue(s[i])
  }

  /** Four symbols and three bytes are the same 24 bits, the first ones weighing most; what is missing is
  zero, and as many symbols are padding. */
  lemma GroupBits(g: seq<byte>)
    requires 0 < |g| <= 3
    ensures var s := EncodedGroup(g);
      && ValueAt(s, 0) * 262144 + ValueAt(s, 1) * 4096 + ValueAt(s, 2) * 64 + ValueAt(s, 3)
         == (g[0] as int) * 65536 + (if |g| > 1 then (g[1] as int) * 256 else 0) + (if |g| > 2 then g[2] as int else 0)
      && forall i :: 0 <= i < 4 ==> (s[i] == PAD <==> i > |g|)
  {
    var a := g[0];
    var b := if |g| > 1 then g[1] else 0;
    var c := if |g| > 2 then g[2] else 0;
    SymbolsAndValues(a / 4, Symbol(a / 4));
    SymbolsAndValues(a % 4 * 16 + b / 16, Symbol(a % 4 * 16 + b / 16));
    SymbolsAndValues(b % 16 * 4 + c / 64, Symbol(b % 16 * 4 + c / 64));
    SymbolsAndValues(c % 64, Symbol(c % 64));
  }

  // ---------- decoding ----------

  /** The bytes of four symbols; a padding in an odd place counts as the value -1. */
  function DecodedGroup(s: seq<byte>): (g: seq<byte>)
    requires |s| == 4
    ensures 0 < |g| <= 3
  {
    FromValues(SymbolValue(s[0]), SymbolValue(s[1]), SymbolValue(s[2]), SymbolValue(s[3]))
  }

  function FromValues(v0: int, v1: int, v2: int, v3: int): (g: seq<byte>)
    requires -1 <= v0 < 64 && -1 <= v1 < 64 && -1 <= v2 < 64 && -1 <= v3 < 64
    ensures 0 < |g| <= 3
  {
    [if v1 < 0 then 255 else v0 * 4 % 256 + v1 / 16]
    + (if v2 >= 0 then [v1 % 16 * 16 + v2 / 4] else [])
    + (if v3 >= 0 then [v2 % 4 * 64 + v3] else [])
  }

  function DecodedGroups(s: seq<byte>): (r: seq<byte>) {
    if |s| < 4 then [] else DecodedGroup(s[..4]) + DecodedGroups(s[4..])
  }

  /** The input without white space. */
  function Stripped(s: seq<byte>): (r: seq<byte>) {
    if s == [] then []
    else
      var k := |s| - 1;
      Stripped(s[..k]) + (if IsSpace(s[k]) then [] else [s[k]])
  }

  predicate AllValid(s: seq<byte>) { forall i :: 0 <= i < |s| ==> IsValid(s[i]) }

  /** The decoder's result; what cannot be decoded gives no bytes. */
  function Decoded(s: seq<byte>): (r: seq<byte>) {
    var t := Stripped(s);
    if !AllValid(t) || |t| % 4 != 0 then [] else DecodedGroups(t)
  }

  // ---------- canonical strings ----------

  predicate FullGroup(s: seq<byte>)
    requires |s| == 4
  {
    forall i :: 0 <= i < 4 ==> SymbolValue(s[i]) >= 0
  }

  /** A last group may be padded, and then its unused bits are zero (section 3.5 of RFC 4648). */
  predicate LastGroup(s: seq<byte>)
    requires |s| == 4
  {
    var v0, v1, v2 := SymbolValue(s[0]), SymbolValue(s[1]), SymbolValue(s[2]);
    || FullGroup(s)
    || (v0 >= 0 && v1 >= 0 && v2 >= 0 && v2 % 4 == 0 && s[3] == PAD)
    || (v0 >= 0 && v1 >= 0 && v1 % 16 == 0 && s[2] == PAD && s[3] == PAD)
  }

  predicate Canonical(s: seq<byte>) {
    || s == []
    || (|s| == 4 && LastGroup(s))
    || (|s| > 4 && FullGroup(s[..4]) && Canonical(s[4..]))
  }

  /** No white space, and nothing else that does not belong. */
  predicate Plain(s: seq<byte>) { forall i :: 0 <= i < |s| ==> IsValid(s[i]) && !IsSpace(s[i]) }

  // ---------- groups ----------

  /** Three bytes and four sextets hold the same bits. */
  lemma Sextets(a: byte, b: byte, c: byte)
    ensures var v0, v1, v2, v3 := a / 4, a % 4 * 16 + b / 16, b % 16 * 4 + c / 64, c % 64;
      && v0 < 64 && v1 < 64 && v2 < 64
      && v0 * 4 + v1 / 16 == a && v1 % 16 * 16 + v2 / 4 == b && v2 % 4 * 64 + v3 == c
      && (b == 0 ==> v1 % 16 == 0) && (c == 0 ==> v2 % 4 == 0)
  {
  }

  lemma Octets(v0: int, v1: int, v2: int, v3: int)
    requires 0 <= v0 < 64 && 0 <= v1 < 64 && 0 <= v2 < 64 && 0 <= v3 < 64
    ensures var a, b, c := v0 * 4 + v1 / 16, v1 % 16 * 16 + v2 / 4, v2 % 4 * 64 + v3;
      && a < 256 && b < 256 && c < 256
      && a / 4 == v0 && a % 4 * 16 + b / 16 == v1 && b % 16 * 4 + c / 64 == v2 && c % 64 == v3
      && (v1 % 16 == 0 ==> a % 4 * 16 == v1) && (v2 % 4 == 0 ==> b % 16 * 4 == v2)
  {
  }

  lemma GroupRound(g: seq<byte>)
    requires 0 < |g| <= 3
    ensures DecodedGroup(EncodedGroup(g)) == g && LastGroup(EncodedGroup(g)) && (|g| == 3 ==> FullGroup(EncodedGroup(g)))
    ensures Plain(EncodedGroup(g))
  {
    if |g| == 1 {
      OneByte(g[0]);
      assert g == [g[0]];
    } else if |g| == 2 {
      TwoBytes(g[0], g[1]);
      assert g == [g[0], g[1]];
    } else {
      ThreeBytes(g[0], g[1], g[2]);
      assert g == [g[0], g[1], g[2]];
    }
  }

  lemma OneByte(a: byte)
    ensures var s := EncodedGroup([a]); DecodedGroup(s) == [a] && LastGroup(s) && Plain(s)
  {
    var s := EncodedGroup([a]);
    Sextets(a, 0, 0);
    SymbolsAndValues(a / 4, s[0]);
    SymbolsAndValues(a % 4 * 16, s[1]);
  }

  lemma TwoBytes(a: byte, b: byte)
    ensures var s := EncodedGroup([a, b]); DecodedGroup(s) == [a, b] && LastGroup(s) && Plain(s)
  {
    var v0, v1, v2 := a / 4, a % 4 * 16 + b / 16, b % 16 * 4;
    Sextets(a, b, 0);
    TwoSymbols(v0, v1, v2);
    assert EncodedGroup([a, b]) == [Symbol(v0), Symbol(v1), Symbol(v2), PAD];
  }

  lemma TwoSymbols(v0: nat, v1: nat, v2: nat)
    requires v0 < 64 && v1 < 64 && v2 < 64 && v2 % 4 == 0
    ensures var s := [Symbol(v0), Symbol(v1), Symbol(v2), PAD];
      DecodedGroup(s) == [v0 * 4 + v1 / 16, v1 % 16 * 16 + v2 / 4] && LastGroup(s) && Plain(s)
  {
    SymbolsAndValues(v0, Symbol(v0));
    SymbolsAndValues(v1, Symbol(v1));
    SymbolsAndValues(v2, Symbol(v2));
  }

  lemma ThreeBytes(a: byte, b: byte, c: byte)
    ensures var s := EncodedGroup([a, b, c]); DecodedGroup(s) == [a, b, c] && FullGroup(s) && Plain(s)
  {
    var s := EncodedGroup([a, b, c]);
    Sextets(a, b, c);
    SymbolsAndValues(a / 4, s[0]);
    SymbolsAndValues(a % 4 * 16 + b / 16, s[1]);
    SymbolsAndValues(b % 16 * 4 + c / 64, s[2]);
    SymbolsAndValues(c % 64, s[3]);
  }

  lemma GroupUnique(s: seq<byte>)
    requires |s| == 4 && LastGroup(s)
    ensures EncodedGroup(DecodedGroup(s)) == s && (FullGroup(s) ==> |DecodedGroup(s)| == 3)
  {
    var v2, v3 := SymbolValue(s[2]), SymbolValue(s[3]);
    if v2 < 0 {
      UniqueOne(s);
    } else if v3 < 0 {
      UniqueTwo(s);
    } else {
      UniqueThree(s);
    }
  }

  lemma UniqueOne(s: seq<byte>)
    requires |s| == 4 && LastGroup(s) && SymbolValue(s[2]) < 0
    ensures EncodedGroup(DecodedGroup(s)) == s
  {
    var v0, v1 := SymbolValue(s[0]), SymbolValue(s[1]);
    SymbolsAndValues(v0, s[0]);
    SymbolsAndValues(v1, s[1]);
    Octets(v0, v1, 0, 0);
    assert DecodedGroup(s) == [v0 * 4 + v1 / 16];
  }

  lemma UniqueTwo(s: seq<byte>)
    requires |s| == 4 && LastGroup(s) && SymbolValue(s[2]) >= 0 && SymbolValue(s[3]) < 0
    ensures EncodedGroup(DecodedGroup(s)) == s
  {
    var v0, v1, v2 := SymbolValue(s[0]), SymbolValue(s[1]), SymbolValue(s[2]);
    SymbolsAndValues(v0, s[0]);
    SymbolsAndValues(v1, s[1]);
    SymbolsAndValues(v2, s[2]);
    Octets(v0, v1, v2, 0);
    assert DecodedGroup(s) == [v0 * 4 + v1 / 16, v1 % 16 * 16 + v2 / 4];
  }

  lemma ThreeValues(v0: int, v1: int, v2: int, v3: int)
    requires 0 <= v0 < 64 && 0 <= v1 < 64 && 0 <= v2 < 64 && 0 <= v3 < 64
    ensures FromValues(v0, v1, v2, v3) == [v0 * 4 + v1 / 16, v1 % 16 * 16 + v2 / 4, v2 % 4 * 64 + v3]
  {
  }

  lemma UniqueThree(s: seq<byte>)
    requires |s| == 4 && LastGroup(s) && SymbolValue(s[2]) >= 0 && SymbolValue(s[3]) >= 0
    ensures EncodedGroup(DecodedGroup(s)) == s && |DecodedGroup(s)| == 3
  {
    var v0, v1, v2, v3 := SymbolValue(s[0]), SymbolValue(s[1]), SymbolValue(s[2]), SymbolValue(s[3]);
    SymbolsAndValues(v0, s[0]);
    SymbolsAndValues(v1, s[1]);
    SymbolsAndValues(v2, s[2]);
    SymbolsAndValues(v3, s[3]);
    OctetSymbols(v0, v1, v2, v3);
    ThreeValues(v0, v1, v2, v3);
    assert s == [s[0], s[1], s[2], s[3]];
  }

  lemma OctetSymbols(v0: int, v1: int, v2: int, v3: int)
    requires 0 <= v0 < 64 && 0 <= v1 < 64 && 0 <= v2 < 64 && 0 <= v3 < 64
    ensures v0 * 4 + v1 / 16 < 256 && v1 % 16 * 16 + v2 / 4 < 256 && v2 % 4 * 64 + v3 < 256
    ensures EncodedGroup([v0 * 4 + v1 / 16, v1 % 16 * 16 + v2 / 4, v2 % 4 * 64 + v3]) ==
      [Symbol(v0), Symbol(v1), Symbol(v2), Symbol(v3)]
  {
    Octets(v0, v1, v2, v3);
  }

  // ---------- strings ----------

  /** Bytes that come in threes, and the rest. */
  lemma EncodedStep(data: seq<byte>)
    requires |data| > 3
    ensures Encoded(data) == EncodedGroup(data[..3]) + Encoded(data[3..])
  {
  }

  /** The length of an encoding: four symbols for each three bytes begun. */
  lemma {:induction false} EncodedLength(data: seq<byte>)
    ensures |Encoded(data)| == 4 * ((|data| + 2) / 3)
  {
    if |data| > 3 {
      EncodedStep(data);
      EncodedLength(data[3..]);
    }
  }

  lemma {:induction false} EncodedIsPlain(data: seq<byte>)
    ensures Plain(Encoded(data))
  {
    if 0 < |data| <= 3 {
      GroupRound(data);
    } else if |data| > 3 {
      EncodedStep(data);
      GroupRound(data[..3]);
      EncodedIsPlain(data[3..]);
    }
  }

  /** Every encoding is canonical. */
  lemma {:induction false} EncodedIsCanonical(data: seq<byte>)
    ensures Canonical(Encoded(data))
  {
    if 0 < |data| <= 3 {
      GroupRound(data);
    } else if |data| > 3 {
      GroupRound(data[..3]);
      EncodedIsCanonical(data[3..]);
      EncodedLength(data[3..]);
      EncodedStep(data);
      GroupThenMore(EncodedGroup(data[..3]), Encoded(data[3..]));
    }
  }

  lemma {:induction false} GroupsRound(data: seq<byte>)
    ensures DecodedGroups(Encoded(data)) == data
  {
    if 0 < |data| <= 3 {
      GroupRound(data);
      OneGroup(EncodedGroup(data));
    } else if |data| > 3 {
      GroupRound(data[..3]);
      GroupsRound(data[3..]);
      EncodedStep(data);
      GroupThenMore(EncodedGroup(data[..3]), Encoded(data[3..]));
      assert data == data[..3] + data[3..];
    }
  }

  lemma OneGroup(s: seq<byte>)
    requires |s| == 4
    ensures DecodedGroups(s) == DecodedGroup(s)
  {
    assert s[..4] == s && DecodedGroups(s[4..]) == [];
  }

  lemma GroupThenMore(head: seq<byte>, tail: seq<byte>)
    requires |head| == 4
    ensures (head + tail)[..4] == head && (head + tail)[4..] == tail
    ensures DecodedGroups(head + tail) == DecodedGroup(head) + DecodedGroups(tail)
  {
    assert (head + tail)[..4] == head && (head + tail)[4..] == tail;
  }

  lemma {:induction false} StrippedNoSpaces(s: seq<byte>)
    requires Plain(s)
    ensures Stripped(s) == s
  {
    if s != [] {
      StrippedNoSpaces(s[..|s| - 1]);
      assert s == s[..|s| - 1] + [s[|s| - 1]];
    }
  }

  /** Any string that is an encoding once its white space is removed decodes to the bytes. */
  lemma DecodeEncode(s: seq<byte>, data: seq<byte>)
    requires Stripped(s) == Encoded(data)
    ensures Decoded(s) == data
  {
    EncodedIsPlain(data);
    EncodedLength(data);
    GroupsRound(data);
    DecodedPlain(s, Encoded(data), (|data| + 2) / 3);
  }

  lemma DecodedPlain(s: seq<byte>, t: seq<byte>, n: nat)
    requires Stripped(s) == t && Plain(t) && |t| == 4 * n
    ensures Decoded(s) == DecodedGroups(t)
  {
  }

  lemma {:induction false} CanonicalIsPlain(s: seq<byte>)
    requires Canonical(s)
    ensures Plain(s) && |s| % 4 == 0
  {
    if |s| > 4 {
      CanonicalIsPlain(s[4..]);
      assert s == s[..4] + s[4..];
    }
  }

  lemma {:induction false} CanonicalIsEncoded(s: seq<byte>)
    requires Canonical(s)
    ensures Encoded(DecodedGroups(s)) == s
  {
    if |s| == 4 {
      GroupUnique(s);
      OneGroup(s);
    } else if |s| > 4 {
      var head, tail := s[..4], s[4..];
      FullIsLast(head);
      GroupUnique(head);
      CanonicalIsEncoded(tail);
      assert s == head + tail;
      GroupThenMore(head, tail);
      BytesThenMore(DecodedGroup(head), DecodedGroups(tail));
    }
  }

  lemma FullIsLast(s: seq<byte>)
    requires |s| == 4 && FullGroup(s)
    ensures LastGroup(s)
  {
  }

  lemma BytesThenMore(head: seq<byte>, tail: seq<byte>)
    requires |head| == 3
    ensures Encoded(head + tail) == EncodedGroup(head) + Encoded(tail)
  {
    assert (head + tail)[..3] == head && (head + tail)[3..] == tail;
    if tail == [] { assert head + tail == head; }
  }

  /** Re-encoding what a string decodes to gives it back exactly when it is canonical. */
  lemma EncodeDecode(s: seq<byte>)
    ensures Encoded(Decoded(s)) == s <==> Canonical(s)
  {
    EncodedIsCanonical(Decoded(s));
    if Canonical(s) {
      CanonicalIsPlain(s);
      CanonicalIsEncoded(s);
      StrippedNoSpaces(s);
    }
  }

  // ---------- the loops ----------

  method EncodeBase64(data: seq<byte>) returns (result: seq<byte>)
    ensures result == Encoded(data)
  {
    result := [];
    if data == [] { return; }
    var i := 0;
    assert data[0..] == data;
    while i < |data|
      invariant 0 <= i && (i <= |data| || result == Encoded(data))
      invariant i <= |data| ==> result + Encoded(data[i..]) == Encoded(data)
      decreases |data| - i
    {
      var group := EncodeGroup(data, i);
      NextGroup(data, i, group, result);
      result := result + group;
      i := i + 3;
    }
  }

  method EncodeGroup(data: seq<byte>, i: nat) returns (group: seq<byte>)
    requires i < |data|
    ensures group == EncodedGroup(if i + 3 <= |data| then data[i..i + 3] else data[i..])
  {
    var a := data[i];
    var b := if i + 1 < |data| then data[i + 1] else 0;
    var c := if i + 2 < |data| then data[i + 2] else 0;
    group := [Symbol(a / 4), Symbol(a % 4 * 16 + b / 16)];
    if i + 1 < |data| {
      group := group + [Symbol(b % 16 * 4 + c / 64)];
      group := group + [if i + 2 < |data| then Symbol(c % 64) else PAD];
    } else {
      group := group + [PAD, PAD];
    }
  }

  lemma NextGroup(data: seq<byte>, i: nat, group: seq<byte>, done: seq<byte>)
    requires i < |data| && group == EncodedGroup(if i + 3 <= |data| then data[i..i + 3] else data[i..])
    ensures i + 3 <= |data| ==> done + group + Encoded(data[i + 3..]) == done + Encoded(data[i..])
    ensures i + 3 >= |data| ==> done + group == done + Encoded(data[i..])
  {
    var rest := data[i..];
    if i + 3 < |data| {
      assert rest[..3] == data[i..i + 3] && rest[3..] == data[i + 3..];
    } else {
      assert i + 3 == |data| ==> rest == data[i..i + 3] && data[i + 3..] == [];
    }
  }

  method DecodeBase64(data: seq<byte>) returns (result: seq<byte>)
    ensures result == Decoded(data)
  {
    if data == [] { return []; }
    var input, ok := StripInput(data);
    if !ok || |input| % 4 != 0 { return []; }
    result := [];
    var i := 0;
    ghost var k, n := 0, |input| / 4;
    ghost var all := DecodedGroups(input);
    assert input[0..] == input && [] + all == all;
    while i < |input|
      invariant i == 4 * k && 0 <= k <= n && |input| == 4 * n
      invariant Leads(result, input, i, all)
    {
      var group := DecodeGroup(input, i);
      NextBytes(result, input, i, group, all);
      result := result + group;
      i, k := i + 4, k + 1;
    }
    AllBytes(result, input, all);
  }

  /** With the bytes of the groups from `i` on, `done` becomes `all`. */
  predicate Leads(done: seq<byte>, input: seq<byte>, i: nat, all: seq<byte>) {
    i <= |input| && done + DecodedGroups(input[i..]) == all
  }

  lemma NextBytes(done: seq<byte>, input: seq<byte>, i: nat, group: seq<byte>, all: seq<byte>)
    requires i + 4 <= |input| && group == DecodedGroup(input[i..i + 4]) && Leads(done, input, i, all)
    ensures Leads(done + group, input, i + 4, all)
  {
    var tail := DecodedGroups(input[i + 4..]);
    assert input[i..] == input[i..i + 4] + input[i + 4..];
    GroupThenMore(input[i..i + 4], input[i + 4..]);
    assert done + (group + tail) == done + group + tail;
  }

  lemma AllBytes(done: seq<byte>, input: seq<byte>, all: seq<byte>)
    requires Leads(done, input, |input|, all)
    ensures done == all
  {
    assert input[|input|..] == [] && done + [] == done;
  }

  method DecodeGroup(input: seq<byte>, i: nat) returns (group: seq<byte>)
    requires i + 4 <= |input|
    ensures group == DecodedGroup(input[i..i + 4])
  {
    var v0, v1 := SymbolValue(input[i]), SymbolValue(input[i + 1]);
    var v2, v3 := SymbolValue(input[i + 2]), SymbolValue(input[i + 3]);
    group := [if v1 < 0 then 255 else v0 * 4 % 256 + v1 / 16];
    if v2 >= 0 { group := group + [v1 % 16 * 16 + v2 / 4]; }
    if v3 >= 0 { group := group + [v2 % 4 * 64 + v3]; }
  }

  /** Drops white space; fails at the first byte that is neither symbol nor padding. */
  method StripInput(data: seq<byte>) returns (input: seq<byte>, ok: bool)
    ensures ok <==> AllValid(Stripped(data))
    ensures ok ==> input == Stripped(data)
  {
    input := [];
    for i := 0 to |data|
      invariant input == Stripped(data[..i]) && AllValid(input)
    {
      assert data[..i + 1][..i] == data[..i];
      if IsSpace(data[i]) { continue; }
      if !IsValid(data[i]) {
        StrippedPrefix(data, i + 1);
        assert Stripped(data[..i + 1])[|input|] == data[i];
        return input, false;
      }
      input := input + [data[i]];
    }
    assert data[..|data|] == data;
    ok := true;
  }

  lemma {:induction false} StrippedPrefix(s: seq<byte>, i: nat)
    requires i <= |s|
    ensures Stripped(s[..i]) <= Stripped(s)
    decreases |s| - i
  {
    if i == |s| {
      assert s[..i] == s;
    } else {
      StrippedPrefix(s[..|s| - 1], i);
      assert s[..|s| - 1][..i] == s[..i];
    }
  }
}
