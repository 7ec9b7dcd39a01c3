/** Base58 in blocks: eight bytes become eleven letters, a shorter last block fewer. */
module Base58 {
  import opened Bytes
  import opened Numeral
  import opened Options

  // ---------- letters ----------

  /** The letter of a digit: 1 to 9, upper case without I and O, lower case without l. */
  function Letter(d: nat): (c: byte)
    requires d < 58
  {
    if d < 9 then 49 + d
    else if d < 17 then 65 + (d - 9)
    else if d < 22 then 74 + (d - 17)
    else if d < 33 then 80 + (d - 22)
    else if d < 44 then 97 + (d - 33)
    else 109 + (d - 44)
  }

  /** The digit of a letter; -1 for all other bytes. */
  function Digit(c: byte): (d: int)
    ensures -1 <= d < 58
  {
    if 49 <= c < 58 then c - 49
    else if 65 <= c < 73 then c - 65 + 9
    else if 74 <= c < 79 then c - 74 + 17
    else if 80 <= c < 91 then c - 80 + 22
    else if 97 <= c < 108 then c - 97 + 33
    else if 109 <= c < 123 then c - 109 + 44
    else -1
  }

  lemma LettersAndDigits(d: nat, c: byte)
    requires d < 58
    ensures Letter(d) == c <==> Digit(c) == d
  {
  }

  const ALPHABET: string := "123456789" + "ABCDEFGH" + "JKLMN" + "PQRSTUVWXYZ" + "abcdefghijk" + "mnopqrstuvwxyz"

  /** The letters in the order of their digits. */
  lemma AlphabetIs(d: nat)
    requires d < 58
    ensures |ALPHABET| == 58 && Letter(d) as char == ALPHABET[d]
  {
  }

  function Letters(ds: seq<nat>): (s: seq<byte>)
    requires AllDigits(58, ds)
    ensures |s| == |ds| && forall i :: 0 <= i < |s| ==> s[i] == Letter(ds[i])
  {
    seq(|ds|, i requires 0 <= i < |ds| => Letter(ds[i]))
  }

  predicate IsWord(s: seq<byte>) { forall i :: 0 <= i < |s| ==> Digit(s[i]) >= 0 }

  function WordDigits(s: seq<byte>): (ds: seq<nat>)
    requires IsWord(s)
    ensures |ds| == |s| && AllDigits(58, ds) && forall i :: 0 <= i < |s| ==> ds[i] == Digit(s[i])
  {
    seq(|s|, i requires 0 <= i < |s| => Digit(s[i]))
  }

  lemma DigitsOfLetters(ds: seq<nat>)
    requires AllDigits(58, ds)
    ensures IsWord(Letters(ds)) && WordDigits(Letters(ds)) == ds
  {
    forall i | 0 <= i < |ds| ensures Digit(Letters(ds)[i]) == ds[i] { LettersAndDigits(ds[i], Letters(ds)[i]); }
  }

  lemma LettersOfDigits(s: seq<byte>)
    requires IsWord(s)
    ensures Letters(WordDigits(s)) == s
  {
    forall i | 0 <= i < |s| ensures Letters(WordDigits(s))[i] == s[i] { LettersAndDigits(WordDigits(s)[i], s[i]); }
  }

  // ---------- blocks ----------

  const FULL_BLOCK: nat := 8
  const FULL_ENCODED: nat := 11
  const ENCODED_SIZES: seq<nat> := [0, 2, 3, 5, 6, 7, 9, 10, 11]

  /** The size of a decoded block; -1 for sizes that no block has. */
  function DecodedSize(n: nat): (m: int)
    ensures m >= 0 ==> m <= FULL_BLOCK && ENCODED_SIZES[m] == n
  {
    match n
    case 0 => 0
    case 2 => 1
    case 3 => 2
    case 5 => 3
    case 6 => 4
    case 7 => 5
    case 9 => 6
    case 10 => 7
    case 11 => 8
    case _ => -1
  }

  lemma SizesRound(m: nat)
    requires m <= FULL_BLOCK
    ensures DecodedSize(ENCODED_SIZES[m]) == m
  {
  }

  /** A block's letters can hold its bytes. */
  lemma LettersSuffice(m: nat)
    requires m <= FULL_BLOCK
    ensures Pow(256, m) <= Pow(58, ENCODED_SIZES[m])
  {
    var q := Pow(58, 2);
    assert q == 3364 && Pow(58, 3) == 58 * q && Pow(58, 5) == 58 * 58 * Pow(58, 3);
    assert Pow(58, 6) == 58 * Pow(58, 5) && Pow(58, 7) == 58 * Pow(58, 6);
    assert Pow(58, 9) == 58 * 58 * Pow(58, 7);
    assert Pow(58, 10) == 58 * Pow(58, 9) && Pow(58, 11) == 58 * Pow(58, 10);
    assert Pow(256, 2) == 65536 && Pow(256, 3) == 256 * 65536 && Pow(256, 4) == 65536 * 65536;
    assert Pow(256, 5) == 256 * Pow(256, 4) && Pow(256, 6) == 256 * Pow(256, 5);
    assert Pow(256, 7) == 256 * Pow(256, 6) && Pow(256, 8) == 256 * Pow(256, 7);
  }

  /** One letter fewer would not do. */
  lemma LettersNeeded(m: nat)
    requires 0 < m <= FULL_BLOCK
    ensures Pow(58, ENCODED_SIZES[m] - 1) < Pow(256, m)
  {
    assert Pow(58, 2) == 3364 && Pow(58, 4) == 3364 * 3364 && Pow(58, 5) == 58 * Pow(58, 4);
    assert Pow(58, 6) == 58 * Pow(58, 5) && Pow(58, 8) == 3364 * Pow(58, 6);
    assert Pow(58, 9) == 58 * Pow(58, 8) && Pow(58, 10) == 58 * Pow(58, 9);
    assert Pow(256, 2) == 65536 && Pow(256, 3) == 256 * 65536 && Pow(256, 4) == 65536 * 65536;
    assert Pow(256, 5) == 256 * Pow(256, 4) && Pow(256, 6) == 256 * Pow(256, 5);
    assert Pow(256, 7) == 256 * Pow(256, 6) && Pow(256, 8) == 256 * Pow(256, 7);
  }

  function AsBytes(ds: seq<nat>): (s: seq<byte>)
    requires AllDigits(256, ds)
    ensures |s| == |ds| && forall i :: 0 <= i < |s| ==> s[i] == ds[i]
  {
    seq(|ds|, i requires 0 <= i < |ds| => ds[i])
  }

  lemma BytesAreDigits(s: seq<byte>)
    ensures AllDigits(256, s)
  {
  }

  /** The letters of a block: its number in base 58. */
  function EncodedBlock(block: seq<byte>): (s: seq<byte>)
    requires |block| <= FULL_BLOCK
    ensures |s| == ENCODED_SIZES[|block|]
  {
    var n := ENCODED_SIZES[|block|];
    DigitsBelow(58, Value(256, block), n);
    Letters(ToDigits(58, Value(256, block), n))
  }

  /** The block that letters stand for: none for odd sizes, other bytes, or too large a number. */
  function DecodedBlock(s: seq<byte>): (r: Option<seq<byte>>)
    ensures r.Some? ==> |r.value| == DecodedSize(|s|) > 0
  {
    var m := DecodedSize(|s|);
    if m <= 0 || !IsWord(s) then None
    else
      var v := Value(58, WordDigits(s));
      if v >= Pow(256, m) then None else DigitsBelow(256, v, m); Some(AsBytes(ToDigits(256, v, m)))
  }

  /** Decoding a block undoes encoding. */
  lemma BlockRound(block: seq<byte>)
    requires 0 < |block| <= FULL_BLOCK
    ensures DecodedBlock(EncodedBlock(block)) == Some(block)
  {
    var m := |block|;
    var n, v := ENCODED_SIZES[m], Value(256, block);
    BytesAreDigits(block);
    DigitsOfValue(256, block);
    LettersSuffice(m);
    SizesRound(m);
    DigitsBelow(58, v, n);
    DigitsOfLetters(ToDigits(58, v, n));
    ValueOfDigits(58, v, n);
    assert AsBytes(ToDigits(256, v, m)) == block;
  }

  /** Letters and bytes of a block are the same number, the first ones weighing most. */
  lemma BlockValue(block: seq<byte>)
    requires 0 < |block| <= FULL_BLOCK
    ensures var s := EncodedBlock(block);
      IsWord(s) && Value(58, WordDigits(s)) == Value(256, block)
  {
    var n, v := ENCODED_SIZES[|block|], Value(256, block);
    BytesAreDigits(block);
    DigitsOfValue(256, block);
    LettersSuffice(|block|);
    DigitsBelow(58, v, n);
    DigitsOfLetters(ToDigits(58, v, n));
    ValueOfDigits(58, v, n);
  }

  /** Only the encoding of a block decodes to it. */
  lemma BlockUnique(s: seq<byte>)
    requires DecodedBlock(s).Some?
    ensures EncodedBlock(DecodedBlock(s).value) == s
  {
    var m, v, block := DecodedSize(|s|), Value(58, WordDigits(s)), DecodedBlock(s).value;
    ValueOfDigits(256, v, m);
    assert block == ToDigits(256, v, m);
    DigitsOfValue(58, WordDigits(s));
    LettersOfDigits(s);
  }

  // ---------- strings ----------

  function Encoded(data: seq<byte>): (s: seq<byte>) {
    if |data| < FULL_BLOCK then EncodedBlock(data)
    else EncodedBlock(data[..FULL_BLOCK]) + Encoded(data[FULL_BLOCK..])
  }

  function Decoded(s: seq<byte>): (r: Option<seq<byte>>) {
    if s == [] then Some([])
    else if |s| < FULL_ENCODED then DecodedBlock(s)
    else
      var head, tail := DecodedBlock(s[..FULL_ENCODED]), Decoded(s[FULL_ENCODED..]);
      if head.None? || tail.None? then None else Some(head.value + tail.value)
  }

  /** Decoding the encoding of any bytes gives them back. */
  lemma {:induction false} DecodeEncode(data: seq<byte>)
    ensures Decoded(Encoded(data)) == Some(data)
  {
    if |data| < FULL_BLOCK {
      if data != [] { BlockRound(data); }
    } else {
      var head, tail := data[..FULL_BLOCK], data[FULL_BLOCK..];
      BlockRound(head);
      DecodeEncode(tail);
      var s := Encoded(data);
      assert s[..FULL_ENCODED] == EncodedBlock(head) && s[FULL_ENCODED..] == Encoded(tail);
      assert data == head + tail;
    }
  }

  /** Every string that decodes is the encoding of its result. */
  lemma {:induction false} EncodeDecode(s: seq<byte>)
    requires Decoded(s).Some?
    ensures Encoded(Decoded(s).value) == s
  {
    if s != [] {
      if |s| < FULL_ENCODED {
        BlockUnique(s);
      } else {
        var head, tail := s[..FULL_ENCODED], s[FULL_ENCODED..];
        BlockUnique(head);
        EncodeDecode(tail);
        var data := Decoded(s).value;
        assert data[..FULL_BLOCK] == DecodedBlock(head).value && data[FULL_BLOCK..] == Decoded(tail).value;
        assert s == head + tail;
      }
    }
  }
}
