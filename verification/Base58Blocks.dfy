/** Base58 as it runs: block by block in place, in 64-bit arithmetic. */
module Base58Blocks {
  import opened Bytes
  import opened Numeral
  import opened Options
  import opened Base58

  const TWO64: nat := 0x1_0000_0000_0000_0000

  lemma Powers()
    ensures Pow(256, 8) == TWO64 && Pow(58, 10) < TWO64
  {
    assert Pow(58, 2) == 3364 && Pow(58, 4) == 3364 * 3364 && Pow(58, 6) == 3364 * Pow(58, 4);
    assert Pow(58, 8) == 3364 * Pow(58, 6) && Pow(58, 10) == 3364 * Pow(58, 8);
    assert Pow(256, 2) == 65536 && Pow(256, 4) == 65536 * 65536 && Pow(256, 6) == 65536 * Pow(256, 4);
    assert Pow(256, 8) == 65536 * Pow(256, 6);
  }

  /** The number of a block fits in 64 bits. */
  lemma BlockBelow(block: seq<byte>)
    requires |block| <= FULL_BLOCK
    ensures Value(256, block) < TWO64
  {
    BytesAreDigits(block);
    DigitsOfValue(256, block);
    PowMonotone(256, |block|, 8);
    Powers();
  }

  /** Big-endian bytes to a number. */
  method ToNumber(block: seq<byte>) returns (num: nat)
    requires |block| <= FULL_BLOCK
    ensures num == Value(256, block) < TWO64
  {
    num := 0;
    for i := 0 to |block|
      invariant num == Value(256, block[..i])
    {
      assert block[..i + 1][..i] == block[..i];
      num := (num * 256 + block[i]) % TWO64;
      BlockBelow(block[..i + 1]);
    }
    assert block[..|block|] == block;
    BlockBelow(block);
  }

  /** One byte of a number. */
  method ByteAt(num: nat, size: nat, i: nat) returns (b: byte)
    requires i < size
    ensures b == ToDigits(256, num, size)[i]
  {
    DigitAt(256, num, size, i);
    Divided(num / Pow(256, size - 1 - i), 256);
    b := num / Pow(256, size - 1 - i) % 256;
  }

  /** A number to big-endian bytes in place. */
  method ToBytes(num: nat, size: nat, data: array<byte>, at: nat)
    requires at + size <= data.Length
    modifies data
    ensures forall i :: 0 <= i < at || at + size <= i < data.Length ==> data[i] == old(data[i])
    ensures data[at..at + size] == ToDigits(256, num, size)
  {
    ghost var ds := ToDigits(256, num, size);
    for i := 0 to size
      invariant forall j :: 0 <= j < at || at + size <= j < data.Length ==> data[j] == old(data[j])
      invariant forall j :: at <= j < at + i ==> data[j] == ds[j - at]
    {
      var b := ByteAt(num, size, i);
      data[at + i] := b;
    }
  }

  // ---------- encoding ----------

  /** What the block becomes once the digits of `num` stand before `tail`. */
  function Pending(num: nat, i: nat, tail: seq<byte>): seq<byte> {
    DigitsBelow(58, num, i);
    Letters(ToDigits(58, num, i)) + tail
  }

  lemma PendingStep(num: nat, i: nat, tail: seq<byte>)
    requires i > 0
    ensures num % 58 < 58 && Pending(num, i, tail) == Pending(num / 58, i - 1, [Letter(num % 58)] + tail)
  {
    DigitsBelow(58, num, i);
    DigitsBelow(58, num / 58, i - 1);
    var ds := ToDigits(58, num, i);
    assert Letters(ds) == Letters(ToDigits(58, num / 58, i - 1)) + [Letter(num % 58)];
  }

  lemma PendingNone(i: nat, tail: seq<byte>)
    ensures Pending(0, i, tail) == seq(i, _ => 49) + tail
  {
    ZeroDigits(58, i);
  }

  /** Writes the letters of a number from the right; unused places keep the letter of zero. */
  method WriteLetters(number: nat, n: nat, res: array<byte>, at: nat)
    requires number < Pow(58, n) && at + n <= res.Length && forall i :: at <= i < at + n ==> res[i] == 49
    modifies res
    ensures forall i :: 0 <= i < at || at + n <= i < res.Length ==> res[i] == old(res[i])
    ensures res[at..at + n] == Pending(number, n, [])
  {
    var num, i: nat := number, n;
    ghost var tail: seq<byte> := [];
    while num > 0
      invariant 0 <= num < Pow(58, i) && i + |tail| == n && Pending(num, i, tail) == Pending(number, n, [])
      invariant forall j :: at + i <= j < at + n ==> res[j] == tail[j - at - i]
      invariant forall j :: 0 <= j < at + i || at + n <= j < res.Length ==> res[j] == old(res[j])
      decreases i
    {
      PendingStep(num, i, tail);
      QuotientBelow(num, 58, Pow(58, i - 1));
      var remainder := num % 58;
      num := num / 58;
      i := i - 1;
      res[at + i] := Letter(remainder);
      tail := [Letter(remainder)] + tail;
    }
    PendingNone(i, tail);
    assert res[at..at + n] == seq(i, _ => 49) + tail;
  }

  method EncodeBlock(block: seq<byte>, res: array<byte>, at: nat)
    requires 0 < |block| <= FULL_BLOCK && at + ENCODED_SIZES[|block|] <= res.Length
    requires forall i :: at <= i < at + ENCODED_SIZES[|block|] ==> res[i] == 49
    modifies res
    ensures forall i :: 0 <= i < at || at + ENCODED_SIZES[|block|] <= i < res.Length ==> res[i] == old(res[i])
    ensures res[at..at + ENCODED_SIZES[|block|]] == EncodedBlock(block)
  {
    var n := ENCODED_SIZES[|block|];
    var num := ToNumber(block);
    BytesAreDigits(block);
    DigitsOfValue(256, block);
    LettersSuffice(|block|);
    WriteLetters(num, n, res, at);
    assert Pending(num, n, []) == EncodedBlock(block);
  }

  /** The full blocks, one after another. */
  method EncodeFull(data: seq<byte>, blocks: nat, res: array<byte>, ghost all: seq<byte>)
    requires blocks * FULL_BLOCK <= |data| && blocks * FULL_ENCODED <= res.Length && Starts(res, 0, data, 0, all)
    modifies res
    ensures Starts(res, blocks * FULL_ENCODED, data, blocks * FULL_BLOCK, all)
  {
    for i := 0 to blocks
      invariant Starts(res, i * FULL_ENCODED, data, i * FULL_BLOCK, all)
    {
      EncodeNext(data, i * FULL_BLOCK, FULL_BLOCK, FULL_ENCODED, res, i * FULL_ENCODED, all);
    }
  }

  method EncodeBase58(data: seq<byte>) returns (s: seq<byte>)
    ensures s == Encoded(data)
  {
    if data == [] { return []; }
    var blocks, last := |data| / FULL_BLOCK, |data| % FULL_BLOCK;
    var res := new byte[blocks * FULL_ENCODED + ENCODED_SIZES[last]](_ => 49);
    ghost var all := Encoded(data);
    NoneEncoded(data, all);
    assert res[..0] == [];
    EncodeFull(data, blocks, res, all);
    if last > 0 {
      EncodeNext(data, blocks * FULL_BLOCK, last, ENCODED_SIZES[last], res, blocks * FULL_ENCODED, all);
    }
    s := res[..];
    assert s == res[..res.Length];
    AllEncoded(s, data, all);
  }

  /** With the letters of the bytes from `from` on, `done` becomes `all`. */
  predicate Leads(done: seq<byte>, data: seq<byte>, from: nat, all: seq<byte>) {
    from <= |data| && done + Encoded(data[from..]) == all
  }

  lemma NoneEncoded(data: seq<byte>, all: seq<byte>)
    requires all == Encoded(data)
    ensures Leads([], data, 0, all)
  {
    assert data[0..] == data && [] + all == all;
  }

  lemma AllEncoded(done: seq<byte>, data: seq<byte>, all: seq<byte>)
    requires Leads(done, data, |data|, all)
    ensures done == all
  {
    EncodedEmpty();
    assert data[|data|..] == [] && done + [] == done;
  }

  lemma EncodedEmpty()
    ensures Encoded([]) == []
  {
    assert |EncodedBlock([])| == 0;
  }

  /** The letters of the first `from` bytes stand before `at`; behind, all is still zero. */
  ghost predicate Starts(res: array<byte>, at: nat, data: seq<byte>, from: nat, all: seq<byte>)
    reads res
  {
    && at <= res.Length && Leads(res[..at], data, from, all)
    && forall j :: at <= j < res.Length ==> res[j] == 49
  }

  lemma EncodedNext(done: seq<byte>, data: seq<byte>, from: nat, size: nat, block: seq<byte>, next: seq<byte>, all: seq<byte>)
    requires 0 < size <= FULL_BLOCK && from + size <= |data| && (size < FULL_BLOCK ==> from + size == |data|)
    requires Leads(done, data, from, all) && block == data[from..from + size] && next == done + EncodedBlock(block)
    ensures Leads(next, data, from + size, all)
  {
    var rest, tail := data[from..], data[from + size..];
    assert rest[..size] == block && rest[size..] == tail;
    FirstBlock(rest, size, block, tail);
    Regroup(done, EncodedBlock(block), Encoded(tail));
  }

  lemma Regroup(a: seq<byte>, b: seq<byte>, c: seq<byte>)
    ensures a + (b + c) == a + b + c
  {
  }

  lemma FirstBlock(rest: seq<byte>, size: nat, block: seq<byte>, tail: seq<byte>)
    requires 0 < size <= FULL_BLOCK && size <= |rest| && (size < FULL_BLOCK ==> size == |rest|)
    requires block == rest[..size] && tail == rest[size..]
    ensures Encoded(rest) == EncodedBlock(block) + Encoded(tail)
  {
    if size < FULL_BLOCK {
      assert rest == block && tail == [];
      EncodedEmpty();
    }
  }

  method EncodeNext(data: seq<byte>, from: nat, size: nat, n: nat, res: array<byte>, at: nat, ghost all: seq<byte>)
    requires 0 < size <= FULL_BLOCK && from + size <= |data| && (size < FULL_BLOCK ==> from + size == |data|)
    requires Starts(res, at, data, from, all) && n == ENCODED_SIZES[size] && at + n <= res.Length
    modifies res
    ensures Starts(res, at + n, data, from + size, all)
  {
    ghost var done := res[..at];
    var block := data[from..from + size];
    ghost var next := done + EncodedBlock(block);
    EncodedNext(done, data, from, size, block, next, all);
    EncodeBlock(block, res, at);
    assert res[..at] == done;
    assert res[..at + n] == next;
  }

  // ---------- decoding ----------

  /** The number of letters, or none if it does not fit in 64 bits. */
  method WordNumber(s: seq<byte>) returns (ok: bool, num: nat)
    requires |s| <= FULL_ENCODED
    ensures ok <==> IsWord(s) && Value(58, WordDigits(s)) < TWO64
    ensures ok ==> num == Value(58, WordDigits(s))
  {
    num := 0;
    var order := 1;
    var i: nat := |s|;
    while i > 0
      invariant i <= |s| && IsWord(s[i..]) && num == Value(58, WordDigits(s[i..])) < TWO64
      invariant order == Pow(58, |s| - i) % TWO64
    {
      var digit := Digit(s[i - 1]);
      if digit < 0 { return false, 0; }
      OneMoreLetter(s, i, order, num);
      SuffixBelow(s, i - 1);
      if order * digit >= TWO64 { return false, 0; }
      var product := order * digit;
      if num + product >= TWO64 { return false, 0; }
      num := num + product;
      order := order * 58 % TWO64;
      NextPower(58, |s| - i);
      i := i - 1;
    }
    assert s[0..] == s;
    return true, num;
  }

  /** No power that is used has wrapped around. */
  lemma OneMoreLetter(s: seq<byte>, i: nat, order: nat, num: nat)
    requires 0 < i <= |s| <= FULL_ENCODED && IsWord(s[i..]) && Digit(s[i - 1]) >= 0
    requires num == Value(58, WordDigits(s[i..])) && order == Pow(58, |s| - i) % TWO64
    ensures IsWord(s[i - 1..]) && Value(58, WordDigits(s[i - 1..])) == order * Digit(s[i - 1]) + num
  {
    SmallPower(|s| - i);
    LetterBefore(s, i);
    LetterValue(Digit(s[i - 1]), WordDigits(s[i..]), WordDigits(s[i - 1..]), order, num, Value(58, WordDigits(s[i - 1..])));
  }

  lemma LetterValue(d: nat, ds: seq<nat>, es: seq<nat>, p: nat, v: nat, w: nat)
    requires es == [d] + ds && p == Pow(58, |ds|) && v == Value(58, ds) && w == Value(58, es)
    ensures w == p * d + v
  {
    ValueCons(58, d, ds);
  }

  lemma LetterBefore(s: seq<byte>, i: nat)
    requires 0 < i <= |s| && IsWord(s[i..]) && Digit(s[i - 1]) >= 0
    ensures IsWord(s[i - 1..]) && WordDigits(s[i - 1..]) == [Digit(s[i - 1])] + WordDigits(s[i..])
  {
    assert s[i - 1..] == [s[i - 1]] + s[i..];
  }

  lemma SmallPower(k: nat)
    requires k < FULL_ENCODED
    ensures Pow(58, k) % TWO64 == Pow(58, k)
  {
    PowMonotone(58, k, 10);
    Powers();
  }

  lemma NextPower(b: nat, n: nat)
    ensures Pow(b, n) % TWO64 * b % TWO64 == Pow(b, n + 1) % TWO64
  {
    var p, r := Pow(b, n), Pow(b, n) % TWO64;
    var q := p / TWO64;
    assert p == q * TWO64 + r;
    assert b * p == (b * q) * TWO64 + r * b;
  }

  lemma SuffixBelow(s: seq<byte>, i: nat)
    requires i <= |s| && IsWord(s[i..])
    ensures IsWord(s) ==> Value(58, WordDigits(s[i..])) <= Value(58, WordDigits(s))
  {
    if IsWord(s) {
      assert WordDigits(s[i..]) == WordDigits(s)[i..];
      ValueSuffix(58, WordDigits(s), i);
    }
  }

  /** Writes the decoded block in place unless the letters stand for none. */
  method DecodeBlock(s: seq<byte>, res: array<byte>, at: nat) returns (ok: bool)
    requires 0 < |s| <= FULL_ENCODED && (DecodedSize(|s|) > 0 ==> at + DecodedSize(|s|) <= res.Length)
    modifies res
    ensures forall i :: 0 <= i < at && i < res.Length ==> res[i] == old(res[i])
    ensures ok <==> DecodedBlock(s).Some?
    ensures ok ==> res[at..at + DecodedSize(|s|)] == DecodedBlock(s).value
  {
    var size := DecodedSize(|s|);
    if size <= 0 { return false; }
    var num;
    ok, num := WordNumber(s);
    Powers();
    PowMonotone(256, size, 8);
    if !ok { return; }
    if size < FULL_BLOCK && Pow(256, size) <= num { return false; }
    ToBytes(num, size, res, at);
    DigitsBelow(256, num, size);
  }

  /** Bytes decoded so far, or none once a block has failed. */
  function Joined(done: seq<byte>, r: Option<seq<byte>>): Option<seq<byte>> {
    if r.None? then None else Some(done + r.value)
  }

  /** With what the letters from `from` on stand for, `done` becomes `all`. */
  predicate Ends(done: seq<byte>, s: seq<byte>, from: nat, all: Option<seq<byte>>) {
    from <= |s| && Joined(done, Decoded(s[from..])) == all
  }

  lemma DecodedNext(done: seq<byte>, s: seq<byte>, from: nat, size: nat, block: seq<byte>, all: Option<seq<byte>>)
    requires 0 < size <= FULL_ENCODED && from + size <= |s| && (size < FULL_ENCODED ==> from + size == |s|)
    requires Ends(done, s, from, all) && block == s[from..from + size]
    ensures var head := DecodedBlock(block);
      if head.None? then all.None? else Ends(done + head.value, s, from + size, all)
  {
    var rest := s[from..];
    assert rest[..size] == block && rest[size..] == s[from + size..];
    var head, tail := DecodedBlock(block), Decoded(rest[size..]);
    if size < FULL_ENCODED {
      assert rest[..size] == rest && rest[size..] == [];
      if head.Some? { assert done + head.value + [] == done + head.value; }
    } else if head.Some? && tail.Some? {
      assert done + (head.value + tail.value) == done + head.value + tail.value;
    }
  }

  /** The bytes of the first `from` letters stand before `at`. */
  ghost predicate Reads(data: array<byte>, at: nat, s: seq<byte>, from: nat, all: Option<seq<byte>>)
    reads data
  {
    at <= data.Length && Ends(data[..at], s, from, all)
  }

  ghost predicate Reading(ok: bool, data: array<byte>, at: nat, s: seq<byte>, from: nat, all: Option<seq<byte>>)
    reads data
  {
    if ok then Reads(data, at, s, from, all) else all.None?
  }

  method DecodeNext(s: seq<byte>, from: nat, size: nat, n: nat, data: array<byte>, at: nat, ghost all: Option<seq<byte>>) returns (ok: bool)
    requires 0 < size <= FULL_ENCODED && from + size <= |s| && (size < FULL_ENCODED ==> from + size == |s|)
    requires Reads(data, at, s, from, all) && n == DecodedSize(size) > 0 && at + n <= data.Length
    modifies data
    ensures Reading(ok, data, at + n, s, from + size, all)
  {
    ghost var done := data[..at];
    var block := s[from..from + size];
    DecodedNext(done, s, from, size, block, all);
    ok := DecodeBlock(block, data, at);
    assert data[..at] == done;
    assert data[..at + n] == done + data[at..at + n];
  }

  lemma NoneRead(s: seq<byte>, all: Option<seq<byte>>)
    requires all == Decoded(s)
    ensures Ends([], s, 0, all)
  {
    assert s[0..] == s;
    if all.Some? { assert [] + all.value == all.value; }
  }

  lemma AllRead(done: seq<byte>, s: seq<byte>, all: Option<seq<byte>>)
    requires Ends(done, s, |s|, all)
    ensures all == Some(done)
  {
    assert s[|s|..] == [] && done + [] == done;
  }

  /** A last block of an odd size spoils the whole string. */
  lemma {:induction false} OddLast(s: seq<byte>)
    requires DecodedSize(|s| % FULL_ENCODED) < 0
    ensures Decoded(s).None?
  {
    if |s| >= FULL_ENCODED { OddLast(s[FULL_ENCODED..]); }
  }

  method DecodeBase58(s: seq<byte>) returns (r: Option<seq<byte>>)
    ensures r == Decoded(s)
  {
    if s == [] { return Some([]); }
    var blocks, last := |s| / FULL_ENCODED, |s| % FULL_ENCODED;
    var lastSize := DecodedSize(last);
    if lastSize < 0 {
      OddLast(s);
      return None;
    }
    var data := new byte[blocks * FULL_BLOCK + lastSize](_ => 0);
    ghost var all := Decoded(s);
    NoneRead(s, all);
    assert data[..0] == [];
    var ok := DecodeFull(s, blocks, data, all);
    if !ok { return None; }
    if last > 0 {
      ok := DecodeNext(s, blocks * FULL_ENCODED, last, lastSize, data, blocks * FULL_BLOCK, all);
      if !ok { return None; }
    }
    r := Finish(s, data, all);
  }

  /** When everything is read, the array is the result. */
  method Finish(s: seq<byte>, data: array<byte>, ghost all: Option<seq<byte>>) returns (r: Option<seq<byte>>)
    requires Reads(data, data.Length, s, |s|, all)
    ensures r == all
  {
    r := Some(data[..]);
    assert data[..] == data[..data.Length];
    AllRead(data[..data.Length], s, all);
  }

  method DecodeNth(s: seq<byte>, i: nat, data: array<byte>, ghost all: Option<seq<byte>>) returns (ok: bool)
    requires (i + 1) * FULL_ENCODED <= |s| && (i + 1) * FULL_BLOCK <= data.Length
    requires Reads(data, i * FULL_BLOCK, s, i * FULL_ENCODED, all)
    modifies data
    ensures Reading(ok, data, (i + 1) * FULL_BLOCK, s, (i + 1) * FULL_ENCODED, all)
  {
    ok := DecodeNext(s, i * FULL_ENCODED, FULL_ENCODED, FULL_BLOCK, data, i * FULL_BLOCK, all);
  }

  /** The full blocks, up to the first that fails. */
  method DecodeFull(s: seq<byte>, blocks: nat, data: array<byte>, ghost all: Option<seq<byte>>) returns (ok: bool)
    requires blocks * FULL_ENCODED <= |s| && blocks * FULL_BLOCK <= data.Length && Reads(data, 0, s, 0, all)
    modifies data
    ensures Reading(ok, data, blocks * FULL_BLOCK, s, blocks * FULL_ENCODED, all)
  {
    for i := 0 to blocks
      invariant Reads(data, i * FULL_BLOCK, s, i * FULL_ENCODED, all)
    {
      ok := DecodeNth(s, i, data, all);
      if !ok { return; }
    }
    ok := true;
  }
}
