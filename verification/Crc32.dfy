/** The checksum of section 8 of RFC 1952, by table and bit by bit. */
module Crc32 {

  /** The polynomial with its bits reversed. */
  const POLY: bv32 := 0xEDB88320

  const BYTE_BITS: nat := 8

  // ---------- bit by bit ----------

  /** One bit of the division. */
  function Bit(x: bv32): (r: bv32) {
    if x & 1 == 1 then (x >> 1) ^ POLY else x >> 1
  }

  /** `n` bits of the division. */
  function Bits(x: bv32, n: nat): (r: bv32)
    decreases n, x
  {
    if n == 0 then x else Bits(Bit(x), n - 1)
  }

  /** One byte of the division. */
  function Byte(x: bv32): bv32 { Bit(Bit(Bit(Bit(Bit(Bit(Bit(Bit(x)))))))) }

  lemma ByteIs(x: bv32)
    ensures Bits(x, BYTE_BITS) == Byte(x)
  {
    var y := Bit(Bit(Bit(Bit(x))));
    FourBits(x, 8);
    FourBits(y, 4);
  }

  lemma FourBits(x: bv32, n: nat)
    requires n >= 4
    ensures Bits(x, n) == Bits(Bit(Bit(Bit(Bit(x)))), n - 4)
  {
    assert Bits(x, n) == Bits(Bit(x), n - 1);
    assert Bits(Bit(x), n - 1) == Bits(Bit(Bit(x)), n - 2);
    assert Bits(Bit(Bit(x)), n - 2) == Bits(Bit(Bit(Bit(x))), n - 3);
  }

  function Xor(x: bv32, y: bv32): bv32 { x ^ y }

  lemma ShiftXor(x: bv32, y: bv32)
    ensures (x ^ y) >> 1 == (x >> 1) ^ (y >> 1)
  {
  }

  lemma LowXor(x: bv32, y: bv32)
    ensures (x ^ y) & 1 == (x & 1) ^ (y & 1)
  {
  }

  lemma LowIs(x: bv32)
    ensures x & 1 == 0 || x & 1 == 1
  {
  }

  lemma Cancel(a: bv32, b: bv32, p: bv32)
    ensures (a ^ p) ^ (b ^ p) == a ^ b && (a ^ p) ^ b == (a ^ b) ^ p && a ^ (b ^ p) == (a ^ b) ^ p
  {
  }

  lemma BitOfXor(x: bv32, y: bv32)
    ensures Bit(x ^ y) == Bit(x) ^ Bit(y)
  {
    ShiftXor(x, y);
    LowXor(x, y);
    LowIs(x);
    LowIs(y);
    Cancel(x >> 1, y >> 1, POLY);
  }

  lemma BitXor(x: bv32, y: bv32)
    ensures Bit(Xor(x, y)) == Xor(Bit(x), Bit(y))
  {
    BitOfXor(x, y);
  }

  /** The division is linear. */
  lemma {:induction false} BitsXor(x: bv32, y: bv32, n: nat)
    ensures Bits(Xor(x, y), n) == Xor(Bits(x, n), Bits(y, n))
    decreases n
  {
    if n > 0 {
      BitXor(x, y);
      BitsXor(Bit(x), Bit(y), n - 1);
    }
  }

  lemma BitInjective(x: bv32, y: bv32)
    requires Bit(x) == Bit(y)
    ensures x == y
  {
  }

  /** The division loses nothing. */
  lemma {:induction false} BitsInjective(x: bv32, y: bv32, n: nat)
    requires Bits(x, n) == Bits(y, n)
    ensures x == y
    decreases n
  {
    if n > 0 {
      BitsInjective(Bit(x), Bit(y), n - 1);
      BitInjective(x, y);
    }
  }

  lemma {:induction false} BitsOfZero(n: nat)
    ensures Bits(0, n) == 0
  {
    if n > 0 { BitsOfZero(n - 1); }
  }

  lemma {:induction false} BitsMore(x: bv32, m: nat, n: nat)
    ensures Bits(Bits(x, m), n) == Bits(x, m + n)
    decreases m
  {
    if m > 0 { BitsMore(Bit(x), m - 1, n); }
  }

  /** Zero bits are only shifted out. */
  lemma ZerosShift(y: bv32)
    requires y <= 0xFFFFFF
    ensures Byte(y << 8) == y
  {
  }

  // ---------- the table ----------

  function Row(r: bv8, a: bv32, b: bv32, c: bv32, d: bv32, e: bv32, f: bv32, g: bv32, h: bv32): bv32 {
    if r == 0 then a else if r == 1 then b else if r == 2 then c else if r == 3 then d
    else if r == 4 then e else if r == 5 then f else if r == 6 then g else h
  }

  function Table(i: bv8): bv32 {
    var r, k := i & 7, i >> 3;
    if k == 0 then Row(r, 0, 1996959894, 3993919788, 2567524794, 124634137, 1886057615, 3915621685, 2657392035)
    else if k == 1 then Row(r, 249268274, 2044508324, 3772115230, 2547177864, 162941995, 2125561021, 3887607047, 2428444049)
    else if k == 2 then Row(r, 498536548, 1789927666, 4089016648, 2227061214, 450548861, 1843258603, 4107580753, 2211677639)
    else if k == 3 then Row(r, 325883990, 1684777152, 4251122042, 2321926636, 335633487, 1661365465, 4195302755, 2366115317)
    else if k == 4 then Row(r, 997073096, 1281953886, 3579855332, 2724688242, 1006888145, 1258607687, 3524101629, 2768942443)
    else if k == 5 then Row(r, 901097722, 1119000684, 3686517206, 2898065728, 853044451, 1172266101, 3705015759, 2882616665)
    else if k == 6 then Row(r, 651767980, 1373503546, 3369554304, 3218104598, 565507253, 1454621731, 3485111705, 3099436303)
    else if k == 7 then Row(r, 671266974, 1594198024, 3322730930, 2970347812, 795835527, 1483230225, 3244367275, 3060149565)
    else if k == 8 then Row(r, 1994146192, 31158534, 2563907772, 4023717930, 1907459465, 112637215, 2680153253, 3904427059)
    else if k == 9 then Row(r, 2013776290, 251722036, 2517215374, 3775830040, 2137656763, 141376813, 2439277719, 3865271297)
    else if k == 10 then Row(r, 1802195444, 476864866, 2238001368, 4066508878, 1812370925, 453092731, 2181625025, 4111451223)
    else if k == 11 then Row(r, 1706088902, 314042704, 2344532202, 4240017532, 1658658271, 366619977, 2362670323, 4224994405)
    else if k == 12 then Row(r, 1303535960, 984961486, 2747007092, 3569037538, 1256170817, 1037604311, 2765210733, 3554079995)
    else if k == 13 then Row(r, 1131014506, 879679996, 2909243462, 3663771856, 1141124467, 855842277, 2852801631, 3708648649)
    else if k == 14 then Row(r, 1342533948, 654459306, 3188396048, 3373015174, 1466479909, 544179635, 3110523913, 3462522015)
    else if k == 15 then Row(r, 1591671054, 702138776, 2966460450, 3352799412, 1504918807, 783551873, 3082640443, 3233442989)
    else if k == 16 then Row(r, 3988292384, 2596254646, 62317068, 1957810842, 3939845945, 2647816111, 81470997, 1943803523)
    else if k == 17 then Row(r, 3814918930, 2489596804, 225274430, 2053790376, 3826175755, 2466906013, 167816743, 2097651377)
    else if k == 18 then Row(r, 4027552580, 2265490386, 503444072, 1762050814, 4150417245, 2154129355, 426522225, 1852507879)
    else if k == 19 then Row(r, 4275313526, 2312317920, 282753626, 1742555852, 4189708143, 2394877945, 397917763, 1622183637)
    else if k == 20 then Row(r, 3604390888, 2714866558, 953729732, 1340076626, 3518719985, 2797360999, 1068828381, 1219638859)
    else if k == 21 then Row(r, 3624741850, 2936675148, 906185462, 1090812512, 3747672003, 2825379669, 829329135, 1181335161)
    else if k == 22 then Row(r, 3412177804, 3160834842, 628085408, 1382605366, 3423369109, 3138078467, 570562233, 1426400815)
    else if k == 23 then Row(r, 3317316542, 2998733608, 733239954, 1555261956, 3268935591, 3050360625, 752459403, 1541320221)
    else if k == 24 then Row(r, 2607071920, 3965973030, 1969922972, 40735498, 2617837225, 3943577151, 1913087877, 83908371)
    else if k == 25 then Row(r, 2512341634, 3803740692, 2075208622, 213261112, 2463272603, 3855990285, 2094854071, 198958881)
    else if k == 26 then Row(r, 2262029012, 4057260610, 1759359992, 534414190, 2176718541, 4139329115, 1873836001, 414664567)
    else if k == 27 then Row(r, 2282248934, 4279200368, 1711684554, 285281116, 2405801727, 4167216745, 1634467795, 376229701)
    else if k == 28 then Row(r, 2685067896, 3608007406, 1308918612, 956543938, 2808555105, 3495958263, 1231636301, 1047427035)
    else if k == 29 then Row(r, 2932959818, 3654703836, 1088359270, 936918000, 2847714899, 3736837829, 1202900863, 817233897)
    else if k == 30 then Row(r, 3183342108, 3401237130, 1404277552, 615818150, 3134207493, 3453421203, 1423857449, 601450431)
    else Row(r, 3009837614, 3294710456, 1567103746, 711928724, 3020668471, 3272380065, 1510334235, 755167117)
  }

  lemma FirstQuarter(i: bv8)
    requires i < 64
    ensures Table(i) == Byte(i as bv32)
  {
  }

  lemma SecondQuarter(i: bv8)
    requires 64 <= i < 128
    ensures Table(i) == Byte(i as bv32)
  {
  }

  lemma ThirdQuarter(i: bv8)
    requires 128 <= i < 192
    ensures Table(i) == Byte(i as bv32)
  {
  }

  lemma LastQuarter(i: bv8)
    requires 192 <= i
    ensures Table(i) == Byte(i as bv32)
  {
  }

  /** The table holds the division of every byte. */
  lemma TableIs(i: bv8)
    ensures Table(i) == Bits(i as bv32, BYTE_BITS)
  {
    ByteIs(i as bv32);
    if i < 64 {
      FirstQuarter(i);
    } else if i < 128 {
      SecondQuarter(i);
    } else if i < 192 {
      ThirdQuarter(i);
    } else {
      LastQuarter(i);
    }
  }

  // ---------- one byte ----------

  function Word(c: bv8): bv32 { c as bv32 }

  function Long(x: bv32): bv64 { x as bv64 }

  /** A byte as the signed character it is read as, widened. */
  function Widened(c: bv8): bv64 { if c >= 128 then 0xFFFFFFFFFFFFFF00 | (c as bv64) else c as bv64 }

  function Index(crc: bv64, c: bv8): bv8 { ((Widened(c) ^ crc) & 0xFF) as bv8 }

  /** One byte by table, in 64 bits; `t` is the entry at the index. */
  function TableStep(crc: bv64, t: bv32): bv64 { (crc >> 8) ^ Long(t) }

  /** One byte bit by bit. */
  function Step(crc: bv32, c: bv8): (r: bv32) { Bits(Xor(crc, Word(c)), BYTE_BITS) }

  function LowByte(x: bv32): bv32 { x & 0xFF }

  function HighBytes(x: bv32): bv32 { x >> 8 }

  function Up(x: bv32): bv32 { x << 8 }

  lemma ShiftedOut(y: bv32)
    requires y <= 0xFFFFFF
    ensures Bits(Up(y), BYTE_BITS) == y
  {
    ZerosShift(y);
    ByteIs(Up(y));
  }

  // Facts about bits, each on its own.

  lemma PositiveIndex(crc: bv32, c: bv8)
    requires c < 128
    ensures Word(Index(Long(crc), c)) == LowByte(Xor(crc, Word(c)))
  {
  }

  lemma NegativeIndex(crc: bv32, c: bv8)
    requires c >= 128
    ensures Word(Index(Long(crc), c)) == LowByte(Xor(crc, Word(c)))
  {
  }

  lemma IndexIs(crc: bv32, c: bv8)
    ensures Word(Index(Long(crc), c)) == LowByte(Xor(crc, Word(c)))
  {
    if c < 128 { PositiveIndex(crc, c); } else { NegativeIndex(crc, c); }
  }

  lemma SplitState(crc: bv32, c: bv8)
    ensures Xor(crc, Word(c)) == Xor(LowByte(Xor(crc, Word(c))), Up(HighBytes(crc)))
  {
  }

  lemma HighIsSmall(crc: bv32)
    ensures HighBytes(crc) <= 0xFFFFFF
  {
  }

  lemma WideXor(x: bv32, t: bv32)
    ensures TableStep(Long(x), t) == Long(Xor(t, HighBytes(x)))
  {
  }

  lemma XorOnes(x: bv32)
    ensures Xor(x, ALL_ONES) == x ^ 0xFFFFFFFF
  {
  }

  lemma LongOnes(x: bv32)
    ensures Long(x) ^ 0xFFFFFFFF == Long(x ^ 0xFFFFFFFF)
  {
  }

  lemma WideMask(x: bv32)
    ensures Long(x) ^ 0xFFFFFFFF == Long(Xor(x, ALL_ONES))
  {
    XorOnes(x);
    LongOnes(x);
  }

  lemma LongIsSmall(x: bv32)
    ensures Long(x) <= 0xFFFFFFFF
  {
  }

  /** Only the low byte is divided, the rest moves down. */
  lemma StepIs(crc: bv32, c: bv8)
    ensures Step(crc, c) == Xor(Bits(LowByte(Xor(crc, Word(c))), BYTE_BITS), HighBytes(crc))
  {
    SplitState(crc, c);
    HighIsSmall(crc);
    BitsXor(LowByte(Xor(crc, Word(c))), Up(HighBytes(crc)), BYTE_BITS);
    ShiftedOut(HighBytes(crc));
  }

  /** The table step is the division of one byte, and 32 bits hold it. */
  lemma StepsAgree(crc: bv32, c: bv8, t: bv32)
    requires t == Bits(Word(Index(Long(crc), c)), BYTE_BITS)
    ensures TableStep(Long(crc), t) == Long(Step(crc, c))
  {
    IndexIs(crc, c);
    StepIs(crc, c);
    WideXor(crc, t);
  }

  method Lookup(i: bv8) returns (t: bv32)
    ensures t == Bits(Word(i), BYTE_BITS)
  {
    TableIs(i);
    t := Table(i);
  }

  // ---------- strings ----------

  const ALL_ONES: bv32 := 0xFFFFFFFF

  /** The state after the bytes of a string. */
  function State(s: seq<bv8>): bv32 {
    if s == [] then ALL_ONES else Step(State(s[..|s| - 1]), s[|s| - 1])
  }

  /** The checksum, bit by bit. */
  function Crc(s: seq<bv8>): bv32 { Xor(State(s), ALL_ONES) }

  /** The loop over the table computes the checksum in 64 bits, of which it uses 32. */
  method Compute(input: seq<bv8>) returns (r: bv64)
    ensures r == Long(Crc(input)) && r <= 0xFFFFFFFF
  {
    var crc: bv64 := 0xFFFFFFFF;
    for i := 0 to |input|
      invariant crc == Long(State(input[..i]))
    {
      assert input[..i + 1][..i] == input[..i];
      var t := Lookup(Index(crc, input[i]));
      StepsAgree(State(input[..i]), input[i], t);
      crc := TableStep(crc, t);
    }
    assert input[..|input|] == input;
    WideMask(State(input));
    LongIsSmall(Crc(input));
    r := crc ^ 0xFFFFFFFF;
  }

  lemma StateMore(s: seq<bv8>, c: bv8)
    ensures State(s + [c]) == Step(State(s), c)
  {
    assert (s + [c])[..|s|] == s;
  }

  lemma StepTo(s: seq<bv8>, x: bv32, c: bv8, y: bv32)
    requires State(s) == x && y == Byte(Xor(x, Word(c)))
    ensures State(s + [c]) == y
  {
    StateMore(s, c);
    ByteIs(Xor(x, Word(c)));
  }

  lemma FirstThree(s: seq<bv8>)
    requires State(s) == 0xFFFFFFFF
    ensures State(s + [0x31] + [0x32] + [0x33]) == 0x77B79C2D
  {
    StepTo(s, 0xFFFFFFFF, 0x31, 0x7C231048);
    StepTo(s + [0x31], 0x7C231048, 0x32, 0xB0ACBB32);
    StepTo(s + [0x31] + [0x32], 0xB0ACBB32, 0x33, 0x77B79C2D);
  }

  lemma NextThree(s: seq<bv8>)
    requires State(s) == 0x77B79C2D
    ensures State(s + [0x34] + [0x35] + [0x36]) == 0xF68D2C9E
  {
    StepTo(s, 0x77B79C2D, 0x34, 0x641C1F5C);
    StepTo(s + [0x34], 0x641C1F5C, 0x35, 0x340AC5E3);
    StepTo(s + [0x34] + [0x35], 0x340AC5E3, 0x36, 0xF68D2C9E);
  }

  lemma LastThree(s: seq<bv8>)
    requires State(s) == 0xF68D2C9E
    ensures State(s + [0x37] + [0x38] + [0x39]) == 0x340BC6D9
  {
    StepTo(s, 0xF68D2C9E, 0x37, 0xAFFC9660);
    StepTo(s + [0x37], 0xAFFC9660, 0x38, 0x651F2550);
    StepTo(s + [0x37] + [0x38], 0x651F2550, 0x39, 0x340BC6D9);
  }

  /** The checksum of the digits 1 to 9 is the customary check value of this polynomial. */
  lemma CheckValue()
    ensures Crc([0x31, 0x32, 0x33, 0x34, 0x35, 0x36, 0x37, 0x38, 0x39]) == 0xCBF43926
  {
    var a: seq<bv8> := [];
    FirstThree(a);
    var b := a + [0x31] + [0x32] + [0x33];
    NextThree(b);
    var c := b + [0x34] + [0x35] + [0x36];
    LastThree(c);
    assert c + [0x37] + [0x38] + [0x39] == [0x31, 0x32, 0x33, 0x34, 0x35, 0x36, 0x37, 0x38, 0x39];
  }

  // ---------- errors that are always found ----------

  /** The state for one more byte is fresh for every state. */
  lemma StepInjective(x: bv32, y: bv32, c: bv8)
    requires Step(x, c) == Step(y, c)
    ensures x == y
  {
    BitsInjective(Xor(x, Word(c)), Xor(y, Word(c)), BYTE_BITS);
    XorInjective(x, y, Word(c));
  }

  lemma XorInjective(x: bv32, y: bv32, z: bv32)
    requires Xor(x, z) == Xor(y, z)
    ensures x == y
  {
  }

  /** Equal bytes keep different states different. */
  lemma {:induction false} SameTail(a: seq<bv8>, b: seq<bv8>, i: nat)
    requires |a| == |b| && i <= |a| && a[i..] == b[i..] && State(a) == State(b)
    ensures State(a[..i]) == State(b[..i])
    decreases |a| - i
  {
    if i == |a| {
      assert a[..i] == a && b[..i] == b;
    } else {
      assert a[i + 1..] == a[i..][1..] && b[i + 1..] == b[i..][1..] && a[i..][0] == b[i..][0];
      SameTail(a, b, i + 1);
      assert a[..i + 1][..i] == a[..i] && b[..i + 1][..i] == b[..i];
      StepInjective(State(a[..i]), State(b[..i]), a[i]);
    }
  }

  /** The state after more bytes. */
  function Feed(x: bv32, s: seq<bv8>): bv32
    decreases |s|
  {
    if s == [] then x else Feed(Step(x, s[0]), s[1..])
  }

  lemma {:induction false} FeedIs(s: seq<bv8>, i: nat, j: nat)
    requires i <= j <= |s|
    ensures State(s[..j]) == Feed(State(s[..i]), s[i..j])
    decreases j - i
  {
    if i < j {
      assert s[..i + 1][..i] == s[..i] && s[i..j][1..] == s[i + 1..j];
      FeedIs(s, i + 1, j);
    }
  }

  /** Up to four bytes in one word. */
  function Packed(s: seq<bv8>): bv32
    decreases |s|
  {
    if s == [] then 0 else Xor(Word(s[0]), Up(Packed(s[1..])))
  }

  lemma PackedSmall2(c: bv8, p: bv32)
    requires p <= 0xFF
    ensures Xor(Word(c), Up(p)) <= 0xFFFF
  {
  }

  lemma PackedSmall3(c: bv8, p: bv32)
    requires p <= 0xFFFF
    ensures Xor(Word(c), Up(p)) <= 0xFFFFFF
  {
  }

  lemma PackedSmall1(c: bv8)
    ensures Xor(Word(c), Up(0)) <= 0xFF
  {
  }

  lemma PackedBelow(s: seq<bv8>)
    requires |s| <= 3
    ensures |s| <= 1 ==> Packed(s) <= 0xFF
    ensures |s| <= 2 ==> Packed(s) <= 0xFFFF
    ensures Packed(s) <= 0xFFFFFF
  {
    if s != [] {
      PackedBelow(s[1..]);
      PackedSmall1(s[0]);
      if |s| == 2 { PackedSmall2(s[0], Packed(s[1..])); }
      if |s| == 3 { PackedSmall3(s[0], Packed(s[1..])); }
    }
  }

  lemma HeadUnpacks(c: bv8, d: bv8, p: bv32, q: bv32)
    requires Xor(Word(c), Up(p)) == Xor(Word(d), Up(q))
    ensures c == d
  {
  }

  lemma TailUnpacks(c: bv8, p: bv32, q: bv32)
    requires p <= 0xFFFFFF && q <= 0xFFFFFF && Xor(Word(c), Up(p)) == Xor(Word(c), Up(q))
    ensures p == q
  {
  }

  lemma {:induction false} PackedInjective(a: seq<bv8>, b: seq<bv8>)
    requires |a| == |b| <= 4 && Packed(a) == Packed(b)
    ensures a == b
    decreases |a|
  {
    if a != [] {
      PackedBelow(a[1..]);
      PackedBelow(b[1..]);
      HeadUnpacks(a[0], b[0], Packed(a[1..]), Packed(b[1..]));
      TailUnpacks(a[0], Packed(a[1..]), Packed(b[1..]));
      PackedInjective(a[1..], b[1..]);
      assert a == [a[0]] + a[1..] && b == [b[0]] + b[1..];
    }
  }

  lemma XorAssoc(x: bv32, y: bv32, z: bv32)
    ensures Xor(Xor(x, y), z) == Xor(x, Xor(y, z))
  {
  }

  lemma XorZero(x: bv32)
    ensures Xor(x, 0) == x
  {
  }

  /** Feeding up to four bytes is one division of the state and the word they make. */
  lemma {:induction false} FeedIsDivision(x: bv32, s: seq<bv8>)
    requires |s| <= 4
    ensures Feed(x, s) == Bits(Xor(x, Packed(s)), 8 * |s|)
    decreases |s|
  {
    if s == [] {
      XorZero(x);
    } else {
      var p, y := Packed(s[1..]), Xor(x, Word(s[0]));
      FeedIsDivision(Step(x, s[0]), s[1..]);
      PackedBelow(s[1..]);
      ShiftedOut(p);
      BitsXor(y, Up(p), BYTE_BITS);
      XorAssoc(x, Word(s[0]), Up(p));
      BitsMore(Xor(x, Packed(s)), BYTE_BITS, 8 * |s[1..]|);
    }
  }

  /** Strings that differ, but only within four bytes in a row, have different checksums. */
  lemma BurstsAreFound(a: seq<bv8>, b: seq<bv8>, i: nat)
    requires |a| == |b| && a != b && forall k :: 0 <= k < |a| && a[k] != b[k] ==> i <= k < i + 4
    ensures Crc(a) != Crc(b)
  {
    var m, j := if i < |a| then i else |a|, if i + 4 < |a| then i + 4 else |a|;
    assert a[..m] == b[..m] && a[j..] == b[j..];
    assert a == a[..m] + a[m..j] + a[j..] && b == b[..m] + b[m..j] + b[j..];
    if Crc(a) == Crc(b) {
      XorInjective(State(a), State(b), ALL_ONES);
      SameTail(a, b, j);
      FeedIs(a, m, j);
      FeedIs(b, m, j);
      FeedIsDivision(State(a[..m]), a[m..j]);
      FeedIsDivision(State(a[..m]), b[m..j]);
      BitsInjective(Xor(State(a[..m]), Packed(a[m..j])), Xor(State(a[..m]), Packed(b[m..j])), 8 * (j - m));
      SameWord(State(a[..m]), Packed(a[m..j]), Packed(b[m..j]));
      PackedInjective(a[m..j], b[m..j]);
    }
  }

  lemma SameWord(x: bv32, p: bv32, q: bv32)
    requires Xor(x, p) == Xor(x, q)
    ensures p == q
  {
  }
}
