/** Stepping over grapheme clusters, forwards and backwards. */
module Utf8Cluster {
  import opened Bytes
  import opened Utf8

  predicate IsVariationSelector(cp: int) { cp == 0xFE0E || cp == 0xFE0F }
  predicate IsSkinToneModifier(cp: int) { 0x1F3FB <= cp <= 0x1F3FF }
  predicate IsZwj(cp: int) { cp == 0x200D }
  predicate IsRegionalIndicator(cp: int) { 0x1F1E6 <= cp <= 0x1F1FF }

  predicate IsCombiningMark(cp: int) {
    || 0x0300 <= cp <= 0x036F || 0x1AB0 <= cp <= 0x1AFF || 0x1DC0 <= cp <= 0x1DFF
    || 0x20D0 <= cp <= 0x20FF || 0xFE20 <= cp <= 0xFE2F
  }

  /** The code point attaches to the one before it. */
  predicate IsGraphemeExtend(cp: int) {
    IsVariationSelector(cp) || IsSkinToneModifier(cp) || IsZwj(cp) || IsCombiningMark(cp)
  }

  // ---------- clusters of code points ----------

  /** How many of `cps` continue a cluster; `ri` if a regional indicator may still be paired. */
  function Continues(cps: seq<int>, ri: bool): (n: nat)
    ensures n <= |cps|
  {
    if cps == [] then 0
    else if IsZwj(cps[0]) && |cps| > 1 then 2 + Continues(cps[2..], ri)
    else if IsGraphemeExtend(cps[0]) then 1 + Continues(cps[1..], ri)
    else if ri && IsRegionalIndicator(cps[0]) then 1 + Continues(cps[1..], false)
    else 0
  }

  /** The length of the first cluster, in code points. */
  function FirstCluster(cps: seq<int>): (n: nat)
    ensures n <= |cps| && (cps != [] ==> 1 <= n)
  {
    if cps == [] then 0 else 1 + Continues(cps[1..], IsRegionalIndicator(cps[0]))
  }

  /** How many code points at the end of `cps` belong to a cluster that goes on with `cp`. */
  function Precedes(cps: seq<int>, cp: int): (n: nat)
    ensures n <= |cps|
  {
    if cps == [] then 0
    else
      var k := |cps| - 1;
      if IsZwj(cps[k]) then
        if k == 0 then 1 else 2 + Precedes(cps[..k - 1], cps[k - 1])
      else if IsGraphemeExtend(cp) then 1 + Precedes(cps[..k], cps[k])
      else if IsRegionalIndicator(cp) && IsRegionalIndicator(cps[k]) then 1
      else 0
  }

  /** The length of the last cluster, in code points. */
  function LastCluster(cps: seq<int>): (n: nat)
    ensures n <= |cps| && (cps != [] ==> 1 <= n)
  {
    if cps == [] then 0 else 1 + Precedes(cps[..|cps| - 1], cps[|cps| - 1])
  }

  /** What follows the first cluster. */
  function DropFirst(cps: seq<int>): seq<int> { cps[FirstCluster(cps)..] }

  /** What precedes the last cluster. */
  function DropLast(cps: seq<int>): seq<int> { cps[..|cps| - LastCluster(cps)] }

  // ---------- stepping through bytes ----------

  /** One code point further is again a boundary. */
  lemma StepRight(s: seq<byte>, i: nat)
    requires IsText(s) && Boundary(s, i) && i < |s|
    ensures var n := ByteLen(s[i]);
      && i + n <= |s| && Boundary(s, i + n)
      && CodePoints(s, i) == [DecodeAt(s, i)] + CodePoints(s, i + n)
      && (CodePoints(s, i + n) == [] <==> i + n == |s|)
  {
    assert CharOk(s, i);
    var n := ByteLen(s[i]);
    if i + n < |s| { assert CharOk(s, i + n); }
  }

  /** Where the code point at a boundary ends. */
  function After(s: seq<byte>, i: nat): (j: nat)
    requires IsText(s) && Boundary(s, i) && i < |s|
    ensures i < j && Boundary(s, j) && j == i + ByteLen(s[i])
  {
    StepRight(s, i);
    i + ByteLen(s[i])
  }

  /** Where a cluster that reaches up to `i` ends. */
  function ClusterEnd(s: seq<byte>, i: nat, ri: bool): (e: nat)
    requires IsText(s) && Boundary(s, i)
    ensures i <= e && Boundary(s, e)
    decreases |s| - i
  {
    if i == |s| then i
    else
      var j := After(s, i);
      var cp := DecodeAt(s, i);
      if IsZwj(cp) && j < |s| then ClusterEnd(s, After(s, j), ri)
      else if IsGraphemeExtend(cp) then ClusterEnd(s, j, ri)
      else if ri && IsRegionalIndicator(cp) then ClusterEnd(s, j, false)
      else i
  }

  /** What continues a cluster in the bytes are the code points that continue it. */
  lemma {:induction false} ClusterEndIs(s: seq<byte>, i: nat, ri: bool)
    requires IsText(s) && Boundary(s, i)
    ensures CodePoints(s, ClusterEnd(s, i, ri)) == CodePoints(s, i)[Continues(CodePoints(s, i), ri)..]
    decreases |s| - i
  {
    if i < |s| {
      StepRight(s, i);
      var cp, j := DecodeAt(s, i), After(s, i);
      var cps := CodePoints(s, i);
      assert cps[1..] == CodePoints(s, j);
      if IsZwj(cp) && j < |s| {
        StepRight(s, j);
        assert cps[2..] == CodePoints(s, After(s, j));
        ClusterEndIs(s, After(s, j), ri);
      } else if IsGraphemeExtend(cp) {
        ClusterEndIs(s, j, ri);
      } else if ri && IsRegionalIndicator(cp) {
        ClusterEndIs(s, j, false);
      }
    }
  }

  lemma FirstThenMore(cp: int, more: seq<int>)
    ensures DropFirst([cp] + more) == more[Continues(more, IsRegionalIndicator(cp))..]
  {
    var cps := [cp] + more;
    assert cps[1..] == more;
  }

  /** Where the cluster that starts at `pos` ends. */
  function FirstEnd(s: seq<byte>, pos: nat): (e: nat)
    requires IsText(s) && Boundary(s, pos)
    ensures pos <= e && Boundary(s, e) && (pos < |s| ==> pos < e)
  {
    if pos == |s| then pos else ClusterEnd(s, After(s, pos), IsRegionalIndicator(DecodeAt(s, pos)))
  }

  /** The bytes up to the end are the first cluster of code points. */
  lemma FirstEndIs(s: seq<byte>, pos: nat)
    requires IsText(s) && Boundary(s, pos)
    ensures CodePoints(s, FirstEnd(s, pos)) == DropFirst(CodePoints(s, pos))
  {
    if pos < |s| {
      StepRight(s, pos);
      var cp, next := DecodeAt(s, pos), After(s, pos);
      var ri, more := IsRegionalIndicator(cp), CodePoints(s, next);
      var end := ClusterEnd(s, next, ri);
      assert CodePoints(s, end) == more[Continues(more, ri)..] by { ClusterEndIs(s, next, ri); }
      assert FirstEnd(s, pos) == end;
      FirstThenMore(cp, more);
    }
  }

  /** The byte length of the cluster at `pos`. */
  method NextCharLen(s: seq<byte>, pos: nat) returns (total: nat)
    requires IsText(s) && Boundary(s, pos)
    ensures pos + total == FirstEnd(s, pos)
  {
    if pos >= |s| { return 0; }
    ghost var start := After(s, pos);
    var cur, ri := pos + ByteLen(s[pos]), IsRegionalIndicator(DecodeAt(s, pos));
    ghost var end := ClusterEnd(s, start, ri);
    while cur < |s|
      invariant pos < cur && Boundary(s, cur)
      invariant ClusterEnd(s, cur, ri) == end
      decreases |s| - cur
    {
      ghost var j := After(s, cur);
      var next, len := DecodeAt(s, cur), ByteLen(s[cur]);
      if IsZwj(next) && cur + len < |s| {
        ghost var l := After(s, j);
        cur := cur + len;
        cur := cur + ByteLen(s[cur]);
      } else if IsGraphemeExtend(next) {
        cur := cur + len;
      } else if ri && IsRegionalIndicator(next) {
        cur, ri := cur + len, false;
      } else {
        break;
      }
    }
    total := cur - pos;
  }

  // ---------- stepping back ----------

  lemma {:induction false} LeadBefore(s: seq<byte>, pos: nat, i: nat) returns (lead: nat)
    requires IsText(s) && Boundary(s, pos) && i < pos
    requires forall k {:trigger s[k]} :: i < k < pos ==> IsCont(s[k])
    ensures lead < pos && Boundary(s, lead) && lead + ByteLen(s[lead]) == pos
    ensures forall k {:trigger s[k]} :: lead < k < pos ==> IsCont(s[k])
  {
    if IsCont(s[i]) {
      lead := LeadBefore(s, pos, i - 1);
    } else {
      assert CharOk(s, i);
      lead := i;
    }
  }

  /** The boundary before a boundary. */
  function Before(s: seq<byte>, pos: nat): (lead: nat)
    requires IsText(s) && Boundary(s, pos) && pos > 0
    ensures lead < pos && Boundary(s, lead) && lead + ByteLen(s[lead]) == pos
  {
    LeadIsNear(s, pos);
    Nearest(s, pos)
  }

  /** The nearest byte that starts a code point, at most four back. */
  function Nearest(s: seq<byte>, pos: nat): (i: nat)
    requires 0 < pos <= |s|
    ensures i < pos
  {
    if pos == 1 || !IsCont(s[pos - 1]) then pos - 1
    else if pos == 2 || !IsCont(s[pos - 2]) then pos - 2
    else if pos == 3 || !IsCont(s[pos - 3]) then pos - 3
    else pos - 4
  }

  lemma LeadIsNear(s: seq<byte>, pos: nat)
    requires IsText(s) && Boundary(s, pos) && pos > 0
    ensures var i := Nearest(s, pos); Boundary(s, i) && i + ByteLen(s[i]) == pos
  {
    var lead := LeadBefore(s, pos, pos - 1);
  }

  /** The code points before a boundary. */
  ghost function CodePointsBefore(s: seq<byte>, i: nat): seq<int>
    requires i <= |s|
  {
    CodePoints(s[..i], 0)
  }

  lemma {:induction false} AppendChar(s: seq<byte>, j: nat, a: nat, b: nat)
    requires IsText(s) && Boundary(s, j) && Boundary(s, a) && j <= a < |s| && b == a + ByteLen(s[a]) <= |s|
    ensures CodePoints(s[..b], j) == CodePoints(s[..a], j) + [DecodeAt(s, a)]
    decreases a - j
  {
    assert CharOk(s, j);
    var n := ByteLen(s[j]);
    if j < a {
      assert j + n <= a;
      AppendChar(s, j + n, a, b);
      assert DecodeAt(s[..b], j) == DecodeAt(s, j) == DecodeAt(s[..a], j);
    } else {
      assert DecodeAt(s[..b], j) == DecodeAt(s, j);
      assert CodePoints(s[..b], b) == [] && CodePoints(s[..a], a) == [];
    }
  }

  /** The code points up to `pos` end with the one that starts at the boundary before. */
  lemma StepLeft(s: seq<byte>, pos: nat)
    requires IsText(s) && Boundary(s, pos) && pos > 0
    ensures CodePointsBefore(s, pos) == CodePointsBefore(s, Before(s, pos)) + [DecodeAt(s, Before(s, pos))]
  {
    AppendChar(s, 0, Before(s, pos), pos);
  }

  /** The code point that ends at `pos` and its length. */
  method DecodePrev(s: seq<byte>, pos: nat) returns (cp: int, len: nat)
    requires IsText(s) && Boundary(s, pos)
    ensures len <= pos && Boundary(s, pos - len) && (len == 0 <==> pos == 0)
    ensures pos > 0 ==> pos - len == Before(s, pos) && cp == DecodeAt(s, pos - len)
  {
    if pos == 0 { return 0, 0; }
    ghost var lead := LeadBefore(s, pos, pos - 1);
    var i := pos - 1;
    while i > 0 && pos - i < 4 && IsCont(s[i])
      invariant lead <= i < pos
    {
      i := i - 1;
    }
    ghost var here := s[i];
    cp, len := DecodeAt(s, i), pos - i;
  }

  /** Where a cluster that starts at or before `i` and goes on with `cp` starts. */
  function ClusterStart(s: seq<byte>, i: nat, cp: int): (b: nat)
    requires IsText(s) && Boundary(s, i)
    ensures b <= i && Boundary(s, b)
    decreases i
  {
    if i == 0 then 0
    else
      var j := Before(s, i);
      var prev := DecodeAt(s, j);
      if IsZwj(prev) then
        if j == 0 then 0 else ClusterStart(s, Before(s, j), DecodeAt(s, Before(s, j)))
      else if IsGraphemeExtend(cp) then ClusterStart(s, j, prev)
      else if IsRegionalIndicator(cp) && IsRegionalIndicator(prev) then j
      else i
  }

  /** What precedes in the bytes of a cluster are the code points that precede. */
  lemma {:induction false} ClusterStartIs(s: seq<byte>, i: nat, cp: int)
    requires IsText(s) && Boundary(s, i)
    ensures var cps := CodePointsBefore(s, i);
      CodePointsBefore(s, ClusterStart(s, i, cp)) == cps[..|cps| - Precedes(cps, cp)]
    decreases i
  {
    if i > 0 {
      StepLeft(s, i);
      var cps, j := CodePointsBefore(s, i), Before(s, i);
      var prev := DecodeAt(s, j);
      assert cps[..|cps| - 1] == CodePointsBefore(s, j) && cps[|cps| - 1] == prev;
      if IsZwj(prev) {
        if j > 0 {
          StepLeft(s, j);
          assert cps[..|cps| - 2] == CodePointsBefore(s, Before(s, j));
          ClusterStartIs(s, Before(s, j), DecodeAt(s, Before(s, j)));
        }
      } else if IsGraphemeExtend(cp) {
        ClusterStartIs(s, j, prev);
      }
    }
  }

  /** Where the cluster that ends at `pos` starts. */
  function LastStart(s: seq<byte>, pos: nat): (b: nat)
    requires IsText(s) && Boundary(s, pos)
    ensures b <= pos && Boundary(s, b) && (pos > 0 ==> b < pos)
  {
    if pos == 0 then 0 else var j := Before(s, pos); ClusterStart(s, j, DecodeAt(s, j))
  }

  /** The bytes from the start are the last cluster of code points. */
  lemma LastStartIs(s: seq<byte>, pos: nat)
    requires IsText(s) && Boundary(s, pos)
    ensures CodePointsBefore(s, LastStart(s, pos)) == DropLast(CodePointsBefore(s, pos))
  {
    if pos > 0 {
      StepLeft(s, pos);
      var j := Before(s, pos);
      ClusterStartIs(s, j, DecodeAt(s, j));
      MoreThenLast(CodePointsBefore(s, j), DecodeAt(s, j));
    }
  }

  lemma MoreThenLast(more: seq<int>, cp: int)
    ensures DropLast(more + [cp]) == more[..|more| - Precedes(more, cp)]
  {
    var cps := more + [cp];
    assert cps[..|more|] == more;
  }

  lemma StartStep(s: seq<byte>, i: nat, cp: int, j: nat, prev: int)
    requires IsText(s) && Boundary(s, i) && i > 0 && j == Before(s, i) && prev == DecodeAt(s, j)
    ensures ClusterStart(s, i, cp) ==
      if IsZwj(prev) then
        if j == 0 then 0 else ClusterStart(s, Before(s, j), DecodeAt(s, Before(s, j)))
      else if IsGraphemeExtend(cp) then ClusterStart(s, j, prev)
      else if IsRegionalIndicator(cp) && IsRegionalIndicator(prev) then j
      else i
  {
  }

  /** The byte length of the cluster before `pos`. */
  method PrevCharLen(s: seq<byte>, pos: nat) returns (total: nat)
    requires IsText(s) && Boundary(s, pos)
    ensures pos - total == LastStart(s, pos)
  {
    if pos == 0 { return 0; }
    var cp, len := DecodePrev(s, pos);
    total := len;
    var cur := pos - len;
    ghost var start := ClusterStart(s, cur, cp);
    while cur > 0
      invariant cur == pos - total && 0 < total <= pos && Boundary(s, cur)
      invariant ClusterStart(s, cur, cp) == start
      decreases cur
    {
      var prev, prevLen := DecodePrev(s, cur);
      StartStep(s, cur, cp, cur - prevLen, prev);
      if IsZwj(prev) {
        total, cur := total + prevLen, cur - prevLen;
        prev, prevLen := DecodePrev(s, cur);
        if prevLen == 0 { break; }
        total, cur, cp := total + prevLen, cur - prevLen, prev;
      } else if IsGraphemeExtend(cp) {
        total, cur, cp := total + prevLen, cur - prevLen, prev;
      } else if IsRegionalIndicator(cp) && IsRegionalIndicator(prev) {
        total, cur := total + prevLen, cur - prevLen;
        break;
      } else {
        break;
      }
    }
  }
}
