/** When a step right over a cluster and a step back left come to the same place. */
module Utf8Steps {
  import opened Bytes
  import opened Utf8
  import opened Utf8Cluster

  /** Where among the code points that continue a cluster the second regional indicator stands, or -1. */
  function PairedAt(cps: seq<int>, ri: bool): (p: int)
    ensures -1 <= p < Continues(cps, ri) && (p >= 0 ==> ri && IsRegionalIndicator(cps[p]))
  {
    if cps == [] then -1
    else if IsZwj(cps[0]) && |cps| > 1 then var p := PairedAt(cps[2..], ri); if p < 0 then -1 else p + 2
    else if IsGraphemeExtend(cps[0]) then var p := PairedAt(cps[1..], ri); if p < 0 then -1 else p + 1
    else if ri && IsRegionalIndicator(cps[0]) then 0
    else -1
  }

  /** Stepping back from `cp` ends there and not among the code points `a` before it. */
  predicate StartsNew(a: seq<int>, cp: int) {
    a == [] || (!IsZwj(a[|a| - 1]) && !IsGraphemeExtend(cp) && !(IsRegionalIndicator(cp) && IsRegionalIndicator(a[|a| - 1])))
  }

  /** Stepping back is not held up at the second regional indicator at place `p` of the cluster `w`. */
  predicate Returns(a: seq<int>, w: seq<int>, p: int)
    requires w != [] && p < |w|
  {
    if p < 1 then StartsNew(a, w[0]) else p == 1 || (IsZwj(w[p - 1]) && StartsNew(a, w[0]))
  }

  /** Why the code point at place `i` continues a cluster. */
  predicate Attached(cps: seq<int>, p: int, i: nat)
    requires i < |cps|
  {
    IsGraphemeExtend(cps[i]) || (i > 0 && IsZwj(cps[i - 1])) || i == p
  }

  lemma {:induction false} AllAttached(cps: seq<int>, ri: bool, i: nat)
    requires i < Continues(cps, ri)
    ensures Attached(cps, PairedAt(cps, ri), i)
  {
    if IsZwj(cps[0]) && |cps| > 1 {
      if i >= 2 { AllAttached(cps[2..], ri, i - 2); }
    } else if IsGraphemeExtend(cps[0]) {
      if i >= 1 { AllAttached(cps[1..], ri, i - 1); }
    } else if i >= 1 {
      NoneAfterPair(cps[1..]);
      AllAttached(cps[1..], false, i - 1);
    }
  }

  lemma NoneAfterPair(cps: seq<int>)
    ensures PairedAt(cps, false) == -1
  {
  }

  /** From place `i` of the cluster `w` the step back reaches the start of `w` and nothing before it
  exactly if it is not held up and the cluster starts anew. */
  lemma {:induction false} BackTo(a: seq<int>, w: seq<int>, p: int, i: nat)
    requires i < |w| && p < |w| && forall j: nat {:trigger Attached(w, p, j)} :: 1 <= j <= i ==> Attached(w, p, j)
    requires p >= 1 ==> IsRegionalIndicator(w[p]) && IsRegionalIndicator(w[0])
    ensures Precedes((a + w)[..|a| + i], w[i]) == i <==> Returns(a, w, if p <= i then p else -1)
  {
    var v := (a + w)[..|a| + i];
    if i == 0 {
      assert v == a;
    } else {
      assert v[|v| - 1] == w[i - 1] && v[..|v| - 1] == (a + w)[..|a| + i - 1];
      assert Attached(w, p, i);
      if IsZwj(w[i - 1]) {
        if i >= 2 {
          assert v[|v| - 2] == w[i - 2] && v[..|v| - 2] == (a + w)[..|a| + i - 2];
          BackTo(a, w, p, i - 2);
        }
      } else if IsGraphemeExtend(w[i]) {
        BackTo(a, w, p, i - 1);
      }
    }
  }

  /** A step over the first cluster of `b` and back comes to the same place exactly if this condition
  on the cluster and the code point before it holds. */
  lemma RightThenLeft(a: seq<int>, b: seq<int>)
    requires b != []
    ensures var w := b[..FirstCluster(b)];
      LastCluster(a + w) == |w| <==> Returns(a, w, PairedAt(b[1..], IsRegionalIndicator(b[0])) + 1)
  {
    var w, ri := b[..FirstCluster(b)], IsRegionalIndicator(b[0]);
    var p := PairedAt(b[1..], ri) + 1;
    forall j: nat | 1 <= j < |w| ensures Attached(w, p, j) {
      AllAttached(b[1..], ri, j - 1);
    }
    BackTo(a, w, p, |w| - 1);
  }

  /** After two regional indicators a third is a cluster of its own, but the step back takes two. */
  lemma ThreeIndicators(x: int, y: int, z: int)
    requires IsRegionalIndicator(x) && IsRegionalIndicator(y) && IsRegionalIndicator(z)
    ensures FirstCluster([x, y, z]) == 2 && FirstCluster([z]) == 1 && LastCluster([x, y, z]) == 2
    ensures !Returns([x, y], [z], PairedAt([], true) + 1)
  {
    assert [x, y, z][1..] == [y, z] && [y, z][1..] == [z] && [x, y, z][..2] == [x, y];
    assert Continues([z], false) == 0;
    assert Continues([y, z], true) == 1;
  }

  // ---------- on the bytes ----------

  /** A boundary splits the code points of a text. */
  lemma {:induction false} Halves(s: seq<byte>, i: nat)
    requires IsText(s) && Boundary(s, i)
    ensures CodePoints(s, 0) == CodePointsBefore(s, i) + CodePoints(s, i)
    decreases i
  {
    if i > 0 {
      var j := Before(s, i);
      Halves(s, j);
      StepLeft(s, i);
      StepRight(s, j);
    }
  }

  lemma {:induction false} FurtherIsMore(s: seq<byte>, i: nat, j: nat)
    requires IsText(s) && Boundary(s, i) && Boundary(s, j) && i < j
    ensures |CodePointsBefore(s, i)| < |CodePointsBefore(s, j)|
    decreases j
  {
    StepLeft(s, j);
    var k := Before(s, j);
    assert CharOk(s, k);
    assert i <= k;
    if i < k { FurtherIsMore(s, i, k); }
  }

  lemma UpToCluster(s: seq<byte>, pos: nat)
    requires IsText(s) && Boundary(s, pos) && pos < |s|
    ensures var b := CodePoints(s, pos);
      CodePointsBefore(s, FirstEnd(s, pos)) == CodePointsBefore(s, pos) + b[..FirstCluster(b)]
  {
    var a, b, e := CodePointsBefore(s, pos), CodePoints(s, pos), FirstEnd(s, pos);
    var n := FirstCluster(b);
    Halves(s, pos);
    Halves(s, e);
    FirstEndIs(s, pos);
    Same(CodePointsBefore(s, e), a + b[..n], b[n..]);
  }

  lemma Same<T>(x: seq<T>, y: seq<T>, z: seq<T>)
    requires x + z == y + z
    ensures x == y
  {
    assert |x| == |y| && x == (x + z)[..|x|] && y == (y + z)[..|y|];
  }

  /** In a text, a step right from `pos` and a step left come back to `pos` exactly if the cluster
  there starts anew and does not hold the step back up. */
  lemma StepsReturn(s: seq<byte>, pos: nat, a: seq<int>, b: seq<int>)
    requires IsText(s) && Boundary(s, pos) && pos < |s|
    requires a == CodePointsBefore(s, pos) && b == CodePoints(s, pos) && b != []
    ensures LastStart(s, FirstEnd(s, pos)) == pos <==>
      Returns(a, b[..FirstCluster(b)], PairedAt(b[1..], IsRegionalIndicator(b[0])) + 1)
  {
    var e, w := FirstEnd(s, pos), b[..FirstCluster(b)];
    UpToCluster(s, pos);
    RightThenLeft(a, b);
    LastStartIs(s, e);
    var l := LastStart(s, e);
    assert CodePointsBefore(s, l) == (a + w)[..|a| + |w| - LastCluster(a + w)];
    if l < pos { FurtherIsMore(s, l, pos); }
    if pos < l { FurtherIsMore(s, pos, l); }
  }
}
