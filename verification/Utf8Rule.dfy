/** Where clusters end, by a rule about neighbouring code points. */
module Utf8Rule {
  import opened Bytes
  import opened Utf8
  import opened Utf8Cluster

  // ---------- to the right ----------

  /** The joiners from place `a` to place `i` stand side by side, and none is right before them; the first
  code point of a cluster does not count. */
  predicate JoinersFrom(cps: seq<int>, a: nat, i: nat) {
    && 1 <= a <= i < |cps| && (forall j :: a <= j <= i ==> IsZwj(cps[j])) && (a == 1 || !IsZwj(cps[a - 1]))
  }

  /** Of joiners side by side the first, the third and so on join what follows, if anything does. */
  predicate Joins(cps: seq<int>, i: nat) {
    i + 1 < |cps| && exists a :: 1 <= a <= i && JoinersFrom(cps, a, i) && (i - a) % 2 == 0
  }

  predicate Joined(cps: seq<int>, i: nat) { i >= 2 && Joins(cps, i - 1) }

  /** The first regional indicator after one at the start, apart from joined ones. */
  predicate Second(cps: seq<int>, i: nat) {
    && 1 <= i < |cps| && IsRegionalIndicator(cps[0]) && IsRegionalIndicator(cps[i]) && !Joined(cps, i)
    && forall j :: 1 <= j < i && IsRegionalIndicator(cps[j]) ==> Joined(cps, j)
  }

  /** A cluster that starts at 0 and reaches place `i` ends there. */
  predicate Breaks(cps: seq<int>, i: nat) {
    1 <= i <= |cps| && (i == |cps| || (!IsGraphemeExtend(cps[i]) && !Joined(cps, i) && !Second(cps, i)))
  }

  lemma {:induction false} SomeStart(cps: seq<int>, i: nat) returns (a: nat)
    requires 1 <= i < |cps| && IsZwj(cps[i])
    ensures JoinersFrom(cps, a, i)
  {
    a := i;
    if i > 1 && IsZwj(cps[i - 1]) { a := SomeStart(cps, i - 1); }
  }

  lemma OneStart(cps: seq<int>, a: nat, b: nat, i: nat)
    requires JoinersFrom(cps, a, i) && JoinersFrom(cps, b, i)
    ensures a == b
  {
  }

  /** Every other one joins. */
  lemma NextJoins(cps: seq<int>, i: nat)
    requires 2 <= i && i + 1 < |cps| && IsZwj(cps[i]) && IsZwj(cps[i - 1])
    ensures Joins(cps, i) <==> !Joins(cps, i - 1)
  {
    var a := SomeStart(cps, i - 1);
    assert JoinersFrom(cps, a, i);
    if Joins(cps, i) {
      var b :| 1 <= b <= i && JoinersFrom(cps, b, i) && (i - b) % 2 == 0;
      OneStart(cps, a, b, i);
    }
    if Joins(cps, i - 1) {
      var b :| 1 <= b <= i - 1 && JoinersFrom(cps, b, i - 1) && (i - 1 - b) % 2 == 0;
      OneStart(cps, a, b, i - 1);
    }
  }

  lemma FirstJoins(cps: seq<int>, i: nat)
    requires 1 <= i && i + 1 < |cps| && IsZwj(cps[i]) && !Joined(cps, i)
    ensures Joins(cps, i) && !Joined(cps, i + 2)
  {
    if i >= 2 && IsZwj(cps[i - 1]) {
      NextJoins(cps, i);
    } else {
      assert JoinersFrom(cps, i, i);
    }
    if i + 2 < |cps| && IsZwj(cps[i + 1]) { NextJoins(cps, i + 1); }
  }

  /** No regional indicator but joined ones before place `i`. */
  predicate Unpaired(cps: seq<int>, i: nat) {
    && cps != [] && IsRegionalIndicator(cps[0])
    && forall j :: 1 <= j < i && j < |cps| && IsRegionalIndicator(cps[j]) ==> Joined(cps, j)
  }

  predicate NoBreaks(cps: seq<int>, i: nat, k: nat) { forall j :: i <= j < k ==> !Breaks(cps, j) }

  lemma JoinStep(cps: seq<int>, i: nat)
    requires 1 <= i && i + 1 < |cps| && !Joined(cps, i) && IsZwj(cps[i])
    ensures !Breaks(cps, i) && !Breaks(cps, i + 1) && !Joined(cps, i + 2) && (Unpaired(cps, i + 2) <==> Unpaired(cps, i))
  {
    FirstJoins(cps, i);
    assert Joined(cps, i + 1);
  }

  lemma ExtendStep(cps: seq<int>, i: nat)
    requires 1 <= i < |cps| && IsGraphemeExtend(cps[i]) && !(IsZwj(cps[i]) && i + 1 < |cps|)
    ensures !Breaks(cps, i) && !Joined(cps, i + 1) && (Unpaired(cps, i + 1) <==> Unpaired(cps, i))
  {
  }

  lemma PairStep(cps: seq<int>, i: nat)
    requires 1 <= i < |cps| && !Joined(cps, i) && Unpaired(cps, i) && IsRegionalIndicator(cps[i])
    ensures !Breaks(cps, i) && !Joined(cps, i + 1) && !Unpaired(cps, i + 1)
  {
    assert Second(cps, i);
  }

  lemma EndStep(cps: seq<int>, i: nat)
    requires 1 <= i < |cps| && !Joined(cps, i) && !IsGraphemeExtend(cps[i]) && !(Unpaired(cps, i) && IsRegionalIndicator(cps[i]))
    ensures Breaks(cps, i)
  {
  }

  /** From a place that is not joined the code points that continue the cluster have no break before
  them, and then there is one. */
  lemma {:induction false} ContinuesToBreak(cps: seq<int>, i: nat, ri: bool, n: nat)
    requires 1 <= i <= |cps| && !Joined(cps, i) && (ri <==> Unpaired(cps, i)) && n == Continues(cps[i..], ri)
    ensures i + n <= |cps| && Breaks(cps, i + n) && NoBreaks(cps, i, i + n)
    decreases |cps| - i
  {
    if i < |cps| {
      var rest := cps[i..];
      assert rest[0] == cps[i] && rest[1..] == cps[i + 1..];
      if IsZwj(cps[i]) && i + 1 < |cps| {
        assert rest[2..] == cps[i + 2..];
        assert n == 2 + Continues(cps[i + 2..], ri);
        JoinStep(cps, i);
        ContinuesToBreak(cps, i + 2, ri, n - 2);
      } else if IsGraphemeExtend(cps[i]) {
        ExtendStep(cps, i);
        ContinuesToBreak(cps, i + 1, ri, n - 1);
      } else if ri && IsRegionalIndicator(cps[i]) {
        PairStep(cps, i);
        ContinuesToBreak(cps, i + 1, false, n - 1);
      } else {
        EndStep(cps, i);
      }
    }
  }

  /** The first cluster ends at the first break. */
  lemma FirstClusterIs(cps: seq<int>)
    requires cps != []
    ensures Breaks(cps, FirstCluster(cps)) && forall j :: 1 <= j < FirstCluster(cps) ==> !Breaks(cps, j)
  {
    ContinuesToBreak(cps, 1, IsRegionalIndicator(cps[0]), FirstCluster(cps) - 1);
  }

  // ---------- to the left ----------

  /** Place `i` belongs to what stands before it: it extends that, or that is a joiner. */
  predicate Attaches(cps: seq<int>, i: nat) {
    1 <= i < |cps| && (IsGraphemeExtend(cps[i]) || IsZwj(cps[i - 1]))
  }

  /** `m` is the last place up to `i` that does not belong to what stands before it. */
  predicate Anchor(cps: seq<int>, m: nat, i: nat) {
    m <= i < |cps| && !Attaches(cps, m) && forall j :: m < j <= i ==> Attaches(cps, j)
  }

  /** Two regional indicators side by side. */
  predicate Flag(cps: seq<int>, m: nat) {
    1 <= m < |cps| && IsRegionalIndicator(cps[m]) && IsRegionalIndicator(cps[m - 1])
  }

  lemma {:induction false} PrecedesToAnchor(cps: seq<int>, m: nat, i: nat, n: nat)
    requires Anchor(cps, m, i) && n == Precedes(cps[..i], cps[i])
    ensures i - n == if Flag(cps, m) then m - 1 else m
    decreases i
  {
    var before := cps[..i];
    if i > 0 {
      assert before[i - 1] == cps[i - 1] && before[..i - 1] == cps[..i - 1];
      if m < i {
        assert Attaches(cps, i);
        if IsZwj(cps[i - 1]) {
          if i >= 2 {
            assert before[i - 2] == cps[i - 2] && before[..i - 2] == cps[..i - 2];
            assert Attaches(cps, i - 1);
            PrecedesToAnchor(cps, m, i - 2, n - 2);
          }
        } else {
          PrecedesToAnchor(cps, m, i - 1, n - 1);
        }
      }
    }
  }

  lemma {:induction false} HasAnchor(cps: seq<int>, i: nat) returns (m: nat)
    requires i < |cps|
    ensures Anchor(cps, m, i)
  {
    m := i;
    if Attaches(cps, i) { m := HasAnchor(cps, i - 1); }
  }

  /** The last cluster starts at the last place that does not belong to what stands before it, or at the
  regional indicator before that if there is a pair. */
  lemma LastClusterIs(cps: seq<int>) returns (m: nat)
    requires cps != []
    ensures Anchor(cps, m, |cps| - 1) && |cps| - LastCluster(cps) == if Flag(cps, m) then m - 1 else m
  {
    m := HasAnchor(cps, |cps| - 1);
    PrecedesToAnchor(cps, m, |cps| - 1, LastCluster(cps) - 1);
  }
}
