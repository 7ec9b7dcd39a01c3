/** Whose turn it is to propose, how long a round may take, and how long one waits for an honest proposer. */
module Rotation {
  import opened Numeral

  const TWO64: nat := 0x1_0000_0000_0000_0000

  type Id = nat

  const INVALID_ID: Id := 0

  // ---------- proposers ----------

  /** The sum wraps around like the 64-bit sum it is. */
  function ProposerIndex(height: nat, round: nat, size: nat): (i: nat)
    ensures size > 0 ==> i < size
  {
    if size == 0 then 0 else Divided((height + round) % TWO64, size); (height + round) % TWO64 % size
  }

  function ProposerFor(height: nat, round: nat, active: seq<Id>): (id: Id)
    ensures active != [] ==> id in active
  {
    if active == [] then INVALID_ID else active[ProposerIndex(height, round, |active|)]
  }

  predicate Distinct(active: seq<Id>) { forall i, j :: 0 <= i < j < |active| ==> active[i] != active[j] }

  /** How often a validator proposes in `len` rounds from `round` on. */
  function Turns(height: nat, round: nat, len: nat, active: seq<Id>, id: Id): nat
    decreases len
  {
    if len == 0 then 0
    else
      Turns(height, round, len - 1, active, id)
      + (if ProposerFor(height, round + len - 1, active) == id then 1 else 0)
  }

  // ---------- counting turns ----------

  /** How many numbers below `x` leave the remainder `i` modulo `n`. */
  function Below(x: nat, i: nat, n: nat): nat
    requires i < n
  {
    Divided(x + (n - 1 - i), n);
    (x + (n - 1 - i)) / n
  }

  lemma BelowNext(x: nat, i: nat, n: nat)
    requires i < n
    ensures Below(x + 1, i, n) == Below(x, i, n) + (if x % n == i then 1 else 0)
  {
    Divided(x, n);
    var q, r := x / n, x % n;
    var s := n - 1 - i;
    assert (q + 1) * n == q * n + n;
    if r == i {
      Quotient(x + s, n, q, n - 1);
      Quotient(x + 1 + s, n, q + 1, 0);
    } else if r < i {
      Quotient(x + s, n, q, r + s);
      Quotient(x + 1 + s, n, q, r + 1 + s);
    } else {
      Quotient(x + s, n, q + 1, r - i - 1);
      Quotient(x + 1 + s, n, q + 1, r - i);
    }
  }

  /** The 64-bit sum stays below `end`, or wraps around where a new turn of all `n` begins anyway. */
  predicate GoesOn(end: nat, n: nat)
    requires n > 0
  {
    end <= TWO64 || TWO64 % n == 0
  }

  lemma WrapSeamless(x: nat, n: nat)
    requires n > 0 && GoesOn(x + 1, n)
    ensures x % TWO64 % n == x % n
  {
    if x >= TWO64 {
      var k, m, y := x / TWO64, TWO64 / n, x % TWO64;
      Divided(x, TWO64);
      Divided(TWO64, n);
      Divided(y, n);
      assert x == (k * m + y / n) * n + y % n by {
        assert k * TWO64 == k * m * n;
        assert (k * m + y / n) * n == k * m * n + y / n * n;
      }
      Quotient(x, n, k * m + y / n, y % n);
    }
  }

  /** Turns are counted by the numbers that leave the validator's place as remainder. */
  lemma {:induction false} TurnsAre(height: nat, round: nat, len: nat, active: seq<Id>, i: nat)
    requires Distinct(active) && i < |active| && GoesOn(height + round + len, |active|)
    ensures Turns(height, round, len, active, active[i])
      == Below(height + round + len, i, |active|) - Below(height + round, i, |active|)
    decreases len
  {
    if len > 0 {
      TurnsAre(height, round, len - 1, active, i);
      BelowNext(height + round + len - 1, i, |active|);
      TurnOf(height, round + len - 1, active, i);
    }
  }

  lemma TurnOf(height: nat, round: nat, active: seq<Id>, i: nat)
    requires Distinct(active) && i < |active| && GoesOn(height + round + 1, |active|)
    ensures ProposerFor(height, round, active) == active[i] <==> (height + round) % |active| == i
  {
    var k := ProposerIndex(height, round, |active|);
    WrapSeamless(height + round, |active|);
    if k < i { assert active[k] != active[i]; }
    if i < k { assert active[i] != active[k]; }
  }

  lemma SumsOfQuotients(u: nat, l: nat, n: nat)
    requires n > 0
    ensures l / n <= (u + l) / n - u / n <= (l + n - 1) / n
  {
    Divided(u, n);
    Divided(l, n);
    var p, q, r, s := u / n, l / n, u % n, l % n;
    assert u + l == (p + q) * n + (r + s) by { assert (p + q) * n == p * n + q * n; }
    if r + s < n {
      Quotient(u + l, n, p + q, r + s);
    } else {
      assert (p + q + 1) * n == (p + q) * n + n;
      Quotient(u + l, n, p + q + 1, r + s - n);
    }
    if s == 0 {
      Quotient(l + n - 1, n, q, n - 1);
    } else {
      assert (q + 1) * n == q * n + n;
      Quotient(l + n - 1, n, q + 1, s - 1);
    }
  }

  /** In any rounds in a row every validator proposes equally often, but for one. */
  lemma Fair(height: nat, round: nat, len: nat, active: seq<Id>, i: nat)
    requires Distinct(active) && i < |active| && GoesOn(height + round + len, |active|)
    ensures len / |active| <= Turns(height, round, len, active, active[i]) <= (len + |active| - 1) / |active|
  {
    var n := |active|;
    TurnsAre(height, round, len, active, i);
    SumsOfQuotients(height + round + (n - 1 - i), len, n);
  }

  /** Where the 64-bit sum wraps around, a validator can propose twice in a row. */
  lemma WrapRepeats(a: Id, b: Id, c: Id)
    ensures ProposerFor(TWO64 - 1, 0, [a, b, c]) == a && ProposerFor(TWO64 - 1, 1, [a, b, c]) == a
  {
  }

  // ---------- across the wrap-around ----------

  /** The turns of two stretches of rounds. */
  lemma {:induction false} TurnsAdd(height: nat, round: nat, len: nat, more: nat, active: seq<Id>, id: Id)
    ensures Turns(height, round, len + more, active, id)
      == Turns(height, round, len, active, id) + Turns(height, round + len, more, active, id)
    decreases more
  {
    if more > 0 { TurnsAdd(height, round, len, more - 1, active, id); }
  }

  /** A validator whose turn it is in some round of a stretch has a turn there. */
  lemma {:induction false} HasTurn(height: nat, round: nat, len: nat, active: seq<Id>, j: nat, id: Id)
    requires j < len && ProposerFor(height, round + j, active) == id
    ensures Turns(height, round, len, active, id) >= 1
    decreases len
  {
    if j < len - 1 { HasTurn(height, round, len - 1, active, j, id); }
  }

  lemma {:induction false} HasNoTurn(height: nat, round: nat, len: nat, active: seq<Id>, id: Id)
    requires forall r :: round <= r < round + len ==> ProposerFor(height, r, active) != id
    ensures Turns(height, round, len, active, id) == 0
    decreases len
  {
    if len > 0 {
      HasNoTurn(height, round, len - 1, active, id);
    }
  }

  /** Whose turn it is before and after the sum wraps around. */
  lemma TurnBefore(height: nat, round: nat, active: seq<Id>, d: nat)
    requires active != [] && 0 < d <= TWO64 && height + round == TWO64 - d
    ensures d <= TWO64 % |active| ==> ProposerFor(height, round, active) == active[TWO64 % |active| - d]
    ensures TWO64 % |active| < d <= TWO64 % |active| + |active| ==>
      ProposerFor(height, round, active) == active[TWO64 % |active| + |active| - d]
  {
    var n := |active|;
    var q, c := TWO64 / n, TWO64 % n;
    Divided(TWO64, n);
    if d <= c {
      Quotient(TWO64 - d, n, q, c - d);
    } else if d <= c + n {
      assert q >= 1;
      assert (q - 1) * n == q * n - n;
      Quotient(TWO64 - d, n, q - 1, c + n - d);
    }
  }

  lemma TurnAfter(height: nat, round: nat, active: seq<Id>, d: nat)
    requires d < |active| <= TWO64 && height + round == TWO64 + d && d < TWO64
    ensures ProposerFor(height, round, active) == active[d]
  {
    var n := |active|;
    assert (height + round) % TWO64 == d;
    Quotient(d, n, 0, d);
  }

  /** Everyone proposes once in `n` rounds. */
  predicate OnceEach(height: nat, round: nat, active: seq<Id>) {
    forall i :: 0 <= i < |active| ==> Turns(height, round, |active|, active, active[i]) == 1
  }

  lemma OnceWhereSmooth(height: nat, round: nat, active: seq<Id>)
    requires Distinct(active) && active != [] && GoesOn(height + round + |active|, |active|)
    ensures OnceEach(height, round, active)
  {
    var n := |active|;
    Quotient(n, n, 1, 0);
    Quotient(n + n - 1, n, 1, n - 1);
    forall i | 0 <= i < n ensures Turns(height, round, n, active, active[i]) == 1 {
      Fair(height, round, n, active, i);
    }
  }

  /** If the wrap-around is not at the start of a turn of all, either the first one proposes twice or the last one not at all. */
  lemma UnfairAtWrap(height: nat, round: nat, active: seq<Id>, p: nat)
    requires Distinct(active) && 0 < p < |active| <= TWO64 && height + round == TWO64 - p && TWO64 % |active| != 0
    ensures !OnceEach(height, round, active)
  {
    if TWO64 % |active| < p { FirstTwice(height, round, active, p); } else { LastNever(height, round, active, p); }
  }

  lemma FirstTwice(height: nat, round: nat, active: seq<Id>, p: nat)
    requires 0 < p < |active| <= TWO64 && height + round == TWO64 - p && 0 < TWO64 % |active| < p
    ensures Turns(height, round, |active|, active, active[0]) >= 2
  {
    var n, c := |active|, TWO64 % |active|;
    TurnBefore(height, round + (p - c), active, c);
    TurnAfter(height, round + p, active, 0);
    HasTurn(height, round, p, active, p - c, active[0]);
    HasTurn(height, round + p, n - p, active, 0, active[0]);
    TurnsAdd(height, round, p, n - p, active, active[0]);
  }

  lemma LastNever(height: nat, round: nat, active: seq<Id>, p: nat)
    requires Distinct(active) && 0 < p < |active| <= TWO64 && height + round == TWO64 - p && p <= TWO64 % |active|
    ensures Turns(height, round, |active|, active, active[|active| - 1]) == 0
  {
    var n := |active|;
    var c, last := TWO64 % n, active[n - 1];
    Divided(TWO64, n);
    forall r | round <= r < round + n ensures ProposerFor(height, r, active) != last {
      var j := r - round;
      if j < p {
        TurnBefore(height, r, active, p - j);
        assert active[c - (p - j)] != last;
      } else {
        TurnAfter(height, r, active, j - p);
        assert active[j - p] != last;
      }
    }
    HasNoTurn(height, round, n, active, last);
  }

  /** Across the wrap-around everyone proposes once in `n` rounds just if `n` divides 2^64. */
  lemma FairAcrossWrap(height: nat, round: nat, active: seq<Id>)
    requires Distinct(active) && |active| <= TWO64 && height + round < TWO64 < height + round + |active|
    ensures OnceEach(height, round, active) <==> TWO64 % |active| == 0
  {
    if TWO64 % |active| == 0 {
      OnceWhereSmooth(height, round, active);
    } else {
      UnfairAtWrap(height, round, active, TWO64 - (height + round));
    }
  }

  // ---------- an honest proposer ----------

  /** The number of faulty validators that is tolerated. */
  function Tolerated(n: nat): nat { if n == 0 then 0 else (n - 1) / 3 }

  /** No validator proposes twice in `len` rounds: the sum does not wrap around, or not between two rounds of one of them. */
  predicate NoRepeat(height: nat, round: nat, len: nat, n: nat)
    requires n > 0
  {
    (height + round) % TWO64 + len <= TWO64 || TWO64 % n == 0 || TWO64 % n >= len
  }

  lemma Apart(x: nat, y: nat, n: nat)
    requires n > 0 && x < y < x + n
    ensures x % n != y % n
  {
    Divided(x, n);
    Divided(y, n);
    var p, q := x / n, y / n;
    if x % n == y % n {
      assert (q - p) * n == q * n - p * n;
      if q > p { AtLeast(q - p, n); } else if q < p { AtLeast(p - q, n); }
    }
  }

  /** The sum `k` rounds later. */
  lemma SumLater(height: nat, round: nat, k: nat)
    requires k < TWO64
    ensures var x := (height + round) % TWO64;
      (height + round + k) % TWO64 == if x + k < TWO64 then x + k else x + k - TWO64
  {
    var x, q := (height + round) % TWO64, (height + round) / TWO64;
    Divided(height + round, TWO64);
    if x + k < TWO64 {
      Quotient(height + round + k, TWO64, q, x + k);
    } else {
      Quotient(height + round + k, TWO64, q + 1, x + k - TWO64);
    }
  }

  /** The remainder `d` before the wrap-around. */
  lemma RestBefore(d: nat, n: nat)
    requires n > 0 && 0 < d <= TWO64 % n
    ensures (TWO64 - d) % n == TWO64 % n - d
  {
    Divided(TWO64, n);
    Quotient(TWO64 - d, n, TWO64 / n, TWO64 % n - d);
  }

  lemma RestsDiffer(x: nat, j: nat, k: nat, n: nat)
    requires 0 < n <= TWO64 && x < TWO64 && j < k < n && x + j < TWO64 <= x + k && (TWO64 % n == 0 || k < TWO64 % n)
    ensures (x + j) % n != (x + k - TWO64) % n
  {
    if TWO64 % n == 0 {
      WrapSeamless(x + k, n);
      Quotient(x + k, TWO64, 1, x + k - TWO64);
      Apart(x + j, x + k, n);
    } else {
      RestBefore(TWO64 - (x + j), n);
      Quotient(x + k - TWO64, n, 0, x + k - TWO64);
    }
  }

  lemma NextDiffers(height: nat, round: nat, active: seq<Id>, j: nat, k: nat)
    requires Distinct(active) && |active| <= TWO64 && j < k < |active| && NoRepeat(height, round, k + 1, |active|)
    ensures ProposerFor(height, round + j, active) != ProposerFor(height, round + k, active)
  {
    var n, x := |active|, (height + round) % TWO64;
    SumLater(height, round, j);
    SumLater(height, round, k);
    if x + k < TWO64 {
      Apart(x + j, x + k, n);
    } else if x + j >= TWO64 {
      Apart(x + j - TWO64, x + k - TWO64, n);
    } else {
      RestsDiffer(x, j, k, n);
    }
    var a, b := ProposerIndex(height, round + j, n), ProposerIndex(height, round + k, n);
    if a < b { assert active[a] != active[b]; } else { assert active[b] != active[a]; }
  }

  /** Where it wraps around in between, someone does propose twice. */
  lemma SomeoneTwice(height: nat, round: nat, active: seq<Id>, len: nat) returns (j: nat, k: nat)
    requires active != [] && |active| <= TWO64 && len <= |active| && !NoRepeat(height, round, len, |active|)
    ensures j < k < len && ProposerFor(height, round + j, active) == ProposerFor(height, round + k, active)
  {
    var n, x, c := |active|, (height + round) % TWO64, TWO64 % |active|;
    var p := TWO64 - x;
    if c <= p {
      j, k := p - c, p;
      RestBefore(c, n);
    } else {
      j, k := 0, c;
      RestBefore(p, n);
    }
    SumLater(height, round, j);
    SumLater(height, round, k);
    assert (height + round + j) % TWO64 == x + j && (height + round + k) % TWO64 == x + k - TWO64;
    Quotient(x + k - TWO64, n, 0, x + k - TWO64);
    assert (x + j) % n == (x + k - TWO64) % n;
  }

  /** The proposers of the rounds from `round` to before `end`. */
  function Proposers(height: nat, round: nat, end: nat, active: seq<Id>): set<Id> {
    set r | round <= r < end :: ProposerFor(height, r, active)
  }

  lemma NoRepeatShorter(height: nat, round: nat, len: nat, less: nat, n: nat)
    requires n > 0 && less <= len && NoRepeat(height, round, len, n)
    ensures NoRepeat(height, round, less, n)
  {
  }

  lemma {:induction false} ManyProposers(height: nat, round: nat, end: nat, active: seq<Id>)
    requires Distinct(active) && active != [] && |active| <= TWO64 && round <= end <= round + |active|
    requires NoRepeat(height, round, end - round, |active|)
    ensures |Proposers(height, round, end, active)| == end - round
    decreases end
  {
    if round < end {
      var before, last := Proposers(height, round, end - 1, active), ProposerFor(height, end - 1, active);
      NoRepeatShorter(height, round, end - round, end - 1 - round, |active|);
      ManyProposers(height, round, end - 1, active);
      LastIsNew(height, round, end, active);
      OneProposerMore(height, round, end, active);
    }
  }

  lemma LastIsNew(height: nat, round: nat, end: nat, active: seq<Id>)
    requires Distinct(active) && active != [] && |active| <= TWO64 && round < end <= round + |active|
    requires NoRepeat(height, round, end - round, |active|)
    ensures ProposerFor(height, end - 1, active) !in Proposers(height, round, end - 1, active)
  {
    var last := ProposerFor(height, end - 1, active);
    forall r | round <= r < end - 1 ensures ProposerFor(height, r, active) != last {
      NextDiffers(height, round, active, r - round, end - 1 - round);
    }
  }

  lemma OneProposerMore(height: nat, round: nat, end: nat, active: seq<Id>)
    requires round < end
    ensures Proposers(height, round, end, active) == Proposers(height, round, end - 1, active) + {ProposerFor(height, end - 1, active)}
  {
  }

  /** With a repeat there are fewer proposers than rounds. */
  lemma FewProposers(height: nat, round: nat, end: nat, active: seq<Id>, j: nat, k: nat)
    requires round <= j < k < end && ProposerFor(height, j, active) == ProposerFor(height, k, active)
    ensures |Proposers(height, round, end, active)| < end - round
  {
    var others := Rounds(round, end) - {k};
    var images := set r | r in others :: ProposerFor(height, r, active);
    assert Proposers(height, round, end, active) <= images;
    SubsetSize(Proposers(height, round, end, active), images);
    ImageSize(height, active, others, images);
  }

  function Rounds(a: nat, b: nat): (rs: set<nat>)
    requires a <= b
    ensures |rs| == b - a && forall r :: r in rs <==> a <= r < b
    decreases b
  {
    if a == b then {} else Rounds(a, b - 1) + {b - 1}
  }

  lemma {:induction false} ImageSize(height: nat, active: seq<Id>, rounds: set<nat>, images: set<Id>)
    requires images == set r | r in rounds :: ProposerFor(height, r, active)
    ensures |images| <= |rounds|
    decreases |rounds|
  {
    if rounds != {} {
      var r :| r in rounds;
      var fewer := set q | q in rounds - {r} :: ProposerFor(height, q, active);
      ImageSize(height, active, rounds - {r}, fewer);
      assert images == fewer + {ProposerFor(height, r, active)};
    }
  }

  lemma SubsetSize(a: set<Id>, b: set<Id>)
    requires a <= b
    ensures |a| <= |b|
    decreases |a|
  {
    if a != {} {
      var x :| x in a;
      SubsetSize(a - {x}, b - {x});
    }
  }

  // ---------- timeouts ----------

  const BASE_TIMEOUT: nat := 5_000
  const MAX_TIMEOUT: nat := 60_000

  /** The time a round may take, in milliseconds: linear in the round, and capped. */
  function TimeoutFor(round: nat): (t: nat)
    ensures t <= MAX_TIMEOUT && (round >= 11 ==> t == MAX_TIMEOUT)
  {
    var t := BASE_TIMEOUT * (round + 1);
    if t > MAX_TIMEOUT then MAX_TIMEOUT else t
  }

  /** The first round has the base timeout, and each further round as much more until the cap. */
  lemma TimeoutGrows(round: nat)
    ensures TimeoutFor(0) == BASE_TIMEOUT
    ensures TimeoutFor(round + 1) == if TimeoutFor(round) + BASE_TIMEOUT <= MAX_TIMEOUT then TimeoutFor(round) + BASE_TIMEOUT else MAX_TIMEOUT
  {
  }

  /** The time for `k` rounds to run out. */
  function Waiting(round: nat, k: nat): nat {
    if k == 0 then 0 else Waiting(round, k - 1) + TimeoutFor(round + k - 1)
  }

  lemma {:induction false} WaitingBound(round: nat, k: nat)
    ensures Waiting(round, k) <= k * MAX_TIMEOUT
  {
    if k > 0 { WaitingBound(round, k - 1); }
  }

  /** With no more faulty validators than tolerated, an honest one proposes after as many timeouts at most. */
  lemma HonestSoon(height: nat, round: nat, active: seq<Id>, faulty: set<Id>) returns (k: nat)
    requires Distinct(active) && active != [] && |active| <= TWO64 && |faulty| <= Tolerated(|active|)
    requires NoRepeat(height, round, |faulty| + 1, |active|)
    ensures k <= |faulty| && ProposerFor(height, round + k, active) !in faulty
    ensures Waiting(round, k) <= Tolerated(|active|) * MAX_TIMEOUT
  {
    var r := HonestRound(height, round, active, faulty);
    k := r - round;
    WaitingBound(round, k);
    NoLonger(k, Tolerated(|active|));
  }

  lemma HonestRound(height: nat, round: nat, active: seq<Id>, faulty: set<Id>) returns (r: nat)
    requires Distinct(active) && |faulty| < |active| <= TWO64 && NoRepeat(height, round, |faulty| + 1, |active|)
    ensures round <= r <= round + |faulty| && ProposerFor(height, r, active) !in faulty
  {
    var all := Proposers(height, round, round + |faulty| + 1, active);
    ManyProposers(height, round, round + |faulty| + 1, active);
    if all <= faulty { SubsetSize(all, faulty); }
    var id :| id in all && id !in faulty;
    r :| round <= r < round + |faulty| + 1 && ProposerFor(height, r, active) == id;
  }

  /** Whichever `f` validators are faulty, one of the next `f + 1` proposers is honest. */
  ghost predicate HonestWithin(height: nat, round: nat, active: seq<Id>, f: nat) {
    forall faulty: set<Id> :: |faulty| == f ==>
      exists r :: round <= r <= round + f && ProposerFor(height, r, active) !in faulty
  }

  /** That is so just if none of them proposes twice. */
  lemma HonestIffNoRepeat(height: nat, round: nat, active: seq<Id>, f: nat)
    requires Distinct(active) && f < |active| <= TWO64
    ensures HonestWithin(height, round, active, f) <==> NoRepeat(height, round, f + 1, |active|)
  {
    if NoRepeat(height, round, f + 1, |active|) {
      forall faulty: set<Id> | |faulty| == f
        ensures exists r :: round <= r <= round + f && ProposerFor(height, r, active) !in faulty
      {
        var r := HonestRound(height, round, active, faulty);
      }
    } else {
      var j, k := SomeoneTwice(height, round, active, f + 1);
      var all := Proposers(height, round, round + f + 1, active);
      FewProposers(height, round, round + f + 1, active, round + j, round + k);
      var faulty := Extended(all, f);
      assert forall r :: round <= r <= round + f ==> ProposerFor(height, r, active) in all;
    }
  }

  lemma {:induction false} Extended(a: set<Id>, n: nat) returns (b: set<Id>)
    requires |a| <= n
    ensures a <= b && |b| == n
    decreases n - |a|
  {
    if |a| == n {
      b := a;
    } else {
      var x := Unused(a);
      b := Extended(a + {x}, n);
    }
  }

  lemma Unused(a: set<Id>) returns (x: Id)
    ensures x !in a
  {
    var all := Rounds(0, |a| + 1);
    if all <= a { SubsetSize(all, a); }
    x :| x in all && x !in a;
  }

  lemma NoLonger(k: nat, f: nat)
    requires k <= f
    ensures k * MAX_TIMEOUT <= f * MAX_TIMEOUT
  {
  }

  // ---------- the timer ----------

  datatype TimerOp = Start(round: nat, now: int) | Stop | ForceExpire(now: int) | Poll(now: int)

  function Starts(ops: seq<TimerOp>): nat {
    if ops == [] then 0 else Starts(ops[..|ops| - 1]) + (if ops[|ops| - 1].Start? then 1 else 0)
  }

  /** A timer that is asked; times are in milliseconds. */
  class RoundTimer {
    var deadline: int
    var running: bool

    constructor ()
      ensures !running
    {
      running := false;
    }

    method Start(round: nat, now: int)
      modifies this
      ensures running && deadline == now + TimeoutFor(round)
    {
      deadline := now + TimeoutFor(round);
      running := true;
    }

    method Stop()
      modifies this
      ensures !running && deadline == old(deadline)
    {
      running := false;
    }

    method ForceExpire(now: int)
      modifies this
      ensures running == old(running) && deadline == now
    {
      deadline := now;
    }

    /** Fires once the deadline has passed, and then not again. */
    method Poll(now: int) returns (fired: bool)
      modifies this
      ensures fired <==> old(running) && now >= old(deadline)
      ensures running == (old(running) && !fired) && deadline == old(deadline)
    {
      if !running { return false; }
      if now < deadline { return false; }
      running := false;
      return true;
    }

    /** Does one operation; only a poll can fire. */
    method Perform(op: TimerOp) returns (fired: bool)
      modifies this
      ensures fired <==> op.Poll? && old(running) && op.now >= old(deadline)
      ensures running == (op.Start? || (old(running) && !op.Stop? && !fired))
    {
      fired := false;
      match op
      case Start(round, now) => Start(round, now);
      case Stop => Stop();
      case ForceExpire(now) => ForceExpire(now);
      case Poll(now) => fired := Poll(now);
    }

    /** However it is used, a timer does not fire more often than it is started. */
    method PerformAll(ops: seq<TimerOp>) returns (fired: nat)
      modifies this
      ensures fired + (if running then 1 else 0) <= Starts(ops) + (if old(running) then 1 else 0)
    {
      fired := 0;
      for i := 0 to |ops|
        invariant fired + (if running then 1 else 0) <= Starts(ops[..i]) + (if old(running) then 1 else 0)
      {
        assert ops[..i + 1][..i] == ops[..i];
        var f := Perform(ops[i]);
        if f { fired := fired + 1; }
      }
      assert ops[..|ops|] == ops;
    }

    /** Of any polls after a start only the first one past the deadline fires. */
    method PollAll(times: seq<int>) returns (fired: seq<bool>)
      modifies this
      ensures |fired| == |times| && deadline == old(deadline)
      ensures forall i :: 0 <= i < |times| ==>
        (fired[i] <==> old(running) && times[i] >= old(deadline) && forall j :: 0 <= j < i ==> times[j] < old(deadline))
    {
      fired := [];
      for i := 0 to |times|
        invariant |fired| == i && deadline == old(deadline)
        invariant running <==> old(running) && forall j :: 0 <= j < i ==> times[j] < old(deadline)
        invariant forall k :: 0 <= k < i ==>
          (fired[k] <==> old(running) && times[k] >= old(deadline) && forall j :: 0 <= j < k ==> times[j] < old(deadline))
      {
        var f := Poll(times[i]);
        fired := fired + [f];
      }
    }
  }
}
