/** The token bucket, against an ideal bucket that is filled continuously. */
module RateLimiter {

  const MICRO: nat := 1_000_000
  const TWO64: nat := 0x1_0000_0000_0000_0000
  const TWO32: nat := 0x1_0000_0000

  /** The nanoseconds of a microsecond; what a refill counts are whole microseconds. */
  const TICK: nat := 1000

  /** The fields of a bucket; times are in nanoseconds. */
  datatype Bucket = Bucket(burst: nat, rate: nat, tokens: nat, micro: nat, last: int)

  predicate BucketOk(b: Bucket) {
    0 < b.burst < TWO32 && 0 < b.rate < TWO32 && b.tokens <= b.burst && b.micro < MICRO
  }

  // ---------- filling ----------

  /** `sum` millionths are split into whole tokens, cut off at the burst, and a carry. */
  function Filled(b: Bucket, sum: nat): (r: Bucket)
    requires BucketOk(b)
    ensures BucketOk(r) && r.burst == b.burst && r.rate == b.rate && r.last == b.last
  {
    var tokens := b.tokens + sum / MICRO;
    b.(tokens := if tokens > b.burst then b.burst else tokens, micro := sum % MICRO)
  }

  /** The time since the last refill. */
  function Passed(b: Bucket, now: int): nat { if now <= b.last then 0 else now - b.last }

  /** The whole microseconds of it. */
  function Elapsed(b: Bucket, now: int): nat { Passed(b, now) / TICK }

  function Gain(b: Bucket, now: int): nat { b.rate * Elapsed(b, now) }

  /** The 64-bit product and sum of a refill do not wrap around. */
  predicate NoWrap(b: Bucket, now: int) { b.micro + Gain(b, now) < TWO64 }

  /** The bucket after a refill, in 64-bit arithmetic; less than a microsecond does not count yet. */
  function Refilled(b: Bucket, now: int): (r: Bucket)
    requires BucketOk(b)
    ensures BucketOk(r) && r.burst == b.burst && r.rate == b.rate
  {
    if Elapsed(b, now) == 0 then b
    else Filled(b, (b.micro + Gain(b, now) % TWO64) % TWO64).(last := now)
  }

  /** The refill without a limit on its numbers. */
  function Exact(b: Bucket, now: int): (r: Bucket)
    requires BucketOk(b)
    ensures BucketOk(r) && r.burst == b.burst && r.rate == b.rate
  {
    if Elapsed(b, now) == 0 then b else Filled(b, b.micro + Gain(b, now)).(last := now)
  }

  lemma NoWrapSum(g: nat, m: nat)
    requires m + g < TWO64
    ensures (m + g % TWO64) % TWO64 == m + g
  {
  }

  lemma RefilledIs(b: Bucket, now: int)
    requires BucketOk(b) && NoWrap(b, now)
    ensures Refilled(b, now) == Exact(b, now)
  {
    NoWrapSum(Gain(b, now), b.micro);
  }

  // ---------- where the sum wraps around ----------

  /** The fewest microseconds after which the sum reaches 2^64. */
  function FirstWrap(rate: nat, micro: nat): (e: nat)
    requires rate > 0 && micro < TWO64
    ensures TWO64 <= micro + rate * e < TWO64 + rate && e > 0
  {
    var need := TWO64 - micro;
    var e := (need + rate - 1) / rate;
    LeastFactor(need, rate, e);
    e
  }

  lemma LeastFactor(need: nat, rate: nat, e: nat)
    requires need > 0 && rate > 0 && e == (need + rate - 1) / rate
    ensures need <= rate * e < need + rate && e > 0
  {
    var x := need + rate - 1;
    assert x == rate * (x / rate) + x % rate;
  }

  lemma NoSooner(rate: nat, micro: nat, e: nat, late: nat)
    requires rate > 0 && micro + rate * e < TWO64 + rate && micro + rate * late >= TWO64
    ensures e <= late
  {
    if e >= late + 1 { Grows(rate, late + 1, e); }
  }

  lemma Grows(a: nat, x: nat, y: nat)
    requires x <= y
    ensures a * x <= a * y
  {
    Distributes(a, x, y - x);
  }

  /** A wrapped sum leaves another carry. */
  lemma WrapShows(b: Bucket, now: int)
    requires BucketOk(b) && TWO64 <= b.micro + Gain(b, now) < TWO64 + TWO32
    ensures Refilled(b, now) != Exact(b, now)
  {
    var g, m := Gain(b, now), b.micro;
    WrappedSum(g, m);
    assert Elapsed(b, now) != 0;
    OtherCarry(m + g - TWO64);
  }

  lemma WrappedSum(g: nat, m: nat)
    requires m < MICRO && TWO64 <= m + g < TWO64 + TWO32
    ensures (m + g % TWO64) % TWO64 == m + g - TWO64
  {
  }

  lemma OtherCarry(x: nat)
    ensures (x + TWO64) % MICRO != x % MICRO
  {
    assert TWO64 == 18_446_744_073_709 * MICRO + 551_616;
    Carried(18_446_744_073_709, x + 551_616);
  }

  /** All refills up to a time are exact just if the one at that time does not wrap around. */
  lemma ExactIffNoWrap(b: Bucket, end: int)
    requires BucketOk(b)
    ensures (forall t :: t <= end ==> Refilled(b, t) == Exact(b, t)) <==> NoWrap(b, end)
  {
    if NoWrap(b, end) {
      forall t | t <= end ensures Refilled(b, t) == Exact(b, t) {
        Grows(b.rate, Elapsed(b, t), Elapsed(b, end));
        RefilledIs(b, t);
      }
    } else {
      var e := FirstWrap(b.rate, b.micro);
      NoSooner(b.rate, b.micro, e, Elapsed(b, end));
      var t := b.last + TICK * e;
      assert Passed(b, t) == TICK * e && Elapsed(b, t) == e;
      WrapShows(b, t);
      assert t <= end;
    }
  }

  /** A refill of the whole bucket can be lost: two hours and more at 2^31 tokens a second. */
  lemma WrapLosesTokens()
    ensures var b, now := Bucket(1000, 0x8000_0000, 0, 0, 0), 0x2_0000_0000 * TICK;
      BucketOk(b) && Exact(b, now).tokens == b.burst && Refilled(b, now).tokens == 0
  {
    var b, now := Bucket(1000, 0x8000_0000, 0, 0, 0), 0x2_0000_0000 * TICK;
    assert Elapsed(b, now) == 0x2_0000_0000 && Gain(b, now) == TWO64;
  }

  // ---------- polls ----------

  lemma Carried(w: nat, x: nat)
    ensures (w * MICRO + x) / MICRO == w + x / MICRO && (w * MICRO + x) % MICRO == x % MICRO
  {
  }

  lemma FilledTwice(b: Bucket, sum: nat, more: nat)
    requires BucketOk(b)
    ensures Filled(Filled(b, sum), sum % MICRO + more) == Filled(b, sum + more)
  {
    Carried(sum / MICRO, sum % MICRO + more);
    assert sum / MICRO * MICRO + (sum % MICRO + more) == sum + more;
  }

  lemma Distributes(a: nat, x: nat, y: nat)
    ensures a * x + a * y == a * (x + y)
  {
  }

  /** The fractions of a microsecond before and after a poll make up one more. */
  predicate Splits(x: nat, y: nat) { x % TICK + y % TICK >= TICK }

  lemma SplitCounts(x: nat, y: nat)
    ensures (x + y) / TICK == x / TICK + y / TICK + (if Splits(x, y) then 1 else 0)
  {
  }

  /** What is gained in one refill more than in two. */
  predicate Unseen(b: Bucket, sum: nat)
    requires BucketOk(b)
  {
    b.rate % MICRO == 0 && b.tokens + sum / MICRO >= b.burst
  }

  lemma UnseenIs(b: Bucket, sum: nat)
    requires BucketOk(b)
    ensures Filled(b, sum + b.rate) == Filled(b, sum) <==> Unseen(b, sum)
  {
    var w, f := b.rate / MICRO, b.rate % MICRO;
    Carried(w, sum + f);
    assert w * MICRO + (sum + f) == sum + b.rate;
    if f == 0 { assert w > 0; }
  }

  /** A poll at `t` is not noticed by a refill at `now`. */
  predicate Harmless(b: Bucket, t: int, now: int)
    requires BucketOk(b) && t <= now
  {
    var x, y := Passed(b, t), now - t;
    || x < TICK || y == 0
    || (y >= TICK && (Splits(x, y) ==> Unseen(b, b.micro + b.rate * (x / TICK + y / TICK))))
  }

  lemma ExactTwice(b: Bucket, t: int, now: int)
    requires BucketOk(b) && t <= now && Passed(b, t) >= TICK && now - t >= TICK
    ensures Exact(Exact(b, t), now) ==
      Filled(b, b.micro + b.rate * (Passed(b, t) / TICK + (now - t) / TICK)).(last := now)
  {
    var x, y := Passed(b, t) / TICK, (now - t) / TICK;
    var r := Exact(b, t);
    assert Elapsed(r, now) == y;
    Distributes(b.rate, x, y);
    FilledTwice(b, b.micro + b.rate * x, b.rate * y);
    assert Exact(r, now) == Filled(r, r.micro + b.rate * y).(last := now);
  }

  /** Refilling on the way makes no difference just if the poll is harmless. */
  lemma ExactRefillTwice(b: Bucket, t: int, now: int)
    requires BucketOk(b) && t <= now
    ensures Exact(Exact(b, t), now) == Exact(b, now) <==> Harmless(b, t, now)
  {
    var x, y := Passed(b, t), now - t;
    if x >= TICK && y > 0 {
      assert Passed(b, now) == x + y;
      SplitCounts(x, y);
      if y >= TICK {
        var e := x / TICK + y / TICK;
        ExactTwice(b, t, now);
        if Splits(x, y) {
          Distributes(b.rate, e, 1);
          UnseenIs(b, b.micro + b.rate * e);
          LastApart(b, b.micro + b.rate * e + b.rate, b.micro + b.rate * e, now);
        }
      } else {
        assert Exact(Exact(b, t), now).last == t;
      }
    }
  }

  lemma LastApart(b: Bucket, sum: nat, other: nat, now: int)
    requires BucketOk(b)
    ensures Filled(b, sum).(last := now) == Filled(b, other).(last := now) <==> Filled(b, sum) == Filled(b, other)
  {
  }

  /** The same in 64 bits, as long as nothing wraps around. */
  lemma RefillTwice(b: Bucket, t: int, now: int)
    requires BucketOk(b) && t <= now && NoWrap(b, now)
    ensures Refilled(Refilled(b, t), now) == Refilled(b, now) <==> Harmless(b, t, now)
  {
    StaysExact(b, t, now);
    RefilledIs(b, now);
    ExactRefillTwice(b, t, now);
  }

  /** A refill on the way does not make a later one wrap around. */
  lemma StaysExact(b: Bucket, t: int, now: int)
    requires BucketOk(b) && t <= now && NoWrap(b, now)
    ensures Refilled(b, t) == Exact(b, t) && NoWrap(Exact(b, t), now)
    ensures Refilled(Refilled(b, t), now) == Exact(Exact(b, t), now)
  {
    var r := Exact(b, t);
    Grows(b.rate, Elapsed(b, t), Elapsed(b, now));
    RefilledIs(b, t);
    if Elapsed(b, t) > 0 {
      var x, y := Passed(b, t), now - t;
      SplitCounts(x, y);
      assert Elapsed(r, now) == y / TICK && x / TICK >= 1;
      Distributes(b.rate, x / TICK, y / TICK);
      Grows(b.rate, x / TICK + y / TICK, Elapsed(b, now));
      CarryBelow(b.micro + b.rate * (x / TICK));
    }
    RefilledIs(r, now);
  }

  lemma CarryBelow(sum: nat)
    ensures sum % MICRO <= sum
  {
  }

  /** A clock finer than microseconds loses time at every refill: two polls see two tokens, one sees three. */
  lemma PollLosesToken()
    ensures var b := Bucket(10, 1_000_000, 0, 0, 0);
      && BucketOk(b) && NoWrap(b, 3998) && !Harmless(b, 1999, 3998)
      && Refilled(Refilled(b, 1999), 3998).tokens == 2 && Refilled(b, 3998).tokens == 3
  {
  }

  // ---------- runs ----------

  /** A request for `n` tokens, or a poll when `n` is zero. */
  datatype Event = Event(n: nat, now: int)

  predicate Granted(b: Bucket, e: Event)
    requires BucketOk(b)
  {
    Refilled(b, e.now).tokens >= e.n
  }

  function After(b: Bucket, e: Event): (r: Bucket)
    requires BucketOk(b)
    ensures BucketOk(r) && r.burst == b.burst && r.rate == b.rate
  {
    var f := Refilled(b, e.now);
    if Granted(b, e) then f.(tokens := f.tokens - e.n) else f
  }

  function Grant(b: Bucket, e: Event): nat
    requires BucketOk(b)
  {
    if Granted(b, e) then e.n else 0
  }

  function Run(b: Bucket, es: seq<Event>): (r: Bucket)
    requires BucketOk(b)
    ensures BucketOk(r) && r.burst == b.burst && r.rate == b.rate
    decreases |es|
  {
    if es == [] then b else Run(After(b, es[0]), es[1..])
  }

  /** All tokens granted in a run. */
  function Total(b: Bucket, es: seq<Event>): nat
    requires BucketOk(b)
    decreases |es|
  {
    if es == [] then 0 else Grant(b, es[0]) + Total(After(b, es[0]), es[1..])
  }

  // ---------- the ideal bucket ----------

  /** Billionths of a token; the ideal bucket gains `rate` of them in a nanosecond. */
  const NANO: nat := 1_000_000_000

  /** Tokens and carry together. */
  function Level(b: Bucket): nat { b.tokens * NANO + b.micro * TICK }

  function Least(x: int, y: int): int { if x < y then x else y }

  /** The ideal bucket gains continuously up to the burst, and is charged with what the real one grants. */
  function Ideal(level: int, b: Bucket, e: Event): int
    requires BucketOk(b)
  {
    Least(level + b.rate * Passed(b, e.now), b.burst * NANO) - Grant(b, e) * NANO
  }

  function IdealRun(level: int, b: Bucket, es: seq<Event>): int
    requires BucketOk(b)
    decreases |es|
  {
    if es == [] then level else IdealRun(Ideal(level, b, es[0]), After(b, es[0]), es[1..])
  }

  /** The bucket is never behind the ideal one, and less than one token ahead. */
  predicate Close(level: int, b: Bucket) { level <= Level(b) < level + NANO && level <= b.burst * NANO }

  /** The event comes after whole microseconds, or after so many that any bucket is full. */
  predicate OnTime(burst: nat, rate: nat, passed: nat) {
    passed % TICK == 0 || rate * (passed / TICK) >= burst * MICRO
  }

  /** The level counts what was gained, but for what runs over. */
  lemma FilledLevel(b: Bucket, gain: nat)
    requires BucketOk(b)
    ensures var f, all := Filled(b, b.micro + gain), Level(b) + gain * TICK;
      Level(f) == all || (f.tokens == b.burst && Level(f) <= all)
  {
    var sum := b.micro + gain;
    Carried(b.tokens, sum);
    assert (b.tokens + sum / MICRO) * NANO + sum % MICRO * TICK == Level(b) + gain * TICK;
  }

  lemma FilledClose(level: int, b: Bucket, gain: nat, inflow: nat)
    requires BucketOk(b) && Close(level, b) && inflow >= gain * TICK && (inflow == gain * TICK || gain >= b.burst * MICRO)
    ensures Close(Least(level + inflow, b.burst * NANO), Filled(b, b.micro + gain))
  {
    FilledLevel(b, gain);
    if gain >= b.burst * MICRO { assert (b.micro + gain) / MICRO >= b.burst; }
  }

  lemma WholeTime(rate: nat, passed: nat)
    ensures rate * passed == rate * (passed / TICK) * TICK + rate * (passed % TICK)
  {
    Distributes(rate, passed / TICK * TICK, passed % TICK);
  }

  lemma RefilledClose(level: int, b: Bucket, now: int)
    requires BucketOk(b) && Close(level, b) && NoWrap(b, now) && OnTime(b.burst, b.rate, Passed(b, now))
    ensures Close(Least(level + b.rate * Passed(b, now), b.burst * NANO), Refilled(b, now))
  {
    var g, inflow := Gain(b, now), b.rate * Passed(b, now);
    InflowIs(b.rate, Passed(b, now), g, inflow);
    FilledClose(level, b, g, inflow);
    RefilledIs(b, now);
    SameLevel(b, now, g);
  }

  lemma InflowIs(rate: nat, passed: nat, gain: nat, inflow: nat)
    requires gain == rate * (passed / TICK) && inflow == rate * passed
    ensures inflow >= gain * TICK && (passed % TICK == 0 ==> inflow == gain * TICK)
  {
    WholeTime(rate, passed);
  }

  lemma SameLevel(b: Bucket, now: int, gain: nat)
    requires BucketOk(b) && gain == Gain(b, now)
    ensures var e, f := Exact(b, now), Filled(b, b.micro + gain); e.tokens == f.tokens && e.micro == f.micro
  {
  }

  lemma StepClose(level: int, b: Bucket, e: Event)
    requires BucketOk(b) && Close(level, b) && NoWrap(b, e.now) && OnTime(b.burst, b.rate, Passed(b, e.now))
    ensures Close(Ideal(level, b, e), After(b, e))
  {
    RefilledClose(level, b, e.now);
  }

  /** Every bucket of that size and speed that is close to an ideal one stays so until `now`. */
  ghost predicate KeepsClose(burst: nat, rate: nat, last: int, now: int) {
    forall level: int, b: Bucket ::
      BucketOk(b) && b.burst == burst && b.rate == rate && b.last == last && Close(level, b) ==>
      Close(Ideal(level, b, Event(0, now)), After(b, Event(0, now)))
  }

  /** That is so just for events on time. */
  lemma CloseIffOnTime(burst: nat, rate: nat, last: int, now: int)
    requires 0 < burst < TWO32 && 0 < rate < TWO32 && last <= now && MICRO + rate * ((now - last) / TICK) < TWO64
    ensures KeepsClose(burst, rate, last, now) <==> OnTime(burst, rate, now - last)
  {
    var p := now - last;
    if OnTime(burst, rate, p) {
      forall level: int, b: Bucket | BucketOk(b) && b.burst == burst && b.rate == rate && b.last == last && Close(level, b)
        ensures Close(Ideal(level, b, Event(0, now)), After(b, Event(0, now)))
      {
        StepClose(level, b, Event(0, now));
      }
    } else {
      var b := Bucket(burst, rate, 0, 0, last);
      FallsBehind(b, now);
    }
  }

  /** An empty bucket falls behind where some of the time is not counted. */
  lemma FallsBehind(b: Bucket, now: int)
    requires BucketOk(b) && b.tokens == 0 && b.micro == 0 && NoWrap(b, now) && !OnTime(b.burst, b.rate, Passed(b, now))
    ensures Close(0, b) && !Close(Ideal(0, b, Event(0, now)), After(b, Event(0, now)))
  {
    var p := Passed(b, now);
    RefilledIs(b, now);
    WholeTime(b.rate, p);
    FilledLevel(b, Gain(b, now));
    SomeRate(b.rate, p % TICK);
    assert (b.micro + Gain(b, now)) / MICRO < b.burst;
    assert Level(After(b, Event(0, now))) == Gain(b, now) * TICK;
  }

  lemma SomeRate(rate: nat, x: nat)
    requires rate > 0 && x > 0
    ensures rate * x > 0
  {
  }

  /** No refill of the run wraps around, and every event is on time. */
  predicate RunOk(b: Bucket, es: seq<Event>)
    requires BucketOk(b)
    decreases |es|
  {
    || es == []
    || (NoWrap(b, es[0].now) && OnTime(b.burst, b.rate, Passed(b, es[0].now)) && RunOk(After(b, es[0]), es[1..]))
  }

  /** Over any such run the bucket stays within one token above the ideal one. */
  lemma {:induction false} RunClose(level: int, b: Bucket, es: seq<Event>)
    requires BucketOk(b) && Close(level, b) && RunOk(b, es)
    ensures Close(IdealRun(level, b, es), Run(b, es))
    decreases |es|
  {
    if es != [] {
      StepClose(level, b, es[0]);
      RunClose(Ideal(level, b, es[0]), After(b, es[0]), es[1..]);
    }
  }

  /** The ideal level when an event comes, before it is charged. */
  function IdealBefore(level: int, b: Bucket, now: int): int {
    Least(level + b.rate * Passed(b, now), b.burst * NANO)
  }

  /** What the ideal bucket holds decides, but for the last token: with `n` whole tokens the request is
  granted, and only with more than `n - 1`. */
  lemma GrantDecided(level: int, b: Bucket, e: Event)
    requires BucketOk(b) && Close(level, b) && NoWrap(b, e.now) && OnTime(b.burst, b.rate, Passed(b, e.now))
    ensures IdealBefore(level, b, e.now) >= e.n * NANO ==> Grant(b, e) == e.n && Granted(b, e)
    ensures Granted(b, e) ==> IdealBefore(level, b, e.now) > (e.n - 1) * NANO
  {
    RefilledClose(level, b, e.now);
    LevelCounts(Refilled(b, e.now), e.n);
  }

  lemma LevelCounts(b: Bucket, n: nat)
    requires BucketOk(b)
    ensures Level(b) >= n * NANO <==> b.tokens >= n
  {
    assert b.tokens * NANO <= Level(b) < (b.tokens + 1) * NANO;
  }

  /** The same for every event of a run on time. */
  lemma {:induction false} RunDecided(level: int, b: Bucket, es: seq<Event>, i: nat)
    requires BucketOk(b) && Close(level, b) && RunOk(b, es) && i < |es|
    ensures var at, m, n := Run(b, es[..i]), IdealBefore(IdealRun(level, b, es[..i]), Run(b, es[..i]), es[i].now), es[i].n;
      && (m >= n * NANO ==> Grant(at, es[i]) == n && Granted(at, es[i]))
      && (Granted(at, es[i]) ==> m > (n - 1) * NANO)
    decreases |es|
  {
    if i == 0 {
      GrantDecided(level, b, es[0]);
    } else {
      StepClose(level, b, es[0]);
      RunDecided(Ideal(level, b, es[0]), After(b, es[0]), es[1..], i - 1);
      assert es[..i][1..] == es[1..][..i - 1];
    }
  }

  // ---------- the bound ----------

  /** Tokens and carry together, in millionths. */
  function Stock(b: Bucket): nat { b.tokens * MICRO + b.micro }

  /** The microseconds counted over a run. */
  function Counted(b: Bucket, es: seq<Event>): nat
    requires BucketOk(b)
    decreases |es|
  {
    if es == [] then 0 else Elapsed(b, es[0].now) + Counted(After(b, es[0]), es[1..])
  }

  lemma WrapsDown(m: nat, g: nat)
    ensures (m + g % TWO64) % TWO64 <= m + g
  {
  }

  lemma StepSpends(b: Bucket, e: Event)
    requires BucketOk(b)
    ensures Grant(b, e) * MICRO + Stock(After(b, e)) <= Stock(b) + Gain(b, e.now)
  {
    var g := Gain(b, e.now);
    var sum := (b.micro + g % TWO64) % TWO64;
    WrapsDown(b.micro, g);
    if Elapsed(b, e.now) > 0 {
      Carried(b.tokens, sum);
      assert (b.tokens + sum / MICRO) * MICRO + sum % MICRO == b.tokens * MICRO + sum;
      assert Stock(Refilled(b, e.now)) <= Stock(b) + g;
    }
  }

  lemma {:induction false} RunSpends(b: Bucket, es: seq<Event>)
    requires BucketOk(b)
    ensures Total(b, es) * MICRO + Stock(Run(b, es)) <= Stock(b) + b.rate * Counted(b, es)
    decreases |es|
  {
    if es != [] {
      var a := After(b, es[0]);
      StepSpends(b, es[0]);
      RunSpends(a, es[1..]);
      Distributes(b.rate, Elapsed(b, es[0].now), Counted(a, es[1..]));
    }
  }

  /** No more microseconds are counted than have passed. */
  lemma {:induction false} CountedWithin(b: Bucket, es: seq<Event>, end: int)
    requires BucketOk(b) && b.last <= end && forall i :: 0 <= i < |es| ==> es[i].now <= end
    ensures TICK * Counted(b, es) <= end - b.last
    decreases |es|
  {
    if es != [] { CountedWithin(After(b, es[0]), es[1..], end); }
  }

  lemma Quotient(total: nat, burst: nat, gain: nat)
    requires total * MICRO <= burst * MICRO + 999_999 + gain
    ensures total <= burst + (gain + 999_999) / MICRO
  {
  }

  /** The refill of the first event can be done before. */
  lemma FirstRefill(b: Bucket, es: seq<Event>)
    requires BucketOk(b) && es != []
    ensures var f := Refilled(b, es[0].now);
      Total(f, es) == Total(b, es) && f.last > es[0].now - TICK
  {
    var e, f := es[0], Refilled(b, es[0].now);
    assert Refilled(f, e.now) == f;
    assert After(f, e) == After(b, e) && Grant(f, e) == Grant(b, e);
  }

  /** A window of `t` nanoseconds grants at most a burst and what flows in meanwhile, wrap-around or not. */
  lemma WindowBound(b: Bucket, es: seq<Event>, t: nat)
    requires BucketOk(b) && es != [] && forall i :: 0 <= i < |es| ==> es[i].now <= es[0].now + t
    ensures Total(b, es) <= b.burst + (b.rate * ((t + 999) / TICK) + 999_999) / MICRO
  {
    var f := Refilled(b, es[0].now);
    var c := Counted(f, es);
    FirstRefill(b, es);
    RunSpends(f, es);
    FewTicks(f, es, t, c);
    WindowSum(Total(f, es), b.burst, b.rate, c, (t + 999) / TICK, Stock(f), Stock(Run(f, es)));
  }

  lemma WindowSum(total: nat, burst: nat, rate: nat, c: nat, ticks: nat, first: nat, last: nat)
    requires total * MICRO + last <= first + rate * c && first <= burst * MICRO + 999_999 && c <= ticks
    ensures total <= burst + (rate * ticks + 999_999) / MICRO
  {
    Grows(rate, c, ticks);
    Quotient(total, burst, rate * ticks);
  }

  lemma FewTicks(f: Bucket, es: seq<Event>, t: nat, c: nat)
    requires BucketOk(f) && es != [] && f.last > es[0].now - TICK && c == Counted(f, es)
    requires forall i :: 0 <= i < |es| ==> es[i].now <= es[0].now + t
    ensures c <= (t + 999) / TICK
  {
    var end := es[0].now + t;
    CountedWithin(f, es, if f.last <= end then end else f.last);
  }

  // ---------- extra polls ----------

  /** What the next event makes of the bucket is the same with a poll before it just if the poll is harmless. */
  lemma PollNext(b: Bucket, t: int, e: Event)
    requires BucketOk(b) && t <= e.now && NoWrap(b, e.now)
    ensures var p := After(b, Event(0, t));
      After(p, e) == After(b, e) && Grant(p, e) == Grant(b, e) <==> Harmless(b, t, e.now)
  {
    var p := After(b, Event(0, t));
    assert p == Refilled(b, t);
    RefillTwice(b, t, e.now);
    SameRefill(p, b, e);
  }

  lemma SameRefill(p: Bucket, b: Bucket, e: Event)
    requires BucketOk(p) && BucketOk(b)
    ensures After(p, e) == After(b, e) && Grant(p, e) == Grant(b, e) <==> Refilled(p, e.now) == Refilled(b, e.now)
  {
  }

  /** A harmless poll anywhere in a run changes no grant and not the bucket at the end. */
  lemma {:induction false} PollAnywhere(b: Bucket, before: seq<Event>, t: int, after: seq<Event>)
    requires BucketOk(b) && after != [] && t <= after[0].now
    requires var at := Run(b, before); NoWrap(at, after[0].now) && Harmless(at, t, after[0].now)
    ensures var polled := before + [Event(0, t)] + after;
      Total(b, polled) == Total(b, before + after) && Run(b, polled) == Run(b, before + after)
    decreases |before|
  {
    var polled := before + [Event(0, t)] + after;
    if before == [] {
      assert before + after == after && polled == [Event(0, t)] + after && polled[1..] == after;
      PollNext(b, t, after[0]);
    } else {
      assert (before + after)[1..] == before[1..] + after;
      assert polled[1..] == before[1..] + [Event(0, t)] + after;
      PollAnywhere(After(b, before[0]), before[1..], t, after);
    }
  }

  /** By a clock in whole microseconds every poll is harmless. */
  lemma WholeMicroseconds(b: Bucket, t: int, now: int)
    requires BucketOk(b) && t <= now && (t - b.last) % TICK == 0 && (now - b.last) % TICK == 0
    ensures Harmless(b, t, now) && OnTime(b.burst, b.rate, Passed(b, now))
  {
    var x, y := t - b.last, now - t;
    assert y % TICK == 0;
  }

  // ---------- the class ----------

  class Limiter {
    const burst: nat
    const rate: nat
    const enabled: bool
    var tokens: nat
    var micro: nat
    var last: int

    ghost function State(): Bucket
      reads this
    {
      Bucket(burst, rate, tokens, micro, last)
    }

    ghost predicate Valid()
      reads this
    {
      enabled ==> BucketOk(State())
    }

    constructor (burst: nat, rate: nat, now: int)
      requires burst < TWO32 && rate < TWO32
      ensures Valid() && State() == Bucket(burst, rate, burst, 0, now)
      ensures enabled <==> burst != 0 && rate != 0
      ensures enabled ==> Close(burst * NANO, State())
    {
      this.burst, this.rate, this.enabled := burst, rate, burst != 0 && rate != 0;
      this.tokens, this.micro, this.last := burst, 0, now;
    }

    method Refill(now: int)
      requires Valid() && enabled
      modifies this
      ensures Valid() && State() == Refilled(old(State()), now)
    {
      if now <= last { return; }
      var elapsed := (now - last) / TICK;
      if elapsed <= 0 { return; }
      last := now;
      var gained := rate * elapsed % TWO64;
      micro := (micro + gained) % TWO64;
      var whole := micro / MICRO;
      if whole == 0 { return; }
      micro := micro - whole * MICRO;
      var capped := tokens + whole;
      tokens := if capped > burst then burst else capped;
    }

    /** Takes `n` tokens if there are as many. */
    method TryConsume(n: nat, now: int) returns (ok: bool)
      requires Valid()
      modifies this
      ensures Valid()
      ensures !enabled ==> ok && State() == old(State())
      ensures enabled ==> State() == After(old(State()), Event(n, now)) && (ok <==> Granted(old(State()), Event(n, now)))
      ensures enabled ==> (ok <==> n <= Refilled(old(State()), now).tokens)
    {
      if !enabled { return true; }
      Refill(now);
      if tokens >= n {
        tokens := tokens - n;
        return true;
      }
      return false;
    }

    method Available(now: int) returns (n: nat)
      requires Valid()
      modifies this
      ensures Valid()
      ensures !enabled ==> n == burst && State() == old(State())
      ensures enabled ==> State() == After(old(State()), Event(0, now)) && n == tokens
    {
      if !enabled { return burst; }
      Refill(now);
      n := tokens;
    }
  }
}
