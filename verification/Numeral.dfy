/** Numbers written with a fixed number of digits, the most significant first. */
module Numeral {

  // ---------- division ----------

  lemma Divided(v: nat, d: nat)
    requires d > 0
    ensures v == (v / d) * d + v % d && 0 <= v % d < d && 0 <= v / d
  {
  }

  lemma AtLeast(k: int, d: int)
    requires k >= 1 && d > 0
    ensures k * d >= d
  {
  }

  lemma OneWay(d: int, q: int, r: int, p: int, s: int)
    requires d > 0 && 0 <= r < d && 0 <= s < d && q * d + r == p * d + s
    ensures q == p && r == s
  {
    assert (q - p) * d == q * d - p * d && (p - q) * d == p * d - q * d;
    if q > p { AtLeast(q - p, d); }
    if p > q { AtLeast(p - q, d); }
  }

  /** Quotient and remainder are the only ones there are. */
  lemma Quotient(v: nat, d: nat, q: nat, r: nat)
    requires d > 0 && r < d && v == q * d + r
    ensures v / d == q && v % d == r
  {
    Divided(v, d);
    OneWay(d, v / d, v % d, q, r);
  }

  lemma QuotientBelow(v: nat, d: nat, p: nat)
    requires d > 0 && v < d * p
    ensures v / d < p
  {
    Divided(v, d);
    var k := v / d - p;
    if k >= 0 {
      assert (p + k) * d == d * p + k * d;
      if k > 0 { AtLeast(k, d); }
    }
  }

  lemma QuotientTwice(v: nat, b: nat, c: nat)
    requires b > 0 && c > 0
    ensures b * c > 0 && v / b / c == v / (b * c)
  {
    Divided(v, b);
    Divided(v / b, c);
    var s, t := v / b / c, v / b % c;
    AtLeast(c, b);
    AtLeast(c - t, b);
    Regrouped(b, c, s, t, v % b);
    Quotient(v, b * c, s, t * b + v % b);
  }

  lemma Regrouped(b: nat, c: nat, s: nat, t: nat, r: nat)
    requires r < b && t < c
    ensures (s * c + t) * b + r == s * (b * c) + (t * b + r)
    ensures t * b + r < b * c
  {
    assert (s * c + t) * b == s * c * b + t * b;
    assert s * c * b == s * (b * c);
    assert b * c == t * b + (c - t) * b;
    AtLeast(c - t, b);
  }

  // ---------- numerals ----------

  function Pow(b: nat, n: nat): nat { if n == 0 then 1 else b * Pow(b, n - 1) }

  lemma {:induction false} PowPositive(b: nat, n: nat)
    requires b > 0
    ensures Pow(b, n) > 0
  {
    if n > 0 { PowPositive(b, n - 1); }
  }

  lemma {:induction false} PowMonotone(b: nat, m: nat, n: nat)
    requires b > 0 && m <= n
    ensures Pow(b, m) <= Pow(b, n)
    decreases n
  {
    if m < n {
      PowMonotone(b, m, n - 1);
      assert Pow(b, n - 1) <= b * Pow(b, n - 1);
    }
  }

  predicate AllDigits(b: nat, ds: seq<nat>) { forall i :: 0 <= i < |ds| ==> ds[i] < b }

  function Value(b: nat, ds: seq<nat>): nat {
    if ds == [] then 0 else Value(b, ds[..|ds| - 1]) * b + ds[|ds| - 1]
  }

  function ToDigits(b: nat, v: nat, n: nat): (ds: seq<nat>)
    requires b > 0
    ensures |ds| == n
    decreases n
  {
    if n == 0 then [] else Divided(v, b); ToDigits(b, v / b, n - 1) + [v % b]
  }

  lemma {:induction false} DigitsBelow(b: nat, v: nat, n: nat)
    requires b > 0
    ensures AllDigits(b, ToDigits(b, v, n))
    decreases n
  {
    if n > 0 {
      Divided(v, b);
      DigitsBelow(b, v / b, n - 1);
    }
  }

  /** Digits give the number back. */
  lemma {:induction false} ValueOfDigits(b: nat, v: nat, n: nat)
    requires b > 0 && v < Pow(b, n)
    ensures Value(b, ToDigits(b, v, n)) == v
    decreases n
  {
    if n > 0 {
      QuotientBelow(v, b, Pow(b, n - 1));
      Divided(v, b);
      ValueOfDigits(b, v / b, n - 1);
      assert ToDigits(b, v, n)[..n - 1] == ToDigits(b, v / b, n - 1);
    }
  }

  lemma BelowNext(b: nat, q: nat, r: nat, p: nat)
    requires r < b && q < p
    ensures q * b + r < b * p
  {
    assert (q + 1) * b <= p * b;
  }

  /** A number gives its digits back. */
  lemma {:induction false} DigitsOfValue(b: nat, ds: seq<nat>)
    requires b > 0 && AllDigits(b, ds)
    ensures Value(b, ds) < Pow(b, |ds|) && ToDigits(b, Value(b, ds), |ds|) == ds
  {
    if ds != [] {
      var k := |ds| - 1;
      DigitsOfValue(b, ds[..k]);
      Quotient(Value(b, ds), b, Value(b, ds[..k]), ds[k]);
      BelowNext(b, Value(b, ds[..k]), ds[k], Pow(b, k));
      assert ds == ds[..k] + [ds[k]];
    }
  }

  /** One more digit on the left. */
  lemma {:induction false} ValueCons(b: nat, d: nat, ds: seq<nat>)
    ensures Value(b, [d] + ds) == d * Pow(b, |ds|) + Value(b, ds)
  {
    if ds == [] {
      assert ([d] + ds)[..0] == [];
    } else {
      var k := |ds| - 1;
      ValueCons(b, d, ds[..k]);
      assert ([d] + ds)[..|ds|] == [d] + ds[..k];
      Regroup(d, Pow(b, k), Value(b, ds[..k]), b);
    }
  }

  lemma NotNegative(a: nat, b: nat)
    ensures a * b >= 0
  {
  }

  /** Digits on the left only add. */
  lemma {:induction false} ValueSuffix(b: nat, ds: seq<nat>, i: nat)
    requires i <= |ds|
    ensures Value(b, ds[i..]) <= Value(b, ds)
    decreases i
  {
    if i == 0 {
      assert ds[0..] == ds;
    } else {
      ValueSuffix(b, ds, i - 1);
      assert ds[i - 1..] == [ds[i - 1]] + ds[i..];
      ValueCons(b, ds[i - 1], ds[i..]);
      NotNegative(ds[i - 1], Pow(b, |ds[i..]|));
    }
  }

  lemma Regroup(d: nat, p: nat, v: nat, b: nat)
    ensures (d * p + v) * b == d * (b * p) + v * b
  {
  }

  lemma {:induction false} ZeroDigits(b: nat, n: nat)
    requires b > 0
    ensures ToDigits(b, 0, n) == seq(n, _ => 0)
  {
    if n > 0 { ZeroDigits(b, n - 1); }
  }

  /** Each digit on its own. */
  lemma {:induction false} DigitAt(b: nat, v: nat, n: nat, i: nat)
    requires b > 0 && i < n
    ensures Pow(b, n - 1 - i) > 0 && ToDigits(b, v, n)[i] == v / Pow(b, n - 1 - i) % b
    decreases n
  {
    PowPositive(b, n - 1 - i);
    Divided(v, b);
    if i < n - 1 {
      DigitAt(b, v / b, n - 1, i);
      PowPositive(b, n - 2 - i);
      QuotientTwice(v, b, Pow(b, n - 2 - i));
    }
  }
}
