/** Powers and numbers written in a base, most significant digit first. */
module Numerals {
  function Pow(b: nat, e: nat): nat
    decreases e, b
  {
    if e == 0 then 1 else b * Pow(b, e - 1)
  }

  lemma {:induction false} PowPositive(b: nat, e: nat)
    requires b > 0
    ensures Pow(b, e) > 0
  {
    if e > 0 { PowPositive(b, e - 1); }
  }

  lemma {:induction false} PowAdd(b: nat, e: nat, f: nat)
    ensures Pow(b, e + f) == Pow(b, e) * Pow(b, f)
  {
    if e > 0 {
      PowAdd(b, e - 1, f);
      MulAssoc(b, Pow(b, e - 1), Pow(b, f));
    }
  }

  lemma MulAssoc(x: nat, y: nat, z: nat)
    ensures x * (y * z) == x * y * z
  {
  }

  lemma {:induction false} PowMul(b: nat, e: nat, f: nat)
    ensures Pow(b, e * f) == Pow(Pow(b, e), f)
  {
    if f == 0 {
      assert e * f == 0;
    } else {
      PowMul(b, e, f - 1);
      assert e * f == e + e * (f - 1);
      PowAdd(b, e, e * (f - 1));
    }
  }

  lemma MulMono(x: nat, y: nat, u: nat, v: nat)
    requires x <= y && u <= v
    ensures x * u <= y * v
  {
    assert y * v == x * u + x * (v - u) + (y - x) * v;
  }

  lemma {:induction false} PowMonoBase(a: nat, b: nat, e: nat)
    requires a <= b
    ensures Pow(a, e) <= Pow(b, e)
    ensures a < b && e > 0 ==> Pow(a, e) < Pow(b, e)
  {
    if e > 0 {
      PowMonoBase(a, b, e - 1);
      MulMono(a, b, Pow(a, e - 1), Pow(b, e - 1));
      if a < b {
        PowPositive(b, e - 1);
        MulMono(a, b - 1, Pow(a, e - 1), Pow(b, e - 1));
        assert (b - 1) * Pow(b, e - 1) == b * Pow(b, e - 1) - Pow(b, e - 1);
      }
    }
  }

  lemma {:induction false} PowMonoExp(b: nat, e: nat, f: nat)
    requires b > 0 && e <= f
    ensures Pow(b, e) <= Pow(b, f)
  {
    if e < f {
      PowMonoExp(b, e, f - 1);
      PowPositive(b, f - 1);
      MulMono(1, b, Pow(b, f - 1), Pow(b, f - 1));
    }
  }

  lemma PowSwap(a: nat, p: nat, m: nat)
    ensures Pow(Pow(a, p), m) == Pow(Pow(a, m), p)
  {
    PowMul(a, p, m);
    PowMul(a, m, p);
    assert p * m == m * p;
  }

  lemma PowChain(b: nat, q: nat, m: nat, n: nat, p: nat)
    requires b > 0 && q * m <= p * n
    ensures Pow(Pow(b, q), m) <= Pow(Pow(b, n), p)
  {
    PowMul(b, q, m);
    PowMonoExp(b, q * m, p * n);
    PowMul(b, n, p);
    assert p * n == n * p;
  }

  /** If a^p <= b^q and q*m <= p*n then a^m <= b^n: comparing powers through a common exponent. */
  lemma PowCompare(a: nat, p: nat, b: nat, q: nat, m: nat, n: nat)
    requires b > 0 && p > 0 && Pow(a, p) <= Pow(b, q) && q * m <= p * n
    ensures Pow(a, m) <= Pow(b, n)
  {
    PowSwap(a, p, m);
    PowMonoBase(Pow(a, p), Pow(b, q), m);
    PowChain(b, q, m, n, p);
    NotSmaller(Pow(a, m), Pow(b, n), p);
  }

  lemma NotSmaller(x: nat, y: nat, p: nat)
    requires p > 0 && Pow(x, p) <= Pow(y, p)
    ensures x <= y
  {
    if x > y { PowMonoBase(y, x, p); }
  }

  // ---------- digits ----------

  function Value(b: nat, ds: seq<nat>): nat {
    if ds == [] then 0 else Value(b, ds[..|ds| - 1]) * b + ds[|ds| - 1]
  }

  predicate AllBelow(b: nat, ds: seq<nat>) { forall k :: 0 <= k < |ds| ==> ds[k] < b }

  lemma ValueSnoc(b: nat, ds: seq<nat>, d: nat)
    ensures Value(b, ds + [d]) == Value(b, ds) * b + d
  {
    assert (ds + [d])[..|ds|] == ds;
  }

  lemma Regroup(d: nat, p: nat, v: nat, b: nat)
    ensures (d * p + v) * b == d * (b * p) + v * b
  {
    MulAssoc(d, p, b);
    assert p * b == b * p;
  }

  lemma {:induction false} ValueCons(b: nat, d: nat, ds: seq<nat>)
    ensures Value(b, [d] + ds) == d * Pow(b, |ds|) + Value(b, ds)
  {
    if ds == [] {
      ValueSnoc(b, [], d);
      assert [d] + ds == [] + [d];
    } else {
      var front, last := ds[..|ds| - 1], ds[|ds| - 1];
      ValueCons(b, d, front);
      assert [d] + ds == ([d] + front) + [last];
      ValueSnoc(b, [d] + front, last);
      Regroup(d, Pow(b, |front|), Value(b, front), b);
    }
  }

  lemma {:induction false} ValueBound(b: nat, ds: seq<nat>)
    requires AllBelow(b, ds) && b > 0
    ensures Value(b, ds) < Pow(b, |ds|)
  {
    if ds != [] {
      var front, last := ds[..|ds| - 1], ds[|ds| - 1];
      ValueBound(b, front);
      MulMono(Value(b, front) + 1, Pow(b, |front|), b, b);
      assert (Value(b, front) + 1) * b == Value(b, front) * b + b;
    }
  }

  /** The digits of a number, without leading zeros. */
  function Digits(b: nat, v: nat): seq<nat>
    requires b > 1
    decreases v
  {
    if v == 0 then [] else Smaller(v, b); Digits(b, v / b) + [v % b]
  }

  lemma Smaller(v: nat, b: nat)
    requires b > 1 && v > 0
    ensures v / b < v
  {
    if v / b >= v { assert v >= (v / b) * b; MulMono(v, v / b, 2, b); }
  }

  lemma DivMod(b: nat, q: nat, r: nat)
    requires r < b
    ensures (q * b + r) / b == q && (q * b + r) % b == r
  {
    var v := q * b + r;
    assert v == (v / b) * b + v % b;
    var d, e := v / b - q, q - v / b;
    assert d * b == r - v % b;
    assert e * b == v % b - r;
    if d > 0 { MulMono(1, d, b, b); }
    if e > 0 { MulMono(1, e, b, b); }
  }

  lemma Parts(v: nat, b: nat)
    requires b > 1 && v > 0
    ensures v == (v / b) * b + v % b && 0 <= v % b < b && v / b < v
  {
    Smaller(v, b);
  }

  lemma DigitsStep(b: nat, v: nat) returns (q: nat, r: nat)
    requires b > 1 && v > 0
    ensures q < v && r < b && v == q * b + r && (q > 0 || r > 0)
    ensures Digits(b, v) == Digits(b, q) + [r] && (q == 0 ==> Digits(b, q) == [])
  {
    Parts(v, b);
    q, r := v / b, v % b;
  }

  lemma {:induction false} DigitsValue(b: nat, v: nat)
    requires b > 1
    ensures Value(b, Digits(b, v)) == v && AllBelow(b, Digits(b, v))
    ensures v > 0 ==> Digits(b, v) != [] && Digits(b, v)[0] != 0
    decreases v
  {
    if v > 0 {
      var q, r := DigitsStep(b, v);
      DigitsValue(b, q);
      DigitOnTop(b, Digits(b, q), q, r);
    }
  }

  lemma DigitOnTop(b: nat, ds: seq<nat>, q: nat, r: nat)
    requires b > 1 && r < b && Value(b, ds) == q && AllBelow(b, ds) && (q > 0 ==> ds != [] && ds[0] != 0)
             && (q == 0 ==> ds == [])
    ensures Value(b, ds + [r]) == q * b + r && AllBelow(b, ds + [r]) && (q > 0 || r > 0 ==> (ds + [r])[0] != 0)
  {
    ValueSnoc(b, ds, r);
  }

  /** A number is written in one way only. */
  lemma {:induction false} ValueDigits(b: nat, ds: seq<nat>)
    requires b > 1 && AllBelow(b, ds) && (ds != [] ==> ds[0] != 0)
    ensures Digits(b, Value(b, ds)) == ds
  {
    if ds != [] {
      var front, last := ds[..|ds| - 1], ds[|ds| - 1];
      ValueDigits(b, front);
      DivMod(b, Value(b, front), last);
      LeadingDigit(b, ds);
      assert ds == front + [last];
    }
  }

  lemma {:induction false} LeadingDigit(b: nat, ds: seq<nat>)
    requires b > 1 && ds != [] && ds[0] != 0
    ensures Value(b, ds) >= Pow(b, |ds| - 1) > 0
  {
    var rest := ds[1..];
    assert ds == [ds[0]] + rest;
    ValueCons(b, ds[0], rest);
    PowPositive(b, |rest|);
    MulMono(1, ds[0], Pow(b, |rest|), Pow(b, |rest|));
  }

  /** A larger number does not have fewer digits. */
  lemma {:induction false} DigitsMono(b: nat, v: nat, w: nat)
    requires b > 1 && v <= w
    ensures |Digits(b, v)| <= |Digits(b, w)|
    decreases v
  {
    if v > 0 {
      Parts(v, b);
      Parts(w, b);
      DivMono(v, w, b);
      DigitsMono(b, v / b, w / b);
    }
  }

  lemma DivMono(v: nat, w: nat, b: nat)
    requires b > 1 && 0 < v <= w
    ensures v / b <= w / b
  {
    Parts(v, b);
    Parts(w, b);
    if v / b > w / b { MulMono(w / b + 1, v / b, b, b); }
  }

  lemma {:induction false} PrefixValue(b: nat, ds: seq<nat>, k: nat)
    requires b > 0 && k <= |ds|
    ensures Value(b, ds[..k]) <= Value(b, ds)
  {
    if k == |ds| {
      assert ds[..k] == ds;
    } else {
      var front := ds[..|ds| - 1];
      PrefixValue(b, front, k);
      assert front[..k] == ds[..k];
      MulMono(Value(b, front), Value(b, front), 1, b);
    }
  }
}
