/** Shifting limbs by bits. */
module LimbShifts {
  import opened Numerals
  import opened Limbs

  /** Bitwise or. */
  function Or(x: nat, y: nat): nat {
    if x == 0 then y else if y == 0 then x
    else (if x % 2 == 1 || y % 2 == 1 then 1 else 0) + 2 * Or(x / 2, y / 2)
  }

  function Pow2(s: nat): (r: nat)
    ensures r > 0
  {
    PowPositive(2, s);
    Pow(2, s)
  }

  lemma Pow2Next(s: nat)
    ensures Pow2(s + 1) == 2 * Pow2(s)
  {
  }

  lemma Pow2Add(s: nat, t: nat)
    ensures Pow2(s + t) == Pow2(s) * Pow2(t)
  {
    PowAdd(2, s, t);
  }

  lemma LimbIsPow()
    ensures Pow2(32) == B
  {
    assert Pow2(4) == 16;
    Pow2Add(4, 4);
    Pow2Add(8, 8);
    Pow2Add(16, 16);
  }

  lemma TopIsPow(k: nat)
    ensures Top(k) == Pow2(32 * k)
  {
    LimbIsPow();
    PowMul(2, 32, k);
  }

  lemma LimbSplits(s: nat)
    requires s <= 32
    ensures Pow2(s) * Pow2(32 - s) == B
  {
    Pow2Add(s, 32 - s);
    LimbIsPow();
  }

  /** Or of numbers without common bits is their sum. */
  lemma {:induction false} OrDisjoint(x: nat, q: nat, s: nat)
    requires x < Pow2(s)
    ensures Or(x, q * Pow2(s)) == x + q * Pow2(s) == Or(q * Pow2(s), x)
  {
    if s > 0 {
      Pow2Next(s - 1);
      var y := q * Pow2(s - 1);
      assert q * Pow2(s) == 2 * y;
      OrDisjoint(x / 2, q, s - 1);
    } else {
      assert x == 0;
    }
  }

  /** The part of a limb that stays and the part that leaves when it is multiplied. */
  lemma HighLow(a: nat, c: nat, d: nat)
    requires c > 0 && d > 0 && c * d == B
    ensures (a * c) % B == (a % d) * c && (a * c) / B == a / d
    ensures (a % d) * c < B && (a < B ==> a / d < c)
  {
    var q, r := a / d, a % d;
    assert a == q * d + r;
    assert a * c == q * (c * d) + r * c;
    MulMono(r + 1, d, c, c);
    assert (r + 1) * c == r * c + c;
    ModOf(r * c, q, B, a * c);
    if q >= c { MulMono(c, q, d, d); }
  }

  // ---------- to the left ----------

  /** Limb m of a number multiplied by 2^s, with what comes from below. */
  function LeftLimb(a: seq<nat>, s: nat, m: int): nat {
    (if 0 <= m < |a| then (a[m] * Pow2(s)) % B else 0) + if 0 < m <= |a| then (a[m - 1] * Pow2(s)) / B else 0
  }

  function LeftLimbs(a: seq<nat>, s: nat, n: nat): (r: seq<nat>)
    ensures |r| == n && forall m :: 0 <= m < n ==> r[m] == LeftLimb(a, s, m)
  {
    seq(n, m requires 0 <= m < n => LeftLimb(a, s, m))
  }

  lemma LeftDigit(a: seq<nat>, s: nat, i: nat)
    requires i < |a| && s < 32 && AllLimbs(a)
    ensures LeftLimb(a, s, i) < B
    ensures LeftLimb(a, s, i) + (a[i] * Pow2(s)) / B * B ==
              (if i > 0 then (a[i - 1] * Pow2(s)) / B else 0) + Pow2(s) * a[i]
  {
    var c, d := Pow2(s), Pow2(32 - s);
    LimbSplits(s);
    HighLow(a[i], c, d);
    if i > 0 { HighLow(a[i - 1], c, d); }
    var r := a[i] % d;
    MulMono(r + 1, d, c, c);
    assert (r + 1) * c == r * c + c;
  }

  lemma {:induction false} LeftCarried(a: seq<nat>, s: nat, n: nat, i: nat)
    requires s < 32 && AllLimbs(a) && i <= n <= |a|
    ensures Carried(LeftLimbs(a, s, n), Scale(Pow2(s), a[..n]), i, if i > 0 then (a[i - 1] * Pow2(s)) / B else 0)
  {
    var out, t := LeftLimbs(a, s, n), Scale(Pow2(s), a[..n]);
    if i == 0 {
      CarriedStart(out, t);
    } else {
      LeftCarried(a, s, n, i - 1);
      LeftDigit(a, s, i - 1);
      CarriedNext(out, t, i - 1, if i > 1 then (a[i - 2] * Pow2(s)) / B else 0, out[i - 1], (a[i - 1] * Pow2(s)) / B);
      assert out[i - 1 := out[i - 1]] == out;
    }
  }

  /** k zero limbs, then the limbs of the product. */
  ghost predicate ShiftedLeft(out: seq<nat>, a: seq<nat>, k: nat, s: nat) {
    |out| == |a| && forall m :: 0 <= m < |out| ==> out[m] == if m < k then 0 else LeftLimb(a, s, m - k)
  }

  lemma LeftLow(a: seq<nat>, s: nat, n: nat) returns (v: nat, carry: nat, tn: nat, c: nat, x: nat)
    requires s < 32 && AllLimbs(a) && n <= |a|
    ensures AllLimbs(LeftLimbs(a, s, n)) && v == Num(LeftLimbs(a, s, n))
    ensures tn == Top(n) && c == Pow2(s) && x == Num(a[..n]) && v + carry * tn == c * x
  {
    var low := LeftLimbs(a, s, n);
    v, tn, c, x := Num(low), Top(n), Pow2(s), Num(a[..n]);
    LeftCarried(a, s, n, n);
    carry := if n > 0 then (a[n - 1] * c) / B else 0;
    CarriedDone(low, Scale(c, a[..n]), carry);
    NumScale(c, a[..n]);
  }

  lemma LeftPadded(a: seq<nat>, k: nat, s: nat, out: seq<nat>, v: nat) returns (tk: nat)
    requires ShiftedLeft(out, a, k, s) && k <= |a| && AllLimbs(LeftLimbs(a, s, |a| - k))
    requires v == Num(LeftLimbs(a, s, |a| - k))
    ensures AllLimbs(out) && tk == Top(k) && Num(out) == tk * v
  {
    tk := Top(k);
    var low := LeftLimbs(a, s, |a| - k);
    assert out[k..] == low;
    NumZeros(out[..k]);
    NumSplit(out, k);
    forall m | 0 <= m < |out| ensures out[m] < B { if m >= k { assert out[m] == low[m - k]; } }
  }

  lemma LeftValueFits(a: seq<nat>, k: nat, s: nat, out: seq<nat>)
    returns (q: nat, v: nat, t: nat)
    requires s < 32 && AllLimbs(a) && ShiftedLeft(out, a, k, s) && k <= |a|
    ensures AllLimbs(out) && v == Top(k) * (Pow2(s) * Num(a)) && t == Top(|a|) && Num(out) + q * t == v
  {
    var n := |a| - k;
    var low, carry, tn, c, x := LeftLow(a, s, n);
    var tk := LeftPadded(a, k, s, out, low);
    var y := HighPart(a, n, tn, x);
    t := TopParts(k, n, tk, tn);
    q, v := LeftTotal(tk, tn, t, c, low, carry, x, y, Num(a), Num(out));
  }

  lemma HighPart(a: seq<nat>, n: nat, tn: nat, x: nat) returns (y: nat)
    requires n <= |a| && tn == Top(n) && x == Num(a[..n])
    ensures Num(a) == x + tn * y
  {
    NumSplit(a, n);
    y := Num(a[n..]);
  }

  lemma TopParts(k: nat, n: nat, tk: nat, tn: nat) returns (t: nat)
    requires tk == Top(k) && tn == Top(n)
    ensures t == Top(k + n) && t == tk * tn
  {
    TopAdd(k, n);
    t := tk * tn;
  }

  lemma LeftTotal(tk: nat, tn: nat, t: nat, c: nat, low: nat, carry: nat, x: nat, y: nat, num: nat, out: nat)
    returns (q: nat, v: nat)
    requires low + carry * tn == c * x && num == x + tn * y && t == tk * tn && out == tk * low
    ensures v == tk * (c * num) && out + q * t == v
  {
    LeftSum(tk, tn, c, low, carry, x, y);
    q, v := carry + c * y, tk * (c * num);
  }

  lemma LeftSum(tk: nat, tn: nat, c: nat, low: nat, carry: nat, x: nat, y: nat)
    requires low + carry * tn == c * x
    ensures tk * low + (carry + c * y) * (tk * tn) == tk * (c * (x + tn * y))
  {
    assert tk * (low + carry * tn) == tk * low + carry * (tk * tn);
    assert c * (x + tn * y) == c * x + c * y * tn;
    assert tk * (c * x + c * y * tn) == tk * (c * x) + c * y * (tk * tn);
    assert (carry + c * y) * (tk * tn) == carry * (tk * tn) + c * y * (tk * tn);
  }

  lemma LeftKept(a: seq<nat>, k: nat, s: nat, out: seq<nat>)
    requires s < 32 && AllLimbs(a) && ShiftedLeft(out, a, k, s) && k <= |a|
    ensures AllLimbs(out) && Num(out) == (Top(k) * (Pow2(s) * Num(a))) % Top(|a|)
  {
    var q, v, t := LeftValueFits(a, k, s, out);
    NumBound(out);
    ModOf(Num(out), q, t, v);
  }

  lemma LeftLost(a: seq<nat>, k: nat, s: nat, out: seq<nat>)
    requires ShiftedLeft(out, a, k, s) && k > |a|
    ensures AllLimbs(out) && Num(out) == (Top(k) * (Pow2(s) * Num(a))) % Top(|a|)
  {
    NumZeros(out);
    TopAdd(|a|, k - |a|);
    MultipleOf(Top(|a|), Top(k - |a|), Pow2(s) * Num(a));
  }

  lemma MultipleOf(y: nat, z: nat, x: nat)
    requires y > 0
    ensures ((y * z) * x) % y == 0
  {
    assert (y * z) * x == (z * x) * y;
    ModOf(0, z * x, y, (y * z) * x);
  }

  /** Shifting to the left multiplies, and what does not fit is lost. */
  lemma LeftValue(a: seq<nat>, k: nat, s: nat, out: seq<nat>)
    requires s < 32 && AllLimbs(a) && ShiftedLeft(out, a, k, s)
    ensures AllLimbs(out) && Num(out) == (Num(a) * Pow2(32 * k + s)) % Top(|a|)
  {
    if k <= |a| { LeftKept(a, k, s, out); } else { LeftLost(a, k, s, out); }
    TopIsPow(k);
    Pow2Add(32 * k, s);
    Reorder(Num(a), Top(k), Pow2(s));
  }

  lemma Reorder(x: nat, y: nat, z: nat)
    ensures x * (y * z) == y * (z * x)
  {
  }

  // ---------- to the right ----------

  /** Limb m of a number divided by 2^s, with what comes from above. */
  function RightLimb(a: seq<nat>, s: nat, m: nat): nat
    requires s <= 32
  {
    (if m < |a| then a[m] / Pow2(s) else 0) + if m + 1 < |a| then (a[m + 1] * Pow2(32 - s)) % B else 0
  }

  function RightLimbs(a: seq<nat>, s: nat): (r: seq<nat>)
    requires s <= 32
    ensures |r| == |a| && forall m :: 0 <= m < |a| ==> r[m] == RightLimb(a, s, m)
  {
    seq(|a|, m requires 0 <= m < |a| => RightLimb(a, s, m))
  }

  lemma {:induction false} RightValue0(a: seq<nat>, s: nat)
    requires s < 32 && AllLimbs(a)
    ensures AllLimbs(RightLimbs(a, s))
    ensures Pow2(s) * Num(RightLimbs(a, s)) + (if a == [] then 0 else a[0] % Pow2(s)) == Num(a)
  {
    var c, d, out := Pow2(s), Pow2(32 - s), RightLimbs(a, s);
    if a == [] {
      assert c * Num(out) == 0;
    } else {
      var rest := a[1..];
      RightValue0(rest, s);
      forall m | 0 <= m < |rest| ensures out[1..][m] == RightLimbs(rest, s)[m] { RightShifted(a, s, m); }
      assert out[1..] == RightLimbs(rest, s);
      RightDigit(a[0], if |a| > 1 then a[1] else 0, s);
      var r1 := if |a| > 1 then a[1] % c else 0;
      assert |a| > 1 ==> rest[0] == a[1];
      RightSum(c, d, out[0], a[0], r1, Num(out[1..]), Num(rest));
    }
  }

  lemma RightShifted(a: seq<nat>, s: nat, m: nat)
    requires s <= 32 && m + 1 < |a|
    ensures RightLimb(a, s, m + 1) == RightLimb(a[1..], s, m)
  {
  }

  lemma RightDigit(x: nat, y: nat, s: nat)
    requires s < 32 && x < B && y < B
    ensures x / Pow2(s) + (y * Pow2(32 - s)) % B < B
    ensures Pow2(s) * (x / Pow2(s) + (y * Pow2(32 - s)) % B) == x - x % Pow2(s) + B * (y % Pow2(s))
  {
    var c, d := Pow2(s), Pow2(32 - s);
    LimbSplits(s);
    HighLow(y, d, c);
    HighLow(x, d, c);
    RightArith(c, d, x / c, y % c);
    assert x == (x / c) * c + x % c;
  }

  lemma RightArith(c: nat, d: nat, q: nat, r: nat)
    requires c > 0 && d > 0 && c * d == B && q < d && r < c
    ensures q + r * d < B && c * (q + r * d) == q * c + B * r
  {
    MulMono(r + 1, c, d, d);
    assert (r + 1) * d == r * d + d;
    MulAssoc(c, r, d);
    assert c * (r * d) == (c * d) * r;
    Distribute(c, q, r * d);
  }

  lemma RightSum(c: nat, d: nat, o0: nat, x: nat, r1: nat, orest: nat, rest: nat)
    requires c > 0 && c * o0 == x - x % c + B * r1 && c * orest + r1 == rest
    ensures c * (o0 + B * orest) + x % c == x + B * rest
  {
    ScaleStep(c, o0, orest);
  }

  /** The limbs above the first k, shifted; then zeros. */
  ghost predicate ShiftedRight(out: seq<nat>, a: seq<nat>, k: nat, s: nat)
    requires s <= 32
  {
    |out| == |a| && forall m :: 0 <= m < |out| ==> out[m] == if m + k < |a| then RightLimb(a, s, m + k) else 0
  }

  lemma DivTwice(v: nat, m: nat, n: nat)
    requires m > 0 && n > 0
    ensures m * n > 0 && (v / m) / n == v / (m * n)
  {
    var q, r := Divide(v, m);
    var q', r' := Divide(q, n);
    RemaindersJoin(m, n, q', r', r);
    ModOf(r' * m + r, q', m * n, v);
  }

  lemma Divide(v: nat, m: nat) returns (q: nat, r: nat)
    requires m > 0
    ensures v / m == q && r < m && v == q * m + r
  {
    q, r := v / m, v % m;
  }

  lemma RemaindersJoin(m: nat, n: nat, q: nat, r': nat, r: nat)
    requires r' < n && r < m
    ensures m * n > 0 && r' * m + r < m * n
    ensures r' * m + r + q * (m * n) == (q * n + r') * m + r
  {
    MulMono(r' + 1, n, m, m);
    Distribute(m, r', 1);
    MulMono(1, m, 1, n);
    Distribute(m, q * n, r');
    MulAssoc(q, n, m);
  }

  lemma RightLimbsOfRest(a: seq<nat>, k: nat, s: nat, m: nat)
    requires s <= 32 && k <= |a| && m + k < |a|
    ensures RightLimb(a[k..], s, m) == RightLimb(a, s, m + k)
  {
  }

  lemma RightPadded(a: seq<nat>, k: nat, s: nat, out: seq<nat>)
    requires s < 32 && k <= |a| && ShiftedRight(out, a, k, s) && AllLimbs(RightLimbs(a[k..], s))
    ensures AllLimbs(out) && Num(out) == Num(RightLimbs(a[k..], s))
  {
    var low := RightLimbs(a[k..], s);
    forall m | 0 <= m < |low| ensures out[m] == low[m] { RightLimbsOfRest(a, k, s, m); }
    assert out[..|low|] == low;
    NumZeros(out[|low|..]);
    NumSplit(out, |low|);
    assert Top(|low|) * 0 == 0;
    forall m | 0 <= m < |out| ensures out[m] < B { if m < |low| { assert out[m] == low[m]; } }
  }

  lemma DropLimbs(a: seq<nat>, k: nat)
    requires AllLimbs(a) && k <= |a|
    ensures Num(a[k..]) == Num(a) / Top(k)
  {
    NumSplit(a, k);
    NumBound(a[..k]);
    assert Top(k) * Num(a[k..]) == Num(a[k..]) * Top(k);
    ModOf(Num(a[..k]), Num(a[k..]), Top(k), Num(a));
  }

  lemma RightBits(y: seq<nat>, s: nat)
    requires s < 32 && AllLimbs(y)
    ensures AllLimbs(RightLimbs(y, s)) && Num(RightLimbs(y, s)) == Num(y) / Pow2(s)
  {
    RightValue0(y, s);
    QuotientIs(Num(RightLimbs(y, s)), Pow2(s), if y == [] then 0 else y[0] % Pow2(s), Num(y));
  }

  lemma QuotientIs(q: nat, m: nat, r: nat, v: nat)
    requires r < m && m * q + r == v
    ensures q == v / m && r == v % m
  {
    assert m * q == q * m;
    ModOf(r, q, m, v);
  }

  lemma NothingLeft(a: seq<nat>, k: nat, s: nat)
    requires AllLimbs(a) && k >= |a|
    ensures Num(a) < Top(k) * Pow2(s)
  {
    NumBound(a);
    TopAdd(|a|, k - |a|);
    MulMono(Top(|a|), Top(|a|), 1, Top(k - |a|));
    MulMono(Top(k), Top(k), 1, Pow2(s));
  }

  /** Shifting to the right divides. */
  lemma RightValue(a: seq<nat>, k: nat, s: nat, out: seq<nat>)
    requires s < 32 && AllLimbs(a) && ShiftedRight(out, a, k, s)
    ensures AllLimbs(out) && Num(out) == Num(a) / Pow2(32 * k + s)
  {
    TopIsPow(k);
    Pow2Add(32 * k, s);
    if k <= |a| {
      RightBits(a[k..], s);
      RightPadded(a, k, s, out);
      DropLimbs(a, k);
      DivTwice(Num(a), Top(k), Pow2(s));
    } else {
      NumZeros(out);
      NothingLeft(a, k, s);
      ModOf(Num(a), 0, Pow2(32 * k + s), Num(a));
    }
  }
}
