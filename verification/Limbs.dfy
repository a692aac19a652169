/** Numbers as limbs of 32 bits, least significant first, and what carrying does to them. */
module Limbs {
  import opened Numerals

  const B: nat := 0x1_0000_0000

  /** The number that limbs stand for; limbs may be too large. */
  function Num(s: seq<nat>): nat { if s == [] then 0 else s[0] + B * Num(s[1..]) }

  predicate AllLimbs(s: seq<nat>) { forall k :: 0 <= k < |s| ==> s[k] < B }

  /** One more than the largest number of n limbs. */
  function Top(n: nat): (r: nat)
    ensures r > 0
  {
    PowPositive(B, n);
    Pow(B, n)
  }

  lemma TopNext(n: nat)
    ensures Top(n + 1) == B * Top(n)
  {
  }

  lemma TopAdd(m: nat, n: nat)
    ensures Top(m + n) == Top(m) * Top(n)
  {
    PowAdd(B, m, n);
  }

  lemma {:induction false} NumConcat(u: seq<nat>, v: seq<nat>)
    ensures Num(u + v) == Num(u) + Top(|u|) * Num(v)
  {
    if u == [] {
      assert u + v == v;
    } else {
      NumConcat(u[1..], v);
      assert (u + v)[1..] == u[1..] + v;
      TopNext(|u| - 1);
      MulAssoc(B, Top(|u| - 1), Num(v));
    }
  }

  lemma NumSplit(s: seq<nat>, k: nat)
    requires k <= |s|
    ensures Num(s) == Num(s[..k]) + Top(k) * Num(s[k..])
  {
    assert s == s[..k] + s[k..];
    NumConcat(s[..k], s[k..]);
  }

  lemma NumOne(d: nat)
    ensures Num([d]) == d
  {
    assert [d][1..] == [];
  }

  lemma NumUpTo(s: seq<nat>, i: nat)
    requires i < |s|
    ensures Num(s[..i + 1]) == Num(s[..i]) + s[i] * Top(i)
  {
    assert s[..i + 1] == s[..i] + [s[i]];
    NumConcat(s[..i], [s[i]]);
    NumOne(s[i]);
  }

  lemma {:induction false} NumBound(s: seq<nat>)
    requires AllLimbs(s)
    ensures Num(s) < Top(|s|)
  {
    if s != [] {
      NumBound(s[1..]);
      TopNext(|s| - 1);
    }
  }

  lemma NumUpdate(s: seq<nat>, k: nat, d: nat)
    requires k < |s| && d >= s[k]
    ensures Num(s[k := d]) == Num(s) + (d - s[k]) * Top(k)
  {
    var t := s[k := d];
    NumSplit(s, k);
    NumSplit(t, k);
    assert s[k..] == [s[k]] + s[k + 1..] && t[k..] == [d] + s[k + 1..] && t[..k] == s[..k];
    assert s[k..][1..] == s[k + 1..] && t[k..][1..] == s[k + 1..];
    var rest := B * Num(s[k + 1..]);
    Distribute(Top(k), d - s[k], s[k] + rest);
  }

  lemma Distribute(p: nat, x: nat, y: nat)
    ensures p * (x + y) == x * p + p * y
  {
  }

  lemma {:induction false} NumZeros(s: seq<nat>)
    requires forall k :: 0 <= k < |s| ==> s[k] == 0
    ensures Num(s) == 0
  {
    if s != [] { NumZeros(s[1..]); }
  }

  // ---------- limb by limb ----------

  function Add(a: seq<nat>, b: seq<nat>): (r: seq<nat>)
    requires |a| == |b|
    ensures |r| == |a| && forall k :: 0 <= k < |a| ==> r[k] == a[k] + b[k]
  {
    seq(|a|, k requires 0 <= k < |a| => a[k] + b[k])
  }

  lemma {:induction false} NumAdd(a: seq<nat>, b: seq<nat>)
    requires |a| == |b|
    ensures Num(Add(a, b)) == Num(a) + Num(b)
  {
    if a != [] {
      NumAdd(a[1..], b[1..]);
      assert Add(a, b)[1..] == Add(a[1..], b[1..]);
    }
  }

  function Scale(m: nat, a: seq<nat>): (r: seq<nat>)
    ensures |r| == |a| && forall k :: 0 <= k < |a| ==> r[k] == m * a[k]
  {
    seq(|a|, k requires 0 <= k < |a| => m * a[k])
  }

  lemma {:induction false} NumScale(m: nat, a: seq<nat>)
    ensures Num(Scale(m, a)) == m * Num(a)
  {
    if a != [] {
      NumScale(m, a[1..]);
      assert Scale(m, a)[1..] == Scale(m, a[1..]);
      ScaleStep(m, a[0], Num(a[1..]));
    } else {
      assert m * Num(a) == 0;
    }
  }

  lemma ScaleStep(m: nat, x: nat, y: nat)
    ensures m * (x + B * y) == m * x + B * (m * y)
  {
    Distribute(m, x, B * y);
    assert m * (B * y) == B * (m * y);
  }

  /** The complement of every limb. */
  function Complement(a: seq<nat>): (r: seq<nat>)
    requires AllLimbs(a)
    ensures |r| == |a| && AllLimbs(r) && forall k :: 0 <= k < |a| ==> r[k] == B - 1 - a[k]
  {
    seq(|a|, k requires 0 <= k < |a| => B - 1 - a[k])
  }

  lemma {:induction false} NumComplement(a: seq<nat>)
    requires AllLimbs(a)
    ensures Num(Complement(a)) == Top(|a|) - 1 - Num(a)
  {
    if a != [] {
      NumComplement(a[1..]);
      assert Complement(a)[1..] == Complement(a[1..]);
      TopNext(|a| - 1);
    }
  }

  // ---------- carrying ----------

  /** The first i limbs have been reduced to what they should be, and the carry is what is left over. */
  ghost predicate Carried(out: seq<nat>, t: seq<nat>, i: nat, carry: nat) {
    i <= |out| == |t| && AllLimbs(out[..i]) && Num(out[..i]) + carry * Top(i) == Num(t[..i])
  }

  lemma CarriedStart(out: seq<nat>, t: seq<nat>)
    requires |out| == |t|
    ensures Carried(out, t, 0, 0)
  {
    assert out[..0] == [] && t[..0] == [];
  }

  lemma CarriedNext(out: seq<nat>, t: seq<nat>, i: nat, carry: nat, digit: nat, rest: nat)
    requires Carried(out, t, i, carry) && i < |out| && digit < B && digit + rest * B == carry + t[i]
    ensures Carried(out[i := digit], t, i + 1, rest)
  {
    var out' := out[i := digit];
    assert out'[..i] == out[..i];
    assert out'[..i + 1] == out[..i] + [digit];
    NumUpTo(out', i);
    NumUpTo(t, i);
    TopNext(i);
    CarryStep(digit, rest, carry, t[i], Top(i));
  }

  lemma CarryStep(digit: nat, rest: nat, carry: nat, t: nat, p: nat)
    requires digit + rest * B == carry + t
    ensures digit * p + rest * (B * p) == carry * p + t * p
  {
    assert (digit + rest * B) * p == digit * p + rest * (B * p);
    assert (carry + t) * p == carry * p + t * p;
  }

  lemma CarriedDone(out: seq<nat>, t: seq<nat>, carry: nat)
    requires Carried(out, t, |out|, carry)
    ensures AllLimbs(out) && Num(out) + carry * Top(|out|) == Num(t) && Num(out) == Num(t) % Top(|out|)
  {
    assert out[..|out|] == out && t[..|t|] == t;
    NumBound(out);
    ModOf(Num(out), carry, Top(|out|), Num(t));
  }

  lemma ModOf(x: nat, q: nat, m: nat, v: nat)
    requires x < m && x + q * m == v
    ensures v % m == x && v / m == q
  {
    DivMod(m, q, x);
  }
}
