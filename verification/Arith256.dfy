/** Unsigned numbers of a fixed number of limbs (src/arith_uint256.h, src/arith_uint256.cpp): every operator computes
  * what it means modulo the number of values, for any width, and with either operand in place of the other.
  */
module Arith256 {
  import opened Numerals
  import opened Limbs
  import opened LimbShifts

  const TWO64: nat := 0x1_0000_0000_0000_0000

  lemma ProductFits(x: nat, y: nat)
    requires x < B && y < B
    ensures x * y <= 0xffff_fffe_0000_0001
  {
    MulMono(x, B - 1, y, B - 1);
  }

  // ---------- counting up and down ----------

  ghost predicate AllMax(s: seq<nat>) { forall k :: 0 <= k < |s| ==> s[k] == B - 1 }

  ghost predicate AllZero(s: seq<nat>) { forall k :: 0 <= k < |s| ==> s[k] == 0 }

  lemma {:induction false} NumMax(s: seq<nat>)
    requires AllMax(s)
    ensures Num(s) == Top(|s|) - 1
  {
    if s != [] {
      NumMax(s[1..]);
      TopNext(|s| - 1);
    }
  }

  /** t follows s: some largest limbs turn to zero and the one above them grows by one, unless there is none. */
  ghost predicate Follows(s: seq<nat>, t: seq<nat>, i: nat) {
    && i <= |s| == |t| && AllMax(s[..i]) && AllZero(t[..i])
    && (i < |s| ==> t[i] == s[i] + 1 && s[i + 1..] == t[i + 1..])
  }

  lemma FollowsPlus(s: seq<nat>, t: seq<nat>, i: nat)
    requires Follows(s, t, i) && i < |s|
    ensures Num(t) == Num(s) + 1
  {
    NumMax(s[..i]);
    NumZeros(t[..i]);
    NumSplit(s, i);
    NumSplit(t, i);
    assert Num(t[i..]) == Num(s[i..]) + 1 by { assert t[i..][1..] == s[i..][1..]; }
    Distribute(Top(i), 1, Num(s[i..]));
  }

  lemma FollowsAround(s: seq<nat>, t: seq<nat>)
    requires Follows(s, t, |s|)
    ensures Num(s) == Top(|s|) - 1 && Num(t) == 0
  {
    assert s[..|s|] == s && t[..|t|] == t;
    NumMax(s);
    NumZeros(t);
  }

  lemma Around(x: nat, y: nat, m: nat)
    requires x < m && y < m && (y == x + 1 || (x == m - 1 && y == 0))
    ensures y == (x + 1) % m && x == (y + m - 1) % m
  {
    if y == x + 1 {
      ModOf(y, 0, m, x + 1);
      ModOf(x, 1, m, y + m - 1);
    } else {
      ModOf(0, 1, m, x + 1);
      ModOf(x, 0, m, y + m - 1);
    }
  }

  lemma FollowsValue(s: seq<nat>, t: seq<nat>, i: nat)
    requires Follows(s, t, i) && AllLimbs(s) && AllLimbs(t)
    ensures Num(t) == (Num(s) + 1) % Top(|s|)
    ensures Num(s) == (Num(t) + Top(|s|) - 1) % Top(|s|)
  {
    if i < |s| { FollowsPlus(s, t, i); } else { FollowsAround(s, t); }
    NumBound(s);
    NumBound(t);
    Around(Num(s), Num(t), Top(|s|));
  }

  lemma TwoLimbs(s: seq<nat>)
    requires |s| >= 2 && AllZero(s[2..])
    ensures Num(s) == s[0] + B * s[1]
  {
    NumZeros(s[2..]);
    assert s[1..][1..] == s[2..];
  }

  class BaseUint {
    const pn: array<nat>

    ghost predicate Valid()
      reads pn
    {
      pn.Length >= 2 && AllLimbs(pn[..])
    }

    ghost function Val(): nat
      reads pn
    {
      Num(pn[..])
    }

    constructor (width: nat, b: nat)
      requires width >= 2 && b < TWO64
      ensures Valid() && fresh(pn) && pn.Length == width && Val() == b
    {
      var a := new nat[width](_ => 0);
      a[0], a[1] := b % B, b / B;
      pn := a;
      new;
      TwoLimbs(pn[..]);
    }

    constructor Copy(b: BaseUint)
      requires b.Valid()
      ensures Valid() && fresh(pn) && pn[..] == b.pn[..]
    {
      pn := new nat[b.pn.Length](k requires 0 <= k < b.pn.Length reads b.pn => b.pn[k]);
    }

    method Assign(s: seq<nat>)
      requires |s| == pn.Length
      modifies pn
      ensures pn[..] == s
    {
      for i := 0 to pn.Length
        invariant pn[..i] == s[..i]
      {
        pn[i] := s[i];
      }
    }

    method Increment()
      requires Valid()
      modifies pn
      ensures Valid() && Val() == (old(Val()) + 1) % Top(pn.Length)
    {
      ghost var was := pn[..];
      var i := 0;
      while i < pn.Length
        invariant i <= pn.Length && AllMax(was[..i]) && AllZero(pn[..i])
        invariant forall k :: i <= k < pn.Length ==> pn[k] == was[k]
      {
        pn[i] := (pn[i] + 1) % B;
        if pn[i] != 0 {
          assert pn[i + 1..] == was[i + 1..];
          FollowsValue(was, pn[..], i);
          return;
        }
        i := i + 1;
      }
      FollowsValue(was, pn[..], i);
    }

    method Decrement()
      requires Valid()
      modifies pn
      ensures Valid() && Val() == (old(Val()) + Top(pn.Length) - 1) % Top(pn.Length)
    {
      ghost var was := pn[..];
      var i := 0;
      while i < pn.Length
        invariant i <= pn.Length && AllZero(was[..i]) && AllMax(pn[..i])
        invariant forall k :: i <= k < pn.Length ==> pn[k] == was[k]
      {
        pn[i] := (pn[i] + B - 1) % B;
        if pn[i] != B - 1 {
          assert pn[i + 1..] == was[i + 1..];
          FollowsValue(pn[..], was, i);
          return;
        }
        i := i + 1;
      }
      FollowsValue(pn[..], was, i);
    }

    /** The other operand may be this very number. */
    method AddAssign(b: BaseUint)
      requires Valid() && b.Valid() && b.pn.Length == pn.Length
      modifies pn
      ensures Valid() && Val() == (old(Val()) + old(b.Val())) % Top(pn.Length)
    {
      ghost var x, y := pn[..], b.pn[..];
      ghost var t := Add(x, y);
      var carry: nat := 0;
      CarriedStart(pn[..], t);
      for i := 0 to pn.Length
        invariant Carried(pn[..], t, i, carry) && carry <= 1
        invariant forall k :: i <= k < pn.Length ==> pn[k] == x[k] && b.pn[k] == y[k]
      {
        ghost var out := pn[..];
        var n := carry + pn[i] + b.pn[i];
        assert n < TWO64;
        CarriedNext(out, t, i, carry, n % B, n / B);
        pn[i] := n % B;
        carry := n / B;
        assert pn[..] == out[i := pn[i]];
      }
      CarriedDone(pn[..], t, carry);
      NumAdd(x, y);
    }

    /** The complement of every limb. */
    method Inverted() returns (r: BaseUint)
      requires Valid()
      ensures r.Valid() && fresh(r) && fresh(r.pn) && r.pn.Length == pn.Length && r.Val() == Top(pn.Length) - 1 - Val()
    {
      r := new BaseUint.Copy(this);
      for i := 0 to pn.Length
        invariant forall k :: 0 <= k < i ==> r.pn[k] == B - 1 - pn[k]
        invariant pn[..] == old(pn[..])
      {
        r.pn[i] := B - 1 - pn[i];
      }
      assert r.pn[..] == Complement(pn[..]);
      NumComplement(pn[..]);
    }

    method Negated() returns (r: BaseUint)
      requires Valid()
      ensures r.Valid() && fresh(r) && fresh(r.pn) && r.pn.Length == pn.Length
      ensures r.Val() == (Top(pn.Length) - Val()) % Top(pn.Length)
    {
      NumBound(pn[..]);
      r := Inverted();
      r.Increment();
    }

    method SubAssign(b: BaseUint)
      requires Valid() && b.Valid() && b.pn.Length == pn.Length
      modifies pn
      ensures Valid() && Val() == (old(Val()) - old(b.Val())) % Top(pn.Length)
    {
      ghost var x, y, m := Val(), b.Val(), Top(pn.Length);
      NumBound(b.pn[..]);
      var minus := b.Negated();
      ghost var z := minus.Val();
      AddAssign(minus);
      SubtractMod(x, y, z, m);
    }

    method CompareTo(b: BaseUint) returns (r: int)
      requires Valid() && b.Valid() && b.pn.Length == pn.Length
      ensures r == if Val() < b.Val() then -1 else if Val() > b.Val() then 1 else 0
    {
      var i := pn.Length;
      while i > 0
        invariant 0 <= i <= pn.Length && pn[i..] == b.pn[i..]
      {
        i := i - 1;
        assert pn[i..] == [pn[i]] + pn[i + 1..] && b.pn[i..] == [b.pn[i]] + b.pn[i + 1..];
        if pn[i] < b.pn[i] {
          FirstDifference(pn[..], b.pn[..], i);
          return -1;
        }
        if pn[i] > b.pn[i] {
          FirstDifference(b.pn[..], pn[..], i);
          return 1;
        }
      }
      assert pn[..] == pn[0..] && b.pn[..] == b.pn[0..];
      r := 0;
    }

    method MulAssign32(b32: nat)
      requires Valid() && b32 < B
      modifies pn
      ensures Valid() && Val() == (b32 * old(Val())) % Top(pn.Length)
    {
      ghost var x := pn[..];
      ghost var t := Scale(b32, x);
      var carry: nat := 0;
      CarriedStart(pn[..], t);
      for i := 0 to pn.Length
        invariant Carried(pn[..], t, i, carry) && carry < B
        invariant forall k :: i <= k < pn.Length ==> pn[k] == x[k]
      {
        ghost var out := pn[..];
        ProductFits(b32, pn[i]);
        var n := carry + b32 * pn[i];
        assert n < TWO64;
        CarriedNext(out, t, i, carry, n % B, n / B);
        pn[i] := n % B;
        carry := n / B;
        assert pn[..] == out[i := pn[i]];
      }
      CarriedDone(pn[..], t, carry);
      NumScale(b32, x);
    }

    /** Adds x times this number, shifted by j limbs, to the limbs of a. */
    method AddRow(a: array<nat>, x: nat, j: nat) returns (ghost carry: nat)
      requires Valid() && a != pn && a.Length == pn.Length && AllLimbs(a[..]) && x < B && j < a.Length
      modifies a
      ensures AllLimbs(a[..])
      ensures Num(a[..]) + carry * Top(a.Length) == Num(old(a[..])) + Top(j) * (x * Num(pn[..a.Length - j]))
    {
      ghost var was, n, y := a[..], a.Length - j, pn[..];
      ghost var t := Add(was[j..], Scale(x, y[..n]));
      var c: nat := 0;
      CarriedStart(a[j..], t);
      var i := 0;
      while i + j < a.Length
        invariant i <= n && c < B && Carried(a[j..], t, i, c)
        invariant a[..j] == was[..j] && forall k :: i + j <= k < a.Length ==> a[k] == was[k]
      {
        ghost var out := a[j..];
        ProductFits(x, pn[i]);
        var m := c + a[i + j] + x * pn[i];
        assert m < TWO64;
        RowLimb(was, j, x, y, n, i);
        LimbAndRest(m);
        CarriedNext(out, t, i, c, m % B, m / B);
        a[i + j] := m % B;
        c := m / B;
        assert a[j..] == out[i := a[i + j]];
        i := i + 1;
      }
      carry := c;
      RowDone(was, a[..], j, x, y[..n], t, c);
    }

    method MulAssign(b: BaseUint)
      requires Valid() && b.Valid() && b.pn.Length == pn.Length
      modifies pn
      ensures Valid() && Val() == (old(Val()) * old(b.Val())) % Top(pn.Length)
    {
      ghost var x, y, m := pn[..], b.pn[..], Top(pn.Length);
      var a := new nat[pn.Length](_ => 0);
      ghost var q: nat := 0;
      NumZeros(a[..]);
      assert x[..0] == [];
      for j := 0 to pn.Length
        invariant AllLimbs(a[..]) && fresh(a) && pn[..] == x && b.pn[..] == y
        invariant Num(a[..]) + q * m == Num(x[..j]) * Num(y)
      {
        ghost var before := Num(a[..]);
        ghost var carry := b.AddRow(a, pn[j], j);
        q := MulStep(x, y, j, before, Num(a[..]), q, carry);
      }
      assert x[..pn.Length] == x;
      NumBound(a[..]);
      ModOf(Num(a[..]), q, m, Num(x) * Num(y));
      Assign(a[..]);
    }

    method MoveLeft(a: seq<nat>, k: nat, s: nat)
      requires |a| == pn.Length && AllLimbs(a) && s < 32 && AllZero(pn[..])
      modifies pn
      ensures ShiftedLeft(pn[..], a, k, s)
    {
      for i := 0 to pn.Length
        invariant LeftPartial(pn[..], a, k, s, i)
      {
        ghost var out := pn[..];
        LeftStep(out, a, k, s, i);
        if i + k + 1 < pn.Length && s != 0 {
          pn[i + k + 1] := Or(pn[i + k + 1], a[i] / Pow2(32 - s));
        }
        if i + k < pn.Length {
          pn[i + k] := Or(pn[i + k], (a[i] * Pow2(s)) % B);
        }
        assert pn[..] == LeftNext(out, a, k, s, i);
      }
      LeftPartialDone(pn[..], a, k, s);
    }

    method ShiftLeft(shift: nat)
      requires Valid()
      modifies pn
      ensures Valid() && Val() == (old(Val()) * Pow2(shift)) % Top(pn.Length)
    {
      var a := pn[..];
      Assign(seq(pn.Length, _ => 0));
      var k, s := shift / 32, shift % 32;
      MoveLeft(a, k, s);
      LeftValue(a, k, s, pn[..]);
    }

    method MoveRight(a: seq<nat>, k: nat, s: nat)
      requires |a| == pn.Length && AllLimbs(a) && s < 32 && AllZero(pn[..])
      modifies pn
      ensures ShiftedRight(pn[..], a, k, s)
    {
      for i := 0 to pn.Length
        invariant RightPartial(pn[..], a, k, s, i)
      {
        ghost var out := pn[..];
        RightStep(out, a, k, s, i);
        if i - k - 1 >= 0 && s != 0 {
          pn[i - k - 1] := Or(pn[i - k - 1], (a[i] * Pow2(32 - s)) % B);
        }
        if i - k >= 0 {
          pn[i - k] := Or(pn[i - k], a[i] / Pow2(s));
        }
        assert pn[..] == RightNext(out, a, k, s, i);
      }
      RightPartialDone(pn[..], a, k, s);
    }

    method ShiftRight(shift: nat)
      requires Valid()
      modifies pn
      ensures Valid() && Val() == old(Val()) / Pow2(shift)
    {
      var a := pn[..];
      Assign(seq(pn.Length, _ => 0));
      var k, s := shift / 32, shift % 32;
      MoveRight(a, k, s);
      RightValue(a, k, s, pn[..]);
    }

    /** The position of the highest bit plus one, or zero. */
    method Bits() returns (r: nat)
      requires Valid()
      ensures r <= 32 * pn.Length && HasBits(Val(), r)
    {
      var pos := pn.Length;
      while pos > 0
        invariant 0 <= pos <= pn.Length && AllZero(pn[pos..])
      {
        pos := pos - 1;
        assert pn[pos..] == [pn[pos]] + pn[pos + 1..];
        if pn[pos] != 0 {
          var n := LimbBits(pn[pos]);
          TopLimb(pn[..], pos, n);
          return 32 * pos + n;
        }
      }
      assert pn[0..] == pn[..];
      NumZeros(pn[..]);
      r := 0;
    }

    method SetBit(shift: nat)
      requires Valid() && shift < 32 * pn.Length && BitsClear(pn[..], shift)
      modifies pn
      ensures Valid() && Val() == old(Val()) + Pow2(shift) && BitsClear(pn[..], shift - 1)
    {
      BitSet(pn[..], shift);
      ghost var was := pn[..];
      pn[shift / 32] := Or(pn[shift / 32], Pow2(shift % 32));
      assert pn[..] == was[shift / 32 := pn[shift / 32]];
    }

    /** One bit of the quotient. */
    method DivideOne(num: BaseUint, div: BaseUint, shift: nat, ghost N: nat, ghost D: nat)
      requires Valid() && num.Valid() && div.Valid() && num.pn.Length == div.pn.Length == pn.Length
      requires num.pn != div.pn && num.pn != pn && div.pn != pn && shift < 32 * pn.Length
      requires div.Val() == D * Pow2(shift) && Dividing(N, D, Val(), num.Val(), shift) && BitsClear(pn[..], shift)
      modifies pn, num.pn
      ensures Valid() && num.Valid() && Dividing(N, D, Val(), num.Val(), shift - 1) && BitsClear(pn[..], shift - 1)
    {
      ghost var q, r := Val(), num.Val();
      DivideStep(N, D, q, r, shift);
      var cmp := num.CompareTo(div);
      if cmp >= 0 {
        NumBound(num.pn[..]);
        num.SubAssign(div);
        ModOf(r - D * Pow2(shift), 0, Top(pn.Length), r - D * Pow2(shift));
        SetBit(shift);
      } else {
        LessClear(pn[..], shift);
      }
    }

    method DivideLoop(num: BaseUint, div: BaseUint, start: nat, ghost N: nat, ghost D: nat)
      requires Valid() && num.Valid() && div.Valid() && num.pn.Length == div.pn.Length == pn.Length
      requires num.pn != div.pn && num.pn != pn && div.pn != pn && start < 32 * pn.Length
      requires D > 0 && div.Val() == D * Pow2(start) && Dividing(N, D, Val(), num.Val(), start)
               && BitsClear(pn[..], start)
      modifies pn, num.pn, div.pn
      ensures Valid() && Val() == N / D && num.Val() == N % D
    {
      var shift: int := start;
      while shift >= 0
        invariant -1 <= shift <= start && Valid() && num.Valid() && div.Valid()
        invariant shift >= 0 ==> div.Val() == D * Pow2(shift)
        invariant Dividing(N, D, Val(), num.Val(), shift) && BitsClear(pn[..], shift)
      {
        DivideOne(num, div, shift, N, D);
        div.ShiftRight(1);
        if shift > 0 { HalfIs(D, shift); }
        shift := shift - 1;
      }
      Divided(N, D, Val(), num.Val());
    }

    /** Division; dividing by zero leaves zero and reports an error. */
    method DivAssign(b: BaseUint) returns (ok: bool)
      requires Valid() && b.Valid() && b.pn.Length == pn.Length
      modifies pn
      ensures Valid() && (ok <==> old(b.Val()) != 0)
      ensures Val() == if ok then old(Val()) / old(b.Val()) else 0
    {
      ghost var N, D := Val(), b.Val();
      var div := new BaseUint.Copy(b);
      var num := new BaseUint.Copy(this);
      Assign(seq(pn.Length, _ => 0));
      NumZeros(pn[..]);
      var numBits := num.Bits();
      var divBits := div.Bits();
      if divBits == 0 {
        return false;
      }
      ok := true;
      BitsPositive(D, divBits);
      if divBits > numBits {
        FewerBits(N, numBits, D, divBits);
        return;
      }
      var shift := numBits - divBits;
      Aligned(N, numBits, D, divBits, pn.Length);
      div.ShiftLeft(shift);
      AllClear(pn[..], shift);
      DivideLoop(num, div, shift, N, D);
    }
  }

  // ---------- bits ----------

  /** r is the number of bits that v needs. */
  ghost predicate HasBits(v: nat, r: nat) { if r == 0 then v == 0 else Pow2(r - 1) <= v < Pow2(r) }

  lemma BitsPositive(v: nat, r: nat)
    requires HasBits(v, r) && r > 0
    ensures v > 0
  {
  }

  lemma TestBit(x: nat, n: nat)
    requires x < Pow2(n + 1)
    ensures (x / Pow2(n)) % 2 == 1 <==> x >= Pow2(n)
  {
    Pow2Next(n);
    if x >= Pow2(n) {
      ModOf(x - Pow2(n), 1, Pow2(n), x);
    } else {
      ModOf(x, 0, Pow2(n), x);
    }
  }

  method LimbBits(x: nat) returns (n: nat)
    requires 0 < x < B
    ensures 1 <= n <= 32 && HasBits(x, n)
  {
    LimbIsPow();
    var nbits := 31;
    while nbits > 0
      invariant 0 <= nbits <= 31 && x < Pow2(nbits + 1)
    {
      TestBit(x, nbits);
      if (x / Pow2(nbits)) % 2 == 1 {
        return nbits + 1;
      }
      nbits := nbits - 1;
    }
    Pow2Next(0);
    n := 1;
  }

  lemma TopLimb(s: seq<nat>, pos: nat, n: nat)
    requires pos < |s| && AllLimbs(s) && AllZero(s[pos + 1..]) && 1 <= n <= 32 && HasBits(s[pos], n)
    ensures HasBits(Num(s), 32 * pos + n)
  {
    NumSplit(s, pos);
    NumZeros(s[pos + 1..]);
    assert s[pos..][1..] == s[pos + 1..];
    NumBound(s[..pos]);
    TopIsPow(pos);
    Pow2Add(32 * pos, n);
    Pow2Add(32 * pos, n - 1);
    Between(Top(pos), s[pos], Num(s[..pos]), Pow2(n - 1), Pow2(n));
  }

  lemma Between(t: nat, x: nat, y: nat, lo: nat, hi: nat)
    requires y < t && lo <= x < hi
    ensures t * lo <= y + t * x < t * hi
  {
    MulMono(t, t, lo, x);
    MulMono(t, t, x + 1, hi);
    Distribute(t, 1, x);
  }

  // ---------- division ----------

  /** The quotient so far and the remainder so far. */
  ghost predicate Dividing(N: nat, D: nat, q: nat, r: nat, shift: int) {
    shift >= -1 && N == q * D + r && r < D * Pow2(shift + 1)
  }

  lemma FewerBits(N: nat, n: nat, D: nat, d: nat)
    requires HasBits(N, n) && HasBits(D, d) && d > n
    ensures D > 0 && N / D == 0
  {
    if n > 0 { PowMonoExp(2, n, d - 1); }
    ModOf(N, 0, D, N);
  }

  lemma Aligned(N: nat, n: nat, D: nat, d: nat, w: nat)
    requires HasBits(N, n) && HasBits(D, d) && 1 <= d <= n <= 32 * w
    ensures (D * Pow2(n - d)) % Top(w) == D * Pow2(n - d) && Dividing(N, D, 0, N, n - d)
  {
    var s := n - d;
    Pow2Add(d, s);
    MulMono(D + 1, Pow2(d), Pow2(s), Pow2(s));
    assert (D + 1) * Pow2(s) == D * Pow2(s) + Pow2(s);
    TopIsPow(w);
    PowMonoExp(2, n, 32 * w);
    ModOf(D * Pow2(s), 0, Top(w), D * Pow2(s));
    Pow2Add(d - 1, s + 1);
    MulMono(Pow2(d - 1), D, Pow2(s + 1), Pow2(s + 1));
  }

  lemma DivideStep(N: nat, D: nat, q: nat, r: nat, shift: nat)
    requires Dividing(N, D, q, r, shift)
    ensures r >= D * Pow2(shift) ==> Dividing(N, D, q + Pow2(shift), r - D * Pow2(shift), shift - 1)
    ensures r < D * Pow2(shift) ==> Dividing(N, D, q, r, shift - 1)
  {
    Pow2Next(shift);
    var p := Pow2(shift);
    assert D * (2 * p) == D * p + D * p;
    assert (q + p) * D == q * D + D * p;
  }

  lemma HalfIs(D: nat, shift: nat)
    requires shift > 0
    ensures (D * Pow2(shift)) / Pow2(1) == D * Pow2(shift - 1)
  {
    Pow2Next(shift - 1);
    Pow2Next(0);
    assert D * (2 * Pow2(shift - 1)) == 2 * (D * Pow2(shift - 1));
  }

  lemma Divided(N: nat, D: nat, q: nat, r: nat)
    requires D > 0 && Dividing(N, D, q, r, -1)
    ensures q == N / D && r == N % D
  {
    assert D * Pow2(0) == D;
    ModOf(r, q, D, N);
  }

  /** No bit at or below the given place is set. */
  ghost predicate BitsClear(s: seq<nat>, shift: int) {
    shift >= 0 ==> shift / 32 < |s| && AllZero(s[..shift / 32]) && s[shift / 32] % Pow2(shift % 32 + 1) == 0
  }

  lemma AllClear(s: seq<nat>, shift: nat)
    requires AllZero(s) && shift < 32 * |s|
    ensures BitsClear(s, shift)
  {
  }

  lemma HalfMultiple(x: nat, t: nat)
    requires x % Pow2(t + 1) == 0
    ensures x % Pow2(t) == 0 && (x + Pow2(t)) % Pow2(t) == 0
  {
    Pow2Next(t);
    var p, q := Pow2(t), x / Pow2(t + 1);
    assert x == q * (2 * p);
    assert x == (2 * q) * p;
    assert x + p == (2 * q + 1) * p;
    ModOf(0, 2 * q, p, x);
    ModOf(0, 2 * q + 1, p, x + p);
  }

  lemma LessClear(s: seq<nat>, shift: nat)
    requires BitsClear(s, shift)
    ensures BitsClear(s, shift - 1)
  {
    HalfMultiple(s[shift / 32], shift % 32);
    ClearBelow(s, s, shift);
  }

  lemma BitFits(x: nat, t: nat)
    requires x < B && t < 32 && x % Pow2(t + 1) == 0
    ensures Or(x, Pow2(t)) == x + Pow2(t) < B
  {
    var q := x / Pow2(t + 1);
    Pow2Next(t);
    LimbSplits(t + 1);
    assert x == q * Pow2(t + 1);
    OrDisjoint(Pow2(t), q, t + 1);
    RoomAbove(q, Pow2(t + 1), Pow2(31 - t));
  }

  lemma RoomAbove(q: nat, c: nat, d: nat)
    requires q * c < c * d
    ensures q * c + c <= c * d
  {
    if q >= d {
      MulMono(d, q, c, c);
    } else {
      MulMono(q + 1, d, c, c);
      assert (q + 1) * c == q * c + c;
    }
  }

  lemma BitSet(s: seq<nat>, shift: nat)
    requires AllLimbs(s) && BitsClear(s, shift)
    ensures var p := shift / 32;
            var x := Or(s[p], Pow2(shift % 32));
            && AllLimbs(s[p := x]) && Num(s[p := x]) == Num(s) + Pow2(shift) && BitsClear(s[p := x], shift - 1)
  {
    var p, t := shift / 32, shift % 32;
    BitFits(s[p], t);
    HalfMultiple(s[p], t);
    var x := Or(s[p], Pow2(t));
    NumUpdate(s, p, x);
    TopIsPow(p);
    Pow2Add(t, 32 * p);
    ClearBelow(s, s[p := x], shift);
  }

  lemma ClearBelow(s: seq<nat>, s': seq<nat>, shift: nat)
    requires BitsClear(s, shift) && |s'| == |s| && s'[..shift / 32] == s[..shift / 32]
    requires s'[shift / 32] % Pow2(shift % 32) == 0
    ensures BitsClear(s', shift - 1)
  {
    if shift > 0 && shift % 32 == 0 {
      assert s'[..shift / 32][(shift - 1) / 32] == 0;
      assert s'[..shift / 32][..(shift - 1) / 32] == s'[..(shift - 1) / 32];
    }
  }

  // ---------- products ----------

  lemma JoinLimbs(was: seq<nat>, now: seq<nat>, j: nat)
    requires |was| == |now| && j <= |was| && now[..j] == was[..j] && AllLimbs(was) && AllLimbs(now[j..])
    ensures AllLimbs(now)
  {
    forall k | 0 <= k < |now| ensures now[k] < B {
      if k < j { assert now[k] == now[..j][k] == was[..j][k]; } else { assert now[k] == now[j..][k - j]; }
    }
  }

  lemma RowLimb(was: seq<nat>, j: nat, x: nat, y: seq<nat>, n: nat, i: nat)
    requires j + n == |was| == |y| && i < n
    ensures Add(was[j..], Scale(x, y[..n]))[i] == was[i + j] + x * y[i]
  {
  }

  lemma LimbAndRest(m: nat)
    ensures m % B + m / B * B == m
  {
  }

  lemma RowDone(was: seq<nat>, now: seq<nat>, j: nat, x: nat, y: seq<nat>, t: seq<nat>, c: nat)
    requires |was| == |now| && j < |was| && |y| == |was| - j && now[..j] == was[..j] && AllLimbs(was)
    requires t == Add(was[j..], Scale(x, y)) && Carried(now[j..], t, |y|, c)
    ensures AllLimbs(now) && Num(now) + c * Top(|was|) == Num(was) + Top(j) * (x * Num(y))
  {
    CarriedDone(now[j..], t, c);
    JoinLimbs(was, now, j);
    NumAdd(was[j..], Scale(x, y));
    NumScale(x, y);
    RowValue(was, now, j, c, x * Num(y));
  }

  lemma RowValue(was: seq<nat>, now: seq<nat>, j: nat, c: nat, xy: nat)
    requires |was| == |now| && j <= |was| && now[..j] == was[..j]
    requires Num(now[j..]) + c * Top(|was| - j) == Num(was[j..]) + xy
    ensures Num(now) + c * Top(|was|) == Num(was) + Top(j) * xy
  {
    NumSplit(was, j);
    NumSplit(now, j);
    TopAdd(j, |was| - j);
    RowSum(Top(j), Top(|was| - j), Num(now[j..]), c, Num(was[j..]), xy);
  }

  lemma RowSum(tj: nat, tn: nat, now: nat, c: nat, was: nat, xy: nat)
    requires now + c * tn == was + xy
    ensures tj * now + c * (tj * tn) == tj * was + tj * xy
  {
    assert tj * (now + c * tn) == tj * now + c * (tj * tn);
    assert tj * (was + xy) == tj * was + tj * xy;
  }

  /** One more row: what it leaves out is a multiple of the modulus. */
  lemma MulStep(x: seq<nat>, y: seq<nat>, j: nat, before: nat, after: nat, q: nat, carry: nat) returns (q': nat)
    requires |x| == |y| && j < |x| && before + q * Top(|x|) == Num(x[..j]) * Num(y)
    requires after + carry * Top(|x|) == before + Top(j) * (x[j] * Num(y[..|x| - j]))
    ensures after + q' * Top(|x|) == Num(x[..j + 1]) * Num(y)
  {
    var n := |x| - j;
    NumUpTo(x, j);
    NumSplit(y, n);
    TopAdd(j, n);
    q' := q + carry + x[j] * Num(y[n..]);
    MulSum(Num(x[..j]), x[j], Top(j), Top(n), Num(y[..n]), Num(y[n..]), before, after, q, carry);
  }

  lemma MulSum(p: nat, x: nat, tj: nat, tn: nat, lo: nat, hi: nat, before: nat, after: nat, q: nat, carry: nat)
    requires before + q * (tj * tn) == p * (lo + tn * hi)
    requires after + carry * (tj * tn) == before + tj * (x * lo)
    ensures after + (q + carry + x * hi) * (tj * tn) == (p + x * tj) * (lo + tn * hi)
  {
    var m := tj * tn;
    assert (p + x * tj) * (lo + tn * hi) == p * (lo + tn * hi) + x * tj * (lo + tn * hi);
    assert x * tj * (lo + tn * hi) == tj * (x * lo) + x * hi * m;
    assert (q + carry + x * hi) * m == q * m + carry * m + x * hi * m;
  }

  // ---------- shifts in place ----------

  /** Limb m after the limbs of a before i have been moved to the left. */
  function LeftPart(a: seq<nat>, k: nat, s: nat, i: nat, m: nat): nat
    requires i <= |a|
  {
    if m < k || m > k + i then 0
    else if m < k + i then LeftLimb(a, s, m - k)
    else if i > 0 then (a[i - 1] * Pow2(s)) / B else 0
  }

  ghost predicate LeftPartial(out: seq<nat>, a: seq<nat>, k: nat, s: nat, i: nat) {
    i <= |a| == |out| && AllLimbs(a) && forall m :: 0 <= m < |out| ==> out[m] == LeftPart(a, k, s, i, m)
  }

  /** What the two assignments do. */
  ghost function LeftNext(out: seq<nat>, a: seq<nat>, k: nat, s: nat, i: nat): seq<nat>
    requires i < |a| == |out| && s < 32
  {
    var o := if i + k + 1 < |out| && s != 0 then out[i + k + 1 := Or(out[i + k + 1], a[i] / Pow2(32 - s))] else out;
    if i + k < |out| then o[i + k := Or(o[i + k], (a[i] * Pow2(s)) % B)] else o
  }

  /** Moved bits never meet. */
  lemma LeftOr(a: seq<nat>, s: nat, i: nat)
    requires i < |a| && s < 32 && AllLimbs(a)
    ensures Or(if i > 0 then (a[i - 1] * Pow2(s)) / B else 0, (a[i] * Pow2(s)) % B) == LeftLimb(a, s, i)
    ensures Or(0, a[i] / Pow2(32 - s)) == (a[i] * Pow2(s)) / B && (s == 0 ==> (a[i] * Pow2(s)) / B == 0)
  {
    var c, d := Pow2(s), Pow2(32 - s);
    LimbSplits(s);
    HighLow(a[i], c, d);
    if i > 0 { HighLow(a[i - 1], c, d); }
    OrDisjoint(if i > 0 then (a[i - 1] * c) / B else 0, a[i] % d, s);
  }

  lemma LeftStep(out: seq<nat>, a: seq<nat>, k: nat, s: nat, i: nat)
    requires LeftPartial(out, a, k, s, i) && i < |a| && s < 32
    ensures LeftPartial(LeftNext(out, a, k, s, i), a, k, s, i + 1)
  {
    LeftOr(a, s, i);
  }

  lemma LeftPartialDone(out: seq<nat>, a: seq<nat>, k: nat, s: nat)
    requires LeftPartial(out, a, k, s, |a|)
    ensures ShiftedLeft(out, a, k, s)
  {
  }

  /** Limb m after the limbs of a before i have been moved to the right. */
  function RightPart(a: seq<nat>, k: nat, s: nat, i: nat, m: nat): nat
    requires i <= |a| && s <= 32
  {
    (if m + k < i then a[m + k] / Pow2(s) else 0) + if m + k + 1 < i then (a[m + k + 1] * Pow2(32 - s)) % B else 0
  }

  ghost predicate RightPartial(out: seq<nat>, a: seq<nat>, k: nat, s: nat, i: nat)
    requires s <= 32
  {
    i <= |a| == |out| && AllLimbs(a) && forall m :: 0 <= m < |out| ==> out[m] == RightPart(a, k, s, i, m)
  }

  ghost function RightNext(out: seq<nat>, a: seq<nat>, k: nat, s: nat, i: nat): seq<nat>
    requires i < |a| == |out| && s < 32
  {
    var o := if i - k - 1 >= 0 && s != 0 then out[i - k - 1 := Or(out[i - k - 1], (a[i] * Pow2(32 - s)) % B)] else out;
    if i - k >= 0 then o[i - k := Or(o[i - k], a[i] / Pow2(s))] else o
  }

  lemma RightOr(a: seq<nat>, s: nat, i: nat)
    requires 0 < i < |a| && s < 32 && AllLimbs(a)
    ensures Or(a[i - 1] / Pow2(s), (a[i] * Pow2(32 - s)) % B) == a[i - 1] / Pow2(s) + (a[i] * Pow2(32 - s)) % B
    ensures s == 0 ==> (a[i] * Pow2(32 - s)) % B == 0
  {
    var c, d := Pow2(s), Pow2(32 - s);
    LimbSplits(s);
    HighLow(a[i], d, c);
    HighLow(a[i - 1], d, c);
    OrDisjoint(a[i - 1] / c, a[i] % c, 32 - s);
  }

  lemma RightStep(out: seq<nat>, a: seq<nat>, k: nat, s: nat, i: nat)
    requires s < 32 && RightPartial(out, a, k, s, i) && i < |a|
    ensures RightPartial(RightNext(out, a, k, s, i), a, k, s, i + 1)
  {
    if i > 0 { RightOr(a, s, i); }
  }

  lemma RightPartialDone(out: seq<nat>, a: seq<nat>, k: nat, s: nat)
    requires s < 32 && RightPartial(out, a, k, s, |a|)
    ensures ShiftedRight(out, a, k, s)
  {
  }

  // ---------- differences ----------

  lemma SubtractMod(x: nat, y: nat, z: nat, m: nat)
    requires m > 0 && y < m && z == (m - y) % m
    ensures (x + z) % m == (x - y) % m
  {
    if y > 0 {
      ModOf(m - y, 0, m, m - y);
      AddModulus(x - y, m);
    } else {
      ModOf(0, 1, m, m);
    }
  }

  lemma AddModulus(x: int, m: nat)
    requires m > 0
    ensures (x + m) % m == x % m
  {
    var q, r := x / m, x % m;
    assert x == q * m + r;
    assert x + m == (q + 1) * m + r;
    var q', r' := (x + m) / m, (x + m) % m;
    var d, e := q' - q - 1, q + 1 - q';
    assert d * m == r - r';
    assert e * m == r' - r;
    if d > 0 { MulMono(1, d, m, m); }
    if e > 0 { MulMono(1, e, m, m); }
  }

  /** The highest limb that is different decides. */
  lemma FirstDifference(s: seq<nat>, t: seq<nat>, i: nat)
    requires i < |s| == |t| && AllLimbs(s) && AllLimbs(t) && s[i] < t[i] && s[i + 1..] == t[i + 1..]
    ensures Num(s) < Num(t)
  {
    NumSplit(s, i);
    NumSplit(t, i);
    NumBound(s[..i]);
    assert s[i..][1..] == t[i..][1..];
    var p, x, y := Top(i), Num(s[i..]), Num(t[i..]);
    assert x + 1 <= y;
    MulMono(p, p, x + 1, y);
    Distribute(p, 1, x);
  }
}
