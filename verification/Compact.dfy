/** The compact form of difficulty targets, and the work that a target stands for (src/arith_uint256.cpp,
  * src/chain.cpp).
  */
module Compact {
  import opened Numerals
  import opened Limbs
  import opened LimbShifts
  import opened Arith256

  const WIDTH: nat := 8

  // ---------- what a compact number means ----------

  /** The number of bytes, the first three of which follow, less a bit for the sign. */
  function Size(c: nat): nat { c / 0x100_0000 }

  function Mantissa(c: nat): nat { c % 0x80_0000 }

  predicate SignBit(c: nat) { (c / 0x80_0000) % 2 == 1 }

  function Bytes(k: nat): (r: nat)
    ensures r > 0
  {
    PowPositive(256, k);
    Pow(256, k)
  }

  function Magnitude(c: nat): nat {
    if Size(c) <= 3 then Quotient(Mantissa(c), Bytes(3 - Size(c))) else Mantissa(c) * Bytes(Size(c) - 3)
  }

  function Quotient(x: nat, y: nat): nat
    requires y > 0
  {
    x / y
  }

  /** The sign counts only if something is left of the mantissa. */
  predicate Negative(c: nat) {
    SignBit(c) && (if Size(c) <= 3 then Mantissa(c) / Bytes(3 - Size(c)) else Mantissa(c)) != 0
  }

  lemma BytesArePow2(k: nat)
    ensures Bytes(k) == Pow2(8 * k)
  {
    assert Pow(2, 8) == 256;
    PowMul(2, 8, k);
  }

  lemma TopIsBytes()
    ensures Top(WIDTH) == Bytes(32)
  {
    TopIsPow(8);
    BytesArePow2(32);
  }

  lemma BytesAdd(j: nat, k: nat)
    ensures Bytes(j + k) == Bytes(j) * Bytes(k)
  {
    PowAdd(256, j, k);
  }

  lemma BytesNext(k: nat)
    ensures Bytes(k + 1) == 256 * Bytes(k)
  {
  }

  lemma CompareProducts(x: nat, y: nat, p: nat)
    requires p > 0
    ensures x * p >= y * p <==> x >= y
  {
    if x >= y { MulMono(y, x, p, p); } else {
      MulMono(x + 1, y, p, p);
      assert (x + 1) * p == x * p + p;
    }
  }

  /** The three comparisons are exactly the numbers that do not fit. */
  lemma OverflowIff(word: nat, size: nat)
    requires word < 0x80_0000 && size > 3
    ensures word * Bytes(size - 3) >= Bytes(32) <==>
              word != 0 && (size > 34 || (word > 0xff && size > 33) || (word > 0xffff && size > 32))
  {
    var k := size - 3;
    if k >= 32 {
      BytesAdd(k - 32, 32);
      MulMono(1, Bytes(k - 32), Bytes(32), Bytes(32));
      CompareProducts(word, 1, Bytes(k));
      assert word == 0 ==> word * Bytes(k) == 0;
    } else if k == 31 {
      BytesNext(31);
      CompareProducts(word, 256, Bytes(31));
    } else if k == 30 {
      BytesNext(30);
      BytesNext(31);
      CompareProducts(word, 65536, Bytes(30));
    } else {
      SmallSize(word, k);
    }
  }

  lemma SmallSize(word: nat, k: nat)
    requires word < 0x80_0000 && k <= 29
    ensures word * Bytes(k) < Bytes(32)
  {
    BytesAdd(29 - k, k);
    BytesNext(29);
    BytesNext(30);
    BytesNext(31);
    CompareProducts(word, 0x100_0000, Bytes(29));
    PowMonoExp(256, k, 29);
    MulMono(word, word, Bytes(k), Bytes(29));
  }

  method AssignWord(x: BaseUint, b: nat)
    requires x.Valid() && b < TWO64
    modifies x.pn
    ensures x.Valid() && x.Val() == b
  {
    x.pn[0], x.pn[1] := b % B, b / B;
    for i := 2 to x.pn.Length
      invariant x.pn[0] == b % B && x.pn[1] == b / B && forall k :: 2 <= k < i ==> x.pn[k] == 0
    {
      x.pn[i] := 0;
    }
    TwoLimbs(x.pn[..]);
  }

  method SetCompact(x: BaseUint, compact: nat) returns (negative: bool, overflow: bool)
    requires x.Valid() && x.pn.Length == WIDTH && compact < B
    modifies x.pn
    ensures x.Valid() && x.Val() == Magnitude(compact) % Top(WIDTH)
    ensures negative <==> Negative(compact)
    ensures overflow <==> Magnitude(compact) >= Top(WIDTH)
  {
    TopIsBytes();
    var size := compact / 0x100_0000;
    var word := compact % 0x80_0000;
    if size <= 3 {
      BytesArePow2(3 - size);
      word := word / Pow2(8 * (3 - size));
      WordSmall(compact);
      AssignWord(x, word);
      ModOf(word, 0, Top(WIDTH), word);
    } else {
      AssignWord(x, word);
      BytesArePow2(size - 3);
      x.ShiftLeft(8 * (size - 3));
      OverflowIff(word, size);
    }
    negative := word != 0 && (compact / 0x80_0000) % 2 != 0;
    overflow := word != 0 && (size > 34 || (word > 0xff && size > 33) || (word > 0xffff && size > 32));
  }

  lemma WordSmall(c: nat)
    requires Size(c) <= 3
    ensures Magnitude(c) < 0x80_0000 < Bytes(32)
  {
    var p := Bytes(3 - Size(c));
    var q := Mantissa(c) / p;
    assert Mantissa(c) == q * p + Mantissa(c) % p;
    MulMono(q, q, 1, p);
    BytesAdd(3, 29);
    assert Bytes(3) == 0x100_0000;
    MulMono(Bytes(3), Bytes(3), 1, Bytes(29));
  }

  // ---------- the compact form of a number ----------

  /** The one way to write a number: as many bytes as needed for the top bit of the mantissa to be free. */
  ghost predicate IsCompact(v: nat, c: nat) {
    if v == 0 then Size(c) == 0 && Mantissa(c) == 0
    else
      && 0x8000 <= Mantissa(c)
      && Mantissa(c) == if Size(c) <= 3 then v * Bytes(3 - Size(c)) else v / Bytes(Size(c) - 3)
  }

  /** What is lost is what lies below the last byte of the mantissa. */
  lemma CompactLoses(v: nat, c: nat)
    requires IsCompact(v, c)
    ensures Magnitude(c) == if Size(c) <= 3 then v else v - v % Bytes(Size(c) - 3)
    ensures Magnitude(c) <= v
  {
    if Size(c) <= 3 {
      var p := Bytes(3 - Size(c));
      if v > 0 { ModOf(0, v, p, v * p); } else { assert 0 / p == 0; }
    } else {
      var p := Bytes(Size(c) - 3);
      assert v == (v / p) * p + v % p;
    }
  }

  lemma MantissaRange(v: nat, c: nat)
    requires IsCompact(v, c) && v > 0
    ensures Size(c) <= 3 ==> 0x8000 <= v * Bytes(3 - Size(c)) < 0x80_0000
    ensures Size(c) > 3 ==> 0x8000 * Bytes(Size(c) - 3) <= v < 0x80_0000 * Bytes(Size(c) - 3)
  {
    if Size(c) > 3 {
      var p := Bytes(Size(c) - 3);
      var q := v / p;
      assert v == q * p + v % p;
      MulMono(0x8000, q, p, p);
      MulMono(q + 1, 0x80_0000, p, p);
      assert (q + 1) * p == q * p + p;
    }
  }

  /** The number of bytes is tied to the size of the number. */
  lemma Scaled(v: nat, c: nat)
    requires IsCompact(v, c) && v > 0
    ensures 0x8000 * Bytes(Size(c)) <= v * Bytes(3) < 0x80_0000 * Bytes(Size(c))
  {
    var s := Size(c);
    MantissaRange(v, c);
    if s <= 3 {
      BytesAdd(3 - s, s);
      Stretch(v * Bytes(3 - s), Bytes(s));
      MulAssoc(v, Bytes(3 - s), Bytes(s));
    } else {
      BytesAdd(s - 3, 3);
      var p, q := Bytes(s - 3), Bytes(3);
      MulMono(0x8000 * p, v, q, q);
      MulMono(v + 1, 0x80_0000 * p, q, q);
      assert (v + 1) * q == v * q + q;
      MulAssoc(0x8000, p, q);
      MulAssoc(0x80_0000, p, q);
    }
  }

  lemma Stretch(m: nat, p: nat)
    requires 0x8000 <= m < 0x80_0000 && p > 0
    ensures 0x8000 * p <= m * p < 0x80_0000 * p
  {
    MulMono(0x8000, m, p, p);
    MulMono(m + 1, 0x80_0000, p, p);
    assert (m + 1) * p == m * p + p;
  }

  lemma NotLonger(v: nat, c: nat, d: nat)
    requires IsCompact(v, c) && IsCompact(v, d) && v > 0
    ensures Size(c) <= Size(d)
  {
    Scaled(v, c);
    Scaled(v, d);
    if Size(d) < Size(c) {
      PowMonoExp(256, Size(d) + 1, Size(c));
      BytesNext(Size(d));
    }
  }

  /** There is only one compact form, but for the sign. */
  lemma CompactUnique(v: nat, c: nat, d: nat)
    requires IsCompact(v, c) && IsCompact(v, d)
    ensures Size(c) == Size(d) && Mantissa(c) == Mantissa(d)
  {
    if v > 0 {
      NotLonger(v, c, d);
      NotLonger(v, d, c);
    }
  }

  lemma CompactParts(c: nat)
    ensures c == 0x100_0000 * Size(c) + (if SignBit(c) then 0x80_0000 else 0) + Mantissa(c)
  {
  }

  lemma NotZero(m: nat, p: nat)
    requires p > 0 && m > 0 && m % p == 0
    ensures m / p > 0 && m == (m / p) * p
  {
  }

  /** A compact number whose mantissa begins in one of its upper two bytes and loses nothing is the compact form of
    * its magnitude.
    */
  lemma NormalIsCompact(c: nat)
    requires Mantissa(c) >= 0x8000 && (Size(c) <= 3 ==> Mantissa(c) % Bytes(3 - Size(c)) == 0)
    ensures IsCompact(Magnitude(c), c)
  {
    var m := Mantissa(c);
    if Size(c) <= 3 {
      var p := Bytes(3 - Size(c));
      NotZero(m, p);
    } else {
      var p := Bytes(Size(c) - 3);
      MulMono(m, m, 1, p);
      ModOf(0, m, p, m * p);
    }
  }

  /** Bitwise or with a bit that is not set adds it. */
  lemma {:induction false} OrBit(x: nat, t: nat)
    requires (x / Pow2(t)) % 2 == 0
    ensures Or(x, Pow2(t)) == x + Pow2(t)
  {
    if t > 0 {
      Pow2Next(t - 1);
      DivTwice(x, 2, Pow2(t - 1));
      OrBit(x / 2, t - 1);
      assert x != 0 ==> Or(x, Pow2(t)) == x % 2 + 2 * Or(x / 2, Pow2(t - 1));
    } else {
      assert x / 1 == x;
    }
  }

  method GetLow64(x: BaseUint) returns (r: nat)
    requires x.Valid()
    ensures x.Val() < TWO64 ==> r == x.Val()
  {
    LimbIsPow();
    OrDisjoint(x.pn[0], x.pn[1], 32);
    r := Or(x.pn[0], x.pn[1] * Pow2(32));
    if x.Val() < TWO64 { LowLimbs(x.pn[..]); }
  }

  lemma LowLimbs(s: seq<nat>)
    requires |s| >= 2 && AllLimbs(s) && Num(s) < TWO64
    ensures Num(s) == s[0] + B * s[1]
  {
    assert s[1..][0] == s[1];
  }

  /** The first three bytes of a number of n bytes. */
  ghost function Leading(v: nat, n: nat): nat { if n <= 3 then v * Bytes(3 - n) else v / Bytes(n - 3) }

  lemma ByteSize(v: nat, bits: nat)
    requires HasBits(v, bits) && bits > 0
    ensures var n := (bits + 7) / 8; n >= 1 && Bytes(n - 1) <= v < Bytes(n)
  {
    var n := (bits + 7) / 8;
    BytesArePow2(n);
    BytesArePow2(n - 1);
    PowMonoExp(2, bits, 8 * n);
    PowMonoExp(2, 8 * (n - 1), bits - 1);
  }

  lemma LeadingRange(v: nat, n: nat)
    requires n >= 1 && Bytes(n - 1) <= v < Bytes(n)
    ensures 0x1_0000 <= Leading(v, n) < 0x100_0000
  {
    BytesTwoThree();
    if n <= 3 {
      var p := Bytes(3 - n);
      BytesAdd(n - 1, 3 - n);
      BytesAdd(n, 3 - n);
      MulMono(Bytes(n - 1), v, p, p);
      MulMono(v + 1, Bytes(n), p, p);
      assert (v + 1) * p == v * p + p;
    } else {
      var p := Bytes(n - 3);
      var q := v / p;
      BytesAdd(2, n - 3);
      BytesAdd(3, n - 3);
      assert v == q * p + v % p;
      QuotientBetween(q, p, v);
    }
  }

  lemma QuotientBetween(q: nat, p: nat, v: nat)
    requires q * p <= v < q * p + p && 0x1_0000 * p <= v < 0x100_0000 * p
    ensures 0x1_0000 <= q < 0x100_0000
  {
    assert (q + 1) * p == q * p + p;
    CompareProducts(q, 0x100_0000, p);
    CompareProducts(0x1_0000, q + 1, p);
  }

  lemma BytesTwoThree()
    ensures Bytes(2) == 0x1_0000 && Bytes(3) == 0x100_0000
  {
    BytesNext(0);
    BytesNext(1);
    BytesNext(2);
  }

  /** Giving the sign its bit. */
  function MakeRoom(m: nat, n: nat): (nat, nat) { if (m / 0x80_0000) % 2 == 1 then (m / 256, n + 1) else (m, n) }

  lemma RoomMade(v: nat, n: nat, c: nat)
    requires n >= 1 && Bytes(n - 1) <= v < Bytes(n)
    requires (Mantissa(c), Size(c)) == MakeRoom(Leading(v, n), n)
    ensures IsCompact(v, c)
  {
    LeadingRange(v, n);
    var m := Leading(v, n);
    PowPositive(256, n - 1);
    if m >= 0x80_0000 { OneByteLess(v, n); }
  }

  /** With one byte more, the leading bytes are one byte less. */
  lemma OneByteLess(v: nat, n: nat)
    requires n >= 1
    ensures Leading(v, n) / 256 == Leading(v, n + 1)
  {
    if n < 3 {
      BytesNext(2 - n);
      assert v * (256 * Bytes(2 - n)) == 256 * (v * Bytes(2 - n));
    } else if n == 3 {
      BytesNext(0);
      assert v * Bytes(0) == v;
    } else {
      BytesNext(n - 3);
      DivTwice(v, Bytes(n - 3), 256);
    }
  }

  method GetCompact(x: BaseUint, negative: bool) returns (compact: nat)
    requires x.Valid() && x.pn.Length == WIDTH
    ensures compact < B && IsCompact(x.Val(), compact)
    ensures SignBit(compact) <==> negative && Mantissa(compact) != 0
  {
    var bits := x.Bits();
    var size := (bits + 7) / 8;
    var word := LeadingBytes(x, bits, size);
    LeadingFits(x.Val(), bits, word);
    ghost var m := word;
    if (word / 0x80_0000) % 2 == 1 {
      word, size := word / 256, size + 1;
    }
    assert word < 0x80_0000 && size < 256;
    compact := Pack(word, size, negative);
    CompactResult(x.Val(), bits, m, compact);
  }

  lemma LeadingFits(v: nat, bits: nat, m: nat)
    requires HasBits(v, bits) && m == Leading(v, (bits + 7) / 8) && (bits == 0 ==> m == 0)
    ensures m < 0x100_0000
  {
    if bits > 0 {
      ByteSize(v, bits);
      LeadingRange(v, (bits + 7) / 8);
    }
  }

  lemma CompactResult(v: nat, bits: nat, m: nat, c: nat)
    requires HasBits(v, bits) && m == Leading(v, (bits + 7) / 8) && (bits == 0 ==> m == 0)
    requires (Mantissa(c), Size(c)) == MakeRoom(m, (bits + 7) / 8)
    ensures IsCompact(v, c)
  {
    if bits > 0 {
      ByteSize(v, bits);
      RoomMade(v, (bits + 7) / 8, c);
    }
  }

  method LeadingBytes(x: BaseUint, bits: nat, size: nat) returns (m: nat)
    requires x.Valid() && x.pn.Length == WIDTH && HasBits(x.Val(), bits) && size == (bits + 7) / 8
    ensures m == Leading(x.Val(), size) && (bits == 0 ==> m == 0)
  {
    ghost var v := x.Val();
    if bits > 0 {
      ByteSize(v, bits);
      LeadingRange(v, size);
    } else {
      assert 0 * Bytes(3) == 0;
    }
    if size <= 3 {
      BytesArePow2(3 - size);
      MulMono(v, v, 1, Bytes(3 - size));
      var low := GetLow64(x);
      m := low * Pow2(8 * (3 - size));
    } else {
      BytesArePow2(size - 3);
      var bn := new BaseUint.Copy(x);
      bn.ShiftRight(8 * (size - 3));
      var low := GetLow64(bn);
      m := low;
    }
  }

  lemma PackedParts(word: nat, size: nat, sign: nat)
    requires word < 0x80_0000 && size < 256 && sign <= 1
    ensures var c := word + 0x100_0000 * size + 0x80_0000 * sign;
            c < B && Size(c) == size && Mantissa(c) == word && (SignBit(c) <==> sign == 1)
  {
  }

  lemma PackedOr(word: nat, size: nat)
    requires word < 0x80_0000
    ensures var c := word + 0x100_0000 * size;
            Or(word, size * Pow2(24)) == c && Or(c, 0x80_0000) == c + 0x80_0000 && c % 0x80_0000 == word
  {
    Pow24();
    OrDisjoint(word, size, 24);
    BitIsFree(word, size);
    OrBit(word + 0x100_0000 * size, 23);
  }

  lemma PackedPlain(word: nat, size: nat)
    requires word < 0x80_0000 && size < 256
    ensures var c := Or(word, size * Pow2(24));
            c < B && Size(c) == size && Mantissa(c) == word && !SignBit(c) && c % 0x80_0000 == word
  {
    PackedOr(word, size);
    PackedParts(word, size, 0);
  }

  lemma PackedSigned(word: nat, size: nat)
    requires word < 0x80_0000 && size < 256
    ensures var c := Or(Or(word, size * Pow2(24)), 0x80_0000);
            c < B && Size(c) == size && Mantissa(c) == word && SignBit(c)
  {
    PackedOr(word, size);
    PackedParts(word, size, 1);
  }

  lemma BitIsFree(word: nat, size: nat)
    requires word < 0x80_0000
    ensures ((word + 0x100_0000 * size) / 0x80_0000) % 2 == 0 && (word + 0x100_0000 * size) % 0x80_0000 == word
  {
    assert (word + 0x80_0000 * (2 * size)) / 0x80_0000 == 2 * size;
  }

  method Pack(word: nat, size: nat, negative: bool) returns (c: nat)
    requires word < 0x80_0000 && size < 256
    ensures c < B && Size(c) == size && Mantissa(c) == word && (SignBit(c) <==> negative && word != 0)
  {
    PackedPlain(word, size);
    c := Or(word, size * Pow2(24));
    if negative && c % 0x80_0000 != 0 {
      PackedSigned(word, size);
      c := Or(c, 0x80_0000);
    }
  }

  lemma Pow24()
    ensures Pow2(23) == 0x80_0000 && Pow2(24) == 0x100_0000
  {
    BytesArePow2(3);
    BytesTwoThree();
    Pow2Next(23);
  }

  /** Writing a normal compact number out and back again changes nothing. */
  lemma CompactRoundTrip(c: nat, d: nat)
    requires Mantissa(c) >= 0x8000 && (Size(c) <= 3 ==> Mantissa(c) % Bytes(3 - Size(c)) == 0)
    requires IsCompact(Magnitude(c), d) && SignBit(c) == SignBit(d)
    ensures c == d
  {
    NormalIsCompact(c);
    CompactUnique(Magnitude(c), c, d);
    CompactParts(c);
    CompactParts(d);
  }

  // ---------- work ----------

  /** The expected number of hashes for a target: how often a target and one fit into all hashes. */
  function BlockProof(c: nat): nat {
    if Negative(c) || Magnitude(c) >= Top(WIDTH) || Magnitude(c) == 0 then 0 else Quotient(Top(WIDTH), Magnitude(c) + 1)
  }

  /** Adding one to a target does not overflow: a target that large would need more than 23 bits in a row. */
  lemma TargetNotMax(c: nat)
    requires Magnitude(c) < Top(WIDTH)
    ensures Magnitude(c) + 1 < Top(WIDTH)
  {
    TopIsBytes();
    if Size(c) <= 3 {
      WordSmall(c);
    } else {
      BytesNext(31);
      Multiple256(Mantissa(c), Size(c) - 4);
    }
  }

  lemma Multiple256(m: nat, k: nat)
    ensures m * Bytes(k + 1) == 256 * (m * Bytes(k))
  {
    BytesNext(k);
  }

  lemma ProofFormula(t: nat, m: nat)
    requires 0 < t && t + 1 < m
    ensures (m - 1 - t) / (t + 1) + 1 == m / (t + 1) < m
  {
    var d := t + 1;
    var q, r := (m - d) / d, (m - d) % d;
    assert m - d == q * d + r;
    assert (q + 1) * d == q * d + d;
    ModOf(r, q + 1, d, m);
    MulMono(q + 1, q + 1, 2, d);
  }

  lemma ProofIs(c: nat)
    requires !Negative(c) && 0 < Magnitude(c) < Top(WIDTH)
    ensures Magnitude(c) + 1 < Top(WIDTH) && Magnitude(c) % Top(WIDTH) == Magnitude(c)
    ensures BlockProof(c) == Quotient(Top(WIDTH) - 1 - Magnitude(c), Magnitude(c) + 1) + 1
  {
    TargetNotMax(c);
    ProofFormula(Magnitude(c), Top(WIDTH));
    ModOf(Magnitude(c), 0, Top(WIDTH), Magnitude(c));
  }

  method GetBlockProof(bits: nat) returns (r: BaseUint)
    requires bits < B
    ensures r.Valid() && fresh(r) && r.pn.Length == WIDTH && r.Val() == BlockProof(bits)
  {
    var target := new BaseUint(WIDTH, 0);
    var negative, overflow := SetCompact(target, bits);
    r := new BaseUint(WIDTH, 0);
    if negative || overflow {
      return;
    }
    var cmp := target.CompareTo(r);
    if cmp == 0 {
      ModOf(Magnitude(bits), 0, Top(WIDTH), Magnitude(bits));
      return;
    }
    NotZeroTarget(bits);
    ProofIs(bits);
    r := WorkOf(target, Magnitude(bits));
  }

  lemma NotZeroTarget(c: nat)
    requires Magnitude(c) % Top(WIDTH) != 0
    ensures Magnitude(c) != 0
  {
    ModOf(0, 0, Top(WIDTH), 0);
  }

  method WorkOf(target: BaseUint, ghost t: nat) returns (r: BaseUint)
    requires target.Valid() && target.pn.Length == WIDTH && target.Val() == t > 0 && t + 1 < Top(WIDTH)
    ensures r.Valid() && fresh(r) && r.pn.Length == WIDTH && r.Val() == Quotient(Top(WIDTH) - 1 - t, t + 1) + 1
  {
    ghost var m := Top(WIDTH);
    r := target.Inverted();
    var one := new BaseUint(WIDTH, 1);
    var plus := new BaseUint.Copy(target);
    plus.AddAssign(one);
    ModOf(t + 1, 0, m, t + 1);
    var ok := r.DivAssign(plus);
    ProofFormula(t, m);
    ghost var q := Quotient(m - 1 - t, t + 1);
    r.AddAssign(one);
    ModOf(q + 1, 0, m, q + 1);
  }
}
