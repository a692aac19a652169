/** The CashAddr checksum (src/cashaddr.cpp): what it computes, that it is unique, and which errors change it. */
module CashAddr {
  import opened CashAddrPoly
  import opened CashAddrField

  /** A character, or a value of the payload. */
  type Byte = bv8

  predicate FiveBit(v: seq<Byte>) { forall k :: 0 <= k < |v| ==> v[k] < 32 }

  function Syms(v: seq<Byte>): (r: seq<Sym>)
    ensures |r| == |v| && forall k :: 0 <= k < |v| ==> r[k] == SymOf(v[k])
  {
    seq(|v|, k requires 0 <= k < |v| => SymOf(v[k]))
  }

  /** The polynomial 1. */
  const ONE: seq<Sym> := [NIL, NIL, NIL, NIL, NIL, NIL, NIL, UNIT]

  /** The remainder of the list, with a one in front of it, modulo the generator. */
  ghost function Remainder(v: seq<Byte>): seq<Sym> { GF32.Fold(ONE, Syms(v)) }

  // ---------- the checksum ----------

  lemma UnpackOne()
    ensures Unpack(1) == ONE
  {
    Drops(1);
    assert forall k :: 0 <= k < 8 ==> Unpack(1)[k] == ONE[k];
  }

  lemma RemainderSnoc(v: seq<Byte>, k: nat)
    requires k < |v|
    ensures Remainder(v[..k + 1]) == GF32.Step(Remainder(v[..k]), SymOf(v[k]))
  {
    assert Syms(v[..k + 1]) == Syms(v[..k]) + [SymOf(v[k])];
    GF32.FoldSnoc(ONE, Syms(v[..k]), SymOf(v[k]));
  }

  function PackedFold(v: seq<Byte>): bv64 {
    if v == [] then 1 else PackedStep(PackedFold(v[..|v| - 1]), v[|v| - 1])
  }

  lemma {:induction false} PackedFoldIs(v: seq<Byte>)
    requires FiveBit(v)
    ensures PackedFold(v) < 0x100_0000_0000 && Unpack(PackedFold(v)) == Remainder(v)
  {
    if v == [] {
      UnpackOne();
    } else {
      var n := |v| - 1;
      PackedFoldIs(v[..n]);
      PackedStepIsStep(PackedFold(v[..n]), v[n]);
      PackedBound(PackedFold(v[..n]), v[n]);
      RemainderSnoc(v, n);
      assert v[..n + 1] == v;
    }
  }

  /** What the program computes. */
  function PolyModOf(v: seq<Byte>): bv64 { PackedFold(v) ^ 1 }

  lemma XorOneBound(c: bv64)
    requires c < 0x100_0000_0000
    ensures c ^ 1 < 0x100_0000_0000
  {
  }

  /** It is the remainder of the polynomial, plus one. */
  lemma PolyModIs(v: seq<Byte>)
    requires FiveBit(v)
    ensures PolyModOf(v) < 0x100_0000_0000 && Unpack(PolyModOf(v)) == GF32.Add(Remainder(v), ONE)
  {
    PackedFoldIs(v);
    UnpackOne();
    UnpackXor(PackedFold(v), 1);
    XorOneBound(PackedFold(v));
  }

  method NextRemainder(c: bv64, d: Byte) returns (r: bv64)
    ensures r == PackedStep(c, d)
  {
    var c0 := c >> 35;
    r := ((c & 0x07_ffff_ffff) << 5) ^ (d as bv64);
    r := XorIf(r, c0 & 0x01 != 0, 0x98f2bc8e61);
    r := XorIf(r, c0 & 0x02 != 0, 0x79b76d99e2);
    r := XorIf(r, c0 & 0x04 != 0, 0xf33e5fb3c4);
    r := XorIf(r, c0 & 0x08 != 0, 0xae2eabe2a8);
    r := XorIf(r, c0 & 0x10 != 0, 0x1e4f43e470);
  }

  method PolyMod(v: seq<Byte>) returns (r: bv64)
    ensures r == PolyModOf(v)
  {
    var c: bv64 := 1;
    for k := 0 to |v|
      invariant c == PackedFold(v[..k])
    {
      FoldOne(v, k);
      c := NextRemainder(c, v[k]);
    }
    assert v[..|v|] == v;
    r := c ^ 1;
  }

  lemma FoldOne(v: seq<Byte>, k: nat)
    requires k < |v|
    ensures PackedFold(v[..k + 1]) == PackedStep(PackedFold(v[..k]), v[k])
  {
    assert v[..k + 1][..k] == v[..k];
  }

  /** The value tells remainders apart. */
  lemma PolyModTells(u: seq<Byte>, v: seq<Byte>)
    requires FiveBit(u) && FiveBit(v)
    ensures PolyModOf(u) == PolyModOf(v) <==> Remainder(u) == Remainder(v)
  {
    GF32IsGood();
    PolyModIs(u);
    PolyModIs(v);
    if Remainder(u) == Remainder(v) { UnpackInjective(PolyModOf(u), PolyModOf(v)); }
    GF32.AddTwice(ONE, Remainder(u));
    GF32.AddTwice(ONE, Remainder(v));
    Commutes(Remainder(u));
    Commutes(Remainder(v));
  }

  lemma Commutes(p: seq<Sym>)
    requires |p| == 8
    ensures GF32.Add(p, ONE) == GF32.Add(ONE, p)
  {
  }

  lemma SymsDiffer(x: seq<Byte>, y: seq<Byte>)
    requires FiveBit(x) && FiveBit(y) && |x| == |y| && Syms(x) == Syms(y)
    ensures x == y
  {
    forall k | 0 <= k < |x| ensures x[k] == y[k] {
      assert Syms(x)[k] == Syms(y)[k];
      SymOfInjective(x[k], y[k]);
    }
  }

  lemma SymsConcat(u: seq<Byte>, v: seq<Byte>)
    ensures Syms(u + v) == Syms(u) + Syms(v)
  {
  }

  lemma SymsFollow(u: seq<Byte>, v: seq<Byte>, w: seq<Byte>)
    ensures Syms(u + (v + w)) == Syms(u + v) + Syms(w)
  {
    assert u + (v + w) == u + v + w;
    SymsConcat(u + v, w);
  }

  lemma FiveBitConcat(u: seq<Byte>, v: seq<Byte>)
    ensures FiveBit(u + v) <==> FiveBit(u) && FiveBit(v)
  {
    if FiveBit(u + v) {
      forall k | 0 <= k < |u| ensures u[k] < 32 { assert (u + v)[k] == u[k]; }
      forall k | 0 <= k < |v| ensures v[k] < 32 { assert (u + v)[|u| + k] == v[k]; }
    }
  }

  lemma BurstChangesRemainder(before: seq<Byte>, x: seq<Byte>, y: seq<Byte>, after: seq<Byte>)
    requires FiveBit(x) && FiveBit(y) && |x| == |y| <= 8 && x != y
    ensures Remainder(before + x + after) != Remainder(before + y + after)
  {
    GF32IsGood();
    if Syms(x) == Syms(y) { SymsDiffer(x, y); }
    GF32.BurstDetected(ONE, Syms(before), Syms(x), Syms(y), Syms(after));
    SymsConcat(before + x, after);
    SymsConcat(before + y, after);
    SymsConcat(before, x);
    SymsConcat(before, y);
  }

  /** Two lists that differ only inside eight consecutive places have different checksums. */
  lemma BurstChangesPolyMod(before: seq<Byte>, x: seq<Byte>, y: seq<Byte>, after: seq<Byte>)
    requires FiveBit(before) && FiveBit(x) && FiveBit(y) && FiveBit(after) && |x| == |y| <= 8 && x != y
    ensures PolyModOf(before + x + after) != PolyModOf(before + y + after)
  {
    FiveBitConcat(before, x);
    FiveBitConcat(before, y);
    FiveBitConcat(before + x, after);
    FiveBitConcat(before + y, after);
    BurstChangesRemainder(before, x, y, after);
    PolyModTells(before + x + after, before + y + after);
  }

  // ---------- creating and verifying ----------

  /** Every character modulo 32, and a zero. */
  function ExpandPrefix(prefix: seq<Byte>): (r: seq<Byte>)
    ensures |r| == |prefix| + 1 && FiveBit(r)
    ensures r[|prefix|] == 0 && forall k :: 0 <= k < |prefix| ==> r[k] == prefix[k] % 32
  {
    LowBits(prefix);
    seq(|prefix|, k requires 0 <= k < |prefix| => prefix[k] & 0x1f) + [0]
  }

  lemma LowBits(v: seq<Byte>)
    ensures forall k :: 0 <= k < |v| ==> v[k] & 0x1f == v[k] % 32
  {
    forall k | 0 <= k < |v| ensures v[k] & 0x1f == v[k] % 32 { LowBitsOf(v[k]); }
  }

  lemma LowBitsOf(c: Byte)
    ensures c & 0x1f == c % 32
  {
  }

  /** Two prefixes enter the checksum alike exactly if they agree in every character modulo 32. */
  lemma ExpandAgree(p: seq<Byte>, q: seq<Byte>)
    requires |p| == |q|
    ensures ExpandPrefix(p) == ExpandPrefix(q) <==> forall k :: 0 <= k < |p| ==> p[k] % 32 == q[k] % 32
  {
    if ExpandPrefix(p) == ExpandPrefix(q) {
      forall k | 0 <= k < |p| ensures p[k] % 32 == q[k] % 32 { assert ExpandPrefix(p)[k] == ExpandPrefix(q)[k]; }
    }
  }

  predicate Verifies(prefix: seq<Byte>, payload: seq<Byte>) { PolyModOf(ExpandPrefix(prefix) + payload) == 0 }

  lemma {:induction false} NoSyms(n: nat)
    ensures Drop(0, n) == 0 && SymAt(0, n) == NIL
  {
    if n > 0 { NoSyms(n - 1); }
  }

  lemma UnpackZero()
    ensures Unpack(0) == GF32.Zeros(8)
  {
    forall k | 0 <= k < 8 ensures Unpack(0)[k] == NIL { NoSyms(7 - k); }
  }

  lemma VerifiesIff(prefix: seq<Byte>, payload: seq<Byte>)
    requires FiveBit(payload)
    ensures Verifies(prefix, payload) <==> Remainder(ExpandPrefix(prefix) + payload) == ONE
  {
    var v := ExpandPrefix(prefix) + payload;
    GF32IsGood();
    PolyModIs(v);
    UnpackZero();
    if Remainder(v) == ONE {
      GF32.AddZeros(ONE);
      UnpackInjective(PolyModOf(v), 0);
    } else if PolyModOf(v) == 0 {
      GF32.AddCancels(Remainder(v), ONE);
    }
  }

  /** Five bits of the packed number, the first five for 0. */
  function Extract(c: bv64, i: nat): Byte
    requires i < 8
  {
    (Drop(c, 7 - i) & 0x1f) as bv8
  }

  lemma LowIs(c: bv64)
    ensures ((c & 0x1f) as bv8) < 32 && SymOf((c & 0x1f) as bv8) == Low(c)
  {
  }

  lemma ExtractIs(c: bv64, i: nat)
    requires i < 8
    ensures Extract(c, i) < 32 && SymOf(Extract(c, i)) == Unpack(c)[i]
  {
    LowIs(Drop(c, 7 - i));
  }

  method VerifyChecksum(prefix: seq<Byte>, payload: seq<Byte>) returns (ok: bool)
    ensures ok <==> Verifies(prefix, payload)
  {
    var r := PolyMod(ExpandPrefix(prefix) + payload);
    ok := r == 0;
  }

  function ZeroBytes(n: nat): (r: seq<Byte>)
    ensures |r| == n && Syms(r) == GF32.Zeros(n) && FiveBit(r)
  {
    seq(n, _ => 0)
  }

  function Checksum(prefix: seq<Byte>, payload: seq<Byte>): (r: seq<Byte>)
    ensures |r| == 8
  {
    var mod := PolyModOf(ExpandPrefix(prefix) + payload + ZeroBytes(8));
    seq(8, i requires 0 <= i < 8 => Extract(mod, i))
  }

  method CreateChecksum(prefix: seq<Byte>, payload: seq<Byte>) returns (ret: seq<Byte>)
    ensures ret == Checksum(prefix, payload)
  {
    var enc := ExpandPrefix(prefix) + payload + ZeroBytes(8);
    var mod := PolyMod(enc);
    ret := [];
    for i := 0 to 8
      invariant |ret| == i && forall k :: 0 <= k < i ==> ret[k] == Extract(mod, k)
    {
      ret := ret + [Extract(mod, i)];
    }
  }

  lemma ChecksumIs(prefix: seq<Byte>, payload: seq<Byte>)
    requires FiveBit(payload)
    ensures FiveBit(Checksum(prefix, payload))
    ensures Syms(Checksum(prefix, payload)) == GF32.Correction(ONE, Syms(ExpandPrefix(prefix) + payload), ONE)
  {
    var v := ExpandPrefix(prefix) + payload;
    var mod := PolyModOf(v + ZeroBytes(8));
    FiveBitConcat(ExpandPrefix(prefix), payload);
    FiveBitConcat(v, ZeroBytes(8));
    PolyModIs(v + ZeroBytes(8));
    SymsConcat(v, ZeroBytes(8));
    forall i | 0 <= i < 8 ensures Extract(mod, i) < 32 && SymOf(Extract(mod, i)) == Unpack(mod)[i] {
      ExtractIs(mod, i);
    }
    assert Syms(Checksum(prefix, payload)) == Unpack(mod);
  }

  /** The created checksum verifies, and no other eight symbols do. */
  lemma ChecksumVerifies(prefix: seq<Byte>, payload: seq<Byte>, r: seq<Byte>)
    requires FiveBit(payload) && FiveBit(r) && |r| == 8
    ensures Verifies(prefix, payload + r) <==> r == Checksum(prefix, payload)
  {
    var v := ExpandPrefix(prefix) + payload;
    FiveBitConcat(payload, r);
    VerifiesIff(prefix, payload + r);
    SymsFollow(ExpandPrefix(prefix), payload, r);
    GF32IsGood();
    GF32.CorrectionIsRight(ONE, Syms(v), ONE, Syms(r));
    ChecksumIs(prefix, payload);
    if Syms(r) == Syms(Checksum(prefix, payload)) { SymsDiffer(r, Checksum(prefix, payload)); }
  }

  // ---------- fewer symbols than a checksum has ----------

  /** What the last n symbols must be for the checksum to verify, if there is a choice that does. */
  function ShortMod(prefix: seq<Byte>, n: nat): bv64 { PolyModOf(ExpandPrefix(prefix) + ZeroBytes(n)) }

  function LastSymbols(c: bv64, n: nat): (r: seq<Byte>)
    requires n <= 8
    ensures |r| == n
  {
    seq(n, i requires 0 <= i < n => Extract(c, 8 - n + i))
  }

  lemma LastSymbolsAre(c: bv64, n: nat)
    requires n <= 8
    ensures FiveBit(LastSymbols(c, n)) && Syms(LastSymbols(c, n)) == Unpack(c)[8 - n..]
  {
    forall i | 0 <= i < n
      ensures LastSymbols(c, n)[i] < 32 && SymOf(LastSymbols(c, n)[i]) == Unpack(c)[8 - n..][i]
    {
      ExtractIs(c, 8 - n + i);
    }
  }

  /** The highest coefficients are zero exactly if the number is small. */
  lemma NilOnceGone(c: bv64, n: nat, k: nat)
    requires n <= k < 8 && Drop(c, n) == 0
    ensures SymAt(c, k) == NIL
  {
    DropMore(c, n, k - n);
    NoSyms(k - n);
  }

  lemma HighZero(c: bv64, n: nat)
    requires n <= 8 && c < 0x100_0000_0000
    ensures Unpack(c)[..8 - n] == GF32.Zeros(8 - n) <==> Drop(c, n) == 0
  {
    var p, z := Unpack(c)[..8 - n], GF32.Zeros(8 - n);
    if Drop(c, n) == 0 {
      forall k | 0 <= k < 8 - n ensures p[k] == z[k] { NilOnceGone(c, n, 7 - k); }
    } else if p == z {
      forall k | n <= k < 8 ensures SymAt(c, k) == NIL { assert p[7 - k] == z[7 - k]; }
      NilAbove(c, n);
    }
  }

  lemma {:induction false} DropMore(c: bv64, n: nat, m: nat)
    ensures Drop(Drop(c, n), m) == Drop(c, n + m)
    decreases n
  {
    if n > 0 { DropMore(c >> 5, n - 1, m); }
  }

  lemma NilAbove(c: bv64, n: nat)
    requires n <= 8 && c < 0x100_0000_0000 && forall k :: n <= k < 8 ==> SymAt(c, k) == NIL
    ensures Drop(c, n) == 0
  {
    var h := Drop(c, n);
    forall k | 0 <= k < 8 - n ensures SymAt(h, k) == SymAt(0, k) {
      DropMore(c, n, k);
      NoSyms(k);
      assert SymAt(c, n + k) == NIL;
    }
    DropMore(c, n, 8 - n);
    NothingAbove(c);
    NoSyms(8 - n);
    SameCoefficients(h, 0, 8 - n);
  }

  /** Up to eight symbols after a prefix verify exactly if the checksum of zeros in their place is small enough, and
    * then they are what it says. So for every length there is at most one such list.
    */
  lemma ShortVerifiesIff(prefix: seq<Byte>, r: seq<Byte>)
    requires FiveBit(r) && |r| <= 8
    ensures var c := ShortMod(prefix, |r|);
            Verifies(prefix, r) <==> Drop(c, |r|) == 0 && r == LastSymbols(c, |r|)
  {
    var e, n := ExpandPrefix(prefix), |r|;
    var c := ShortMod(prefix, n);
    VerifiesIff(prefix, r);
    SymsConcat(e, r);
    SymsConcat(e, ZeroBytes(n));
    FiveBitConcat(e, ZeroBytes(n));
    PolyModIs(e + ZeroBytes(n));
    GF32IsGood();
    GF32.SuffixIsRight(ONE, Syms(e), ONE, Syms(r));
    assert Verifies(prefix, r) <==> GF32.Zeros(8 - n) + Syms(r) == Unpack(c);
    ShortSplit(c, r);
  }

  lemma JoinedIs(z: seq<Sym>, t: seq<Sym>, u: seq<Sym>)
    requires |z| + |t| == |u|
    ensures z + t == u <==> z == u[..|z|] && t == u[|z|..]
  {
    assert (z + t)[..|z|] == z && (z + t)[|z|..] == t;
    assert u[..|z|] + u[|z|..] == u;
  }

  lemma ShortSplit(c: bv64, r: seq<Byte>)
    requires FiveBit(r) && |r| <= 8 && c < 0x100_0000_0000
    ensures GF32.Zeros(8 - |r|) + Syms(r) == Unpack(c) <==> Drop(c, |r|) == 0 && r == LastSymbols(c, |r|)
  {
    var n := |r|;
    var z, t := GF32.Zeros(8 - n), Syms(r);
    HighZero(c, n);
    LastSymbolsAre(c, n);
    JoinedIs(z, t, Unpack(c));
    if t == Syms(LastSymbols(c, n)) { SymsDiffer(r, LastSymbols(c, n)); }
  }

  /** Which prefixes have one. */
  lemma ShortExistsIff(prefix: seq<Byte>, n: nat)
    requires n <= 8
    ensures (exists r :: FiveBit(r) && |r| == n && Verifies(prefix, r)) <==> Drop(ShortMod(prefix, n), n) == 0
  {
    var c := ShortMod(prefix, n);
    LastSymbolsAre(c, n);
    ShortVerifiesIff(prefix, LastSymbols(c, n));
    if r :| FiveBit(r) && |r| == n && Verifies(prefix, r) { ShortVerifiesIff(prefix, r); }
  }
}
