/** The field and the generator of the CashAddr checksum (src/cashaddr.cpp). */
module CashAddrField {
  import opened CashAddrPoly

  /** An element of GF(32): b0 + b1 a + b2 a^2 + b3 a^3 + b4 a^4. */
  datatype Sym = Sym(b0: bool, b1: bool, b2: bool, b3: bool, b4: bool)

  const NIL := Sym(false, false, false, false, false)
  const UNIT := Sym(true, false, false, false, false)

  function Plus(x: Sym, y: Sym): Sym { Sym(x.b0 != y.b0, x.b1 != y.b1, x.b2 != y.b2, x.b3 != y.b3, x.b4 != y.b4) }

  /** Multiplication by a, modulo a^5 + a^3 + 1. */
  function Double(x: Sym): Sym { Sym(x.b4, x.b0, x.b1, x.b2 != x.b4, x.b3) }

  function If(b: bool, x: Sym): Sym { if b then x else NIL }

  function Sum(x0: Sym, x1: Sym, x2: Sym, x3: Sym, x4: Sym): Sym { Plus(Plus(Plus(Plus(x0, x1), x2), x3), x4) }

  /** The sum of those terms that x has the bits for. */
  function Combine(x: Sym, g0: Sym, g1: Sym, g2: Sym, g3: Sym, g4: Sym): Sym {
    Sum(If(x.b0, g0), If(x.b1, g1), If(x.b2, g2), If(x.b3, g3), If(x.b4, g4))
  }

  /** Multiplication. */
  function Mul(g: Sym, x: Sym): Sym {
    var g1 := Double(g);
    var g2 := Double(g1);
    var g3 := Double(g2);
    Combine(x, g, g1, g2, g3, Double(g3))
  }

  lemma Regroup(a: Sym, b: Sym, c: Sym, d: Sym)
    ensures Plus(Plus(a, b), Plus(c, d)) == Plus(Plus(a, c), Plus(b, d))
  {
  }

  lemma IfPlus(b: bool, c: bool, g: Sym)
    ensures If(b != c, g) == Plus(If(b, g), If(c, g))
  {
  }

  lemma SumPlus(x0: Sym, x1: Sym, x2: Sym, x3: Sym, x4: Sym, y0: Sym, y1: Sym, y2: Sym, y3: Sym, y4: Sym)
    ensures Sum(Plus(x0, y0), Plus(x1, y1), Plus(x2, y2), Plus(x3, y3), Plus(x4, y4)) ==
            Plus(Sum(x0, x1, x2, x3, x4), Sum(y0, y1, y2, y3, y4))
  {
    var x, y := Plus(x0, x1), Plus(y0, y1);
    Regroup(x0, y0, x1, y1);
    Regroup(x, y, x2, y2);
    Regroup(Plus(x, x2), Plus(y, y2), x3, y3);
    Regroup(Plus(Plus(x, x2), x3), Plus(Plus(y, y2), y3), x4, y4);
  }

  lemma SumIs(z0: Sym, z1: Sym, z2: Sym, z3: Sym, z4: Sym, x: Sym, y: Sym,
              g0: Sym, g1: Sym, g2: Sym, g3: Sym, g4: Sym)
    requires z0 == Plus(If(x.b0, g0), If(y.b0, g0)) && z1 == Plus(If(x.b1, g1), If(y.b1, g1))
    requires z2 == Plus(If(x.b2, g2), If(y.b2, g2)) && z3 == Plus(If(x.b3, g3), If(y.b3, g3))
    requires z4 == Plus(If(x.b4, g4), If(y.b4, g4))
    ensures Sum(z0, z1, z2, z3, z4) == Plus(Combine(x, g0, g1, g2, g3, g4), Combine(y, g0, g1, g2, g3, g4))
  {
    SumPlus(If(x.b0, g0), If(x.b1, g1), If(x.b2, g2), If(x.b3, g3), If(x.b4, g4),
            If(y.b0, g0), If(y.b1, g1), If(y.b2, g2), If(y.b3, g3), If(y.b4, g4));
  }

  lemma CombineLinear(x: Sym, y: Sym, g0: Sym, g1: Sym, g2: Sym, g3: Sym, g4: Sym)
    ensures Combine(Plus(x, y), g0, g1, g2, g3, g4) ==
            Plus(Combine(x, g0, g1, g2, g3, g4), Combine(y, g0, g1, g2, g3, g4))
  {
    var z := Plus(x, y);
    IfPlus(x.b0, y.b0, g0);
    IfPlus(x.b1, y.b1, g1);
    IfPlus(x.b2, y.b2, g2);
    IfPlus(x.b3, y.b3, g3);
    IfPlus(x.b4, y.b4, g4);
    SumIs(If(z.b0, g0), If(z.b1, g1), If(z.b2, g2), If(z.b3, g3), If(z.b4, g4), x, y, g0, g1, g2, g3, g4);
  }

  lemma MulLinear(g: Sym, x: Sym, y: Sym)
    ensures Mul(g, Plus(x, y)) == Plus(Mul(g, x), Mul(g, y))
  {
    var g1 := Double(g);
    var g2 := Double(g1);
    var g3 := Double(g2);
    CombineLinear(x, y, g, g1, g2, g3, Double(g3));
  }

  lemma MulUnit(x: Sym)
    ensures Mul(UNIT, x) == x
  {
  }

  // ---------- the generator ----------

  /** The coefficients of x^8 + 19 x^7 + 3 x^6 + 25 x^5 + 11 x^4 + 25 x^3 + 3 x^2 + 19 x + 1 after the first. */
  function Generator(k: nat): Sym {
    if k == 0 || k == 6 then Sym(true, true, false, false, true)
    else if k == 1 || k == 5 then Sym(true, true, false, false, false)
    else if k == 2 || k == 4 then Sym(true, false, false, true, true)
    else if k == 3 then Sym(true, true, false, true, false)
    else UNIT
  }

  const PLUS := (x: Sym, y: Sym) => Plus(x, y)

  function Times(g: Sym): Sym -> Sym { (x: Sym) => Mul(g, x) }

  const TIMES: seq<Sym -> Sym> := [
    Times(Generator(0)), Times(Generator(1)), Times(Generator(2)), Times(Generator(3)),
    Times(Generator(4)), Times(Generator(5)), Times(Generator(6)), Times(Generator(7))]

  /** GF(32) with the generator of the CashAddr specification. */
  const GF32: Ring<Sym> := Ring(PLUS, NIL, TIMES)

  lemma TimesAre(k: nat)
    requires k < 8
    ensures GF32.times[k] == Times(Generator(k))
  {
  }

  lemma Units(x: Sym)
    ensures GF32.UnitAt(x)
  {
  }

  lemma Cancels(x: Sym, y: Sym)
    ensures GF32.CancelsAt(x, y)
  {
  }

  lemma TimesLinear(g: Sym)
    ensures GF32.Linear(Times(g))
  {
    forall x, y ensures GF32.LinearAt(Times(g), x, y) { MulLinear(g, x, y); }
  }

  lemma GF32IsGood()
    ensures GF32.Good()
  {
    forall a, b, c, d ensures GF32.RegroupsAt(a, b, c, d) { Regroup(a, b, c, d); }
    forall x ensures GF32.UnitAt(x) { Units(x); }
    forall x, y ensures GF32.CancelsAt(x, y) { Cancels(x, y); }
    forall k | 0 <= k < 8 ensures GF32.Linear(GF32.times[k]) { TimesLinear(Generator(k)); }
    forall x ensures GF32.times[7](x) == x { MulUnit(x); }
  }

  // ---------- the packed form ----------

  function XorIf(c: bv64, b: bool, k: bv64): bv64 { if b then c ^ k else c }

  /** The remainder after one more coefficient, as the program computes it. */
  function PackedStep(c: bv64, d: bv8): bv64 {
    var c0 := c >> 35;
    var c1 := ((c & 0x07_ffff_ffff) << 5) ^ (d as bv64);
    var c2 := XorIf(c1, c0 & 0x01 != 0, 0x98f2bc8e61);
    var c3 := XorIf(c2, c0 & 0x02 != 0, 0x79b76d99e2);
    var c4 := XorIf(c3, c0 & 0x04 != 0, 0xf33e5fb3c4);
    var c5 := XorIf(c4, c0 & 0x08 != 0, 0xae2eabe2a8);
    XorIf(c5, c0 & 0x10 != 0, 0x1e4f43e470)
  }

  function SymOf(d: bv8): Sym { Sym(d & 1 != 0, d & 2 != 0, d & 4 != 0, d & 8 != 0, d & 16 != 0) }

  /** The lowest five bits. */
  function Low(c: bv64): Sym { Sym(c & 1 != 0, c & 2 != 0, c & 4 != 0, c & 8 != 0, c & 16 != 0) }

  /** Without the lowest 5 * n bits. */
  function Drop(c: bv64, n: nat): bv64
    decreases n
  {
    if n == 0 then c else Drop(c >> 5, n - 1)
  }

  function SymAt(c: bv64, n: nat): Sym { Low(Drop(c, n)) }

  /** The eight coefficients packed in a number, highest first. */
  function Unpack(c: bv64): (r: seq<Sym>)
    ensures |r| == 8 && forall k :: 0 <= k < 8 ==> r[k] == SymAt(c, 7 - k)
  {
    seq(8, k requires 0 <= k < 8 => SymAt(c, 7 - k))
  }

  lemma Drops(c: bv64)
    ensures Drop(c, 1) == c >> 5 && Drop(c, 2) == c >> 10 && Drop(c, 3) == c >> 15 && Drop(c, 4) == c >> 20
    ensures Drop(c, 5) == c >> 25 && Drop(c, 6) == c >> 30 && Drop(c, 7) == c >> 35
  {
  }

  lemma LowXor(x: bv64, y: bv64)
    ensures Low(x ^ y) == Plus(Low(x), Low(y))
  {
  }

  lemma ShiftXor(x: bv64, y: bv64)
    ensures (x ^ y) >> 5 == (x >> 5) ^ (y >> 5)
  {
  }

  lemma {:induction false} SymAtXor(x: bv64, y: bv64, n: nat)
    ensures SymAt(x ^ y, n) == Plus(SymAt(x, n), SymAt(y, n))
    decreases n
  {
    if n == 0 {
      LowXor(x, y);
    } else {
      ShiftXor(x, y);
      SymAtXor(x >> 5, y >> 5, n - 1);
    }
  }

  lemma XorIfAt(c: bv64, b: bool, k: bv64, n: nat)
    ensures SymAt(XorIf(c, b, k), n) == Plus(SymAt(c, n), If(b, SymAt(k, n)))
  {
    if b { SymAtXor(c, k, n); } else { Units(SymAt(c, n)); }
  }

  /** One more term on the right. */
  lemma Extend(s0: Sym, t: Sym, s: Sym, k: Sym, s': Sym)
    requires s == Plus(s0, t) && s' == Plus(s, k)
    ensures s' == Plus(s0, Plus(t, k))
  {
  }

  /** Adding the constants for the bits that leave at the top. */
  function Reduced(c: bv64, t: Sym): bv64 {
    XorIf(XorIf(Reduced3(c, t), t.b3, 0xae2eabe2a8), t.b4, 0x1e4f43e470)
  }

  function Reduced3(c: bv64, t: Sym): bv64 {
    XorIf(XorIf(XorIf(c, t.b0, 0x98f2bc8e61), t.b1, 0x79b76d99e2), t.b2, 0xf33e5fb3c4)
  }

  /** What the constants add to one coefficient. */
  function Added(t: Sym, n: nat): Sym {
    Combine(t, SymAt(0x98f2bc8e61, n), SymAt(0x79b76d99e2, n), SymAt(0xf33e5fb3c4, n), SymAt(0xae2eabe2a8, n),
            SymAt(0x1e4f43e470, n))
  }

  lemma TwoXors(c: bv64, b: bool, k: bv64, b': bool, k': bv64, n: nat)
    ensures SymAt(XorIf(XorIf(c, b, k), b', k'), n) ==
            Plus(Plus(SymAt(c, n), If(b, SymAt(k, n))), If(b', SymAt(k', n)))
  {
    XorIfAt(c, b, k, n);
    XorIfAt(XorIf(c, b, k), b', k', n);
  }

  lemma Reduced3At(c: bv64, t: Sym, n: nat)
    ensures SymAt(Reduced3(c, t), n) ==
            Plus(Plus(Plus(SymAt(c, n), If(t.b0, SymAt(0x98f2bc8e61, n))), If(t.b1, SymAt(0x79b76d99e2, n))),
                 If(t.b2, SymAt(0xf33e5fb3c4, n)))
  {
    TwoXors(c, t.b0, 0x98f2bc8e61, t.b1, 0x79b76d99e2, n);
    XorIfAt(XorIf(XorIf(c, t.b0, 0x98f2bc8e61), t.b1, 0x79b76d99e2), t.b2, 0xf33e5fb3c4, n);
  }

  lemma ReducedAt(c: bv64, t: Sym, n: nat)
    ensures SymAt(Reduced(c, t), n) == Plus(SymAt(c, n), Added(t, n))
  {
    Reduced3At(c, t, n);
    TwoXors(Reduced3(c, t), t.b3, 0xae2eabe2a8, t.b4, 0x1e4f43e470, n);
    FrontTerm(SymAt(c, n), If(t.b0, SymAt(0x98f2bc8e61, n)), If(t.b1, SymAt(0x79b76d99e2, n)),
              If(t.b2, SymAt(0xf33e5fb3c4, n)), If(t.b3, SymAt(0xae2eabe2a8, n)), If(t.b4, SymAt(0x1e4f43e470, n)));
  }

  lemma FrontTerm(s: Sym, k0: Sym, k1: Sym, k2: Sym, k3: Sym, k4: Sym)
    ensures Plus(Plus(Plus(Plus(Plus(s, k0), k1), k2), k3), k4) == Plus(s, Sum(k0, k1, k2, k3, k4))
  {
    var s1 := Plus(s, k0);
    var s2 := Plus(s1, k1);
    var s3 := Plus(s2, k2);
    Extend(s, k0, s1, k1, s2);
    Extend(s, Plus(k0, k1), s2, k2, s3);
    Extend(s, Plus(Plus(k0, k1), k2), s3, k3, Plus(s3, k3));
    Extend(s, Plus(Plus(Plus(k0, k1), k2), k3), Plus(s3, k3), k4, Plus(Plus(s3, k3), k4));
  }

  /** The five bits that leave at the top. */
  lemma TopBits(c: bv64)
    ensures var t, c0 := SymAt(c, 7), c >> 35;
            && t.b0 == (c0 & 0x01 != 0) && t.b1 == (c0 & 0x02 != 0) && t.b2 == (c0 & 0x04 != 0)
            && t.b3 == (c0 & 0x08 != 0) && t.b4 == (c0 & 0x10 != 0)
  {
    Drops(c);
  }

  /** The remainder moved up by one coefficient, with a new lowest one. */
  function Moved(c: bv64, d: bv8): bv64 { ((c & 0x07_ffff_ffff) << 5) ^ (d as bv64) }

  lemma PackedIsReduced(c: bv64, d: bv8)
    ensures PackedStep(c, d) == Reduced(Moved(c, d), SymAt(c, 7))
  {
    TopBits(c);
  }

  lemma MovedDown(c: bv64, d: bv8)
    requires d < 32
    ensures Moved(c, d) >> 5 == c & 0x07_ffff_ffff
  {
  }

  lemma MovedLow(c: bv64, d: bv8)
    requires d < 32
    ensures Low(Moved(c, d)) == SymOf(d)
  {
  }

  /** The mask takes off only what leaves at the top. */
  lemma MaskKeeps(c: bv64, n: nat)
    requires n < 7
    ensures SymAt(c & 0x07_ffff_ffff, n) == SymAt(c, n)
  {
    var low, high := c & 0x07_ffff_ffff, c & !0x07_ffff_ffff;
    HighIsNil(c);
    SymAtXor(low, high, n);
    Units(SymAt(low, n));
    assert low ^ high == c;
  }

  lemma HighIsNil(c: bv64)
    ensures var high := c & !0x07_ffff_ffff;
            && SymAt(high, 0) == SymAt(high, 1) == SymAt(high, 2) == SymAt(high, 3) == NIL
            && SymAt(high, 4) == SymAt(high, 5) == SymAt(high, 6) == NIL
  {
    Drops(c & !0x07_ffff_ffff);
  }

  lemma MovedAt(c: bv64, d: bv8, k: nat)
    requires d < 32 && k < 8
    ensures SymAt(Moved(c, d), 7 - k) == if k < 7 then SymAt(c, 6 - k) else SymOf(d)
  {
    if k < 7 {
      MovedDown(c, d);
      MaskKeeps(c, 6 - k);
    } else {
      MovedLow(c, d);
    }
  }

  lemma ConstantsAre(n: nat)
    requires n < 8
    ensures var g := Generator(7 - n);
            && SymAt(0x98f2bc8e61, n) == g && SymAt(0x79b76d99e2, n) == Double(g)
            && SymAt(0xf33e5fb3c4, n) == Double(Double(g)) && SymAt(0xae2eabe2a8, n) == Double(Double(Double(g)))
            && SymAt(0x1e4f43e470, n) == Double(Double(Double(Double(g))))
  {
    Drops(0x98f2bc8e61);
    Drops(0x79b76d99e2);
    Drops(0xf33e5fb3c4);
    Drops(0xae2eabe2a8);
    Drops(0x1e4f43e470);
  }

  /** Every constant of the program is a multiple of the generator. */
  lemma AddedIsTimes(t: Sym, k: nat)
    requires k < 8
    ensures Added(t, 7 - k) == Mul(Generator(k), t)
  {
    ConstantsAre(7 - k);
  }

  lemma ReducedTimes(c: bv64, t: Sym, k: nat)
    requires k < 8
    ensures SymAt(Reduced(c, t), 7 - k) == Plus(SymAt(c, 7 - k), Mul(Generator(k), t))
  {
    ReducedAt(c, t, 7 - k);
    AddedIsTimes(t, k);
  }

  lemma PackedTimes(c: bv64, d: bv8, k: nat)
    requires k < 8
    ensures SymAt(PackedStep(c, d), 7 - k) == Plus(SymAt(Moved(c, d), 7 - k), Mul(Generator(k), SymAt(c, 7)))
  {
    PackedIsReduced(c, d);
    ReducedTimes(Moved(c, d), SymAt(c, 7), k);
  }

  lemma PackedCoefficient(c: bv64, d: bv8, k: nat)
    requires d < 32 && k < 8
    ensures SymAt(PackedStep(c, d), 7 - k) == GF32.Coefficient(Unpack(c), SymOf(d), k)
  {
    PackedSym(c, d, k);
    CoefficientIs(c, SymOf(d), k);
  }

  lemma PackedSym(c: bv64, d: bv8, k: nat)
    requires d < 32 && k < 8
    ensures SymAt(PackedStep(c, d), 7 - k) ==
            Plus(if k < 7 then SymAt(c, 6 - k) else SymOf(d), Mul(Generator(k), SymAt(c, 7)))
  {
    PackedTimes(c, d, k);
    MovedAt(c, d, k);
  }

  lemma CoefficientIs(c: bv64, d: Sym, k: nat)
    requires k < 8
    ensures GF32.Coefficient(Unpack(c), d, k) ==
            Plus(if k < 7 then SymAt(c, 6 - k) else d, Mul(Generator(k), SymAt(c, 7)))
  {
    var p := Unpack(c);
    assert GF32.times[k](p[0]) == Mul(Generator(k), p[0]);
  }

  /** The program's arithmetic on packed numbers is arithmetic of polynomials. */
  lemma PackedStepIsStep(c: bv64, d: bv8)
    requires d < 32
    ensures Unpack(PackedStep(c, d)) == GF32.Step(Unpack(c), SymOf(d))
  {
    forall k | 0 <= k < 8 ensures Unpack(PackedStep(c, d))[k] == GF32.Step(Unpack(c), SymOf(d))[k] {
      PackedCoefficient(c, d, k);
    }
  }

  lemma PackedBound(c: bv64, d: bv8)
    ensures PackedStep(c, d) < 0x100_0000_0000
  {
  }

  lemma SymOfInjective(x: bv8, y: bv8)
    requires x < 32 && y < 32 && SymOf(x) == SymOf(y)
    ensures x == y
  {
  }

  lemma LowInjective(a: bv64, b: bv64)
    requires a >> 5 == b >> 5 && Low(a) == Low(b)
    ensures a == b
  {
  }

  lemma {:induction false} SameCoefficients(a: bv64, b: bv64, n: nat)
    requires Drop(a, n) == Drop(b, n) && forall k :: 0 <= k < n ==> SymAt(a, k) == SymAt(b, k)
    ensures a == b
    decreases n
  {
    if n > 0 {
      var a', b' := a >> 5, b >> 5;
      forall k | 0 <= k < n - 1 ensures SymAt(a', k) == SymAt(b', k) { assert SymAt(a, k + 1) == SymAt(b, k + 1); }
      SameCoefficients(a', b', n - 1);
      assert SymAt(a, 0) == SymAt(b, 0);
      LowInjective(a, b);
    }
  }

  lemma NothingAbove(c: bv64)
    requires c < 0x100_0000_0000
    ensures Drop(c, 8) == 0
  {
  }

  lemma UnpackInjective(a: bv64, b: bv64)
    requires a < 0x100_0000_0000 && b < 0x100_0000_0000 && Unpack(a) == Unpack(b)
    ensures a == b
  {
    NothingAbove(a);
    NothingAbove(b);
    forall k | 0 <= k < 8 ensures SymAt(a, k) == SymAt(b, k) { assert Unpack(a)[7 - k] == Unpack(b)[7 - k]; }
    SameCoefficients(a, b, 8);
  }

  lemma UnpackXor(a: bv64, b: bv64)
    ensures Unpack(a ^ b) == GF32.Add(Unpack(a), Unpack(b))
  {
    forall k | 0 <= k < 8 ensures Unpack(a ^ b)[k] == GF32.Add(Unpack(a), Unpack(b))[k] {
      SymAtXor(a, b, 7 - k);
    }
  }
}
