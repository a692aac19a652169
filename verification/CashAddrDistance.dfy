/** The CashAddr code detects every change of up to four characters within a window of 1025 (src/cashaddr.cpp:46-51):
  * polynomials in y over GF(32), modulo y^4 + 12 y^3 + 11 y^2 + 12 y + 1, in which y has order 1025, and the generator
  * vanishes at y, y^32, y^65 and their inverses.
  */
module CashAddrDistance {
  import opened CashAddrPoly
  import opened CashAddrField
  import opened CashAddrCode
  import opened CashAddrExtension
  import opened CashAddrPacked
  import opened CashAddr

  function Add4(u: Four, v: Four): Four {
    Four(Plus(u.c3, v.c3), Plus(u.c2, v.c2), Plus(u.c1, v.c1), Plus(u.c0, v.c0))
  }

  function Double4(v: Four): Four { Four(Double(v.c3), Double(v.c2), Double(v.c1), Double(v.c0)) }

  function Up4(v: Four): Four { Four(v.c2, v.c1, v.c0, NIL) }

  const ADD := (u: Four, v: Four) => Add4(u, v)
  const NIL4 := Four(NIL, NIL, NIL, NIL)
  const ONE4 := Four(NIL, NIL, NIL, UNIT)
  const DOUBLE := (v: Four) => Double4(v)
  const UP := (v: Four) => Up4(v)
  const SAME := (v: Four) => v

  /** y^4 = 12 y^3 + 11 y^2 + 12 y + 1. */
  const TWELVE := Sym(false, false, true, true, false)
  const ELEVEN := Sym(true, true, false, true, false)
  const FOURTH := Four(TWELVE, ELEVEN, TWELVE, UNIT)

  const TOWER: Tower<Four> := Tower(ADD, NIL4, ONE4, FOURTH, DOUBLE, UP, SAME)

  // ---------- the tower is what it should be ----------

  lemma Regroup4(t: Four, u: Four, v: Four, w: Four)
    ensures Add4(Add4(t, u), Add4(v, w)) == Add4(Add4(t, v), Add4(u, w))
  {
    Regroup(t.c3, u.c3, v.c3, w.c3);
    Regroup(t.c2, u.c2, v.c2, w.c2);
    Regroup(t.c1, u.c1, v.c1, w.c1);
    Regroup(t.c0, u.c0, v.c0, w.c0);
  }

  lemma Unit(x: Sym)
    ensures Plus(x, NIL) == x && Plus(NIL, x) == x && Plus(x, x) == NIL
  {
  }

  lemma Unit4(v: Four)
    ensures Add4(v, NIL4) == v && Add4(NIL4, v) == v && Add4(v, v) == NIL4
  {
    Unit(v.c3);
    Unit(v.c2);
    Unit(v.c1);
    Unit(v.c0);
  }

  lemma Cancel(x: Sym, y: Sym)
    ensures Plus(x, y) == NIL ==> x == y
  {
  }

  lemma Cancel4(u: Four, v: Four)
    ensures Add4(u, v) == NIL4 ==> u == v
  {
    Cancel(u.c3, v.c3);
    Cancel(u.c2, v.c2);
    Cancel(u.c1, v.c1);
    Cancel(u.c0, v.c0);
  }

  lemma DoubleLinear(x: Sym, y: Sym)
    ensures Double(Plus(x, y)) == Plus(Double(x), Double(y))
  {
  }

  lemma Shift4(u: Four, v: Four)
    ensures Double4(Add4(u, v)) == Add4(Double4(u), Double4(v)) && Up4(Add4(u, v)) == Add4(Up4(u), Up4(v))
  {
    DoubleLinear(u.c3, v.c3);
    DoubleLinear(u.c2, v.c2);
    DoubleLinear(u.c1, v.c1);
    DoubleLinear(u.c0, v.c0);
  }

  lemma Fifth(x: Sym)
    ensures Double(Double(Double(Double(Double(x))))) == Plus(Double(Double(Double(x))), x)
  {
  }

  lemma Fifth4(v: Four)
    ensures Double4(Double4(Double4(Double4(Double4(v))))) == Add4(Double4(Double4(Double4(v))), v)
    ensures Up4(Double4(v)) == Double4(Up4(v))
  {
    Fifth(v.c3);
    Fifth(v.c2);
    Fifth(v.c1);
    Fifth(v.c0);
  }

  lemma DoubleTop(v: Four)
    ensures Double4(v).c3 == Double(v.c3)
  {
  }

  lemma TermIs(b: bool, v: Four)
    ensures TOWER.Term(b, v) == Four(If(b, v.c3), If(b, v.c2), If(b, v.c1), If(b, v.c0))
  {
  }

  lemma SumIs(r: Four, t0: Four, t1: Four, t2: Four, t3: Four, t4: Four)
    ensures TOWER.Sum(r, t0, t1, t2, t3, t4) ==
            Four(Plus(r.c3, Sum(t0.c3, t1.c3, t2.c3, t3.c3, t4.c3)), Plus(r.c2, Sum(t0.c2, t1.c2, t2.c2, t3.c2, t4.c2)),
                 Plus(r.c1, Sum(t0.c1, t1.c1, t2.c1, t3.c1, t4.c1)), Plus(r.c0, Sum(t0.c0, t1.c0, t2.c0, t3.c0, t4.c0)))
  {
    FrontTerm(r.c3, t0.c3, t1.c3, t2.c3, t3.c3, t4.c3);
    FrontTerm(r.c2, t0.c2, t1.c2, t2.c2, t3.c2, t4.c2);
    FrontTerm(r.c1, t0.c1, t1.c1, t2.c1, t3.c1, t4.c1);
    FrontTerm(r.c0, t0.c0, t1.c0, t2.c0, t3.c0, t4.c0);
  }

  /** Multiplication by a coefficient goes coefficient by coefficient. */
  lemma ScaleIs(r: Four, s: Sym, v: Four)
    ensures TOWER.Scale(r, s, v) ==
            Four(Plus(r.c3, Mul(v.c3, s)), Plus(r.c2, Mul(v.c2, s)), Plus(r.c1, Mul(v.c1, s)), Plus(r.c0, Mul(v.c0, s)))
  {
    var v1 := Double4(v);
    var v2 := Double4(v1);
    var v3 := Double4(v2);
    var v4 := Double4(v3);
    TermIs(s.b0, v);
    TermIs(s.b1, v1);
    TermIs(s.b2, v2);
    TermIs(s.b3, v3);
    TermIs(s.b4, v4);
    SumIs(r, TOWER.Term(s.b0, v), TOWER.Term(s.b1, v1), TOWER.Term(s.b2, v2), TOWER.Term(s.b3, v3),
          TOWER.Term(s.b4, v4));
  }

  lemma MulNil(s: Sym)
    ensures Mul(NIL, s) == NIL && Mul(UNIT, s) == s
  {
    MulUnit(s);
  }

  lemma ScaleOne(r: Four, s: Sym)
    ensures TOWER.Scale(r, s, ONE4) == Four(r.c3, r.c2, r.c1, Plus(r.c0, s))
  {
    ScaleIs(r, s, ONE4);
    MulNil(s);
    Unit(r.c3);
    Unit(r.c2);
    Unit(r.c1);
  }

  lemma MulByNil(g: Sym)
    ensures Mul(g, NIL) == NIL
  {
  }

  lemma YShort(v: Four)
    requires v.c3 == NIL
    ensures TOWER.Y(v) == Up4(v)
  {
    ScaleIs(Up4(v), NIL, FOURTH);
    MulByNil(FOURTH.c3);
    MulByNil(FOURTH.c2);
    MulByNil(FOURTH.c1);
    MulByNil(FOURTH.c0);
    Unit(v.c2);
    Unit(v.c1);
    Unit(v.c0);
    Unit(NIL);
  }

  lemma ProductOne(v: Four)
    ensures TOWER.Product(v, ONE4) == v
  {
    var p3 := Four(NIL, NIL, NIL, v.c3);
    var p2 := Four(NIL, NIL, v.c3, v.c2);
    var p1 := Four(NIL, v.c3, v.c2, v.c1);
    Unit(v.c3);
    Unit(v.c2);
    Unit(v.c1);
    Unit(v.c0);
    ScaleOne(NIL4, v.c3);
    YShort(p3);
    ScaleOne(Up4(p3), v.c2);
    YShort(p2);
    ScaleOne(Up4(p2), v.c1);
    YShort(p1);
    ScaleOne(Up4(p1), v.c0);
  }

  lemma InjIs(s: Sym)
    ensures TOWER.Inj(s) == Four(NIL, NIL, NIL, s)
  {
    ScaleOne(NIL4, s);
    Unit(s);
  }

  lemma TowerIsGood()
    ensures TOWER.Good() && TOWER.Faithful()
  {
    forall t, u, v, w ensures TOWER.RegroupsAt(t, u, v, w) { Regroup4(t, u, v, w); }
    forall v ensures TOWER.UnitAt(v) { Unit4(v); }
    forall u, v ensures TOWER.CancelsAt(u, v) { Cancel4(u, v); }
    forall u, v ensures TOWER.ShiftsAt(u, v) { Shift4(u, v); }
    forall v ensures TOWER.FifthAt(v) {
      Fifth4(v);
      DoubleTop(v);
    }
    forall v ensures TOWER.Product(v, TOWER.one) == v { ProductOne(v); }
    forall s ensures TOWER.Inj(s) == TOWER.nil ==> s == NIL { InjIs(s); }
  }

  // ---------- packed in twenty bits, for numbers ----------

  function Of(v: bv20): Four { Four(Last(v >> 15), Last(v >> 10), Last(v >> 5), Last(v)) }

  lemma LastXor(u: bv20, v: bv20)
    ensures Last(u ^ v) == Plus(Last(u), Last(v))
  {
  }

  lemma OfXor3(u: bv20, v: bv20)
    ensures Last((u ^ v) >> 15) == Plus(Last(u >> 15), Last(v >> 15))
  {
    assert (u ^ v) >> 15 == (u >> 15) ^ (v >> 15);
    LastXor(u >> 15, v >> 15);
  }

  lemma OfXor2(u: bv20, v: bv20)
    ensures Last((u ^ v) >> 10) == Plus(Last(u >> 10), Last(v >> 10))
  {
    assert (u ^ v) >> 10 == (u >> 10) ^ (v >> 10);
    LastXor(u >> 10, v >> 10);
  }

  lemma OfXor1(u: bv20, v: bv20)
    ensures Last((u ^ v) >> 5) == Plus(Last(u >> 5), Last(v >> 5))
  {
    assert (u ^ v) >> 5 == (u >> 5) ^ (v >> 5);
    LastXor(u >> 5, v >> 5);
  }

  lemma OfXor(u: bv20, v: bv20)
    ensures Of(u ^ v) == Add4(Of(u), Of(v))
  {
    OfXor3(u, v);
    OfXor2(u, v);
    OfXor1(u, v);
    LastXor(u, v);
  }

  lemma OfA(v: bv20)
    ensures Of(A(v)) == Double4(Of(v))
  {
  }

  lemma OfUp(v: bv20)
    ensures Of(v << 5) == Up4(Of(v))
  {
  }

  lemma OfAcc(r: bv20, b: bool, v: bv20)
    ensures Of(Acc(r, b, v)) == Add4(Of(r), TOWER.Term(b, Of(v)))
  {
    if b { OfXor(r, v); } else { Unit4(Of(r)); }
  }

  lemma OfScale(r: bv20, s: Sym, v: bv20)
    ensures Of(Scale(r, s, v)) == TOWER.Scale(Of(r), s, Of(v))
  {
    var v1 := A(v);
    var v2 := A(v1);
    var v3 := A(v2);
    var v4 := A(v3);
    OfA(v);
    OfA(v1);
    OfA(v2);
    OfA(v3);
    OfSum(r, s, v, v1, v2, v3, v4);
  }

  lemma OfSum(r: bv20, s: Sym, v0: bv20, v1: bv20, v2: bv20, v3: bv20, v4: bv20)
    ensures Of(Acc(Acc(Acc(Acc(Acc(r, s.b0, v0), s.b1, v1), s.b2, v2), s.b3, v3), s.b4, v4)) ==
            TOWER.Sum(Of(r), TOWER.Term(s.b0, Of(v0)), TOWER.Term(s.b1, Of(v1)), TOWER.Term(s.b2, Of(v2)),
                      TOWER.Term(s.b3, Of(v3)), TOWER.Term(s.b4, Of(v4)))
  {
    var r0 := Acc(r, s.b0, v0);
    var r1 := Acc(r0, s.b1, v1);
    var r2 := Acc(r1, s.b2, v2);
    var r3 := Acc(r2, s.b3, v3);
    OfAcc(r, s.b0, v0);
    OfAcc(r0, s.b1, v1);
    OfAcc(r1, s.b2, v2);
    OfAcc(r2, s.b3, v3);
    OfAcc(r3, s.b4, v4);
  }

  lemma OfFourth()
    ensures Of(0x62d81) == FOURTH && Of(1) == ONE4 && Of(0) == NIL4
  {
  }

  lemma OfY(v: bv20)
    ensures Of(Y(v)) == TOWER.Y(Of(v))
  {
    OfUp(v);
    OfFourth();
    OfScale(v << 5, Last(v >> 15), 0x62d81);
  }

  lemma OfProduct(u: bv20, v: bv20)
    ensures Of(Product(u, v)) == TOWER.Product(Of(u), Of(v))
  {
    var p3 := Scale(0, Last(u >> 15), v);
    var p2 := Scale(Y(p3), Last(u >> 10), v);
    var p1 := Scale(Y(p2), Last(u >> 5), v);
    OfFourth();
    OfScale(0, Last(u >> 15), v);
    OfY(p3);
    OfScale(Y(p3), Last(u >> 10), v);
    OfY(p2);
    OfScale(Y(p2), Last(u >> 5), v);
    OfY(p1);
    OfScale(Y(p1), Last(u), v);
  }

  const PACKING: Packing<Four> := Packing(TOWER, (v: bv20) => Of(v))

  lemma FirstPower()
    ensures Of(0x20) == TOWER.P(1)
  {
    OfFourth();
    OfY(1);
    assert Y(1) == 0x20;
    assert TOWER.P(1) == TOWER.Y(ONE4);
  }

  lemma GeneratorIs(k: nat)
    requires k < 8
    ensures Of(GeneratorBits(k)) == TOWER.Inj(Generator(k))
  {
    InjIs(Generator(k));
  }

  lemma PacksSums(u: bv20, v: bv20)
    ensures PACKING.AddAt(u, v)
  {
    OfXor(u, v);
  }

  lemma PacksProducts(u: bv20, v: bv20)
    ensures PACKING.MulAt(u, v)
  {
    OfProduct(u, v);
  }

  lemma PacksGenerator(k: nat)
    ensures PACKING.InjAt(k)
  {
    if k < 8 { GeneratorIs(k); }
  }

  lemma PackingPacks()
    ensures PACKING.Packs()
  {
    OfFourth();
    forall u, v ensures PACKING.MulAt(u, v) { PacksProducts(u, v); }
    forall u, v ensures PACKING.AddAt(u, v) { PacksSums(u, v); }
    forall k: nat ensures PACKING.InjAt(k) { PacksGenerator(k); }
  }

  lemma PackingIsGood()
    ensures PACKING.Good()
  {
    TowerIsGood();
    OfFourth();
    FirstPower();
    PackingPacks();
  }

  lemma SpaceIsGood()
    ensures TOWER.Space().Good() && TOWER.Space().HasRoots()
  {
    PackingIsGood();
    PACKING.SpaceIsGood();
  }

  // ---------- up to four errors ----------

  /** The places where two lists differ. */
  ghost function Changed(u: seq<Byte>, v: seq<Byte>): set<nat>
    requires |u| == |v|
  {
    set k: nat | k < |u| && u[k] != v[k]
  }

  /** At most four places, no two of them PERIOD = 1025 or more apart. */
  ghost predicate FewAndNear(s: set<nat>) { |s| <= 4 && forall i, k :: i in s && k in s ==> i < k + PERIOD }

  lemma {:induction false} Listed(s: set<nat>) returns (ns: seq<nat>)
    ensures |ns| == |s| && (forall k :: k in ns <==> k in s)
    ensures forall i, k :: 0 <= i < k < |ns| ==> ns[i] != ns[k]
    decreases |s|
  {
    ns := [];
    if s != {} {
      var x :| x in s;
      var rest := Listed(s - {x});
      ns := rest + [x];
    }
  }

  lemma SymsAddAt(u: seq<Byte>, v: seq<Byte>, k: nat)
    requires k < |u| == |v| && GF32.Add(Syms(u), Syms(v))[k] != NIL
    ensures k in Changed(u, v)
  {
    GF32IsGood();
    GF32.AddZeros([SymOf(u[k])]);
    assert GF32.Add([SymOf(u[k])], [SymOf(u[k])])[0] == NIL;
  }

  lemma FewChangesSpread(u: seq<Byte>, v: seq<Byte>)
    requires |u| == |v| && FewAndNear(Changed(u, v)) && Remainder(u) == Remainder(v)
    ensures GF32.Add(Syms(u), Syms(v)) == GF32.Zeros(|u|)
  {
    var e := GF32.Add(Syms(u), Syms(v));
    var ns := Listed(Changed(u, v));
    GF32IsGood();
    GF32.FoldLinear(ONE, ONE, Syms(u), Syms(v));
    GF32.AddZeros(ONE);
    GF32.AddZeros(Remainder(u));
    SpaceIsGood();
    forall k | 0 <= k < |e| && e[k] != NIL ensures k in ns { SymsAddAt(u, v, k); }
    forall i | 0 <= i < |ns| ensures ns[i] < |e| { assert ns[i] in ns; }
    forall i, k | 0 <= i < k < |ns| ensures Apart(ns[i], ns[k]) { assert ns[i] in ns && ns[k] in ns; }
    TOWER.Space().FewIsNone(e, ns);
  }

  lemma SumIsNil(x: seq<Sym>, y: seq<Sym>)
    requires |x| == |y| && GF32.Add(x, y) == GF32.Zeros(|x|)
    ensures x == y
  {
    GF32IsGood();
    GF32.AddTwice(x, y);
    GF32.AddZeros(x);
  }

  /** Two lists that differ in one to four places within a window of 1025 have different checksums. */
  lemma FourErrorsChangePolyMod(u: seq<Byte>, v: seq<Byte>)
    requires FiveBit(u) && FiveBit(v) && |u| == |v| && u != v && FewAndNear(Changed(u, v))
    ensures PolyModOf(u) != PolyModOf(v)
  {
    PolyModTells(u, v);
    if Remainder(u) == Remainder(v) {
      FewChangesSpread(u, v);
      SumIsNil(Syms(u), Syms(v));
      SymsDiffer(u, v);
    }
  }
}
