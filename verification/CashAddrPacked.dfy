/** The tower's elements packed in twenty bits, the powers of y, and the places where the generator vanishes. */
module CashAddrPacked {
  import opened CashAddrPoly
  import opened CashAddrField
  import opened CashAddrCode
  import opened CashAddrExtension

  /** The coefficient in the last five bits. */
  function Last(v: bv20): Sym { Sym(v & 1 != 0, v & 2 != 0, v & 4 != 0, v & 8 != 0, v & 16 != 0) }

  /** Every coefficient times a, where a^5 = a^3 + 1. */
  function A(v: bv20): bv20 { ((v & 0x7bdef) << 1) ^ ((v & 0x84210) >> 4) ^ ((v & 0x84210) >> 1) }

  function Acc(r: bv20, b: bool, v: bv20): bv20 { if b then r ^ v else r }

  /** r plus s times v. */
  function Scale(r: bv20, s: Sym, v: bv20): bv20 {
    Acc(Acc(Acc(Acc(Acc(r, s.b0, v), s.b1, A(v)), s.b2, A(A(v))), s.b3, A(A(A(v)))), s.b4, A(A(A(A(v)))))
  }

  /** y times v; y^4 is 0x62d81. */
  function Y(v: bv20): bv20 { Scale(v << 5, Last(v >> 15), 0x62d81) }

  function Product(u: bv20, v: bv20): bv20 {
    Scale(Y(Scale(Y(Scale(Y(Scale(0, Last(u >> 15), v)), Last(u >> 10), v)), Last(u >> 5), v)), Last(u), v)
  }

  function GeneratorBits(k: nat): bv20 {
    if k == 0 || k == 6 then 19 else if k == 1 || k == 5 then 3 else if k == 2 || k == 4 then 25
    else if k == 3 then 11 else 1
  }

  lemma Squares()
    ensures Product(0x00020, 0x00020) == 0x00400 && Product(0x00400, 0x00400) == 0x62d81
    ensures Product(0x62d81, 0x62d81) == 0x9a9a4 && Product(0x9a9a4, 0x9a9a4) == 0x2cc97
    ensures Product(0x2cc97, 0x2cc97) == 0xaf784 && Product(0xaf784, 0xaf784) == 0xced68
    ensures Product(0xced68, 0xced68) == 0xf064c && Product(0xf064c, 0xf064c) == 0x11249
    ensures Product(0x11249, 0x11249) == 0xe890e && Product(0xe890e, 0xe890e) == 0x0b16c
  {
  }

  lemma Inverses()
    ensures Product(0xd54a5, 0xe9f29) == 1 && Product(0x097a1, 0x3aa9a) == 1
  {
  }

  /** The value x that Horner's rule for the generator reaches at c after k steps, as a relation. */
  datatype Walk = Walk(at: (bv20, nat, bv20) -> bool) {
    ghost predicate StepAt(c: bv20, k: nat, x: bv20) {
      k < 8 && at(c, k, x) ==> at(c, k + 1, Acc(Product(c, x), true, GeneratorBits(k)))
    }

    ghost predicate Steps() { (forall c :: at(c, 0, 0)) && forall c, k: nat, x :: StepAt(c, k, x) }

    lemma Walk1024()
      requires Steps()
      ensures at(0x0b16c, 8, 0x46abf)
    {
      assert StepAt(0x0b16c, 0, 0x00000);
      assert StepAt(0x0b16c, 1, 0x00013);
      assert StepAt(0x0b16c, 2, 0x9ad28);
      assert StepAt(0x0b16c, 3, 0x4202b);
      assert StepAt(0x0b16c, 4, 0x59fe5);
      assert StepAt(0x0b16c, 5, 0x2f933);
      assert StepAt(0x0b16c, 6, 0x9bae1);
      assert StepAt(0x0b16c, 7, 0x0fca8);
    }

    lemma Walk1057()
      requires Steps()
      ensures at(0xaf784, 8, 0x11249)
    {
      assert StepAt(0xaf784, 0, 0x00000);
      assert StepAt(0xaf784, 1, 0x00013);
      assert StepAt(0xaf784, 2, 0x76d1d);
      assert StepAt(0xaf784, 3, 0x99080);
      assert StepAt(0xaf784, 4, 0x90bbe);
      assert StepAt(0xaf784, 5, 0xf2c93);
      assert StepAt(0xaf784, 6, 0x93e78);
      assert StepAt(0xaf784, 7, 0xe024d);
    }

    lemma Walk1090()
      requires Steps()
      ensures at(0x9f819, 8, 0xb4718)
    {
      assert StepAt(0x9f819, 0, 0x00000);
      assert StepAt(0x9f819, 1, 0x00013);
      assert StepAt(0x9f819, 2, 0xf9c06);
      assert StepAt(0x9f819, 3, 0x68045);
      assert StepAt(0x9f819, 4, 0x7c815);
      assert StepAt(0x9f819, 5, 0x0e672);
      assert StepAt(0x9f819, 6, 0xe3082);
      assert StepAt(0x9f819, 7, 0x2a1d1);
    }

    lemma Walk1985()
      requires Steps()
      ensures at(0x1849c, 8, 0x4e023)
    {
      assert StepAt(0x1849c, 0, 0x00000);
      assert StepAt(0x1849c, 1, 0x00013);
      assert StepAt(0x1849c, 2, 0xe4fcb);
      assert StepAt(0x1849c, 3, 0xe4d8f);
      assert StepAt(0x1849c, 4, 0x5ac29);
      assert StepAt(0x1849c, 5, 0x94923);
      assert StepAt(0x1849c, 6, 0x64c02);
      assert StepAt(0x1849c, 7, 0x8b967);
    }

    lemma Walk2018()
      requires Steps()
      ensures at(0xa46c4, 8, 0xcd142)
    {
      assert StepAt(0xa46c4, 0, 0x00000);
      assert StepAt(0xa46c4, 1, 0x00013);
      assert StepAt(0xa46c4, 2, 0xec25d);
      assert StepAt(0xa46c4, 3, 0xdfcc9);
      assert StepAt(0xa46c4, 4, 0x51b74);
      assert StepAt(0xa46c4, 5, 0x995a4);
      assert StepAt(0xa46c4, 6, 0x52eb6);
      assert StepAt(0xa46c4, 7, 0xc6664);
    }

    lemma Walk2051()
      requires Steps()
      ensures at(0x00020, 8, 0x9a9a4)
    {
      assert StepAt(0x00020, 0, 0x00000);
      assert StepAt(0x00020, 1, 0x00013);
      assert StepAt(0x00020, 2, 0x00263);
      assert StepAt(0x00020, 3, 0x04c79);
      assert StepAt(0x00020, 4, 0x98f2b);
      assert StepAt(0x00020, 5, 0x4400a);
      assert StepAt(0x00020, 6, 0x5aa2b);
      assert StepAt(0x00020, 7, 0x29898);
    }
  }

  /** A tower whose elements can be written in twenty bits. */
  datatype Packing<!V(!new)> = Packing(tower: Tower<V>, of: bv20 -> V) {
    ghost predicate MulAt(u: bv20, v: bv20) { tower.Product(of(u), of(v)) == of(Product(u, v)) }

    ghost predicate AddAt(u: bv20, v: bv20) { tower.add(of(u), of(v)) == of(Acc(u, true, v)) }

    ghost predicate InjAt(k: nat) { k < 8 ==> tower.Inj(Generator(k)) == of(GeneratorBits(k)) }

    ghost predicate Packs() {
      && (forall u, v :: MulAt(u, v)) && (forall u, v :: AddAt(u, v)) && (forall k: nat :: InjAt(k))
      && of(0) == tower.nil
    }

    ghost predicate Good() {
      tower.Good() && tower.Faithful() && Packs() && of(1) == tower.one && of(0x20) == tower.P(1)
    }

    ghost predicate IsPower(n: nat, c: bv20) { tower.P(n) == of(c) }

    lemma Added(m: nat, c: bv20, n: nat, d: bv20, e: bv20)
      requires Good() && IsPower(m, c) && IsPower(n, d) && Product(c, d) == e
      ensures IsPower(m + n, e)
    {
      tower.PowerAdd(m, n);
      assert MulAt(c, d);
    }

    lemma Doublings()
      requires Good()
      ensures IsPower(1, 0x00020) && IsPower(2, 0x00400) && IsPower(4, 0x62d81) && IsPower(8, 0x9a9a4)
      ensures IsPower(16, 0x2cc97) && IsPower(32, 0xaf784) && IsPower(64, 0xced68) && IsPower(128, 0xf064c)
      ensures IsPower(256, 0x11249) && IsPower(512, 0xe890e) && IsPower(1024, 0x0b16c)
    {
      Squares();
      Added(1, 0x00020, 1, 0x00020, 0x00400);
      Added(2, 0x00400, 2, 0x00400, 0x62d81);
      Added(4, 0x62d81, 4, 0x62d81, 0x9a9a4);
      Added(8, 0x9a9a4, 8, 0x9a9a4, 0x2cc97);
      Added(16, 0x2cc97, 16, 0x2cc97, 0xaf784);
      Added(32, 0xaf784, 32, 0xaf784, 0xced68);
      Added(64, 0xced68, 64, 0xced68, 0xf064c);
      Added(128, 0xf064c, 128, 0xf064c, 0x11249);
      Added(256, 0x11249, 256, 0x11249, 0xe890e);
      Added(512, 0xe890e, 512, 0xe890e, 0x0b16c);
    }

    lemma Power25()
      requires Good()
      ensures IsPower(25, 0xe9f28)
    {
      Doublings();
      Added(16, 0x2cc97, 8, 0x9a9a4, 0x419a2);
      Added(24, 0x419a2, 1, 0x00020, 0xe9f28);
    }

    lemma Power205()
      requires Good()
      ensures IsPower(205, 0x3aa9b)
    {
      Doublings();
      Added(128, 0xf064c, 64, 0xced68, 0xd1925);
      Added(192, 0xd1925, 8, 0x9a9a4, 0xc241b);
      Added(200, 0xc241b, 4, 0x62d81, 0xddd24);
      Added(204, 0xddd24, 1, 0x00020, 0x3aa9b);
    }

    lemma Power1025()
      requires Good()
      ensures IsPower(1025, 1)
    {
      Doublings();
      Added(1024, 0x0b16c, 1, 0x00020, 0x00001);
    }

    lemma Power65()
      requires Good()
      ensures IsPower(65, 0x9f819)
    {
      Doublings();
      Added(64, 0xced68, 1, 0x00020, 0x9f819);
    }

    lemma Power960()
      requires Good()
      ensures IsPower(960, 0x1849c)
    {
      Doublings();
      Added(512, 0xe890e, 256, 0x11249, 0x10452);
      Added(768, 0x10452, 128, 0xf064c, 0x6a03a);
      Added(896, 0x6a03a, 64, 0xced68, 0x1849c);
    }

    lemma Power993()
      requires Good()
      ensures IsPower(993, 0xa46c4)
    {
      Doublings();
      Added(512, 0xe890e, 256, 0x11249, 0x10452);
      Added(768, 0x10452, 128, 0xf064c, 0x6a03a);
      Added(896, 0x6a03a, 64, 0xced68, 0x1849c);
      Added(960, 0x1849c, 32, 0xaf784, 0x2368f);
      Added(992, 0x2368f, 1, 0x00020, 0xa46c4);
    }

    lemma Unfixed(n: nat, c: V, d: V, u: V, v: V)
      requires Good() && tower.P(n) == c && tower.add(c, tower.one) == d && tower.Product(u, d) == tower.one
      requires tower.Power(n, v) == v
      ensures v == tower.nil
    {
      tower.NothingFixedBy(n, u, v);
    }

    lemma NextTo25()
      requires Good()
      ensures tower.add(of(0xe9f28), tower.one) == of(0xe9f29) && tower.Product(of(0xd54a5), of(0xe9f29)) == tower.one
    {
      Inverses();
      assert AddAt(0xe9f28, 1) && MulAt(0xd54a5, 0xe9f29);
    }

    lemma NextTo205()
      requires Good()
      ensures tower.add(of(0x3aa9b), tower.one) == of(0x3aa9a) && tower.Product(of(0x097a1), of(0x3aa9a)) == tower.one
    {
      Inverses();
      assert AddAt(0x3aa9b, 1) && MulAt(0x097a1, 0x3aa9a);
    }

    lemma PeriodAt(v: V)
      requires Good()
      ensures tower.Space().PeriodAt(v)
    {
      Power1025();
      tower.Periodic(1025, v);
      if tower.Power(25, v) == v {
        Power25();
        NextTo25();
        Unfixed(25, of(0xe9f28), of(0xe9f29), of(0xd54a5), v);
      }
      if tower.Power(205, v) == v {
        Power205();
        NextTo205();
        Unfixed(205, of(0x3aa9b), of(0x3aa9a), of(0x097a1), v);
      }
    }

    /** The first n steps of Horner's rule at c give x. */
    ghost predicate HornerIs(c: bv20, n: nat, x: bv20) {
      n <= 8 && tower.Horner(of(c), tower.Coefficients()[..n]) == of(x)
    }

    lemma DownTo(c: bv20, k: nat, x: bv20)
      requires Packs() && k < 8
      ensures tower.Down(of(c), Generator(k), of(x)) == of(Acc(Product(c, x), true, GeneratorBits(k)))
    {
      assert MulAt(c, x) && AddAt(Product(c, x), GeneratorBits(k)) && InjAt(k);
    }

    lemma StepsTo(c: bv20, k: nat, x: bv20, y: bv20)
      requires k < 8 && HornerIs(c, k, x) && tower.Down(of(c), Generator(k), of(x)) == of(y)
      ensures HornerIs(c, k + 1, y)
    {
      tower.HornerStep(of(c), k, of(x), of(y));
    }

    lemma OneStep(c: bv20, k: nat, x: bv20)
      requires Packs() && k < 8 && HornerIs(c, k, x)
      ensures HornerIs(c, k + 1, Acc(Product(c, x), true, GeneratorBits(k)))
    {
      DownTo(c, k, x);
      StepsTo(c, k, x, Acc(Product(c, x), true, GeneratorBits(k)));
    }

    ghost function Walking(): Walk { Walk((c: bv20, n: nat, x: bv20) => HornerIs(c, n, x)) }

    lemma WalkingSteps()
      requires Packs()
      ensures Walking().Steps()
    {
      forall c ensures HornerIs(c, 0, 0) { }
      forall c, k: nat, x ensures Walking().StepAt(c, k, x) {
        if k < 8 && HornerIs(c, k, x) { OneStep(c, k, x); }
      }
    }

    lemma Squared(c: bv20)
      requires Good()
      ensures tower.Product(of(c), of(c)) == of(Product(c, c))
    {
      assert MulAt(c, c);
    }

    lemma RootBits(j: nat, c: bv20, c2: bv20, c4: bv20, c8: bv20)
      requires Good()
      requires IsPower(j, c)
      requires tower.Product(of(c), of(c)) == of(c2)
      requires tower.Product(of(c2), of(c2)) == of(c4)
      requires tower.Product(of(c4), of(c4)) == of(c8)
      requires HornerIs(c, 8, c8)
      ensures tower.Space().Root(j)
    {
      assert tower.Coefficients()[..8] == tower.Coefficients();
      tower.RootIs(j, of(c), of(c2), of(c4), of(c8));
    }

    lemma AroundOnce(n: nat, c: bv20)
      requires Good()
      requires IsPower(n, c)
      ensures IsPower(1025 + n, c)
    {
      Power1025();
      tower.Space().PowAdd(1025, n, tower.one);
      tower.Periodic(1025, tower.P(n));
    }

    lemma Root1024()
      requires Good()
      ensures tower.Space().Root(1024)
    {
      Doublings();
      Squared(0x0b16c);
      Squared(0x60c69);
      Squared(0xa3d44);
      WalkingSteps();
      Walking().Walk1024();
      RootBits(1024, 0x0b16c, 0x60c69, 0xa3d44, 0x46abf);
    }

    lemma Root1057()
      requires Good()
      ensures tower.Space().Root(1057)
    {
      Doublings();
      AroundOnce(32, 0xaf784);
      Squared(0xaf784);
      Squared(0xced68);
      Squared(0xf064c);
      WalkingSteps();
      Walking().Walk1057();
      RootBits(1057, 0xaf784, 0xced68, 0xf064c, 0x11249);
    }

    lemma Root1090()
      requires Good()
      ensures tower.Space().Root(1090)
    {
      Power65();
      AroundOnce(65, 0x9f819);
      Squared(0x9f819);
      Squared(0x330e4);
      Squared(0x90822);
      WalkingSteps();
      Walking().Walk1090();
      RootBits(1090, 0x9f819, 0x330e4, 0x90822, 0xb4718);
    }

    lemma Root1985()
      requires Good()
      ensures tower.Space().Root(1985)
    {
      Power960();
      AroundOnce(960, 0x1849c);
      Squared(0x1849c);
      Squared(0xd441d);
      Squared(0xb6c15);
      WalkingSteps();
      Walking().Walk1985();
      RootBits(1985, 0x1849c, 0xd441d, 0xb6c15, 0x4e023);
    }

    lemma Root2018()
      requires Good()
      ensures tower.Space().Root(2018)
    {
      Power993();
      AroundOnce(993, 0xa46c4);
      Squared(0xa46c4);
      Squared(0xae503);
      Squared(0x3168d);
      WalkingSteps();
      Walking().Walk2018();
      RootBits(2018, 0xa46c4, 0xae503, 0x3168d, 0xcd142);
    }

    lemma Root2051()
      requires Good()
      ensures tower.Space().Root(2051)
    {
      Doublings();
      AroundOnce(1, 0x00020);
      AroundOnce(1026, 0x00020);
      Squared(0x00020);
      Squared(0x00400);
      Squared(0x62d81);
      WalkingSteps();
      Walking().Walk2051();
      RootBits(2051, 0x00020, 0x00400, 0x62d81, 0x9a9a4);
    }

    lemma SpaceIsGood()
      requires Good()
      ensures tower.Space().Good() && tower.Space().HasRoots()
    {
      tower.SpaceIsSound();
      forall v ensures tower.Space().PeriodAt(v) { PeriodAt(v); }
      Root1024();
      Root1057();
      Root1090();
      Root1985();
      Root2018();
      Root2051();
    }
  }
}
