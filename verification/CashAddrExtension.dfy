/** Polynomials in y of degree below four over GF(32), modulo a polynomial of degree four, and the operators that
  * commute with multiplication: each of them is multiplication by what it makes of one. Nothing here depends on how
  * the polynomials are represented.
  */
module CashAddrExtension {
  import opened CashAddrPoly
  import opened CashAddrField
  import opened CashAddrCode

  datatype Four = Four(c3: Sym, c2: Sym, c1: Sym, c0: Sym)

  /** Addition, zero, one, y^4, multiplication by a, multiplication by y without the highest coefficient, and the
    * coefficients.
    */
  datatype Tower<!V(!new)> = Tower(
    add: (V, V) -> V, nil: V, one: V, fourth: V, a: V -> V, up: V -> V, four: V -> Four)
  {
    // ---------- what is assumed ----------

    ghost predicate RegroupsAt(t: V, u: V, v: V, w: V) { add(add(t, u), add(v, w)) == add(add(t, v), add(u, w)) }

    ghost predicate UnitAt(v: V) { add(v, nil) == v && add(nil, v) == v && add(v, v) == nil }

    ghost predicate CancelsAt(u: V, v: V) { add(u, v) == nil ==> u == v }

    ghost predicate ShiftsAt(u: V, v: V) {
      && a(add(u, v)) == add(a(u), a(v)) && up(add(u, v)) == add(up(u), up(v))
      && four(add(u, v)).c3 == Plus(four(u).c3, four(v).c3)
    }

    /** a^5 = a^3 + 1, and multiplication by a goes coefficient by coefficient. */
    ghost predicate FifthAt(v: V) {
      && a(a(a(a(a(v))))) == add(a(a(a(v))), v)
      && up(a(v)) == a(up(v)) && four(a(v)).c3 == Double(four(v).c3)
    }

    ghost predicate Good() {
      && (forall t, u, v, w :: RegroupsAt(t, u, v, w))
      && (forall v :: UnitAt(v))
      && (forall u, v :: CancelsAt(u, v))
      && (forall u, v :: ShiftsAt(u, v))
      && (forall v :: FifthAt(v))
      && (forall v :: Product(v, one) == v)
    }

    // ---------- multiplication ----------

    function Term(b: bool, v: V): V { if b then v else nil }

    function Sum(r: V, t0: V, t1: V, t2: V, t3: V, t4: V): V { add(add(add(add(add(r, t0), t1), t2), t3), t4) }

    /** A coefficient times v, added to r. */
    function Scale(r: V, s: Sym, v: V): V {
      Sum(r, Term(s.b0, v), Term(s.b1, a(v)), Term(s.b2, a(a(v))), Term(s.b3, a(a(a(v)))), Term(s.b4, a(a(a(a(v))))))
    }

    /** Multiplication by y. */
    function Y(v: V): V { Scale(up(v), four(v).c3, fourth) }

    function Product(u: V, v: V): V {
      var c := four(u);
      Scale(Y(Scale(Y(Scale(Y(Scale(nil, c.c3, v)), c.c2, v)), c.c1, v)), c.c0, v)
    }

    lemma ANil()
      requires Good()
      ensures a(nil) == nil
    {
      assert UnitAt(nil) && ShiftsAt(nil, nil) && UnitAt(a(nil));
    }

    // ---------- linear operators ----------

    ghost predicate LinearAt(f: V -> V, u: V, v: V) { f(add(u, v)) == add(f(u), f(v)) }

    ghost predicate CommutesAt(f: V -> V, v: V) { f(a(v)) == a(f(v)) }

    ghost predicate Linear(f: V -> V) { f(nil) == nil && forall u, v :: LinearAt(f, u, v) }

    lemma TermThrough(f: V -> V, b: bool, v: V)
      requires Linear(f)
      ensures f(Term(b, v)) == Term(b, f(v))
    {
    }

    lemma SumThrough(f: V -> V, r: V, t0: V, t1: V, t2: V, t3: V, t4: V)
      requires Linear(f)
      ensures f(Sum(r, t0, t1, t2, t3, t4)) == Sum(f(r), f(t0), f(t1), f(t2), f(t3), f(t4))
    {
      var s0 := add(r, t0);
      var s1 := add(s0, t1);
      var s2 := add(s1, t2);
      var s3 := add(s2, t3);
      assert LinearAt(f, r, t0) && LinearAt(f, s0, t1) && LinearAt(f, s1, t2);
      assert LinearAt(f, s2, t3) && LinearAt(f, s3, t4);
    }

    /** What commutes with a passes through multiplication by a coefficient. */
    lemma ScaleThrough(f: V -> V, r: V, s: Sym, v: V)
      requires Linear(f) && forall w :: CommutesAt(f, w)
      ensures f(Scale(r, s, v)) == Scale(f(r), s, f(v))
    {
      var v1 := a(v);
      var v2 := a(v1);
      var v3 := a(v2);
      SumThrough(f, r, Term(s.b0, v), Term(s.b1, v1), Term(s.b2, v2), Term(s.b3, v3), Term(s.b4, a(v3)));
      TermThrough(f, s.b0, v);
      TermThrough(f, s.b1, v1);
      TermThrough(f, s.b2, v2);
      TermThrough(f, s.b3, v3);
      TermThrough(f, s.b4, a(v3));
      assert CommutesAt(f, v) && CommutesAt(f, v1) && CommutesAt(f, v2) && CommutesAt(f, v3);
    }

    lemma SumAdd(r: V, t0: V, t1: V, t2: V, t3: V, t4: V, r': V, u0: V, u1: V, u2: V, u3: V, u4: V)
      requires Good()
      ensures Sum(add(r, r'), add(t0, u0), add(t1, u1), add(t2, u2), add(t3, u3), add(t4, u4)) ==
              add(Sum(r, t0, t1, t2, t3, t4), Sum(r', u0, u1, u2, u3, u4))
    {
      var s0, w0 := add(r, t0), add(r', u0);
      var s1, w1 := add(s0, t1), add(w0, u1);
      var s2, w2 := add(s1, t2), add(w1, u2);
      var s3, w3 := add(s2, t3), add(w2, u3);
      assert RegroupsAt(r, r', t0, u0) && RegroupsAt(s0, w0, t1, u1) && RegroupsAt(s1, w1, t2, u2);
      assert RegroupsAt(s2, w2, t3, u3) && RegroupsAt(s3, w3, t4, u4);
    }

    lemma TermAdd(b: bool, u: V, v: V)
      requires Good()
      ensures Term(b, add(u, v)) == add(Term(b, u), Term(b, v))
    {
      assert UnitAt(nil);
    }

    lemma TermPlus(b: bool, c: bool, v: V)
      requires Good()
      ensures Term(b != c, v) == add(Term(b, v), Term(c, v))
    {
      assert UnitAt(nil) && UnitAt(v);
    }

    lemma ScaleLinear(r: V, r': V, s: Sym, u: V, v: V)
      requires Good()
      ensures Scale(add(r, r'), s, add(u, v)) == add(Scale(r, s, u), Scale(r', s, v))
    {
      var u1, v1 := a(u), a(v);
      var u2, v2 := a(u1), a(v1);
      var u3, v3 := a(u2), a(v2);
      var u4, v4 := a(u3), a(v3);
      assert ShiftsAt(u, v) && ShiftsAt(u1, v1) && ShiftsAt(u2, v2) && ShiftsAt(u3, v3);
      TermAdd(s.b0, u, v);
      TermAdd(s.b1, u1, v1);
      TermAdd(s.b2, u2, v2);
      TermAdd(s.b3, u3, v3);
      TermAdd(s.b4, u4, v4);
      SumAdd(r, Term(s.b0, u), Term(s.b1, u1), Term(s.b2, u2), Term(s.b3, u3), Term(s.b4, u4),
             r', Term(s.b0, v), Term(s.b1, v1), Term(s.b2, v2), Term(s.b3, v3), Term(s.b4, v4));
    }

    lemma ScalePlus(r: V, r': V, s: Sym, s': Sym, v: V)
      requires Good()
      ensures Scale(add(r, r'), Plus(s, s'), v) == add(Scale(r, s, v), Scale(r', s', v))
    {
      var v1 := a(v);
      var v2 := a(v1);
      var v3 := a(v2);
      var v4 := a(v3);
      TermPlus(s.b0, s'.b0, v);
      TermPlus(s.b1, s'.b1, v1);
      TermPlus(s.b2, s'.b2, v2);
      TermPlus(s.b3, s'.b3, v3);
      TermPlus(s.b4, s'.b4, v4);
      SumAdd(r, Term(s.b0, v), Term(s.b1, v1), Term(s.b2, v2), Term(s.b3, v3), Term(s.b4, v4),
             r', Term(s'.b0, v), Term(s'.b1, v1), Term(s'.b2, v2), Term(s'.b3, v3), Term(s'.b4, v4));
    }

    lemma YLinear(u: V, v: V)
      requires Good()
      ensures Y(add(u, v)) == add(Y(u), Y(v))
    {
      assert ShiftsAt(u, v);
      ScalePlus(up(u), up(v), four(u).c3, four(v).c3, fourth);
    }

    // ---------- a and y commute ----------

    /** Terms in another order, with b + c in place of b and of c. */
    lemma DoubleTerms(b: bool, c: bool, r: V, t0: V, t1: V, t3: V, v: V, v3: V)
      requires Good()
      ensures Sum(r, t0, t1, Term(b, v3), t3, Term(c, add(v3, v))) == Sum(r, Term(c, v), t0, t1, Term(b != c, v3), t3)
    {
      var x, y, z := Term(b, v3), Term(c, v3), Term(c, v);
      TermPlus(b, c, v3);
      TermAdd(c, v3, v);
      Reorder(r, t0, t1, x, t3, y, z);
    }

    lemma Assoc(u: V, v: V, w: V)
      requires Good()
      ensures add(add(u, v), w) == add(u, add(v, w))
    {
      assert UnitAt(w) && UnitAt(u) && RegroupsAt(u, v, nil, w);
    }

    lemma Commute(u: V, v: V)
      requires Good()
      ensures add(u, v) == add(v, u)
    {
      assert UnitAt(u) && UnitAt(v) && RegroupsAt(nil, u, v, nil);
    }

    /** Two neighbours in a sum change places. */
    lemma Neighbours(u: V, v: V, w: V)
      requires Good()
      ensures add(add(u, v), w) == add(add(u, w), v)
    {
      Assoc(u, v, w);
      Commute(v, w);
      Assoc(u, w, v);
    }

    lemma Reorder(r: V, t0: V, t1: V, x: V, t3: V, y: V, z: V)
      requires Good()
      ensures Sum(r, t0, t1, x, t3, add(y, z)) == Sum(r, z, t0, t1, add(x, y), t3)
    {
      var s1 := add(add(r, t0), t1);
      var s2 := add(s1, x);
      Assoc(add(s2, t3), y, z);
      Neighbours(s2, t3, y);
      Assoc(s1, x, y);
      var s := add(s1, add(x, y));
      Neighbours(s, t3, z);
      Neighbours(s1, add(x, y), z);
      Neighbours(add(r, t0), t1, z);
      Neighbours(r, t0, z);
    }

    /** Multiplying the coefficient or the rest by a is the same. */
    lemma ScaleDouble(r: V, s: Sym, v: V)
      requires Good()
      ensures Scale(r, s, a(v)) == Scale(r, Double(s), v)
    {
      var v1 := a(v);
      var v2 := a(v1);
      var v3 := a(v2);
      assert FifthAt(v);
      DoubleTerms(s.b2, s.b4, r, Term(s.b0, v1), Term(s.b1, v2), Term(s.b3, a(v3)), v, v3);
    }

    lemma ALinear()
      requires Good()
      ensures Linear(a) && forall v :: CommutesAt(a, v)
    {
      ANil();
      forall u, v ensures LinearAt(a, u, v) { assert ShiftsAt(u, v); }
    }

    lemma YCommutes(v: V)
      requires Good()
      ensures Y(a(v)) == a(Y(v))
    {
      ALinear();
      ScaleThrough(a, up(v), four(v).c3, fourth);
      assert FifthAt(v);
      ScaleDouble(a(up(v)), four(v).c3, fourth);
    }

    // ---------- operators that commute with multiplication ----------

    ghost predicate NiceAt(f: V -> V, v: V) { CommutesAt(f, v) && f(Y(v)) == Y(f(v)) }

    ghost predicate Nice(f: V -> V) { Linear(f) && forall v :: NiceAt(f, v) }

    lemma ProductThrough(f: V -> V, u: V, v: V)
      requires Nice(f)
      ensures f(Product(u, v)) == Product(u, f(v))
    {
      var c := four(u);
      assert forall w :: NiceAt(f, w) ==> CommutesAt(f, w);
      var p3 := Scale(nil, c.c3, v);
      var p2 := Scale(Y(p3), c.c2, v);
      var p1 := Scale(Y(p2), c.c1, v);
      ScaleThrough(f, nil, c.c3, v);
      ScaleThrough(f, Y(p3), c.c2, v);
      ScaleThrough(f, Y(p2), c.c1, v);
      ScaleThrough(f, Y(p1), c.c0, v);
      assert NiceAt(f, p3) && NiceAt(f, p2) && NiceAt(f, p1);
    }

    /** Such an operator is multiplication by what it makes of one. */
    lemma NiceIs(f: V -> V, v: V)
      requires Good() && Nice(f)
      ensures f(v) == Product(v, f(one))
    {
      ProductThrough(f, v, one);
    }

    lemma YNil()
      requires Good()
      ensures Y(nil) == nil
    {
      YLinear(nil, nil);
      assert UnitAt(nil) && UnitAt(Y(nil));
    }

    function TimesY(): V -> V { (v: V) => Y(v) }

    function ScaledBy(s: Sym): V -> V { (v: V) => Scale(nil, s, v) }

    function TimesOf(u: V): V -> V { (v: V) => Product(u, v) }

    lemma YIsNice()
      requires Good()
      ensures Nice(TimesY()) && forall v :: CommutesAt(TimesY(), v)
    {
      YNil();
      forall u, v ensures LinearAt(TimesY(), u, v) { YLinear(u, v); }
      forall v ensures NiceAt(TimesY(), v) && CommutesAt(TimesY(), v) { YCommutes(v); }
    }

    lemma SumIsNice(f: V -> V, g: V -> V, h: V -> V)
      requires Good() && Nice(f) && Nice(g) && forall v :: h(v) == add(f(v), g(v))
      ensures Nice(h)
    {
      assert UnitAt(nil);
      forall u, v ensures LinearAt(h, u, v) {
        assert LinearAt(f, u, v) && LinearAt(g, u, v) && RegroupsAt(f(u), f(v), g(u), g(v));
      }
      forall v ensures NiceAt(h, v) {
        assert NiceAt(f, v) && NiceAt(g, v) && ShiftsAt(f(v), g(v));
        YLinear(f(v), g(v));
      }
    }

    lemma ChainIsNice(f: V -> V, g: V -> V, h: V -> V)
      requires Nice(f) && Nice(g) && forall v :: h(v) == f(g(v))
      ensures Nice(h)
    {
      forall u, v ensures LinearAt(h, u, v) { assert LinearAt(g, u, v) && LinearAt(f, g(u), g(v)); }
      forall v ensures NiceAt(h, v) { assert NiceAt(g, v) && NiceAt(f, g(v)); }
    }

    lemma ScaleOfNil(s: Sym)
      requires Good()
      ensures Scale(nil, s, nil) == nil
    {
      ANil();
      assert UnitAt(nil);
    }

    lemma ScaleCommutes(s: Sym, v: V)
      requires Good()
      ensures NiceAt(ScaledBy(s), v)
    {
      ALinear();
      ScaleThrough(a, nil, s, v);
      YIsNice();
      ScaleThrough(TimesY(), nil, s, v);
    }

    lemma ScaleAdds(s: Sym, u: V, v: V)
      requires Good()
      ensures LinearAt(ScaledBy(s), u, v)
    {
      assert UnitAt(nil);
      ScaleLinear(nil, nil, s, u, v);
    }

    lemma ScaleIsNice(s: Sym)
      requires Good()
      ensures Nice(ScaledBy(s))
    {
      ScaleOfNil(s);
      forall u, v ensures LinearAt(ScaledBy(s), u, v) { ScaleAdds(s, u, v); }
      forall v ensures NiceAt(ScaledBy(s), v) { ScaleCommutes(s, v); }
    }

    lemma ProductOfNil(u: V)
      requires Good()
      ensures Product(u, nil) == nil
    {
      var c := four(u);
      ScaleOfNil(c.c3);
      ScaleOfNil(c.c2);
      ScaleOfNil(c.c1);
      ScaleOfNil(c.c0);
      YNil();
    }

    lemma ProductAdds(u: V, v: V, w: V)
      requires Good()
      ensures LinearAt(TimesOf(u), v, w)
    {
      var c := four(u);
      var v3, w3 := Scale(nil, c.c3, v), Scale(nil, c.c3, w);
      var v2, w2 := Scale(Y(v3), c.c2, v), Scale(Y(w3), c.c2, w);
      var v1, w1 := Scale(Y(v2), c.c1, v), Scale(Y(w2), c.c1, w);
      ScaleAdds(c.c3, v, w);
      YLinear(v3, w3);
      ScaleLinear(Y(v3), Y(w3), c.c2, v, w);
      YLinear(v2, w2);
      ScaleLinear(Y(v2), Y(w2), c.c1, v, w);
      YLinear(v1, w1);
      ScaleLinear(Y(v1), Y(w1), c.c0, v, w);
    }

    lemma ProductCommutes(u: V, v: V)
      requires Good()
      ensures NiceAt(TimesOf(u), v)
    {
      AIsNice();
      ProductThrough(a, u, v);
      YIsNice();
      ProductThrough(TimesY(), u, v);
    }

    lemma AIsNice()
      requires Good()
      ensures Nice(a)
    {
      ALinear();
      forall v ensures NiceAt(a, v) { YCommutes(v); }
    }

    lemma ProductIsNice(u: V)
      requires Good()
      ensures Nice(TimesOf(u))
    {
      ProductOfNil(u);
      forall v, w ensures LinearAt(TimesOf(u), v, w) { ProductAdds(u, v, w); }
      forall v ensures NiceAt(TimesOf(u), v) { ProductCommutes(u, v); }
    }

    lemma ProductSwaps(u: V, v: V)
      requires Good()
      ensures Product(u, v) == Product(v, u)
    {
      ProductIsNice(u);
      NiceIs(TimesOf(u), v);
    }

    // ---------- coefficients among the values ----------

    function Inj(s: Sym): V { Scale(nil, s, one) }

    lemma InjPlus(s: Sym, t: Sym)
      requires Good()
      ensures Inj(Plus(s, t)) == add(Inj(s), Inj(t))
    {
      assert UnitAt(nil);
      ScalePlus(nil, nil, s, t, one);
    }

    /** A product of coefficients, among the values. */
    lemma InjMul(g: Sym, s: Sym)
      requires Good()
      ensures Inj(Mul(g, s)) == Scale(nil, g, Inj(s))
    {
      var g1 := Double(g);
      var g2 := Double(g1);
      var g3 := Double(g2);
      InjCombine(s, g, g1, g2, g3, Double(g3));
      InjDouble(g);
      InjDouble(g1);
      InjDouble(g2);
      InjDouble(g3);
      ScaleIsNice(g);
      assert forall v :: NiceAt(ScaledBy(g), v) ==> CommutesAt(ScaledBy(g), v);
      ScaleThrough(ScaledBy(g), nil, s, one);
    }

    lemma InjDouble(s: Sym)
      requires Good()
      ensures Inj(Double(s)) == a(Inj(s))
    {
      ScaleDouble(nil, s, one);
      ALinear();
      ScaleThrough(a, nil, s, one);
    }

    lemma InjIf(b: bool, s: Sym)
      requires Good()
      ensures Inj(If(b, s)) == Term(b, Inj(s))
    {
      assert UnitAt(nil);
    }

    lemma InjCombine(s: Sym, g0: Sym, g1: Sym, g2: Sym, g3: Sym, g4: Sym)
      requires Good()
      ensures Inj(Combine(s, g0, g1, g2, g3, g4)) ==
              Sum(nil, Term(s.b0, Inj(g0)), Term(s.b1, Inj(g1)), Term(s.b2, Inj(g2)), Term(s.b3, Inj(g3)),
                  Term(s.b4, Inj(g4)))
    {
      var t0, t1, t2, t3, t4 := If(s.b0, g0), If(s.b1, g1), If(s.b2, g2), If(s.b3, g3), If(s.b4, g4);
      InjSum(t0, t1, t2, t3, t4);
      InjIf(s.b0, g0);
      InjIf(s.b1, g1);
      InjIf(s.b2, g2);
      InjIf(s.b3, g3);
      InjIf(s.b4, g4);
    }

    lemma InjSum(t0: Sym, t1: Sym, t2: Sym, t3: Sym, t4: Sym)
      requires Good()
      ensures Inj(CashAddrField.Sum(t0, t1, t2, t3, t4)) == Sum(nil, Inj(t0), Inj(t1), Inj(t2), Inj(t3), Inj(t4))
    {
      var s1 := Plus(t0, t1);
      var s2 := Plus(s1, t2);
      var s3 := Plus(s2, t3);
      InjPlus(t0, t1);
      InjPlus(s1, t2);
      InjPlus(s2, t3);
      InjPlus(s3, t4);
      assert UnitAt(Inj(t0));
    }

    // ---------- powers of y ----------

    function Space(): Points<Sym, V> { Points(GF32, add, nil, TimesY(), (s: Sym) => Inj(s)) }

    ghost predicate Faithful() { forall s :: Inj(s) == nil ==> s == NIL }

    lemma SpaceIsSound()
      requires Good() && Faithful()
      ensures Space().Sound()
    {
      var p := Space();
      GF32IsGood();
      forall t, u, v, w ensures p.RegroupsAt(t, u, v, w) { assert RegroupsAt(t, u, v, w); }
      forall v ensures p.UnitAt(v) { assert UnitAt(v); }
      forall u, v ensures p.CancelsAt(u, v) { assert CancelsAt(u, v); }
      forall u, v ensures p.LinearAt(u, v) { YLinear(u, v); }
      forall s, t ensures p.InjAt(s, t) { InjPlus(s, t); }
    }

    function Power(n: nat, v: V): V { Space().Pow(n, v) }

    function PowerOf(n: nat): V -> V { (v: V) => Power(n, v) }

    /** y^n. */
    function P(n: nat): V { Power(n, one) }

    lemma {:induction false} PowerIsNice(n: nat)
      requires Good()
      ensures Nice(PowerOf(n))
    {
      if n == 0 {
        assert forall u, v :: LinearAt(PowerOf(0), u, v);
        assert forall v :: NiceAt(PowerOf(0), v);
      } else {
        PowerIsNice(n - 1);
        YIsNice();
        ChainIsNice(TimesY(), PowerOf(n - 1), PowerOf(n));
      }
    }

    lemma PowerIs(n: nat, v: V)
      requires Good()
      ensures Power(n, v) == Product(P(n), v)
    {
      PowerIsNice(n);
      NiceIs(PowerOf(n), v);
      ProductSwaps(v, P(n));
    }

    lemma PowerAdd(m: nat, n: nat)
      requires Good()
      ensures P(m + n) == Product(P(m), P(n))
    {
      Space().PowAdd(m, n, one);
      PowerIs(m, P(n));
    }

    lemma Periodic(n: nat, v: V)
      requires Good() && P(n) == one
      ensures Power(n, v) == v
    {
      PowerIs(n, v);
      ProductSwaps(one, v);
    }

    function LessOne(n: nat): V -> V { (v: V) => add(Power(n, v), v) }

    function Undone(u: V, n: nat): V -> V { (v: V) => Product(u, add(Power(n, v), v)) }

    function Same(): V -> V { (v: V) => v }

    lemma SameIsNice()
      requires Good()
      ensures Nice(Same())
    {
      assert forall u, v :: LinearAt(Same(), u, v);
      assert forall v :: NiceAt(Same(), v);
    }

    /** If y^n - 1 has an inverse then y^n fixes nothing. */
    lemma NothingFixedBy(n: nat, u: V, v: V)
      requires Good() && Product(u, add(P(n), one)) == one && Power(n, v) == v
      ensures v == nil
    {
      PowerIsNice(n);
      SameIsNice();
      SumIsNice(PowerOf(n), Same(), LessOne(n));
      ProductIsNice(u);
      ChainIsNice(TimesOf(u), LessOne(n), Undone(u, n));
      NiceIs(Undone(u, n), v);
      assert UnitAt(v);
      ProductOfNil(u);
    }

    // ---------- roots of the generator ----------

    /** A polynomial with the given coefficients, times v, at y^j. */
    function Value(j: nat, gs: seq<Sym>, v: V): V
      decreases |gs|
    {
      if gs == [] then nil else var n := |gs| - 1; Next(j, gs[n], Value(j, gs[..n], v), v)
    }

    function Next(j: nat, g: Sym, x: V, v: V): V { add(Power(j, x), Scale(nil, g, v)) }

    function ValueOf(j: nat, gs: seq<Sym>): V -> V { (v: V) => Value(j, gs, v) }

    lemma PowerAdds(j: nat, u: V, v: V)
      requires Good()
      ensures Power(j, add(u, v)) == add(Power(j, u), Power(j, v))
    {
      PowerIsNice(j);
      assert LinearAt(PowerOf(j), u, v);
    }

    lemma PowerCommutes(j: nat, v: V)
      requires Good()
      ensures Power(j, a(v)) == a(Power(j, v)) && Power(j, Y(v)) == Y(Power(j, v)) && Power(j, nil) == nil
    {
      PowerIsNice(j);
      assert NiceAt(PowerOf(j), v);
    }

    lemma NextAdds(j: nat, g: Sym, x: V, y: V, u: V, v: V)
      requires Good()
      ensures Next(j, g, add(x, y), add(u, v)) == add(Next(j, g, x, u), Next(j, g, y, v))
    {
      PowerAdds(j, x, y);
      ScaleAdds(g, u, v);
      assert RegroupsAt(Power(j, x), Power(j, y), Scale(nil, g, u), Scale(nil, g, v));
    }

    lemma NextCommutes(j: nat, g: Sym, x: V, v: V)
      requires Good()
      ensures Next(j, g, a(x), a(v)) == a(Next(j, g, x, v)) && Next(j, g, Y(x), Y(v)) == Y(Next(j, g, x, v))
    {
      PowerCommutes(j, x);
      ScaleCommutes(g, v);
      assert ShiftsAt(Power(j, x), Scale(nil, g, v));
      YLinear(Power(j, x), Scale(nil, g, v));
    }

    lemma {:induction false} ValueAdds(j: nat, gs: seq<Sym>, u: V, v: V)
      requires Good()
      ensures Value(j, gs, add(u, v)) == add(Value(j, gs, u), Value(j, gs, v))
      decreases |gs|
    {
      if gs == [] {
        assert UnitAt(nil);
      } else {
        var n := |gs| - 1;
        ValueAdds(j, gs[..n], u, v);
        NextAdds(j, gs[n], Value(j, gs[..n], u), Value(j, gs[..n], v), u, v);
      }
    }

    lemma {:induction false} ValueCommutes(j: nat, gs: seq<Sym>, v: V)
      requires Good()
      ensures Value(j, gs, a(v)) == a(Value(j, gs, v)) && Value(j, gs, Y(v)) == Y(Value(j, gs, v))
      decreases |gs|
    {
      if gs == [] {
        ANil();
        YNil();
      } else {
        var n := |gs| - 1;
        ValueCommutes(j, gs[..n], v);
        NextCommutes(j, gs[n], Value(j, gs[..n], v), v);
      }
    }

    lemma NextNil(j: nat, g: Sym)
      requires Good()
      ensures Next(j, g, nil, nil) == nil
    {
      PowerCommutes(j, nil);
      ScaleOfNil(g);
      assert UnitAt(nil);
    }

    lemma {:induction false} ValueNil(j: nat, gs: seq<Sym>)
      requires Good()
      ensures Value(j, gs, nil) == nil
      decreases |gs|
    {
      if gs != [] {
        ValueNil(j, gs[..|gs| - 1]);
        NextNil(j, gs[|gs| - 1]);
      }
    }

    lemma ValueIsNice(j: nat, gs: seq<Sym>)
      requires Good()
      ensures Nice(ValueOf(j, gs))
    {
      ValueNil(j, gs);
      forall u, v ensures LinearAt(ValueOf(j, gs), u, v) { ValueAdds(j, gs, u, v); }
      forall v ensures NiceAt(ValueOf(j, gs), v) { ValueCommutes(j, gs, v); }
    }

    function Multiples(gs: seq<Sym>, s: Sym): (r: seq<Sym>)
      ensures |r| == |gs| && forall k :: 0 <= k < |gs| ==> r[k] == Mul(gs[k], s)
    {
      seq(|gs|, k requires 0 <= k < |gs| => Mul(gs[k], s))
    }

    lemma NextAt(j: nat, g: Sym, u: seq<Sym>, s: Sym, x: V)
      requires Good() && Space().At(j, u) == x
      ensures Space().At(j, u + [Mul(g, s)]) == Next(j, g, x, Inj(s))
    {
      Space().AtSnoc(j, u, Mul(g, s));
      InjMul(g, s);
    }

    lemma MultiplesSnoc(gs: seq<Sym>, s: Sym)
      requires gs != []
      ensures var n := |gs| - 1; Multiples(gs, s) == Multiples(gs[..n], s) + [Mul(gs[n], s)]
    {
    }

    lemma {:induction false} ValueIsAt(j: nat, gs: seq<Sym>, s: Sym)
      requires Good()
      ensures Space().At(j, Multiples(gs, s)) == Value(j, gs, Inj(s))
      decreases |gs|
    {
      if gs != [] {
        var n := |gs| - 1;
        ValueIsAt(j, gs[..n], s);
        MultiplesSnoc(gs, s);
        NextAt(j, gs[n], Multiples(gs[..n], s), s, Value(j, gs[..n], Inj(s)));
      }
    }

    /** The same at one, with c for y^j. */
    function Horner(c: V, gs: seq<Sym>): V
      decreases |gs|
    {
      if gs == [] then nil else var n := |gs| - 1; Down(c, gs[n], Horner(c, gs[..n]))
    }

    function Down(c: V, g: Sym, x: V): V { add(Product(c, x), Inj(g)) }

    lemma NextAtOne(j: nat, g: Sym, x: V)
      requires Good()
      ensures Next(j, g, x, one) == Down(P(j), g, x)
    {
      PowerIs(j, x);
    }

    lemma {:induction false} ValueAtOne(j: nat, gs: seq<Sym>)
      requires Good()
      ensures Value(j, gs, one) == Horner(P(j), gs)
      decreases |gs|
    {
      if gs != [] {
        var n := |gs| - 1;
        ValueAtOne(j, gs[..n]);
        NextAtOne(j, gs[n], Horner(P(j), gs[..n]));
      }
    }

    /** Two such operators that agree on one agree. */
    lemma SameAtOne(f: V -> V, g: V -> V, v: V)
      requires Good() && Nice(f) && Nice(g) && f(one) == g(one)
      ensures f(v) == g(v)
    {
      NiceIs(f, v);
      NiceIs(g, v);
    }

    lemma DoublePower(j: nat, c: V, d: V)
      requires Good() && P(j) == c && Product(c, c) == d
      ensures P(2 * j) == d
    {
      PowerAdd(j, j);
    }

    lemma EighthPower(j: nat, c: V, c2: V, c4: V, c8: V)
      requires Good() && P(j) == c && Product(c, c) == c2 && Product(c2, c2) == c4 && Product(c4, c4) == c8
      ensures P(8 * j) == c8
    {
      DoublePower(j, c, c2);
      DoublePower(2 * j, c2, c4);
      DoublePower(4 * j, c4, c8);
    }

    lemma ValueIsPower(j: nat, gs: seq<Sym>, v: V)
      requires Good() && P(8 * j) == Value(j, gs, one)
      ensures Power(8 * j, v) == Value(j, gs, v)
    {
      PowerIsNice(8 * j);
      ValueIsNice(j, gs);
      SameAtOne(PowerOf(8 * j), ValueOf(j, gs), v);
    }

    function Coefficients(): (gs: seq<Sym>)
      ensures |gs| == 8 && forall k :: 0 <= k < 8 ==> gs[k] == Generator(k)
    {
      seq(8, k requires 0 <= k < 8 => Generator(k))
    }

    lemma ScaledIs(s: Sym)
      ensures Space().Scaled(s) == Multiples(Coefficients(), s)
    {
      forall k | 0 <= k < 8 ensures Space().Scaled(s)[k] == Multiples(Coefficients(), s)[k] {
        ScaledAt(k, Generator(k), s);
      }
    }

    lemma ScaledAt(k: nat, g: Sym, s: Sym)
      requires k < 8 && g == Generator(k)
      ensures Space().Scaled(s)[k] == Mul(g, s)
    {
      TimesAre(k);
      assert Times(g)(s) == Mul(g, s);
    }

    lemma RootAtIs(j: nat, s: Sym)
      requires Good() && P(8 * j) == Value(j, Coefficients(), one)
      ensures Space().RootAt(j, s)
    {
      ValueIsPower(j, Coefficients(), Inj(s));
      ValueIsAt(j, Coefficients(), s);
      ScaledIs(s);
    }

    lemma RootIs(j: nat, c: V, c2: V, c4: V, c8: V)
      requires Good() && P(j) == c && Product(c, c) == c2 && Product(c2, c2) == c4 && Product(c4, c4) == c8
      requires Horner(c, Coefficients()) == c8
      ensures Space().Root(j)
    {
      EighthPower(j, c, c2, c4, c8);
      ValueAtOne(j, Coefficients());
      forall s ensures Space().RootAt(j, s) { RootAtIs(j, s); }
    }

    lemma HornerStep(c: V, n: nat, x: V, y: V)
      requires n < 8 && Horner(c, Coefficients()[..n]) == x && Down(c, Generator(n), x) == y
      ensures Horner(c, Coefficients()[..n + 1]) == y
    {
      assert Coefficients()[..n + 1][..n] == Coefficients()[..n];
    }
  }
}
