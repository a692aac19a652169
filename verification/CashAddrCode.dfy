/** Why few errors are always noticed: a generator that vanishes at two rows of three consecutive powers of an element
  * of order 1025 gives a code in which two words that agree in all but four places of a window of 1025 are never both
  * valid (the bound of Hartmann and Tzeng). Nothing here depends on what the elements are.
  */
module CashAddrCode {
  import opened CashAddrPoly
  import Numerals

  const PERIOD: nat := 1025

  /** Values at which polynomials are taken: addition, zero, multiplication with the element y, and the coefficients
    * among the values.
    */
  datatype Points<!S(!new), !V(!new)> = Points(
    ring: Ring<S>, add: (V, V) -> V, nil: V, y: V -> V, inj: S -> V)
  {
    // ---------- what has to hold of them ----------

    ghost predicate RegroupsAt(a: V, b: V, c: V, d: V) { add(add(a, b), add(c, d)) == add(add(a, c), add(b, d)) }

    ghost predicate UnitAt(v: V) { add(v, nil) == v && add(nil, v) == v && add(v, v) == nil }

    ghost predicate CancelsAt(u: V, v: V) { add(u, v) == nil ==> u == v }

    ghost predicate LinearAt(u: V, v: V) { y(add(u, v)) == add(y(u), y(v)) }

    ghost predicate InjAt(s: S, t: S) {
      inj(ring.add(s, t)) == add(inj(s), inj(t)) && (inj(s) == nil ==> s == ring.nil)
    }

    /** No power of y below the period fixes anything; it is enough to know this of the largest divisors. */
    ghost predicate PeriodAt(v: V) {
      && Pow(PERIOD, v) == v
      && (Pow(25, v) == v ==> v == nil) && (Pow(205, v) == v ==> v == nil)
    }

    /** The generator vanishes at y^j. */
    ghost predicate RootAt(j: nat, s: S)
      requires |ring.times| == 8
    {
      Pow(8 * j, inj(s)) == At(j, Scaled(s))
    }

    ghost predicate Root(j: nat)
      requires |ring.times| == 8
    {
      forall s :: RootAt(j, s)
    }

    ghost predicate Sound() {
      && ring.Good()
      && (forall a, b, c, d :: RegroupsAt(a, b, c, d))
      && (forall v :: UnitAt(v))
      && (forall u, v :: CancelsAt(u, v))
      && (forall u, v :: LinearAt(u, v))
      && (forall s, t :: InjAt(s, t))
    }

    ghost predicate Good() { Sound() && forall v :: PeriodAt(v) }

    /** Two rows of three roots, with steps of 33 along a row and of 961, that is -64, from one to the other. */
    ghost predicate HasRoots()
      requires |ring.times| == 8
    {
      Root(1024) && Root(1057) && Root(1090) && Root(1985) && Root(2018) && Root(2051)
    }

    // ---------- powers ----------

    function Pow(n: nat, v: V): V
      decreases n, v
    {
      if n == 0 then v else y(Pow(n - 1, v))
    }

    lemma {:induction false} PowAdd(m: nat, n: nat, v: V)
      ensures Pow(m + n, v) == Pow(m, Pow(n, v))
      decreases m
    {
      if m > 0 { PowAdd(m - 1, n, v); }
    }

    lemma {:induction false} PowLinear(n: nat, u: V, v: V)
      requires Sound()
      ensures Pow(n, add(u, v)) == add(Pow(n, u), Pow(n, v))
      decreases n
    {
      if n > 0 {
        PowLinear(n - 1, u, v);
        assert LinearAt(Pow(n - 1, u), Pow(n - 1, v));
      }
    }

    lemma PowNil(n: nat)
      requires Good()
      ensures Pow(n, nil) == nil
    {
      PowLinear(n, nil, nil);
      assert UnitAt(nil) && UnitAt(Pow(n, nil));
    }

    lemma {:induction false} PowPeriods(k: nat, v: V)
      requires Good()
      ensures Pow(PERIOD * k, v) == v
      decreases k
    {
      if k > 0 {
        PowPeriods(k - 1, v);
        PowAdd(PERIOD, PERIOD * (k - 1), v);
        assert PeriodAt(v);
      }
    }

    lemma PowInjective(n: nat, u: V, v: V)
      requires Good() && Pow(n, u) == Pow(n, v)
      ensures u == v
    {
      PowBack(n, u);
      PowBack(n, v);
    }

    lemma PowBack(n: nat, v: V)
      requires Good()
      ensures Pow(1024 * n, Pow(n, v)) == v
    {
      PowAdd(1024 * n, n, v);
      PowPeriods(n, v);
      assert 1024 * n + n == PERIOD * n;
    }

    // ---------- which powers fix something ----------

    ghost predicate Fixes(n: nat, v: V) { Pow(n, v) == v }

    lemma FixesDifference(m: nat, n: nat, v: V)
      requires Good() && Fixes(m + n, v) && Fixes(n, v)
      ensures Fixes(m, v)
    {
      PowAdd(m, n, v);
    }

    lemma {:induction false} FixesMultiple(m: nat, k: nat, v: V)
      requires Fixes(m, v)
      ensures Fixes(k * m, v)
      decreases k
    {
      if k > 0 {
        FixesMultiple(m, k - 1, v);
        PowAdd(m, (k - 1) * m, v);
        assert m + (k - 1) * m == k * m;
      }
    }

    /** Euclid's algorithm on what fixes v, in multiples of a step. */
    lemma {:induction false} CommonDivisor(step: nat, m: nat, n: nat, v: V) returns (q: nat)
      requires Good() && m > 0 && n > 0 && Fixes(step * m, v) && Fixes(step * n, v)
      ensures q > 0 && m % q == 0 && n % q == 0 && Fixes(step * q, v)
      decreases m + n
    {
      if m == n {
        q := m;
      } else if m > n {
        assert step * m == step * (m - n) + step * n;
        FixesDifference(step * (m - n), step * n, v);
        q := CommonDivisor(step, m - n, n, v);
        DividesSum(m - n, n, q);
      } else {
        assert step * n == step * (n - m) + step * m;
        FixesDifference(step * (n - m), step * m, v);
        q := CommonDivisor(step, m, n - m, v);
        DividesSum(n - m, m, q);
      }
    }

    lemma NothingFixed(d: nat, v: V)
      requires Good() && 0 < d < PERIOD && Fixes(d, v)
      ensures v == nil
    {
      assert PeriodAt(v);
      if d % 41 != 0 {
        FixesMultiple(d, 25, v);
        var q := CommonDivisor(25, d, 41, v);
        DivisorOf41(q, d);
      } else {
        var c := d / 41;
        FixesMultiple(d, 5, v);
        var e := if c % 5 == 0 then c / 5 else c;
        assert 205 * e == if c % 5 == 0 then d else 5 * d;
        var q := CommonDivisor(205, e, 5, v);
        DivisorOf5(q, e);
      }
    }

    /** Powers that agree on v, where a multiple of the factor is one more than a multiple of the period. */
    lemma AgreeIsNil(c: nat, u: nat, t: nat, m: nat, n: nat, v: V)
      requires Good() && u * c == PERIOD * t + 1
      requires n < m < n + PERIOD && Pow(c * m, v) == Pow(c * n, v)
      ensures v == nil
    {
      var d := m - n;
      Distributes(c, n, d);
      PowsDiffer(c * n, c * d, v);
      TakenOut(c, u, t, d, v);
      NothingFixed(d, v);
    }

    lemma PowsDiffer(x: nat, y: nat, v: V)
      requires Good() && Pow(x + y, v) == Pow(x, v)
      ensures Fixes(y, v)
    {
      PowAdd(x, y, v);
      PowInjective(x, Pow(y, v), v);
    }

    lemma TakenOut(c: nat, u: nat, t: nat, d: nat, v: V)
      requires Good() && u * c == PERIOD * t + 1 && Fixes(c * d, v)
      ensures Fixes(d, v)
    {
      FixesMultiple(c * d, u, v);
      TakeOut(u, c, d, t);
      PowPeriods(t * d, v);
      FixesDifference(d, PERIOD * (t * d), v);
    }

    /** What a difference of powers does: 33 and 961 are invertible modulo the period. */
    lemma ApartIsNil(c: nat, m: nat, n: nat, v: V)
      requires Good() && (c == 33 || c == 961) && Apart(m, n) && Pow(c * m, v) == Pow(c * n, v)
      ensures v == nil
    {
      var u, t := if c == 33 then 497 else 16, if c == 33 then 16 else 15;
      if m > n { AgreeIsNil(c, u, t, m, n, v); } else { AgreeIsNil(c, u, t, n, m, v); }
    }

    // ---------- values of polynomials ----------

    /** The value at y^j, highest coefficient first. */
    function At(j: nat, u: seq<S>): V
      decreases u
    {
      if u == [] then nil else add(Pow(j, At(j, u[..|u| - 1])), inj(u[|u| - 1]))
    }

    /** The generator after its leading coefficient, times s. */
    function Scaled(s: S): (r: seq<S>)
      requires |ring.times| == 8
      ensures |r| == 8 && forall k :: 0 <= k < 8 ==> r[k] == ring.times[k](s)
    {
      seq(8, k requires 0 <= k < 8 => ring.times[k](s))
    }

    lemma Assoc(a: V, b: V, c: V)
      requires Good()
      ensures add(add(a, b), c) == add(a, add(b, c))
    {
      assert UnitAt(c) && UnitAt(a) && RegroupsAt(a, b, nil, c);
    }

    lemma Commute(a: V, b: V)
      requires Good()
      ensures add(a, b) == add(b, a)
    {
      assert UnitAt(a) && UnitAt(b) && RegroupsAt(nil, a, b, nil);
    }

    lemma InjNil()
      requires Good()
      ensures inj(ring.nil) == nil
    {
      assert InjAt(ring.nil, ring.nil) && ring.UnitAt(ring.nil) && UnitAt(inj(ring.nil));
    }

    lemma AtSnoc(j: nat, u: seq<S>, d: S)
      ensures At(j, u + [d]) == add(Pow(j, At(j, u)), inj(d))
    {
      assert (u + [d])[..|u|] == u;
    }

    lemma {:induction false} AtZeros(j: nat, n: nat)
      requires Good()
      ensures At(j, ring.Zeros(n)) == nil
    {
      if n > 0 {
        AtZeros(j, n - 1);
        assert ring.Zeros(n) == ring.Zeros(n - 1) + [ring.nil];
        AtSnoc(j, ring.Zeros(n - 1), ring.nil);
        PowNil(j);
        InjNil();
        assert UnitAt(nil);
      }
    }

    lemma {:induction false} AtConcat(j: nat, u: seq<S>, v: seq<S>)
      requires Good()
      ensures At(j, u + v) == add(Pow(j * |v|, At(j, u)), At(j, v))
      decreases |v|
    {
      if v == [] {
        assert u + v == u && UnitAt(At(j, u));
      } else {
        var w, d := v[..|v| - 1], v[|v| - 1];
        AtConcat(j, u, w);
        assert u + v == (u + w) + [d];
        AtSnoc(j, u + w, d);
        var a, b := Pow(j * |w|, At(j, u)), At(j, w);
        PowLinear(j, a, b);
        PowAdd(j, j * |w|, At(j, u));
        OneMoreTime(j, |w|);
        Assoc(Pow(j, a), Pow(j, b), inj(d));
      }
    }

    lemma {:induction false} AtAdd(j: nat, u: seq<S>, v: seq<S>)
      requires Good() && |u| == |v|
      ensures At(j, ring.Add(u, v)) == add(At(j, u), At(j, v))
      decreases |u|
    {
      if u == [] {
        assert UnitAt(nil);
      } else {
        var n := |u| - 1;
        AtAdd(j, u[..n], v[..n]);
        assert ring.Add(u, v)[..n] == ring.Add(u[..n], v[..n]);
        PowLinear(j, At(j, u[..n]), At(j, v[..n]));
        assert InjAt(u[n], v[n]);
        assert RegroupsAt(Pow(j, At(j, u[..n])), Pow(j, At(j, v[..n])), inj(u[n]), inj(v[n]));
      }
    }

    lemma StepIsSum(p: seq<S>, d: S)
      requires |ring.times| == |p| == 8
      ensures ring.Step(p, d) == ring.Add(p[1..] + [d], Scaled(p[0]))
    {
    }

    lemma FirstApart(j: nat, p: seq<S>)
      requires Good() && |p| == 8
      ensures At(j, p) == add(Pow(j * 7, inj(p[0])), At(j, p[1..]))
    {
      assert p == [p[0]] + p[1..];
      AtConcat(j, [p[0]], p[1..]);
      AtSnoc(j, [], p[0]);
      PowNil(j);
      assert [] + [p[0]] == [p[0]] && UnitAt(inj(p[0]));
    }

    /** Taking the remainder does not change the value at a root. */
    lemma AtStep(j: nat, p: seq<S>, d: S)
      requires Good() && |p| == 8 && Root(j)
      ensures At(j, ring.Step(p, d)) == add(Pow(j, At(j, p)), inj(d))
    {
      var first, rest := Pow(8 * j, inj(p[0])), Pow(j, At(j, p[1..]));
      assert RootAt(j, p[0]);
      StepIsSum(p, d);
      AtAdd(j, p[1..] + [d], Scaled(p[0]));
      AtSnoc(j, p[1..], d);
      FirstApart(j, p);
      PowLinear(j, Pow(j * 7, inj(p[0])), At(j, p[1..]));
      PowAdd(j, j * 7, inj(p[0]));
      assert j + j * 7 == 8 * j;
      Commute(add(rest, inj(d)), first);
      Assoc(first, rest, inj(d));
    }

    lemma {:induction false} AtFold(j: nat, u: seq<S>)
      requires Good() && Root(j)
      ensures At(j, ring.Fold(ring.Zeros(8), u)) == At(j, u)
      decreases |u|
    {
      if u == [] {
        AtZeros(j, 8);
      } else {
        var n := |u| - 1;
        AtFold(j, u[..n]);
        AtStep(j, ring.Fold(ring.Zeros(8), u[..n]), u[n]);
      }
    }

    // ---------- a word with few coefficients ----------

    /** The value of the terms b y^(x m). */
    function Sum(x: nat, ms: seq<nat>, bs: seq<V>): V
      requires |ms| == |bs|
      decreases |ms|
    {
      if ms == [] then nil
      else
        var l := |ms| - 1;
        add(Sum(x, ms[..l], bs[..l]), Pow(x * ms[l], bs[l]))
    }

    /** One coefficient taken out. */
    lemma AtWithout(j: nat, e: seq<S>, k: nat)
      requires Good() && k < |e|
      ensures At(j, e) == add(At(j, e[k := ring.nil]), Pow(j * Place(|e|, k), inj(e[k])))
    {
      var a, b := e[..k], e[k + 1..];
      SplitAt(e, k, ring.nil);
      AtAround(j, a, e[k], b);
      AtAroundNil(j, a, b);
    }

    lemma AtAroundNil(j: nat, a: seq<S>, b: seq<S>)
      requires Good()
      ensures At(j, (a + [ring.nil]) + b) == add(Pow(j * |b| + j, At(j, a)), At(j, b))
    {
      AtAround(j, a, ring.nil, b);
      InjNil();
      PowNil(j * |b|);
      assert UnitAt(add(Pow(j * |b| + j, At(j, a)), At(j, b)));
    }

    lemma SplitAt(e: seq<S>, k: nat, s: S)
      requires k < |e|
      ensures (e[..k] + [e[k]]) + e[k + 1..] == e && (e[..k] + [s]) + e[k + 1..] == e[k := s]
    {
    }

    lemma AtAround(j: nat, a: seq<S>, s: S, b: seq<S>)
      requires Good()
      ensures At(j, (a + [s]) + b) == add(add(Pow(j * |b| + j, At(j, a)), At(j, b)), Pow(j * |b|, inj(s)))
    {
      var n := j * |b|;
      AtConcat(j, a + [s], b);
      AtSnoc(j, a, s);
      PowLinear(n, Pow(j, At(j, a)), inj(s));
      PowAdd(n, j, At(j, a));
      var p, x := Pow(n + j, At(j, a)), Pow(n, inj(s));
      Assoc(p, x, At(j, b));
      Commute(x, At(j, b));
      Assoc(p, At(j, b), x);
    }

    /** The places and the coefficients of a word, as terms. */
    function Places(n: nat, ns: seq<nat>): (r: seq<nat>)
      requires forall i :: 0 <= i < |ns| ==> ns[i] < n
      ensures |r| == |ns| && forall i :: 0 <= i < |ns| ==> r[i] == Place(n, ns[i])
    {
      seq(|ns|, i requires 0 <= i < |ns| => Place(n, ns[i]))
    }

    function Values(e: seq<S>, ns: seq<nat>): (r: seq<V>)
      requires forall i :: 0 <= i < |ns| ==> ns[i] < |e|
      ensures |r| == |ns| && forall i :: 0 <= i < |ns| ==> r[i] == inj(e[ns[i]])
    {
      seq(|ns|, i requires 0 <= i < |ns| => inj(e[ns[i]]))
    }

    /** All nonzero coefficients are at the given places, which are different. */
    ghost predicate Supported(e: seq<S>, ns: seq<nat>) {
      && (forall i :: 0 <= i < |ns| ==> ns[i] < |e|)
      && (forall i, k :: 0 <= i < k < |ns| ==> ns[i] != ns[k])
      && (forall k :: 0 <= k < |e| && e[k] != ring.nil ==> k in ns)
    }

    lemma OneLessPlace(e: seq<S>, ns: seq<nat>)
      requires Supported(e, ns) && ns != []
      ensures var l := |ns| - 1;
              var e' := e[ns[l] := ring.nil];
              && Supported(e', ns[..l]) && Places(|e'|, ns[..l]) == Places(|e|, ns)[..l]
              && Values(e', ns[..l]) == Values(e, ns)[..l]
    {
      var l := |ns| - 1;
      var e' := e[ns[l] := ring.nil];
      forall k | 0 <= k < |e'| && e'[k] != ring.nil ensures k in ns[..l] {
        assert k in ns && k != ns[l];
      }
    }

    lemma {:induction false} AtSum(j: nat, e: seq<S>, ns: seq<nat>)
      requires Good() && Supported(e, ns)
      ensures At(j, e) == Sum(j, Places(|e|, ns), Values(e, ns))
      decreases |ns|
    {
      if ns == [] {
        assert e == ring.Zeros(|e|);
        AtZeros(j, |e|);
      } else {
        var l := |ns| - 1;
        OneLessPlace(e, ns);
        AtSum(j, e[ns[l] := ring.nil], ns[..l]);
        AtWithout(j, e, ns[l]);
      }
    }

    function Lifted(x: nat, ms: seq<nat>, bs: seq<V>): (r: seq<V>)
      requires |ms| == |bs|
      ensures |r| == |bs| && forall i :: 0 <= i < |bs| ==> r[i] == Pow(x * ms[i], bs[i])
    {
      seq(|bs|, i requires 0 <= i < |bs| => Pow(x * ms[i], bs[i]))
    }

    lemma {:induction false} SumLifted(x: nat, z: nat, ms: seq<nat>, bs: seq<V>)
      requires |ms| == |bs|
      ensures Sum(x + z, ms, bs) == Sum(z, ms, Lifted(x, ms, bs))
      decreases |ms|
    {
      if ms != [] {
        var l := |ms| - 1;
        SumLifted(x, z, ms[..l], bs[..l]);
        assert Lifted(x, ms, bs)[..l] == Lifted(x, ms[..l], bs[..l]);
        PowTimes(z, x, ms[l], bs[l]);
      }
    }

    lemma PowTimes(x: nat, z: nat, m: nat, b: V)
      ensures Pow(x * m, Pow(z * m, b)) == Pow((z + x) * m, b)
    {
      assert (z + x) * m == x * m + z * m;
      PowAdd(x * m, z * m, b);
    }

    // ---------- taking one term away ----------

    /** Every term b turned into b y^(c m) - b y^(c n). */
    function Elim(c: nat, n: nat, ms: seq<nat>, bs: seq<V>): (r: seq<V>)
      requires |ms| == |bs|
      ensures |r| == |bs| && forall i :: 0 <= i < |bs| ==> r[i] == add(Pow(c * ms[i], bs[i]), Pow(c * n, bs[i]))
    {
      seq(|bs|, i requires 0 <= i < |bs| => add(Pow(c * ms[i], bs[i]), Pow(c * n, bs[i])))
    }

    lemma ElimTerm(x: nat, c: nat, n: nat, m: nat, b: V)
      requires Good()
      ensures Pow(x * m, add(Pow(c * m, b), Pow(c * n, b))) == add(Pow((c + x) * m, b), Pow(c * n, Pow(x * m, b)))
    {
      PowLinear(x * m, Pow(c * m, b), Pow(c * n, b));
      PowTimes(x, c, m, b);
      PowAdd(x * m, c * n, b);
      PowAdd(c * n, x * m, b);
    }

    lemma {:induction false} SumElim(x: nat, c: nat, n: nat, ms: seq<nat>, bs: seq<V>)
      requires Good() && |ms| == |bs|
      ensures Sum(x, ms, Elim(c, n, ms, bs)) == add(Sum(c + x, ms, bs), Pow(c * n, Sum(x, ms, bs)))
      decreases |ms|
    {
      if ms == [] {
        PowNil(c * n);
        assert UnitAt(nil);
      } else {
        var l := |ms| - 1;
        var a, b := Sum(c + x, ms[..l], bs[..l]), Sum(x, ms[..l], bs[..l]);
        SumElim(x, c, n, ms[..l], bs[..l]);
        assert Elim(c, n, ms, bs)[..l] == Elim(c, n, ms[..l], bs[..l]);
        ElimTerm(x, c, n, ms[l], bs[l]);
        PowLinear(c * n, b, Pow(x * ms[l], bs[l]));
        assert RegroupsAt(a, Pow(c * n, b), Pow((c + x) * ms[l], bs[l]), Pow(c * n, Pow(x * ms[l], bs[l])));
      }
    }

    /** The last term is gone. */
    lemma Eliminates(x: nat, c: nat, ms: seq<nat>, bs: seq<V>)
      requires Good() && |ms| == |bs| > 0 && Sum(x, ms, bs) == nil && Sum(c + x, ms, bs) == nil
      ensures var l := |ms| - 1; Sum(x, ms[..l], Elim(c, ms[l], ms[..l], bs[..l])) == nil
    {
      var l := |ms| - 1;
      var front, rest := ms[..l], bs[..l];
      SumElim(x, c, ms[l], front, rest);
      assert CancelsAt(Sum(x, front, rest), Pow(x * ms[l], bs[l]));
      assert CancelsAt(Sum(c + x, front, rest), Pow((c + x) * ms[l], bs[l]));
      PowTimes(c, x, ms[l], bs[l]);
      assert (c + x) * ms[l] == (x + c) * ms[l];
      assert UnitAt(Pow((c + x) * ms[l], bs[l]));
    }

    ghost predicate AllNil(bs: seq<V>) { forall i :: 0 <= i < |bs| ==> bs[i] == nil }

    ghost predicate AllApart(ms: seq<nat>) { forall i, k :: 0 <= i < k < |ms| ==> Apart(ms[i], ms[k]) }

    lemma {:induction false} SumNil(x: nat, ms: seq<nat>, bs: seq<V>)
      requires Good() && |ms| == |bs| && AllNil(bs)
      ensures Sum(x, ms, bs) == nil
      decreases |ms|
    {
      if ms != [] {
        var l := |ms| - 1;
        SumNil(x, ms[..l], bs[..l]);
        PowNil(x * ms[l]);
        assert UnitAt(nil);
      }
    }

    /** If nothing is left after one term is taken away, there was nothing before. */
    lemma BackFromElim(c: nat, ms: seq<nat>, bs: seq<V>)
      requires Good() && |ms| == |bs| > 0 && (c == 33 || c == 961) && AllApart(ms) && Sum(0, ms, bs) == nil
      requires var l := |ms| - 1; AllNil(Elim(c, ms[l], ms[..l], bs[..l]))
      ensures AllNil(bs)
    {
      var l := |ms| - 1;
      forall i | 0 <= i < l ensures bs[i] == nil {
        assert Elim(c, ms[l], ms[..l], bs[..l])[i] == nil;
        assert CancelsAt(Pow(c * ms[i], bs[i]), Pow(c * ms[l], bs[i]));
        ApartIsNil(c, ms[i], ms[l], bs[i]);
      }
      SumNil(0, ms[..l], bs[..l]);
      assert 0 * ms[l] == 0 && UnitAt(bs[l]);
    }

    /** Up to three terms that vanish along a row are nothing. */
    lemma {:induction false} RowVanishes(ms: seq<nat>, bs: seq<V>)
      requires Good() && |ms| == |bs| && AllApart(ms)
      requires forall k :: 0 <= k < |ms| ==> Sum(33 * k, ms, bs) == nil
      ensures AllNil(bs)
      decreases |ms|
    {
      if ms != [] {
        var l := |ms| - 1;
        var bs' := Elim(33, ms[l], ms[..l], bs[..l]);
        forall k | 0 <= k < l ensures Sum(33 * k, ms[..l], bs') == nil {
          assert Sum(33 * (k + 1), ms, bs) == nil;
          Eliminates(33 * k, 33, ms, bs);
        }
        RowVanishes(ms[..l], bs');
        assert Sum(33 * 0, ms, bs) == nil;
        BackFromElim(33, ms, bs);
      }
    }

    /** Up to four terms that vanish along both rows are nothing. */
    lemma RowsEliminate(ms: seq<nat>, bs: seq<V>) returns (front: seq<nat>, cs: seq<V>)
      requires Good() && |ms| == |bs| > 0 && AllApart(ms)
      requires Sum(0, ms, bs) == nil && Sum(33, ms, bs) == nil && Sum(66, ms, bs) == nil
      requires Sum(961, ms, bs) == nil && Sum(994, ms, bs) == nil && Sum(1027, ms, bs) == nil
      ensures var l := |ms| - 1; front == ms[..l] && cs == Elim(961, ms[l], ms[..l], bs[..l])
      ensures |front| == |cs| == |ms| - 1 && AllApart(front)
      ensures Sum(0, front, cs) == nil && Sum(33, front, cs) == nil && Sum(66, front, cs) == nil
    {
      Eliminates(0, 961, ms, bs);
      Eliminates(33, 961, ms, bs);
      Eliminates(66, 961, ms, bs);
      var l := |ms| - 1;
      front, cs := ms[..l], Elim(961, ms[l], ms[..l], bs[..l]);
      forall i, k | 0 <= i < k < |front| ensures Apart(front[i], front[k]) { assert Apart(ms[i], ms[k]); }
    }

    lemma BackFrom(front: seq<nat>, cs: seq<V>, ms: seq<nat>, bs: seq<V>)
      requires Good() && 0 < |ms| == |bs| <= 4 && AllApart(ms) && Sum(0, ms, bs) == nil
      requires var l := |ms| - 1; front == ms[..l] && cs == Elim(961, ms[l], ms[..l], bs[..l]) && AllApart(front)
      requires Sum(0, front, cs) == nil && Sum(33, front, cs) == nil && Sum(66, front, cs) == nil
      ensures AllNil(bs)
    {
      RowVanishes(front, cs);
      BackFromElim(961, ms, bs);
    }

    lemma RowsVanish(ms: seq<nat>, bs: seq<V>)
      requires Good() && |ms| == |bs| <= 4 && AllApart(ms)
      requires Sum(0, ms, bs) == nil && Sum(33, ms, bs) == nil && Sum(66, ms, bs) == nil
      requires Sum(961, ms, bs) == nil && Sum(994, ms, bs) == nil && Sum(1027, ms, bs) == nil
      ensures AllNil(bs)
    {
      if ms != [] {
        var front, cs := RowsEliminate(ms, bs);
        BackFrom(front, cs, ms, bs);
      }
    }

    lemma VanishesAt(j: nat, e: seq<S>, ns: seq<nat>)
      requires Good() && Root(j) && Supported(e, ns) && ring.Fold(ring.Zeros(8), e) == ring.Zeros(8)
      ensures Sum(j, Places(|e|, ns), Values(e, ns)) == nil
    {
      AtFold(j, e);
      AtZeros(j, 8);
      AtSum(j, e, ns);
    }

    /** A word with remainder zero that has at most four coefficients, all in one window, has none. */
    lemma FewIsNone(e: seq<S>, ns: seq<nat>)
      requires Good() && HasRoots() && Supported(e, ns) && |ns| <= 4 && AllApart(ns)
      requires ring.Fold(ring.Zeros(8), e) == ring.Zeros(8)
      ensures e == ring.Zeros(|e|)
    {
      var ms, bs := Places(|e|, ns), Values(e, ns);
      var cs := Lifted(1024, ms, bs);
      AllRows(e, ns);
      forall i, k | 0 <= i < k < |ms| ensures Apart(ms[i], ms[k]) { assert Apart(ns[i], ns[k]); }
      RowsVanish(ms, cs);
      forall i | 0 <= i < |ns| ensures e[ns[i]] == ring.nil {
        assert cs[i] == nil;
        PowNil(1024 * ms[i]);
        PowInjective(1024 * ms[i], bs[i], nil);
        assert InjAt(e[ns[i]], e[ns[i]]);
      }
    }

    lemma AllRows(e: seq<S>, ns: seq<nat>)
      requires Good() && HasRoots() && Supported(e, ns) && ring.Fold(ring.Zeros(8), e) == ring.Zeros(8)
      ensures var ms := Places(|e|, ns);
              var cs := Lifted(1024, ms, Values(e, ns));
              && Sum(0, ms, cs) == nil && Sum(33, ms, cs) == nil && Sum(66, ms, cs) == nil
              && Sum(961, ms, cs) == nil && Sum(994, ms, cs) == nil && Sum(1027, ms, cs) == nil
    {
      RowAt(0, e, ns);
      RowAt(33, e, ns);
      RowAt(66, e, ns);
      RowAt(961, e, ns);
      RowAt(994, e, ns);
      RowAt(1027, e, ns);
    }

    lemma RowAt(z: nat, e: seq<S>, ns: seq<nat>)
      requires Good() && Root(1024 + z) && Supported(e, ns) && ring.Fold(ring.Zeros(8), e) == ring.Zeros(8)
      ensures Sum(z, Places(|e|, ns), Lifted(1024, Places(|e|, ns), Values(e, ns))) == nil
    {
      VanishesAt(1024 + z, e, ns);
      SumLifted(1024, z, Places(|e|, ns), Values(e, ns));
    }
  }

  lemma DividesSum(a: nat, b: nat, q: nat)
    requires q > 0 && a % q == 0 && b % q == 0
    ensures (a + b) % q == 0
  {
    var x, y := a / q, b / q;
    assert a == x * q && b == y * q;
    assert a + b == (x + y) * q;
    MultipleIs(x + y, q);
  }

  lemma MultipleIs(x: nat, q: nat)
    requires q > 0
    ensures (x * q) % q == 0
  {
    Numerals.DivMod(q, x, 0);
  }

  lemma OneMoreTime(j: nat, n: nat)
    ensures j + j * n == j * (n + 1)
  {
  }

  /** The exponent of a coefficient in a list of n. */
  function Place(n: nat, k: nat): nat
    requires k < n
  {
    n - 1 - k
  }

  /** Two places of one window. */
  ghost predicate Apart(m: nat, n: nat) { m != n && m < n + PERIOD && n < m + PERIOD }

  lemma Distributes(c: nat, n: nat, d: nat)
    ensures c * (n + d) == c * n + c * d
  {
  }

  lemma TakeOut(u: nat, c: nat, d: nat, t: nat)
    requires u * c == PERIOD * t + 1
    ensures u * (c * d) == d + PERIOD * (t * d)
  {
    assert u * (c * d) == (u * c) * d;
    assert (PERIOD * t + 1) * d == PERIOD * (t * d) + d;
  }

  lemma DivisorOf41(q: nat, d: nat)
    requires q > 0 && 41 % q == 0 && d % q == 0 && d % 41 != 0
    ensures q == 1
  {
    if 1 < q < 41 { NoDivisor41(q); }
  }

  lemma NoDivisor41(q: nat)
    requires 1 < q < 41
    ensures 41 % q != 0
  {
    if q > 20 { assert 41 == 1 * q + (41 - q); }
  }

  lemma DivisorOf5(q: nat, e: nat)
    requires q > 0 && 5 % q == 0 && e % q == 0 && e % 5 != 0
    ensures q == 1
  {
  }
}
