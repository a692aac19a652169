/** Remainders of polynomials modulo a generator of degree eight, and why a checksum made of them works
  * (src/cashaddr.cpp). Nothing here depends on what the coefficients are.
  */
module CashAddrPoly {
  /** Addition of coefficients, zero, and multiplication with each coefficient of the generator after its leading
    * one, highest first.
    */
  datatype Ring<!S(!new)> = Ring(add: (S, S) -> S, nil: S, times: seq<S -> S>) {
    ghost predicate Good() {
      && |times| == 8
      && (forall a, b, c, d :: RegroupsAt(a, b, c, d))
      && (forall x :: UnitAt(x))
      && (forall x, y :: CancelsAt(x, y))
      && (forall k :: 0 <= k < 8 ==> Linear(times[k]))
      && (forall x :: times[7](x) == x)
    }

    ghost predicate RegroupsAt(a: S, b: S, c: S, d: S) { add(add(a, b), add(c, d)) == add(add(a, c), add(b, d)) }

    ghost predicate UnitAt(x: S) { add(x, nil) == x && add(nil, x) == x && add(x, x) == nil }

    ghost predicate CancelsAt(x: S, y: S) { add(x, y) == nil ==> x == y }

    ghost predicate Linear(t: S -> S) { t(nil) == nil && forall x, y :: LinearAt(t, x, y) }

    ghost predicate LinearAt(t: S -> S, x: S, y: S) { t(add(x, y)) == add(t(x), t(y)) }

    // ---------- remainders ----------

    /** Coefficient k of p * x + d modulo the generator. */
    function Coefficient(p: seq<S>, d: S, k: nat): S
      requires |times| == |p| == 8 && k < 8
    {
      add(if k < 7 then p[k + 1] else d, times[k](p[0]))
    }

    /** The remainder after one more coefficient; eight coefficients, highest first. */
    function Step(p: seq<S>, d: S): (r: seq<S>)
      requires |times| == |p| == 8
      ensures |r| == 8 && forall k :: 0 <= k < 8 ==> r[k] == Coefficient(p, d, k)
    {
      seq(8, k requires 0 <= k < 8 => Coefficient(p, d, k))
    }

    /** The remainder of p followed by a list of coefficients. */
    function Fold(p: seq<S>, v: seq<S>): (r: seq<S>)
      requires |times| == |p| == 8
      ensures |r| == 8
      decreases v
    {
      if v == [] then p else Step(Fold(p, v[..|v| - 1]), v[|v| - 1])
    }

    function Add(u: seq<S>, v: seq<S>): (r: seq<S>)
      requires |u| == |v|
      ensures |r| == |u| && forall k :: 0 <= k < |u| ==> r[k] == add(u[k], v[k])
    {
      seq(|u|, k requires 0 <= k < |u| => add(u[k], v[k]))
    }

    function Zeros(n: nat): (r: seq<S>)
      ensures |r| == n && forall k :: 0 <= k < n ==> r[k] == nil
    {
      seq(n, _ => nil)
    }

    // ---------- adding polynomials adds remainders ----------

    lemma CoefficientLinear(p: seq<S>, q: seq<S>, d: S, e: S, k: nat)
      requires Good() && |p| == |q| == 8 && k < 8
      ensures Coefficient(Add(p, q), add(d, e), k) == add(Coefficient(p, d, k), Coefficient(q, e, k))
    {
      assert Linear(times[k]) && LinearAt(times[k], p[0], q[0]);
      assert RegroupsAt(if k < 7 then p[k + 1] else d, if k < 7 then q[k + 1] else e, times[k](p[0]), times[k](q[0]));
    }

    lemma StepLinear(p: seq<S>, q: seq<S>, d: S, e: S)
      requires Good() && |p| == |q| == 8
      ensures Step(Add(p, q), add(d, e)) == Add(Step(p, d), Step(q, e))
    {
      forall k | 0 <= k < 8 ensures Step(Add(p, q), add(d, e))[k] == Add(Step(p, d), Step(q, e))[k] {
        CoefficientLinear(p, q, d, e, k);
      }
    }

    lemma {:induction false} FoldLinear(p: seq<S>, q: seq<S>, u: seq<S>, v: seq<S>)
      requires Good() && |p| == |q| == 8 && |u| == |v|
      ensures Fold(Add(p, q), Add(u, v)) == Add(Fold(p, u), Fold(q, v))
      decreases u
    {
      if u != [] {
        var n := |u| - 1;
        FoldLinear(p, q, u[..n], v[..n]);
        assert Add(u, v)[..n] == Add(u[..n], v[..n]);
        StepLinear(Fold(p, u[..n]), Fold(q, v[..n]), u[n], v[n]);
      }
    }

    lemma {:induction false} FoldConcat(p: seq<S>, u: seq<S>, v: seq<S>)
      requires |times| == |p| == 8
      ensures Fold(p, u + v) == Fold(Fold(p, u), v)
      decreases v
    {
      if v == [] {
        assert u + v == u;
      } else {
        var n := |v| - 1;
        FoldConcat(p, u, v[..n]);
        assert (u + v)[..|u + v| - 1] == u + v[..n];
      }
    }

    lemma AddZeros(u: seq<S>)
      requires Good()
      ensures Add(u, Zeros(|u|)) == u && Add(Zeros(|u|), u) == u && Add(u, u) == Zeros(|u|)
    {
      forall k | 0 <= k < |u|
        ensures add(u[k], nil) == u[k] && add(nil, u[k]) == u[k] && add(u[k], u[k]) == nil
      {
        assert UnitAt(u[k]);
      }
    }

    lemma AddCancels(u: seq<S>, v: seq<S>)
      requires Good() && |u| == |v| && Add(u, v) == Zeros(|u|)
      ensures u == v
    {
      forall k | 0 <= k < |u| ensures u[k] == v[k] {
        assert Add(u, v)[k] == add(u[k], v[k]);
        assert CancelsAt(u[k], v[k]);
      }
    }

    // ---------- short lists and bursts ----------

    lemma ShiftStep(p: seq<S>, d: S)
      requires Good() && |p| == 8 && p[0] == nil
      ensures Step(p, d) == p[1..] + [d]
    {
      forall k | 0 <= k < 8 ensures Step(p, d)[k] == (p[1..] + [d])[k] {
        assert Linear(times[k]);
        assert UnitAt(if k < 7 then p[k + 1] else d);
      }
    }

    lemma FoldSnoc(p: seq<S>, w: seq<S>, d: S)
      requires |times| == |p| == 8
      ensures Fold(p, w + [d]) == Step(Fold(p, w), d)
    {
      assert (w + [d])[..|w|] == w;
    }

    lemma ShiftZeros(w: seq<S>, d: S)
      requires |w| < 8
      ensures (Zeros(8 - |w|) + w)[1..] + [d] == Zeros(7 - |w|) + (w + [d])
    {
    }

    lemma ShortStep(w: seq<S>, d: S)
      requires Good() && |w| < 8 && Fold(Zeros(8), w) == Zeros(8 - |w|) + w
      ensures Fold(Zeros(8), w + [d]) == Zeros(7 - |w|) + (w + [d])
    {
      FoldSnoc(Zeros(8), w, d);
      ShiftStep(Zeros(8 - |w|) + w, d);
      ShiftZeros(w, d);
    }

    /** Up to eight coefficients are their own remainder. */
    lemma {:induction false} FoldShort(w: seq<S>)
      requires Good() && |w| <= 8
      ensures Fold(Zeros(8), w) == Zeros(8 - |w|) + w
      decreases w
    {
      if w == [] {
        assert Zeros(8) + w == Zeros(8);
      } else {
        var front, last := w[..|w| - 1], w[|w| - 1];
        FoldShort(front);
        ShortStep(front, last);
        assert front + [last] == w;
      }
    }

    /** A remainder that is not zero is not multiplied away. */
    lemma StepNonzero(p: seq<S>)
      requires Good() && |p| == 8 && p != Zeros(8)
      ensures Step(p, nil) != Zeros(8)
    {
      var r := Step(p, nil);
      assert r[7] == Coefficient(p, nil, 7) && UnitAt(p[0]);
      if p[0] == nil {
        ShiftStep(p, nil);
        NotAllZero(p, r);
      }
    }

    lemma NotAllZero(p: seq<S>, r: seq<S>)
      requires |p| == 8 && p[0] == nil && p != Zeros(8) && r == p[1..] + [nil]
      ensures r != Zeros(8)
    {
      var k :| 0 <= k < 8 && p[k] != nil;
      assert r[k - 1] == p[k];
    }

    lemma {:induction false} FoldNonzero(p: seq<S>, n: nat)
      requires Good() && |p| == 8 && p != Zeros(8)
      ensures Fold(p, Zeros(n)) != Zeros(8)
      decreases n
    {
      if n > 0 {
        FoldNonzero(p, n - 1);
        assert Zeros(n)[..n - 1] == Zeros(n - 1);
        StepNonzero(Fold(p, Zeros(n - 1)));
      }
    }

    lemma WindowDiffers(c: seq<S>, x: seq<S>, y: seq<S>)
      requires Good() && |c| == 8 && |x| == |y| <= 8 && Fold(c, x) == Fold(c, y)
      ensures x == y
    {
      FoldLinear(c, c, x, y);
      AddZeros(c);
      AddZeros(Fold(c, x));
      FoldShort(Add(x, y));
      assert Zeros(8)[8 - |x|..] == Zeros(|x|);
      assert (Zeros(8 - |x|) + Add(x, y))[8 - |x|..] == Add(x, y);
      AddCancels(x, y);
    }

    lemma StaysDifferent(c: seq<S>, d: seq<S>, after: seq<S>)
      requires Good() && |c| == |d| == 8 && c != d
      ensures Fold(c, after) != Fold(d, after)
    {
      if Add(c, d) == Zeros(8) { AddCancels(c, d); }
      FoldNonzero(Add(c, d), |after|);
      FoldLinear(c, d, after, after);
      AddZeros(after);
      AddZeros(Fold(c, after));
    }

    /** Two lists that differ only inside eight consecutive places have different remainders. */
    lemma BurstDetected(p: seq<S>, before: seq<S>, x: seq<S>, y: seq<S>, after: seq<S>)
      requires Good() && |p| == 8 && |x| == |y| <= 8 && x != y
      ensures Fold(p, before + x + after) != Fold(p, before + y + after)
    {
      FoldConcat(p, before + x, after);
      FoldConcat(p, before + y, after);
      FoldConcat(p, before, x);
      FoldConcat(p, before, y);
      var c := Fold(p, before);
      if Fold(c, x) == Fold(c, y) { WindowDiffers(c, x, y); }
      StaysDifferent(Fold(c, x), Fold(c, y), after);
    }

    // ---------- the checksum ----------

    /** What to put in place of eight zeros to make the remainder the target. */
    function Correction(p: seq<S>, v: seq<S>, target: seq<S>): (r: seq<S>)
      requires |times| == |p| == |target| == 8
      ensures |r| == 8
    {
      Add(Fold(p, v + Zeros(8)), target)
    }

    /** Which last coefficients, at most eight, give the target. */
    lemma SuffixIsRight(p: seq<S>, v: seq<S>, target: seq<S>, r: seq<S>)
      requires Good() && |p| == |target| == 8 && |r| <= 8
      ensures Fold(p, v + r) == target <==> Zeros(8 - |r|) + r == Add(Fold(p, v + Zeros(|r|)), target)
    {
      var c, n := Fold(p, v), |r|;
      FoldConcat(p, v, r);
      FoldConcat(p, v, Zeros(n));
      FoldSuffix(c, r);
      SolveFor(Fold(c, Zeros(n)), Zeros(8 - n) + r, target);
    }

    /** Up to eight coefficients are added to what zeros in their place would give. */
    lemma FoldSuffix(c: seq<S>, r: seq<S>)
      requires Good() && |c| == 8 && |r| <= 8
      ensures Fold(c, r) == Add(Fold(c, Zeros(|r|)), Zeros(8 - |r|) + r)
    {
      FoldLinear(c, Zeros(8), Zeros(|r|), r);
      AddZeros(c);
      AddZeros(r);
      FoldShort(r);
    }

    /** The correction is right, and it is the only one. */
    lemma CorrectionIsRight(p: seq<S>, v: seq<S>, target: seq<S>, r: seq<S>)
      requires Good() && |p| == |target| == |r| == 8
      ensures Fold(p, v + r) == target <==> r == Correction(p, v, target)
    {
      SuffixIsRight(p, v, target, r);
      assert Zeros(0) + r == r;
    }

    /** z + r is the target exactly if r is z plus the target. */
    lemma SolveFor(z: seq<S>, r: seq<S>, target: seq<S>)
      requires Good() && |z| == |r| == |target|
      ensures Add(z, r) == target <==> r == Add(z, target)
    {
      AddTwice(z, r);
      AddTwice(z, target);
    }

    lemma AddTwice(z: seq<S>, r: seq<S>)
      requires Good() && |z| == |r|
      ensures Add(z, Add(z, r)) == r
    {
      forall k | 0 <= k < |z| ensures add(z[k], add(z[k], r[k])) == r[k] {
        assert RegroupsAt(z[k], nil, z[k], r[k]);
        assert UnitAt(z[k]) && UnitAt(r[k]) && UnitAt(nil);
      }
    }
  }
}
