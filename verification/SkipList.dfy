/** The heights that skip links lead to (src/blockindex.cpp:8-26), and why following them takes few steps. */
module SkipList {
  import opened Numerals

  /** Bitwise and. */
  function And(a: nat, b: nat): (r: nat)
    ensures r <= a && r <= b
  {
    if a == 0 || b == 0 then 0 else (if a % 2 == 1 && b % 2 == 1 then 1 else 0) + 2 * And(a / 2, b / 2)
  }

  /** Turns the lowest one bit into a zero. */
  function InvertLowestOne(n: nat): (r: nat)
    ensures n > 0 ==> r < n
    ensures n == 0 ==> r == 0
  {
    if n == 0 then 0 else And(n, n - 1)
  }

  /** The height that the skip link of a block leads to. */
  function GetSkipHeight(height: nat): (r: nat)
    ensures height > 0 ==> r < height
  {
    if height < 2 then 0
    else if height % 2 == 1 then InvertLowestOne(InvertLowestOne(height - 1)) + 1
    else InvertLowestOne(height)
  }

  // ---------- bits ----------

  /** The number of one bits. */
  function Pop(n: nat): nat { if n == 0 then 0 else n % 2 + Pop(n / 2) }

  lemma {:induction false} AndSame(n: nat)
    ensures And(n, n) == n
  {
    if n > 0 { AndSame(n / 2); }
  }

  lemma PopDoubled(n: nat)
    ensures Pop(2 * n) == Pop(n) && Pop(2 * n + 1) == Pop(n) + 1
  {
    if n > 0 {
      assert (2 * n) / 2 == n && (2 * n) % 2 == 0;
    }
    assert (2 * n + 1) / 2 == n && (2 * n + 1) % 2 == 1;
  }

  lemma OddLowest(q: nat)
    ensures InvertLowestOne(2 * q + 1) == 2 * q
  {
    AndSame(q);
    assert (2 * q + 1) / 2 == q && (2 * q) / 2 == q;
  }

  lemma EvenLowest(n: nat)
    ensures InvertLowestOne(2 * n) == 2 * InvertLowestOne(n)
  {
    if n > 0 {
      assert 2 * n - 1 == 2 * (n - 1) + 1;
      assert (2 * n) / 2 == n && (2 * n - 1) / 2 == n - 1 && (2 * n) % 2 == 0;
    }
  }

  lemma Doubled(x: nat, p: nat)
    ensures x * (2 * p) == 2 * (x * p)
  {
  }

  /** Every number but zero is an odd one times a power of two. */
  lemma {:induction false} OddPart(n: nat) returns (q: nat, e: nat)
    requires n > 0
    ensures n == (2 * q + 1) * Pow(2, e)
  {
    if n % 2 == 1 {
      q, e := n / 2, 0;
    } else {
      q, e := OddPart(n / 2);
      Doubled(2 * q + 1, Pow(2, e));
      e := e + 1;
    }
  }

  /** It is the lowest one bit that goes, and no other. */
  lemma LowestOneIs(q: nat, e: nat)
    ensures InvertLowestOne((2 * q + 1) * Pow(2, e)) == (2 * q) * Pow(2, e)
  {
    BitsAreGood();
    BITS.LowestIs(q, e);
  }

  // ---------- the same without looking at bits ----------

  /** A function that clears the lowest one bit, and one that counts one bits, known by what they do to 2n and to
    * 2n + 1.
    */
  datatype Bits = Bits(low: nat -> nat, pop: nat -> nat) {
    ghost predicate At(n: nat) {
      low(2 * n) == 2 * low(n) && low(2 * n + 1) == 2 * n && pop(2 * n) == pop(n) && pop(2 * n + 1) == pop(n) + 1
    }

    ghost predicate Good() { low(0) == 0 && pop(0) == 0 && forall n :: At(n) }

    lemma {:induction false} LowestIs(q: nat, e: nat)
      requires Good()
      ensures low((2 * q + 1) * Pow(2, e)) == (2 * q) * Pow(2, e)
      ensures pop((2 * q + 1) * Pow(2, e)) == pop(q) + 1 && pop((2 * q) * Pow(2, e)) == pop(q)
      decreases e
    {
      if e == 0 {
        assert At(q);
      } else {
        var p := Pow(2, e - 1);
        LowestIs(q, e - 1);
        Doubled(2 * q + 1, p);
        Doubled(2 * q, p);
        assert At((2 * q + 1) * p) && At((2 * q) * p);
      }
    }

    lemma LowestGoes(n: nat)
      requires Good() && n > 0
      ensures low(n) < n && pop(low(n)) == pop(n) - 1
    {
      var q, e := OddPart(n);
      LowestIs(q, e);
      PowPositive(2, e);
      assert (2 * q + 1) * Pow(2, e) == (2 * q) * Pow(2, e) + Pow(2, e);
    }

    lemma TwoGo(k: nat)
      requires Good() && k > 0
      ensures low(low(k)) <= low(k) < k && pop(low(low(k))) < pop(k)
    {
      LowestGoes(k);
      if low(k) > 0 { LowestGoes(low(k)); }
    }

    /** A number between two multiples of 2^a has the one bits of the multiple below it, at most a more, and at least
      * one more unless it is that multiple.
      */
    lemma {:induction false} PopHigh(n: nat, a: nat, c: nat)
      requires Good() && c * Pow(2, a) <= n < (c + 1) * Pow(2, a)
      ensures pop(c) <= pop(n) <= pop(c) + a && (n > c * Pow(2, a) ==> pop(n) > pop(c))
      decreases a
    {
      if a > 0 {
        var p, m := Pow(2, a - 1), n / 2;
        Doubled(c, p);
        Doubled(c + 1, p);
        PopHigh(m, a - 1, c);
        assert At(m) && (n == 2 * m || n == 2 * m + 1);
      }
    }

    // ---------- skipping ----------

    function Skip(h: nat): nat {
      if h < 2 then 0 else if h % 2 == 1 then low(low(h - 1)) + 1 else low(h)
    }

    lemma SkipEven(k: nat)
      requires Good() && k > 0
      ensures Skip(2 * k) == 2 * low(k)
    {
      assert At(k);
    }

    lemma SkipOdd(k: nat)
      requires Good() && k > 0
      ensures Skip(2 * k + 1) == 2 * low(low(k)) + 1
    {
      assert At(k) && At(low(k));
    }

    /** A skip takes off at least one bit. */
    lemma SkipDrops(h: nat)
      requires Good() && h > 0
      ensures Skip(h) < h && pop(Skip(h)) < pop(h)
    {
      var k := h / 2;
      assert At(k);
      if h == 1 {
        assert At(0);
      } else if h % 2 == 0 {
        SkipEven(k);
        LowestGoes(k);
        assert At(low(k));
      } else {
        SkipOdd(k);
        TwoGo(k);
        assert At(low(low(k)));
      }
    }

    lemma PairAtOdd(j: nat)
      requires Good() && j > 0
      ensures pop(low(low(2 * j))) + 1 < pop(2 * j + 1)
    {
      TwoGo(j);
      assert At(j) && At(low(j)) && At(low(low(j)));
    }

    lemma PairAtTwo(i: nat)
      requires Good()
      ensures i > 0 ==> pop(low(low(4 * i + 1))) + 1 < pop(4 * i + 2)
    {
      if i > 0 { LowestGoes(i); }
      assert At(2 * i) && At(i) && At(low(i)) && At(2 * low(i)) && At(2 * i + 1);
    }

    lemma NoPairAtFour(i: nat)
      requires Good()
      ensures low(low(4 * i + 3)) >= low(4 * i + 4)
    {
      LowestGoes(i + 1);
      assert At(2 * i + 1) && At(i) && At(2 * i + 2) && At(i + 1);
    }

    /** If the skip of the block before an even height is better by more than two, it takes off a bit. */
    lemma PairDrops(k: nat)
      requires Good() && k > 1 && 2 * low(low(k - 1)) + 1 < 2 * low(k) - 2
      ensures pop(low(low(k - 1))) + 1 < pop(k)
    {
      SmallLow();
      var j := k / 2;
      if k == 2 * j + 1 {
        PairAtOdd(j);
      } else {
        var i := j / 2;
        if j == 2 * i { NoPairAtFour(i - 1); } else { PairAtTwo(i); }
      }
    }

    lemma SmallLow()
      requires Good()
      ensures low(1) == 0 && low(2) == 0
    {
      assert At(0) && At(1);
    }

    // ---------- searching ----------

    /** Where the search for an ancestor goes next. */
    function NextHeight(h: nat, t: nat): nat
      requires h > t
    {
      if Skip(h) == t || (Skip(h) > t && !(Skip(h - 1) < Skip(h) - 2 && Skip(h - 1) >= t)) then Skip(h) else h - 1
    }

    /** If the better skip is the one of the block before, that one is taken next. */
    lemma PairNext(k: nat, t: nat)
      requires Good() && k > 0 && 2 * k > t && t < Skip(2 * k) && NextHeight(2 * k, t) != Skip(2 * k)
      ensures var p := Skip(2 * k - 1);
              && t <= p < 2 * k - 1 && pop(p) < pop(2 * k)
              && NextHeight(2 * k, t) == 2 * k - 1 && NextHeight(2 * k - 1, t) == p
    {
      SkipEven(k);
      SmallLow();
      SkipOdd(k - 1);
      SkipEven(k - 1);
      TwoGo(k - 1);
      PairDrops(k);
      assert At(k) && At(low(low(k - 1)));
    }

    /** The number of steps from one height down to another. */
    function Hops(h: nat, t: nat): nat
      requires h >= t
      decreases h
    {
      if h == t || !(t <= NextHeight(h, t) < h) then 0 else 1 + Hops(NextHeight(h, t), t)
    }

    lemma GoesDown(h: nat, t: nat)
      requires Good() && h > t
      ensures t <= NextHeight(h, t) < h && Hops(h, t) == 1 + Hops(NextHeight(h, t), t)
    {
      SkipDrops(h);
    }

    /** The bound for two heights that agree above bit a. */
    lemma {:induction false} HopsBound(h: nat, t: nat, a: nat, c: nat)
      requires Good() && c * Pow(2, a) <= t <= h < (c + 1) * Pow(2, a)
      ensures Hops(h, t) <= 2 * (pop(h) - pop(c)) + a * (a - 1)
      decreases h, 1
    {
      PopHigh(h, a, c);
      Square(a);
      if h > t {
        GoesDown(h, t);
        SkipDrops(h);
        if NextHeight(h, t) == Skip(h) {
          HopsBound(Skip(h), t, a, c);
        } else if h % 2 == 1 {
          assert At(h / 2);
          HopsBound(h - 1, t, a, c);
        } else if Skip(h) > t {
          PairNext(h / 2, t);
          GoesDown(h - 1, t);
          HopsBound(Skip(h - 1), t, a, c);
        } else {
          NewRound(h, t, a, c);
        }
      }
    }

    /** The skip would go too far: from here on the heights agree also above the lowest one bit of h. */
    lemma {:induction false} NewRound(h: nat, t: nat, a: nat, c: nat)
      requires Good() && c * Pow(2, a) <= t < h < (c + 1) * Pow(2, a) && h % 2 == 0 && Skip(h) < t
      ensures Hops(h, t) <= 2 * (pop(h) - pop(c)) + a * (a - 1)
      decreases h, 0
    {
      var q, e := OddPart(h);
      LowestIs(q, e);
      LowBitBelow(h, q, e, t, a, c);
      GoesDown(h, t);
      Next(2 * q, Pow(2, e));
      HopsBound(h - 1, t, e, 2 * q);
      PopHigh(h - 1, e, 2 * q);
      PopHigh(h, a, c);
      Rounds(e, a);
    }
  }

  lemma Next(x: nat, p: nat)
    ensures (x + 1) * p == x * p + p
  {
  }

  lemma Square(a: nat)
    ensures a * (a - 1) >= 0
  {
    if a > 0 { MulMono(1, a, 0, a - 1); }
  }

  lemma Rounds(e: nat, a: nat)
    requires e < a
    ensures 2 * e + e * (e - 1) <= a * (a - 1)
  {
    MulMono(e, a - 1, e + 1, a);
  }

  lemma LowBitBelow(h: nat, q: nat, e: nat, t: nat, a: nat, c: nat)
    requires h == (2 * q + 1) * Pow(2, e) && c * Pow(2, a) <= t < h < (c + 1) * Pow(2, a)
    ensures e < a
  {
    if e >= a {
      var p := Pow(2, a);
      PowAdd(2, e - a, a);
      var k := Multiple(2 * q + 1, Pow(2, e - a), p);
      NotBetween(c, k, p);
    }
  }

  lemma Multiple(x: nat, y: nat, p: nat) returns (k: nat)
    ensures x * (y * p) == k * p
  {
    MulAssoc(x, y, p);
    k := x * y;
  }

  lemma NotBetween(c: nat, k: nat, p: nat)
    ensures !(c * p < k * p < (c + 1) * p)
  {
    if k <= c { MulMono(k, c, p, p); } else { MulMono(c + 1, k, p, p); }
  }

  const BITS := Bits((n: nat) => InvertLowestOne(n), (n: nat) => Pop(n))

  lemma BitsAreGood()
    ensures BITS.Good()
  {
    forall n ensures BITS.At(n) {
      EvenLowest(n);
      OddLowest(n);
      PopDoubled(n);
    }
  }

  lemma SkipIs(h: nat)
    ensures BITS.Skip(h) == GetSkipHeight(h)
  {
  }

  /** The number of steps that a search takes from one height down to another. */
  ghost function Hops(h: nat, t: nat): nat
    requires h >= t
  {
    BITS.Hops(h, t)
  }

  /** One step of the search. */
  lemma OneHop(h: nat, t: nat, n: nat)
    requires h > t
    requires var skip, skipPrev := GetSkipHeight(h), GetSkipHeight(h - 1);
             n == if skip == t || (skip > t && !(skipPrev < skip - 2 && skipPrev >= t)) then skip else h - 1
    ensures t <= n < h && Hops(h, t) == 1 + Hops(n, t)
  {
    NextIs(h, t);
    BitsAreGood();
    BITS.GoesDown(h, t);
  }

  lemma NextIs(h: nat, t: nat)
    requires h > t
    ensures var skip, skipPrev := GetSkipHeight(h), GetSkipHeight(h - 1);
            BITS.NextHeight(h, t) ==
              if skip == t || (skip > t && !(skipPrev < skip - 2 && skipPrev >= t)) then skip else h - 1
  {
    SkipIs(h);
    SkipIs(h - 1);
  }

  /** A number of steps that is at most a squared plus a for every height below 2^a. */
  ghost predicate FewFor(h: nat, hops: nat) { forall a: nat :: h < Pow(2, a) ==> hops <= a * (a + 1) }

  /** Going back from any height takes few steps. */
  lemma FewHops(h: nat, t: nat)
    requires t <= h
    ensures FewFor(h, Hops(h, t))
  {
    forall a: nat | h < Pow(2, a) ensures Hops(h, t) <= a * (a + 1) {
      BitsAreGood();
      BITS.HopsBound(h, t, a, 0);
      BITS.PopHigh(h, a, 0);
      assert 2 * a + a * (a - 1) == a * (a + 1);
    }
  }

  lemma NoHops(h: nat)
    ensures FewFor(h, 0)
  {
    FewHops(h, h);
  }
}
