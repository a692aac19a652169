/** What the distance of the CashAddr code means for addresses as they are written (src/cashaddr.cpp:46-51, 155-290). */
module CashAddrErrors {
  import opened CashAddr
  import opened CashAddrText
  import opened CashAddrDistance

  lemma LettersDiffer(c: Byte, d: Byte)
    requires IsLower(c) && IsLower(d) && c % 32 == d % 32
    ensures c == d
  {
  }

  /** One to four changed letters of the prefix and symbols of the payload: an address that verifies no longer does. */
  lemma FourErrorsRejected(prefix: seq<Byte>, payload: seq<Byte>, prefix': seq<Byte>, payload': seq<Byte>)
    requires AllLower(prefix) && AllLower(prefix') && |prefix| == |prefix'|
    requires FiveBit(payload) && FiveBit(payload') && |payload| == |payload'|
    requires var u, v := prefix + [COLON] + payload, prefix' + [COLON] + payload';
             u != v && FewAndNear(Changed(u, v))
    requires Verifies(prefix, payload)
    ensures !Verifies(prefix', payload')
  {
    var u, v := prefix + [COLON] + payload, prefix' + [COLON] + payload';
    var x, y := ExpandPrefix(prefix) + payload, ExpandPrefix(prefix') + payload';
    forall k | 0 <= k < |u| ensures u[k] == v[k] <==> x[k] == y[k] {
      if k < |prefix| && x[k] == y[k] { LettersDiffer(prefix[k], prefix'[k]); }
    }
    WordsDiffer(u, v, x, y);
    FiveBitConcat(ExpandPrefix(prefix), payload);
    FiveBitConcat(ExpandPrefix(prefix'), payload');
    FourErrorsChangePolyMod(x, y);
  }

  lemma WordsDiffer(u: seq<Byte>, v: seq<Byte>, x: seq<Byte>, y: seq<Byte>)
    requires |u| == |v| == |x| == |y| && u != v && forall k :: 0 <= k < |u| ==> (u[k] == v[k] <==> x[k] == y[k])
    ensures x != y && Changed(x, y) == Changed(u, v)
  {
    var k :| 0 <= k < |u| && u[k] != v[k];
    assert x[k] != y[k];
  }

  // ---------- texts ----------

  /** A body is read the same exactly if it is the same but for the case of letters. */
  lemma ReadAlike(c: Byte, d: Byte)
    requires RevOf(c).Some? && RevOf(d).Some?
    ensures RevOf(c) == RevOf(d) <==> Fold(c) == Fold(d)
  {
    RevIs(c);
    RevIs(d);
    CharIs(RevOf(c).value);
    CharIs(RevOf(d).value);
  }

  lemma PrefixAlike(s: seq<Byte>, s': seq<Byte>, k: nat)
    requires WellFormed(s) && WellFormed(s') && k < ColonAt(s) < |s| && k < ColonAt(s') < |s'|
    ensures LowerCase(s[k]) % 32 == LowerCase(s'[k]) % 32 <==> Fold(s[k]) == Fold(s'[k])
  {
    PrefixLetters(s, k);
    PrefixLetters(s', k);
    if LowerCase(s[k]) % 32 == LowerCase(s'[k]) % 32 { LettersDiffer(LowerCase(s[k]), LowerCase(s'[k])); }
  }

  /** The symbols that the checksum is taken of. */
  ghost function Word(s: seq<Byte>, default: seq<Byte>): seq<Byte>
    requires Readable(BodyOf(s))
  {
    ExpandPrefix(PrefixOf(s, default)) + ValuesOf(BodyOf(s))
  }

  lemma WordIsFiveBit(s: seq<Byte>, default: seq<Byte>)
    requires Readable(BodyOf(s))
    ensures FiveBit(Word(s, default))
  {
    var body := BodyOf(s);
    forall k | 0 <= k < |body| ensures ValuesOf(body)[k] < 32 { RevIs(body[k]); }
    FiveBitConcat(ExpandPrefix(PrefixOf(s, default)), ValuesOf(body));
  }

  /** Where the text begins in the word: after the default prefix if it has none of its own. */
  function Offset(s: seq<Byte>, default: seq<Byte>): nat { if ColonAt(s) < |s| then 0 else |default| + 1 }

  /** Whether a character belongs to the body. */
  predicate InBody(s: seq<Byte>, k: nat) { ColonAt(s) == |s| || k > ColonAt(s) }

  /** The symbol of one character of the text. */
  function Symbol(s: seq<Byte>, k: nat): Byte
    requires k < |s|
  {
    if InBody(s, k) then (if RevOf(s[k]).Some? then RevOf(s[k]).value else 0)
    else if k == ColonAt(s) then 0 else LowerCase(s[k]) % 32
  }

  lemma WordOfBoth(s: seq<Byte>, default: seq<Byte>, k: nat)
    requires ColonAt(s) < |s| && Readable(BodyOf(s)) && k < |s|
    ensures |Word(s, default)| == |s| && Word(s, default)[k] == Symbol(s, k)
    ensures InBody(s, k) ==> RevOf(s[k]).Some?
  {
    var p := ColonAt(s);
    var e, v := ExpandPrefix(PrefixOf(s, default)), ValuesOf(BodyOf(s));
    if k > p {
      assert (e + v)[k] == v[k - p - 1] && BodyOf(s)[k - p - 1] == s[k];
    } else {
      assert (e + v)[k] == e[k];
    }
  }

  lemma SymbolsAlike(s: seq<Byte>, s': seq<Byte>, k: nat)
    requires WellFormed(s) && WellFormed(s') && |s| == |s'| && ColonAt(s) == ColonAt(s') && k < |s|
    requires InBody(s, k) ==> RevOf(s[k]).Some? && RevOf(s'[k]).Some?
    ensures Symbol(s, k) == Symbol(s', k) <==> Fold(s[k]) == Fold(s'[k])
  {
    if InBody(s, k) { ReadAlike(s[k], s'[k]); } else if k < ColonAt(s) { PrefixAlike(s, s', k); }
  }

  lemma BothAt(s: seq<Byte>, s': seq<Byte>, default: seq<Byte>, k: nat)
    requires WellFormed(s) && WellFormed(s') && Readable(BodyOf(s)) && Readable(BodyOf(s'))
    requires |s| == |s'| && ColonAt(s) == ColonAt(s') < |s| && k < |s|
    ensures |Word(s, default)| == |Word(s', default)| == |s|
    ensures Word(s, default)[k] == Word(s', default)[k] <==> Fold(s[k]) == Fold(s'[k])
  {
    WordOfBoth(s, default, k);
    WordOfBoth(s', default, k);
    SymbolsAlike(s, s', k);
  }

  lemma {:induction false} FewShifted(a: set<nat>, b: set<nat>, d: nat)
    requires forall k :: k in b ==> k >= d && k - d in a
    ensures |b| <= |a|
    decreases |b|
  {
    if b != {} {
      var x :| x in b;
      FewShifted(a - {x - d}, b - {x}, d);
    }
  }

  lemma NearShifted(a: set<nat>, b: set<nat>, d: nat)
    requires FewAndNear(a) && forall k :: k in b ==> k >= d && k - d in a
    ensures FewAndNear(b)
  {
    FewShifted(a, b, d);
    forall i, k | i in b && k in b ensures i < k + 1025 { assert i - d in a && k - d in a; }
  }

  /** One to four wrong characters, not counting case, within a window of 1025: an accepted text becomes one that is
    * not, as long as the separator stays where it is.
    */
  lemma FourErrorsInText(s: seq<Byte>, s': seq<Byte>, default: seq<Byte>)
    requires Accepts(s, default) && |s| == |s'| && ColonAt(s) == ColonAt(s')
    requires Map(FOLD, s) != Map(FOLD, s') && FewAndNear(Changed(Map(FOLD, s), Map(FOLD, s')))
    ensures !Accepts(s', default)
  {
    if Accepts(s', default) {
      WordsFewAndNear(s, s', default);
      WordIsFiveBit(s, default);
      WordIsFiveBit(s', default);
      FourErrorsChangePolyMod(Word(s, default), Word(s', default));
    }
  }

  lemma WordsFewAndNear(s: seq<Byte>, s': seq<Byte>, default: seq<Byte>)
    requires WellFormed(s) && WellFormed(s') && Readable(BodyOf(s)) && Readable(BodyOf(s'))
    requires |s| == |s'| && ColonAt(s) == ColonAt(s')
    requires Map(FOLD, s) != Map(FOLD, s') && FewAndNear(Changed(Map(FOLD, s), Map(FOLD, s')))
    ensures var u, v := Word(s, default), Word(s', default);
            |u| == |v| && u != v && FewAndNear(Changed(u, v))
  {
    WordsShift(s, s', default);
    ShiftedWords(Map(FOLD, s), Map(FOLD, s'), Word(s, default), Word(s', default), Offset(s, default));
  }

  /** Two words differ where two texts differ, some places further on. */
  ghost predicate Shifts(f: seq<Byte>, f': seq<Byte>, u: seq<Byte>, v: seq<Byte>, d: nat) {
    && |f| == |f'| && |u| == |v| == |f| + d && (forall k :: 0 <= k < d ==> u[k] == v[k])
    && forall k :: 0 <= k < |f| ==> (u[d + k] == v[d + k] <==> f[k] == f'[k])
  }

  lemma WordsShift(s: seq<Byte>, s': seq<Byte>, default: seq<Byte>)
    requires WellFormed(s) && WellFormed(s') && Readable(BodyOf(s)) && Readable(BodyOf(s'))
    requires |s| == |s'| > 0 && ColonAt(s) == ColonAt(s')
    ensures Shifts(Map(FOLD, s), Map(FOLD, s'), Word(s, default), Word(s', default), Offset(s, default))
  {
    if ColonAt(s) == |s| { BodiesShift(s, s', default); } else { BothShift(s, s', default); }
  }

  lemma BodiesShift(s: seq<Byte>, s': seq<Byte>, default: seq<Byte>)
    requires Readable(s) && Readable(s') && |s| == |s'|
    ensures var e := ExpandPrefix(default);
            Shifts(Map(FOLD, s), Map(FOLD, s'), e + ValuesOf(s), e + ValuesOf(s'), |default| + 1)
  {
    forall k | 0 <= k < |s| ensures ValuesOf(s)[k] == ValuesOf(s')[k] <==> Map(FOLD, s)[k] == Map(FOLD, s')[k] {
      ReadAlike(s[k], s'[k]);
    }
    PrefixedShift(Map(FOLD, s), Map(FOLD, s'), ExpandPrefix(default), ValuesOf(s), ValuesOf(s'));
  }

  lemma PrefixedShift(f: seq<Byte>, f': seq<Byte>, e: seq<Byte>, x: seq<Byte>, y: seq<Byte>)
    requires |f| == |f'| == |x| == |y| && forall k :: 0 <= k < |f| ==> (x[k] == y[k] <==> f[k] == f'[k])
    ensures Shifts(f, f', e + x, e + y, |e|)
  {
    forall k | 0 <= k < |f| ensures (e + x)[|e| + k] == (e + y)[|e| + k] <==> f[k] == f'[k] {
      assert (e + x)[|e| + k] == x[k] && (e + y)[|e| + k] == y[k];
    }
  }

  lemma BothShift(s: seq<Byte>, s': seq<Byte>, default: seq<Byte>)
    requires WellFormed(s) && WellFormed(s') && Readable(BodyOf(s)) && Readable(BodyOf(s'))
    requires |s| == |s'| > ColonAt(s) == ColonAt(s')
    ensures Shifts(Map(FOLD, s), Map(FOLD, s'), Word(s, default), Word(s', default), 0)
  {
    var u, v := Word(s, default), Word(s', default);
    BothAt(s, s', default, 0);
    forall k | 0 <= k < |s| ensures u[k] == v[k] <==> Fold(s[k]) == Fold(s'[k]) { BothAt(s, s', default, k); }
  }

  lemma ShiftedWords(f: seq<Byte>, f': seq<Byte>, u: seq<Byte>, v: seq<Byte>, d: nat)
    requires Shifts(f, f', u, v, d) && f != f' && FewAndNear(Changed(f, f'))
    ensures u != v && FewAndNear(Changed(u, v))
  {
    var k :| 0 <= k < |f| && f[k] != f'[k];
    assert u[d + k] != v[d + k];
    forall j | j in Changed(u, v) ensures j >= d && j - d in Changed(f, f') {
      assert j >= d ==> u[d + (j - d)] != v[d + (j - d)];
    }
    NearShifted(Changed(f, f'), Changed(u, v), d);
  }
}
