/** CashAddr text (src/cashaddr.cpp): encoding, decoding, and how far they undo each other. */
module CashAddrText {
  import opened CashAddr
  import opened CashAddrField
  import opened Wrappers

  // ---------- characters ----------

  const COLON: Byte := 58

  predicate IsLower(c: Byte) { 97 <= c <= 122 }

  predicate IsUpper(c: Byte) { 65 <= c <= 90 }

  predicate IsNumber(c: Byte) { 48 <= c <= 57 }

  predicate IsColon(c: Byte) { c == COLON }

  predicate Allowed(c: Byte) { IsLower(c) || IsUpper(c) || IsNumber(c) || IsColon(c) }

  /** A letter in lower case. */
  function LowerCase(c: Byte): Byte { c | 0x20 }

  /** A character with letters in lower case. */
  function Fold(c: Byte): Byte { if IsUpper(c) then LowerCase(c) else c }

  function Char0(x: Byte): Byte {
    if x == 0 then 113 else if x == 1 then 112 else if x == 2 then 122 else if x == 3 then 114 else
    if x == 4 then 121 else if x == 5 then 57 else if x == 6 then 120 else 56
  }

  function Char1(x: Byte): Byte {
    if x == 8 then 103 else if x == 9 then 102 else if x == 10 then 50 else if x == 11 then 116 else
    if x == 12 then 118 else if x == 13 then 100 else if x == 14 then 119 else 48
  }

  function Char2(x: Byte): Byte {
    if x == 16 then 115 else if x == 17 then 51 else if x == 18 then 106 else if x == 19 then 110 else
    if x == 20 then 53 else if x == 21 then 52 else if x == 22 then 107 else 104
  }

  function Char3(x: Byte): Byte {
    if x == 24 then 99 else if x == 25 then 101 else if x == 26 then 54 else if x == 27 then 109 else
    if x == 28 then 117 else if x == 29 then 97 else if x == 30 then 55 else 108
  }

  /** The character for a five-bit value: qpzry9x8 gf2tvdw0 s3jn54kh ce6mua7l. */
  function CharOf(x: Byte): Byte
  {
    if x < 8 then Char0(x) else if x < 16 then Char1(x) else if x < 24 then Char2(x) else Char3(x)
  }

  function Rev0(c: Byte): Option<Byte> {
    if c == 113 then Some(0) else if c == 112 then Some(1) else if c == 122 then Some(2)
    else if c == 114 then Some(3) else
    if c == 121 then Some(4) else if c == 57 then Some(5) else if c == 120 then Some(6)
    else if c == 56 then Some(7) else None
  }

  function Rev1(c: Byte): Option<Byte> {
    if c == 103 then Some(8) else if c == 102 then Some(9) else if c == 50 then Some(10)
    else if c == 116 then Some(11) else
    if c == 118 then Some(12) else if c == 100 then Some(13) else if c == 119 then Some(14)
    else if c == 48 then Some(15) else None
  }

  function Rev2(c: Byte): Option<Byte> {
    if c == 115 then Some(16) else if c == 51 then Some(17) else if c == 106 then Some(18)
    else if c == 110 then Some(19) else
    if c == 53 then Some(20) else if c == 52 then Some(21) else if c == 107 then Some(22)
    else if c == 104 then Some(23) else None
  }

  function Rev3(c: Byte): Option<Byte> {
    if c == 99 then Some(24) else if c == 101 then Some(25) else if c == 54 then Some(26)
    else if c == 109 then Some(27) else
    if c == 117 then Some(28) else if c == 97 then Some(29) else if c == 55 then Some(30)
    else if c == 108 then Some(31) else None
  }

  /** The value of a character in either case; none for the characters that are not used. */
  function RevOf(c: Byte): Option<Byte> {
    var d := Fold(c);
    if Rev0(d).Some? then Rev0(d) else if Rev1(d).Some? then Rev1(d) else if Rev2(d).Some? then Rev2(d) else Rev3(d)
  }

  lemma Chars0(x: Byte)
    requires 0 <= x < 8
    ensures RevOf(CharOf(x)) == Some(x) && (IsLower(CharOf(x)) || IsNumber(CharOf(x)))
  {
  }

  lemma Chars1(x: Byte)
    requires 8 <= x < 16
    ensures RevOf(CharOf(x)) == Some(x) && (IsLower(CharOf(x)) || IsNumber(CharOf(x)))
  {
  }

  lemma Chars2(x: Byte)
    requires 16 <= x < 24
    ensures RevOf(CharOf(x)) == Some(x) && (IsLower(CharOf(x)) || IsNumber(CharOf(x)))
  {
  }

  lemma Chars3(x: Byte)
    requires 24 <= x < 32
    ensures RevOf(CharOf(x)) == Some(x) && (IsLower(CharOf(x)) || IsNumber(CharOf(x)))
  {
  }

  lemma Revs0(c: Byte)
    requires Rev0(c).Some?
    ensures Rev0(c).value < 32 && CharOf(Rev0(c).value) == c
  {
  }

  lemma Revs1(c: Byte)
    requires Rev1(c).Some?
    ensures Rev1(c).value < 32 && CharOf(Rev1(c).value) == c
  {
  }

  lemma Revs2(c: Byte)
    requires Rev2(c).Some?
    ensures Rev2(c).value < 32 && CharOf(Rev2(c).value) == c
  {
  }

  lemma Revs3(c: Byte)
    requires Rev3(c).Some?
    ensures Rev3(c).value < 32 && CharOf(Rev3(c).value) == c
  {
  }

  lemma CharIs(x: Byte)
    requires x < 32
    ensures RevOf(CharOf(x)) == Some(x) && (IsLower(CharOf(x)) || IsNumber(CharOf(x)))
  {
    if x < 8 { Chars0(x); } else if x < 16 { Chars1(x); } else if x < 24 { Chars2(x); } else { Chars3(x); }
  }

  lemma RevIs(c: Byte)
    requires RevOf(c).Some?
    ensures RevOf(c).value < 32 && CharOf(RevOf(c).value) == Fold(c)
  {
    var d := Fold(c);
    if Rev0(d).Some? { Revs0(d); } else if Rev1(d).Some? { Revs1(d); } else if Rev2(d).Some? { Revs2(d); }
    else { Revs3(d); }
  }

  /** The alphabet is the digits and letters without 1, b, i and o, in either case. */
  lemma AlphabetIs(c: Byte)
    ensures RevOf(c).Some? <==>
              && (IsNumber(c) || IsLower(c) || IsUpper(c))
              && Fold(c) != 49 && Fold(c) != 98 && Fold(c) != 105 && Fold(c) != 111
  {
    Kinds(c);
  }

  /** The values are spelled qpzry9x8gf2tvdw0s3jn54khce6mua7l. */
  lemma SpelledInOrder()
    ensures CharOf(0) == 113 && CharOf(1) == 112 && CharOf(2) == 122 && CharOf(3) == 114
    ensures CharOf(4) == 121 && CharOf(5) == 57 && CharOf(6) == 120 && CharOf(7) == 56
    ensures CharOf(8) == 103 && CharOf(9) == 102 && CharOf(10) == 50 && CharOf(11) == 116
    ensures CharOf(12) == 118 && CharOf(13) == 100 && CharOf(14) == 119 && CharOf(15) == 48
    ensures CharOf(16) == 115 && CharOf(17) == 51 && CharOf(18) == 106 && CharOf(19) == 110
    ensures CharOf(20) == 53 && CharOf(21) == 52 && CharOf(22) == 107 && CharOf(23) == 104
    ensures CharOf(24) == 99 && CharOf(25) == 101 && CharOf(26) == 54 && CharOf(27) == 109
    ensures CharOf(28) == 117 && CharOf(29) == 97 && CharOf(30) == 55 && CharOf(31) == 108
  {
  }

  lemma Kinds(c: Byte)
    ensures !(IsLower(c) && IsUpper(c)) && !(IsLower(c) && IsNumber(c)) && !(IsUpper(c) && IsNumber(c))
    ensures IsColon(c) ==> !IsLower(c) && !IsUpper(c) && !IsNumber(c)
    ensures IsLower(c) ==> LowerCase(c) == c && Fold(c) == c
    ensures IsUpper(c) ==> IsLower(LowerCase(c)) && Fold(c) != c
  {
  }

  function Map(f: Byte -> Byte, s: seq<Byte>): (r: seq<Byte>)
    ensures |r| == |s| && forall k :: 0 <= k < |s| ==> r[k] == f(s[k])
  {
    seq(|s|, k requires 0 <= k < |s| => f(s[k]))
  }

  const CHAR_OF := (x: Byte) => CharOf(x)
  const LOWER_CASE := (c: Byte) => LowerCase(c)
  const FOLD := (c: Byte) => Fold(c)

  predicate AllLower(s: seq<Byte>) { forall k :: 0 <= k < |s| ==> IsLower(s[k]) }

  // ---------- encoding ----------

  /** What encoding means. */
  function Encoded(prefix: seq<Byte>, payload: seq<Byte>): seq<Byte> {
    prefix + [COLON] + Map(CHAR_OF, payload + Checksum(prefix, payload))
  }

  lemma MapNext(v: seq<Byte>, k: nat)
    requires k < |v|
    ensures Map(CHAR_OF, v[..k + 1]) == Map(CHAR_OF, v[..k]) + [CharOf(v[k])]
  {
  }

  method Encode(prefix: seq<Byte>, payload: seq<Byte>) returns (ret: seq<Byte>)
    requires FiveBit(payload)
    ensures ret == Encoded(prefix, payload)
  {
    var checksum := CreateChecksum(prefix, payload);
    var combined := payload + checksum;
    ret := prefix + [COLON];
    for k := 0 to |combined|
      invariant ret == prefix + [COLON] + Map(CHAR_OF, combined[..k])
    {
      MapNext(combined, k);
      ret := ret + [CharOf(combined[k])];
    }
    assert combined[..|combined|] == combined;
  }

  // ---------- the scan ----------

  /** The place of the first separator, or the end. */
  function ColonAt(s: seq<Byte>): (p: nat)
    ensures p <= |s| && (forall k :: 0 <= k < p ==> !IsColon(s[k])) && (p < |s| ==> IsColon(s[p]))
  {
    if s == [] || IsColon(s[0]) then 0 else 1 + ColonAt(s[1..])
  }

  ghost predicate Occurs(kind: Byte -> bool, s: seq<Byte>, n: nat)
    requires n <= |s|
  {
    exists k :: 0 <= k < n && kind(s[k])
  }

  const LOWER := (c: Byte) => IsLower(c)
  const UPPER := (c: Byte) => IsUpper(c)
  const NUMBER := (c: Byte) => IsNumber(c)

  /** Only letters, digits and at most one separator, which is not the first character and comes after letters only;
    * and not letters of both cases.
    */
  ghost predicate WellFormed(s: seq<Byte>) {
    && (forall k :: 0 <= k < |s| ==> Allowed(s[k])) && SeparatorOk(s, |s|)
    && !(Occurs(LOWER, s, |s|) && Occurs(UPPER, s, |s|))
  }

  ghost predicate SeparatorOk(s: seq<Byte>, n: nat)
    requires n <= |s|
  {
    forall k :: 0 <= k < n && IsColon(s[k]) ==> k > 0 && !Occurs(NUMBER, s, k) && k == ColonAt(s)
  }

  lemma OccursNext(kind: Byte -> bool, s: seq<Byte>, i: nat)
    requires i < |s|
    ensures Occurs(kind, s, i + 1) <==> Occurs(kind, s, i) || kind(s[i])
  {
  }

  /** Where the scan is: the flags, and the separator if it was passed. */
  ghost predicate Scanned(s: seq<Byte>, i: nat, lower: bool, upper: bool, number: bool, prefixSize: nat) {
    && i <= |s| && lower == Occurs(LOWER, s, i) && upper == Occurs(UPPER, s, i) && number == Occurs(NUMBER, s, i)
    && prefixSize == (if ColonAt(s) < i then ColonAt(s) else 0)
  }

  method Scan(str: seq<Byte>) returns (ok: bool, prefixSize: nat)
    ensures ok <==> WellFormed(str)
    ensures ok ==> prefixSize == if ColonAt(str) < |str| then ColonAt(str) else 0
  {
    var lower, upper, hasNumber := false, false, false;
    prefixSize := 0;
    for i := 0 to |str|
      invariant Scanned(str, i, lower, upper, hasNumber, prefixSize)
      invariant (forall k :: 0 <= k < i ==> Allowed(str[k])) && SeparatorOk(str, i)
    {
      var c := str[i];
      Kinds(c);
      OccursNext(LOWER, str, i);
      OccursNext(UPPER, str, i);
      OccursNext(NUMBER, str, i);
      ColonHere(str, i);
      if IsLower(c) {
        lower := true;
      } else if IsUpper(c) {
        upper := true;
      } else if IsNumber(c) {
        hasNumber := true;
      } else if IsColon(c) {
        if hasNumber || i == 0 || prefixSize != 0 {
          return false, 0;
        }
        prefixSize := i;
      } else {
        return false, 0;
      }
    }
    ok := !(upper && lower);
  }

  lemma ColonHere(s: seq<Byte>, i: nat)
    requires i < |s|
    ensures IsColon(s[i]) ==> ColonAt(s) <= i
    ensures !IsColon(s[i]) ==> ColonAt(s) != i
  {
  }

  // ---------- decoding ----------

  /** A prefix and a payload, both empty after any failure. Fewer than eight values after a checksum that verifies
    * leave the program with a range that ends before it begins, which means nothing.
    */
  datatype Outcome = Pair(prefix: seq<Byte>, payload: seq<Byte>) | OutOfRange

  function PrefixOf(s: seq<Byte>, default: seq<Byte>): seq<Byte> {
    if ColonAt(s) < |s| then Map(LOWER_CASE, s[..ColonAt(s)]) else default
  }

  function BodyOf(s: seq<Byte>): seq<Byte> {
    if ColonAt(s) < |s| then s[ColonAt(s) + 1..] else s
  }

  predicate Readable(body: seq<Byte>) { forall k :: 0 <= k < |body| ==> RevOf(body[k]).Some? }

  function ValuesOf(body: seq<Byte>): (r: seq<Byte>)
    requires Readable(body)
    ensures |r| == |body| && forall k :: 0 <= k < |body| ==> r[k] == RevOf(body[k]).value
  {
    seq(|body|, k requires 0 <= k < |body| => RevOf(body[k]).value)
  }

  /** What the program accepts. */
  ghost predicate Accepts(s: seq<Byte>, default: seq<Byte>) {
    WellFormed(s) && Readable(BodyOf(s)) && Verifies(PrefixOf(s, default), ValuesOf(BodyOf(s)))
  }

  /** What decoding means. */
  ghost function Decoded(s: seq<Byte>, default: seq<Byte>): Outcome {
    if !Accepts(s, default) then Pair([], [])
    else if |BodyOf(s)| < 8 then OutOfRange
    else Pair(PrefixOf(s, default), ValuesOf(BodyOf(s))[..|BodyOf(s)| - 8])
  }

  method ReadValues(body: seq<Byte>) returns (ok: bool, values: seq<Byte>)
    ensures ok <==> Readable(body)
    ensures ok ==> values == ValuesOf(body)
  {
    values := [];
    for i := 0 to |body|
      invariant |values| == i && forall k :: 0 <= k < i ==> RevOf(body[k]) == Some(values[k])
    {
      var c := body[i];
      if RevOf(c).None? {
        return false, values;
      }
      values := values + [RevOf(c).value];
    }
    ok := true;
  }

  method ReadPrefix(str: seq<Byte>, default: seq<Byte>, prefixSize: nat) returns (prefix: seq<Byte>, bodyAt: nat)
    requires prefixSize == if ColonAt(str) < |str| then ColonAt(str) else 0
    requires ColonAt(str) < |str| ==> ColonAt(str) > 0
    ensures prefix == PrefixOf(str, default) && bodyAt <= |str| && str[bodyAt..] == BodyOf(str)
  {
    if prefixSize == 0 {
      return default, 0;
    }
    prefix := [];
    for i := 0 to prefixSize
      invariant |prefix| == i && forall k :: 0 <= k < i ==> prefix[k] == LowerCase(str[k])
    {
      prefix := prefix + [LowerCase(str[i])];
    }
    bodyAt := prefixSize + 1;
  }

  method Decode(str: seq<Byte>, default: seq<Byte>) returns (r: Outcome)
    ensures r == Decoded(str, default)
  {
    var ok, prefixSize := Scan(str);
    if !ok {
      return Pair([], []);
    }
    if ColonAt(str) < |str| { ColonHereOk(str); }
    var prefix, bodyAt := ReadPrefix(str, default, prefixSize);
    var values;
    ok, values := ReadValues(str[bodyAt..]);
    if !ok {
      return Pair([], []);
    }
    ok := VerifyChecksum(prefix, values);
    if !ok {
      return Pair([], []);
    }
    r := if |values| < 8 then OutOfRange else Pair(prefix, values[..|values| - 8]);
  }

  lemma ColonHereOk(s: seq<Byte>)
    requires WellFormed(s) && ColonAt(s) < |s|
    ensures ColonAt(s) > 0 && !Occurs(NUMBER, s, ColonAt(s))
  {
  }

  // ---------- the two undo each other ----------

  lemma SpelledValues(v: seq<Byte>)
    requires FiveBit(v)
    ensures Readable(Map(CHAR_OF, v)) && ValuesOf(Map(CHAR_OF, v)) == v
    ensures forall k :: 0 <= k < |v| ==> IsLower(CharOf(v[k])) || IsNumber(CharOf(v[k]))
  {
    forall k | 0 <= k < |v|
      ensures RevOf(CharOf(v[k])) == Some(v[k]) && (IsLower(CharOf(v[k])) || IsNumber(CharOf(v[k])))
    {
      CharIs(v[k]);
    }
  }

  lemma ValuesSpelled(body: seq<Byte>)
    requires Readable(body)
    ensures FiveBit(ValuesOf(body)) && Map(CHAR_OF, ValuesOf(body)) == Map(FOLD, body)
  {
    forall k | 0 <= k < |body|
      ensures ValuesOf(body)[k] < 32 && CharOf(ValuesOf(body)[k]) == Fold(body[k])
    {
      RevIs(body[k]);
    }
  }

  lemma ColonIs(s: seq<Byte>, n: nat)
    requires n < |s| && IsColon(s[n]) && forall k :: 0 <= k < n ==> !IsColon(s[k])
    ensures ColonAt(s) == n
  {
    ColonHere(s, n);
  }

  /** A lower-case prefix, a separator, and lower-case letters or digits. */
  lemma PlainText(prefix: seq<Byte>, body: seq<Byte>)
    requires prefix != [] && AllLower(prefix) && forall k :: 0 <= k < |body| ==> IsLower(body[k]) || IsNumber(body[k])
    ensures var s := prefix + [COLON] + body;
            WellFormed(s) && ColonAt(s) == |prefix| && BodyOf(s) == body && s[..|prefix|] == prefix
  {
    var s, n := prefix + [COLON] + body, |prefix|;
    forall k | 0 <= k < |s|
      ensures Allowed(s[k]) && !IsUpper(s[k]) && (IsColon(s[k]) <==> k == n) && (k < n ==> !IsNumber(s[k]))
    {
      Kinds(s[k]);
      if k < n { assert s[k] == prefix[k]; } else if k > n { assert s[k] == body[k - n - 1]; }
    }
    ColonIs(s, n);
    assert s[n + 1..] == body;
  }

  lemma LowerStays(prefix: seq<Byte>)
    requires AllLower(prefix)
    ensures Map(LOWER_CASE, prefix) == prefix
  {
    forall k | 0 <= k < |prefix| ensures LowerCase(prefix[k]) == prefix[k] { Kinds(prefix[k]); }
  }

  lemma DecodesLower(prefix: seq<Byte>, payload: seq<Byte>, default: seq<Byte>)
    requires prefix != [] && AllLower(prefix) && FiveBit(payload)
    ensures Decoded(Encoded(prefix, payload), default) == Pair(prefix, payload)
  {
    var check := Checksum(prefix, payload);
    ChecksumIs(prefix, payload);
    FiveBitConcat(payload, check);
    SpelledValues(payload + check);
    PlainText(prefix, Map(CHAR_OF, payload + check));
    LowerStays(prefix);
    ChecksumVerifies(prefix, payload, check);
    assert (payload + check)[..|payload|] == payload;
  }

  /** The prefix of an accepted text that has one is letters only. */
  lemma PrefixLetters(s: seq<Byte>, k: nat)
    requires WellFormed(s) && k < ColonAt(s) < |s|
    ensures IsLower(LowerCase(s[k])) && LowerCase(s[k]) == Fold(s[k])
  {
    ColonHereOk(s);
    Kinds(s[k]);
    assert Allowed(s[k]) && !NUMBER(s[k]);
  }

  lemma DecodedIsLower(prefix: seq<Byte>, payload: seq<Byte>, default: seq<Byte>)
    requires prefix != [] && Decoded(Encoded(prefix, payload), default) == Pair(prefix, payload)
    ensures AllLower(prefix)
  {
    var s := Encoded(prefix, payload);
    assert IsColon(s[|prefix|]);
    ColonHere(s, |prefix|);
    forall k | 0 <= k < |prefix| ensures IsLower(prefix[k]) { PrefixLetters(s, k); }
  }

  /** Decoding an encoded address gives it back exactly if the prefix is in lower case letters. */
  lemma DecodeUndoesEncode(prefix: seq<Byte>, payload: seq<Byte>, default: seq<Byte>)
    requires FiveBit(payload)
    ensures prefix != [] ==> (Decoded(Encoded(prefix, payload), default) == Pair(prefix, payload) <==> AllLower(prefix))
    ensures prefix == [] ==> Decoded(Encoded(prefix, payload), default) == Pair([], [])
  {
    if prefix == [] {
      assert IsColon(Encoded(prefix, payload)[0]);
    } else if AllLower(prefix) {
      DecodesLower(prefix, payload, default);
    } else if Decoded(Encoded(prefix, payload), default) == Pair(prefix, payload) {
      DecodedIsLower(prefix, payload, default);
    }
  }

  /** An accepted text is, in lower case and with the default prefix put in front where there is none, the encoding
    * of the result.
    */
  lemma EncodeUndoesDecode(s: seq<Byte>, default: seq<Byte>)
    requires Accepts(s, default) && |BodyOf(s)| >= 8
    ensures var r := Decoded(s, default);
            && FiveBit(r.payload)
            && Encoded(r.prefix, r.payload) ==
                 if ColonAt(s) < |s| then Map(FOLD, s) else default + [COLON] + Map(FOLD, s)
  {
    var prefix, body := PrefixOf(s, default), BodyOf(s);
    SpelledAgain(prefix, body);
    if ColonAt(s) < |s| { PartsFolded(s, default); }
  }

  /** A body whose checksum verifies is spelled again, in lower case. */
  lemma SpelledAgain(prefix: seq<Byte>, body: seq<Byte>)
    requires Readable(body) && |body| >= 8 && Verifies(prefix, ValuesOf(body))
    ensures var payload := ValuesOf(body)[..|body| - 8];
            FiveBit(payload) && Encoded(prefix, payload) == prefix + [COLON] + Map(FOLD, body)
  {
    var v := ValuesOf(body);
    var payload, check := v[..|v| - 8], v[|v| - 8..];
    ValuesSpelled(body);
    assert payload + check == v;
    FiveBitConcat(payload, check);
    ChecksumVerifies(prefix, payload, check);
  }

  lemma PartsFolded(s: seq<Byte>, default: seq<Byte>)
    requires WellFormed(s) && ColonAt(s) < |s|
    ensures PrefixOf(s, default) + [COLON] + Map(FOLD, BodyOf(s)) == Map(FOLD, s)
  {
    PrefixFolded(s);
    MapParts(s[..ColonAt(s)], COLON, s[ColonAt(s) + 1..]);
    SplitAtColon(s);
  }

  lemma SplitAtColon(s: seq<Byte>)
    requires ColonAt(s) < |s|
    ensures s == s[..ColonAt(s)] + [COLON] + s[ColonAt(s) + 1..]
  {
    SplitAt(s, ColonAt(s));
  }

  lemma SplitAt(s: seq<Byte>, p: nat)
    requires p < |s|
    ensures s == s[..p] + [s[p]] + s[p + 1..]
  {
  }

  lemma PrefixFolded(s: seq<Byte>)
    requires WellFormed(s) && ColonAt(s) < |s|
    ensures Map(LOWER_CASE, s[..ColonAt(s)]) == Map(FOLD, s[..ColonAt(s)])
  {
    forall k | 0 <= k < ColonAt(s) ensures LowerCase(s[k]) == Fold(s[k]) { PrefixLetters(s, k); }
  }

  lemma MapParts(a: seq<Byte>, c: Byte, b: seq<Byte>)
    requires Fold(c) == c
    ensures Map(FOLD, a + [c] + b) == Map(FOLD, a) + [c] + Map(FOLD, b)
  {
  }

  /** Changing an accepted body inside eight consecutive places is noticed, whatever its length. */
  lemma BurstRejected(prefix: seq<Byte>, before: seq<Byte>, x: seq<Byte>, y: seq<Byte>, after: seq<Byte>)
    requires FiveBit(before) && FiveBit(x) && FiveBit(y) && FiveBit(after) && |x| == |y| <= 8 && x != y
    requires Verifies(prefix, before + x + after)
    ensures !Verifies(prefix, before + y + after)
  {
    var e := ExpandPrefix(prefix);
    FiveBitConcat(e, before);
    BurstChangesPolyMod(e + before, x, y, after);
    assert e + (before + x + after) == e + before + x + after;
    assert e + (before + y + after) == e + before + y + after;
  }

  // ---------- too short ----------

  const SHORT: seq<Byte> := [99, 58, 113, 118, 100, 121, 50, 122, 51] // c:qvdy2z3

  /** The remainder after three more values. */
  lemma ThreeMore(v: seq<Byte>, k: nat, c0: bv64, c1: bv64, c2: bv64, c3: bv64)
    requires k + 3 <= |v| && PackedFold(v[..k]) == c0
    requires PackedStep(c0, v[k]) == c1 && PackedStep(c1, v[k + 1]) == c2 && PackedStep(c2, v[k + 2]) == c3
    ensures PackedFold(v[..k + 3]) == c3
  {
    FoldOne(v, k);
    FoldOne(v, k + 1);
    FoldOne(v, k + 2);
  }

  lemma ShortSteps0()
    ensures PackedStep(0x1, 3) == 0x23
    ensures PackedStep(0x23, 0) == 0x460
    ensures PackedStep(0x460, 0) == 0x8c00
  {
  }

  lemma ShortPart0(v: seq<Byte>)
    requires |v| == 9 && v[0] == 3 && v[1] == 0 && v[2] == 0
    ensures PackedFold(v[..3]) == 0x8c00
  {
    ShortSteps0();
    assert v[..0] == [];
    ThreeMore(v, 0, 0x1, 0x23, 0x460, 0x8c00);
  }

  lemma ShortSteps1()
    ensures PackedStep(0x8c00, 12) == 0x11800c
    ensures PackedStep(0x11800c, 13) == 0x230018d
    ensures PackedStep(0x230018d, 4) == 0x460031a4
  {
  }

  lemma ShortPart1(v: seq<Byte>)
    requires |v| == 9 && v[3] == 12 && v[4] == 13 && v[5] == 4 && PackedFold(v[..3]) == 0x8c00
    ensures PackedFold(v[..6]) == 0x460031a4
  {
    ShortSteps1();
    ThreeMore(v, 3, 0x8c00, 0x11800c, 0x230018d, 0x460031a4);
  }

  lemma ShortSteps2()
    ensures PackedStep(0x460031a4, 10) == 0x8c006348a
    ensures PackedStep(0x8c006348a, 2) == 0x80f27a1f23
    ensures PackedStep(0x80f27a1f23, 17) == 0x1
  {
  }

  lemma ShortPart2(v: seq<Byte>)
    requires |v| == 9 && v[6] == 10 && v[7] == 2 && v[8] == 17 && PackedFold(v[..6]) == 0x460031a4
    ensures PackedFold(v[..9]) == 0x1
  {
    ShortSteps2();
    ThreeMore(v, 6, 0x460031a4, 0x8c006348a, 0x80f27a1f23, 0x1);
  }

  lemma ShortFold(v: seq<Byte>)
    requires |v| == 9 && v[0] == 3 && v[1] == 0 && v[2] == 0 && v[3] == 12 && v[4] == 13 && v[5] == 4
    requires v[6] == 10 && v[7] == 2 && v[8] == 17
    ensures PackedFold(v) == 1
  {
    ShortPart0(v);
    ShortPart1(v);
    ShortPart2(v);
    WholeFold(v);
  }

  lemma WholeFold(v: seq<Byte>)
    ensures PackedFold(v[..|v|]) == PackedFold(v)
  {
    assert v[..|v|] == v;
  }

  lemma ShortValues()
    ensures Readable([113, 118, 100, 121, 50, 122, 51])
            && ValuesOf([113, 118, 100, 121, 50, 122, 51]) == [0, 12, 13, 4, 10, 2, 17]
  {
    var v: seq<Byte> := [0, 12, 13, 4, 10, 2, 17];
    SpelledValues(v);
    assert Map(CHAR_OF, v) == [113, 118, 100, 121, 50, 122, 51];
  }

  lemma ShortVerifies()
    ensures Verifies([99], [0, 12, 13, 4, 10, 2, 17])
  {
    assert 99 as Byte & 0x1f == 3;
    ShortFold(ExpandPrefix([99]) + [0, 12, 13, 4, 10, 2, 17]);
  }

  /** A well-formed text can verify with fewer than eight values: then the end of the payload lies before its
    * beginning.
    */
  lemma ShortIsOutOfRange(default: seq<Byte>)
    ensures Decoded(SHORT, default) == OutOfRange
  {
    var body: seq<Byte> := [113, 118, 100, 121, 50, 122, 51];
    ShortValues();
    PlainText([99], body);
    assert SHORT == [99] + [COLON] + body;
    LowerStays([99]);
    ShortVerifies();
  }

  /** It happens exactly to well-formed texts with fewer than eight characters after a prefix whose checksum, with
    * zeros in their place, is small enough; and then to one choice of characters, in either case.
    */
  lemma OutOfRangeIff(s: seq<Byte>, default: seq<Byte>)
    ensures var body := BodyOf(s);
            Decoded(s, default) == OutOfRange <==>
              && |body| < 8 && WellFormed(s)
              && var c := ShortMod(PrefixOf(s, default), |body|);
                 Drop(c, |body|) == 0 && Map(FOLD, body) == Map(CHAR_OF, LastSymbols(c, |body|))
  {
    var body := BodyOf(s);
    if |body| < 8 {
      var c := ShortMod(PrefixOf(s, default), |body|);
      var r := LastSymbols(c, |body|);
      LastSymbolsAre(c, |body|);
      SpellsIff(body, r);
      if Readable(body) {
        ValuesSpelled(body);
        ShortVerifiesIff(PrefixOf(s, default), ValuesOf(body));
      }
    }
  }

  /** A body reads as the given values exactly if it is, in lower case, their spelling. */
  lemma SpellsIff(body: seq<Byte>, v: seq<Byte>)
    requires FiveBit(v) && |body| == |v|
    ensures Readable(body) && ValuesOf(body) == v <==> Map(FOLD, body) == Map(CHAR_OF, v)
  {
    if Readable(body) && ValuesOf(body) == v { ValuesSpelled(body); }
    if Map(FOLD, body) == Map(CHAR_OF, v) {
      forall k | 0 <= k < |v| ensures RevOf(body[k]) == Some(v[k]) {
        assert Map(FOLD, body)[k] == Map(CHAR_OF, v)[k];
        FoldReads(body[k], v[k]);
      }
    }
  }

  lemma FoldReads(c: Byte, x: Byte)
    requires x < 32 && Fold(c) == CharOf(x)
    ensures RevOf(c) == Some(x)
  {
    CharIs(x);
    Kinds(CharOf(x));
  }
}
