/** Base 58 text (src/base58.cpp): digit buffers of a size computed beforehand, updated in place. */
module Base58 {
  import opened Wrappers
  import opened Numerals

  type Byte = x: nat | x < 256

  predicate Zeros(ds: seq<nat>) { forall k :: 0 <= k < |ds| ==> ds[k] == 0 }

  lemma {:induction false} ZerosValue(b: nat, z: seq<nat>, ds: seq<nat>)
    requires Zeros(z)
    ensures Value(b, z + ds) == Value(b, ds)
  {
    if z == [] {
      assert z + ds == ds;
    } else {
      ZerosValue(b, z[1..], ds);
      assert z + ds == [0] + (z[1..] + ds);
      ValueCons(b, 0, z[1..] + ds);
    }
  }

  lemma AfterZeros(b: nat, s: seq<nat>, k: nat)
    requires k <= |s| && Zeros(s[..k])
    ensures Value(b, s) == Value(b, s[k..])
  {
    assert s == s[..k] + s[k..];
    ZerosValue(b, s[..k], s[k..]);
  }

  lemma ShorterZeros(s: seq<nat>, j: nat, k: nat)
    requires j <= k <= |s| && Zeros(s[..k])
    ensures Zeros(s[..j])
  {
    assert s[..k][..j] == s[..j];
  }

  // ---------- one step of the conversion ----------

  lemma StepValue(b: nat, mult: nat, d: nat, c: nat, d': nat, c': nat, p: nat, t: nat, t': nat, add: nat)
    requires d' + c' * b == c + mult * d && t' + c * p == mult * t + add
    ensures d' * p + t' + c' * (b * p) == mult * (d * p + t) + add
  {
    assert (d' + c' * b) * p == d' * p + c' * (b * p);
    assert (c + mult * d) * p == c * p + mult * (d * p);
  }

  lemma SuffixValue(b: nat, s: seq<nat>, k: nat)
    requires k < |s|
    ensures Value(b, s[k..]) == s[k] * Pow(b, |s| - k - 1) + Value(b, s[k + 1..])
  {
    assert s[k..] == [s[k]] + s[k + 1..];
    ValueCons(b, s[k], s[k + 1..]);
  }

  /** The new digit and the new carry. */
  method Divide(carry: nat, b: nat) returns (digit: nat, rest: nat)
    requires b > 1
    ensures digit < b && digit + rest * b == carry && (rest == 0 ==> digit == carry)
  {
    digit, rest := carry % b, carry / b;
  }

  /** The last digits are done, the others are as they were. */
  ghost predicate Progress(b: nat, mult: nat, add: nat, was: seq<nat>, s: seq<nat>, used: nat, carry: nat) {
    && used <= |s| == |was| && AllBelow(b, s) && s[..|s| - used] == was[..|s| - used]
    && Tally(Value(b, s[|s| - used..]), carry, Pow(b, used)) == mult * Value(b, was[|s| - used..]) + add
  }

  /** What has been written and what is still to carry. */
  function Tally(value: nat, carry: nat, power: nat): nat { value + carry * power }

  lemma ProgressNext(b: nat, mult: nat, add: nat, was: seq<nat>, s: seq<nat>, used: nat, carry: nat, digit: nat,
                     rest: nat)
    requires b > 1 && Progress(b, mult, add, was, s, used, carry) && used < |s|
    requires digit < b && digit + rest * b == carry + mult * s[|s| - 1 - used]
    ensures s[|s| - 1 - used] == was[|s| - 1 - used]
    ensures Progress(b, mult, add, was, s[|s| - 1 - used := digit], used + 1, rest)
  {
    var p := |s| - 1 - used;
    var s', tail := s[p := digit], s[p + 1..];
    assert s[p] == s[..|s| - used][p] == was[..|s| - used][p] == was[p];
    assert s'[p..] == [digit] + tail;
    ValueCons(b, digit, tail);
    SuffixValue(b, was, p);
    StepValue(b, mult, was[p], carry, digit, rest, Pow(b, used), Value(b, was[p + 1..]), Value(b, tail), add);
    assert s'[..p] == s[..|s| - used][..p] == was[..|s| - used][..p] == was[..p];
  }

  lemma EndsEarly(b: nat, mult: nat, add: nat, was: seq<nat>, s: seq<nat>, used: nat, length: nat)
    requires Progress(b, mult, add, was, s, used, 0) && length <= used && Zeros(was[..|s| - length])
    ensures Multiplied(b, mult, add, was, s, 0) && Zeros(s[..|s| - used])
  {
    ShorterZeros(was, |s| - used, |s| - length);
    EndsWithZeros(b, mult, add, was, s, |s| - used, used);
  }

  lemma EndsWithZeros(b: nat, mult: nat, add: nat, was: seq<nat>, s: seq<nat>, k: nat, used: nat)
    requires k <= |s| == |was| && s[..k] == was[..k] && Zeros(was[..k])
    requires Tally(Value(b, s[k..]), 0, Pow(b, used)) == mult * Value(b, was[k..]) + add
    ensures Multiplied(b, mult, add, was, s, 0)
  {
    AfterZeros(b, s, k);
    AfterZeros(b, was, k);
  }

  lemma EndsFull(b: nat, mult: nat, add: nat, was: seq<nat>, s: seq<nat>, carry: nat)
    requires Progress(b, mult, add, was, s, |s|, carry)
    ensures Multiplied(b, mult, add, was, s, carry)
  {
    assert s[0..] == s && was[0..] == was;
  }

  /** The new number, and what did not fit. */
  ghost predicate Multiplied(b: nat, mult: nat, add: nat, was: seq<nat>, s: seq<nat>, carry: nat) {
    Tally(Value(b, s), carry, Pow(b, |s|)) == mult * Value(b, was) + add
  }

  method NextDigit(a: array<nat>, b: nat, mult: nat, ghost add: nat, ghost was: seq<nat>, used: nat, carry: nat,
                   ghost length: nat)
    returns (rest: nat)
    requires b > 1 && used < a.Length == |was| && length <= |was| && Zeros(was[..|was| - length])
    requires Progress(b, mult, add, was, a[..], used, carry) && (carry != 0 || used < length)
    modifies a
    ensures Progress(b, mult, add, was, a[..], used + 1, rest)
    ensures used >= length && rest == 0 ==> a[a.Length - 1 - used] != 0
  {
    ghost var s := a[..];
    var p := a.Length - 1 - used;
    var digit;
    digit, rest := Divide(carry + mult * a[p], b);
    ProgressNext(b, mult, add, was, s, used, carry, digit, rest);
    assert used >= length ==> was[..|was| - length][p] == 0;
    a[p] := digit;
    assert a[..] == s[p := digit];
  }

  /** Multiplies the number in the buffer and adds to it, from the last digit on and no further than needed. */
  method MulAdd(a: array<nat>, b: nat, mult: nat, add: nat, length: nat) returns (carry: nat, used: nat)
    requires b > 1 && length <= a.Length && AllBelow(b, a[..]) && Zeros(a[..a.Length - length])
    modifies a
    ensures AllBelow(b, a[..])
    ensures Multiplied(b, mult, add, old(a[..]), a[..], carry)
    ensures used <= a.Length && (carry == 0 ==> used >= length && Zeros(a[..a.Length - used]))
    ensures carry == 0 && used > length ==> a[a.Length - used] != 0
  {
    ghost var was := a[..];
    carry, used := add, 0;
    while (carry != 0 || used < length) && used < a.Length
      invariant Progress(b, mult, add, was, a[..], used, carry)
      invariant used > length && carry == 0 ==> a[a.Length - used] != 0
    {
      carry := NextDigit(a, b, mult, add, was, used, carry, length);
      used := used + 1;
    }
    if carry == 0 && used >= length {
      EndsEarly(b, mult, add, was, a[..], used, length);
    } else {
      EndsFull(b, mult, add, was, a[..], carry);
    }
  }

  // ---------- the buffers are large enough ----------

  /** 138/100 is more than 11/8, and 256^8 is less than 58^11. */
  lemma EncodeFits(n: nat)
    ensures Pow(256, n) <= Pow(58, n * 138 / 100 + 1)
  {
    PowersOf256And58();
    PowCompare(256, 8, 58, 11, n, n * 138 / 100 + 1);
  }

  lemma PowersOf256And58()
    ensures Pow(256, 8) <= Pow(58, 11)
  {
    assert Pow(256, 8) == 18446744073709551616;
    assert Pow(58, 11) == 24986644000165537792;
  }

  /** 733/1000 is more than 52/71, and 58^71 is less than 256^52. */
  lemma DecodeFits(n: nat)
    ensures Pow(58, n) <= Pow(256, n * 733 / 1000 + 1)
  {
    PowersOf58And256();
    PowCompare(58, 71, 256, 52, n, n * 733 / 1000 + 1);
  }

  lemma PowersOf58And256()
    ensures Pow(58, 71) <= Pow(256, 52)
  {
    var x, y := 430804206899405824, 0x100000000000000000000000000;
    assert Pow(58, 10) == x && Pow(256, 13) == y;
    PowMul(58, 10, 7);
    PowMul(256, 13, 4);
    SeventhPower(x);
    FourthPower(y);
    var x2, y2 := 185592264682226060569122324245118976, 0x10000000000000000000000000000000000000000000000000000;
    assert x * x == x2 && y * y == y2;
    assert 58 * (x2 * x2 * x2 * x) <= y2 * y2;
    assert Pow(58, 71) == 58 * Pow(58, 70);
  }

  lemma SeventhPower(x: nat)
    ensures Pow(x, 7) == (x * x) * (x * x) * (x * x) * x
  {
    PowAdd(x, 2, 5);
    PowAdd(x, 2, 3);
    PowAdd(x, 2, 1);
    assert Pow(x, 1) == x * Pow(x, 0);
    assert Pow(x, 2) == x * Pow(x, 1);
  }

  lemma FourthPower(x: nat)
    ensures Pow(x, 4) == (x * x) * (x * x)
  {
    PowAdd(x, 2, 2);
    assert Pow(x, 1) == x * Pow(x, 0);
    assert Pow(x, 2) == x * Pow(x, 1);
  }

  // ---------- the alphabet ----------

  const ONE: Byte := 49

  /** All alphanumeric characters but zero, capital i, capital o and small l, in the order of their codes. */
  function CharOf(d: nat): Byte
    requires d < 58
  {
    if d < 9 then 49 + d else if d < 17 then 56 + d else if d < 22 then 57 + d
    else if d < 33 then 58 + d else if d < 44 then 64 + d else 65 + d
  }

  function MapBase58(c: Byte): int {
    if 49 <= c <= 57 then c - 49 else if 65 <= c <= 72 then c - 56 else if 74 <= c <= 78 then c - 57
    else if 80 <= c <= 90 then c - 58 else if 97 <= c <= 107 then c - 64 else if 109 <= c <= 122 then c - 65 else -1
  }

  lemma AlphabetInverse(d: nat)
    requires d < 58
    ensures MapBase58(CharOf(d)) == d && !IsSpace(CharOf(d)) && CharOf(d) != 0 && (CharOf(d) == ONE <==> d == 0)
  {
  }

  lemma AlphabetOnto(c: Byte)
    ensures -1 <= MapBase58(c) < 58 && (MapBase58(c) >= 0 ==> CharOf(MapBase58(c)) == c)
  {
  }

  /** The alphabet is the digits and letters without 0, O, I and l, in the order of their codes. */
  lemma AlphabetIs(c: Byte, d: nat, e: nat)
    requires d < e < 58
    ensures CharOf(d) < CharOf(e)
    ensures MapBase58(c) >= 0 <==>
              (48 <= c <= 57 || 65 <= c <= 90 || 97 <= c <= 122) && c != 48 && c != 79 && c != 73 && c != 108
  {
  }

  predicate IsSpace(c: Byte) { c == 32 || 9 <= c <= 13 }

  function Text(ds: seq<nat>): (r: seq<Byte>)
    requires AllBelow(58, ds)
    ensures |r| == |ds| && forall k :: 0 <= k < |ds| ==> r[k] == CharOf(ds[k])
  {
    if ds == [] then [] else Text(ds[..|ds| - 1]) + [CharOf(ds[|ds| - 1])]
  }

  predicate AllValid(t: seq<Byte>) { forall k :: 0 <= k < |t| ==> MapBase58(t[k]) >= 0 }

  function Nums(t: seq<Byte>): (r: seq<nat>)
    requires AllValid(t)
    ensures |r| == |t| && AllBelow(58, r) && forall k :: 0 <= k < |t| ==> r[k] == MapBase58(t[k])
  {
    if t == [] then [] else AlphabetOnto(t[|t| - 1]); Nums(t[..|t| - 1]) + [MapBase58(t[|t| - 1])]
  }

  // ---------- encoding ----------

  function Repeat(c: Byte, n: nat): (r: seq<Byte>)
    ensures |r| == n && forall k :: 0 <= k < n ==> r[k] == c
  {
    if n == 0 then [] else Repeat(c, n - 1) + [c]
  }

  function LeadingZeros(x: seq<Byte>): (z: nat)
    ensures z <= |x| && (forall k :: 0 <= k < z ==> x[k] == 0) && (z < |x| ==> x[z] != 0)
  {
    if x != [] && x[0] == 0 then 1 + LeadingZeros(x[1..]) else 0
  }

  lemma LeadingZerosAre(x: seq<Byte>, z: nat)
    requires z <= |x| && (forall k :: 0 <= k < z ==> x[k] == 0) && (z < |x| ==> x[z] != 0)
    ensures LeadingZeros(x) == z
  {
  }

  /** What encoding means: a one for every leading zero, and the number in base 58. */
  function Encoded(x: seq<Byte>): seq<Byte> {
    var z := LeadingZeros(x);
    DigitsValue(58, Value(256, x[z..]));
    Repeat(ONE, z) + Text(Digits(58, Value(256, x[z..])))
  }

  /** The digits after the leading zeros of a buffer are the digits of its number. */
  lemma BufferDigits(b: nat, s: seq<nat>, k: nat)
    requires b > 1 && AllBelow(b, s) && k <= |s| && Zeros(s[..k]) && (k < |s| ==> s[k] != 0)
    ensures s[k..] == Digits(b, Value(b, s))
  {
    AfterZeros(b, s, k);
    ValueDigits(b, s[k..]);
  }

  lemma {:induction false} ZeroValue(b: nat, s: seq<nat>)
    requires Zeros(s)
    ensures Value(b, s) == 0
  {
    ZerosValue(b, s, []);
    assert s + [] == s;
  }

  /** Nothing is carried out of a buffer that is large enough. */
  lemma NoCarry(b: nat, mult: nat, add: nat, was: seq<nat>, s: seq<nat>, carry: nat)
    requires Multiplied(b, mult, add, was, s, carry) && mult * Value(b, was) + add < Pow(b, |s|)
    ensures carry == 0
  {
    if carry > 0 { MulMono(1, carry, Pow(b, |s|), Pow(b, |s|)); }
  }

  lemma PrefixBound(b: nat, x: seq<nat>, k: nat, top: nat)
    requires b > 1 && AllBelow(b, x) && k < |x| && Pow(b, |x|) <= top
    ensures Value(b, x[..k + 1]) == b * Value(b, x[..k]) + x[k] < top
  {
    assert x[..k + 1] == x[..k] + [x[k]];
    ValueSnoc(b, x[..k], x[k]);
    ValueBound(b, x[..k + 1]);
    PowMonoExp(b, k + 1, |x|);
  }

  method CountZeros(input: seq<Byte>) returns (zeroes: nat)
    ensures zeroes == LeadingZeros(input)
  {
    zeroes := 0;
    while zeroes < |input| && input[zeroes] == 0
      invariant zeroes <= |input| && forall k :: 0 <= k < zeroes ==> input[k] == 0
    {
      zeroes := zeroes + 1;
    }
    LeadingZerosAre(input, zeroes);
  }

  method SkipZeros(a: array<nat>, from: nat) returns (it: nat)
    requires from <= a.Length && Zeros(a[..from])
    ensures it <= a.Length && Zeros(a[..it]) && (it < a.Length ==> a[it] != 0)
  {
    it := from;
    while it < a.Length && a[it] == 0
      invariant from <= it <= a.Length && Zeros(a[..it])
    {
      it := it + 1;
    }
  }

  method Spell(ds: seq<nat>, prefix: seq<Byte>) returns (str: seq<Byte>)
    requires AllBelow(58, ds)
    ensures str == prefix + Text(ds)
  {
    str := prefix;
    for k := 0 to |ds|
      invariant str == prefix + Text(ds[..k])
    {
      assert ds[..k + 1][..k] == ds[..k];
      str := str + [CharOf(ds[k])];
    }
    assert ds[..|ds|] == ds;
  }

  method EncodeBase58(input: seq<Byte>) returns (str: seq<Byte>)
    ensures str == Encoded(input)
  {
    var zeroes := CountZeros(input);
    var rest := input[zeroes..];
    var b58 := new nat[|rest| * 138 / 100 + 1](_ => 0);
    var length := Convert58(rest, b58);
    var it := SkipZeros(b58, b58.Length - length);
    BufferDigits(58, b58[..], it);
    str := Spell(b58[it..], Repeat(ONE, zeroes));
  }

  /** The bytes, as a number, into the base 58 buffer: no carry is left over. */
  method Convert58(rest: seq<Byte>, b58: array<nat>) returns (length: nat)
    requires b58.Length == |rest| * 138 / 100 + 1 && Zeros(b58[..])
    modifies b58
    ensures length <= b58.Length && AllBelow(58, b58[..]) && Zeros(b58[..b58.Length - length])
    ensures Value(58, b58[..]) == Value(256, rest)
  {
    length := 0;
    ZeroValue(58, b58[..]);
    EncodeFits(|rest|);
    for k := 0 to |rest|
      invariant length <= b58.Length && AllBelow(58, b58[..]) && Zeros(b58[..b58.Length - length])
      invariant Value(58, b58[..]) == Value(256, rest[..k])
    {
      ghost var was := b58[..];
      var carry;
      carry, length := MulAdd(b58, 58, 256, rest[k], length);
      PrefixBound(256, rest, k, Pow(58, b58.Length));
      NoCarry(58, 256, rest[k], was, b58[..], carry);
      assert carry == 0;
    }
    assert rest[..|rest|] == rest;
  }

  // ---------- decoding ----------

  /** The length of the longest prefix that passes the test. */
  function Run(t: seq<Byte>, ok: Byte -> bool): (n: nat)
    ensures n <= |t| && (forall k :: 0 <= k < n ==> ok(t[k])) && (n < |t| ==> !ok(t[n]))
  {
    if t != [] && ok(t[0]) then 1 + Run(t[1..], ok) else 0
  }

  const SPACE := (c: Byte) => IsSpace(c)
  const IS_ONE := (c: Byte) => c == ONE
  const NOT_SPACE := (c: Byte) => !IsSpace(c)

  lemma RunIs(t: seq<Byte>, ok: Byte -> bool, n: nat)
    requires n <= |t| && (forall k :: 0 <= k < n ==> ok(t[k]))
    ensures Run(t, ok) >= n && (n == |t| || !ok(t[n]) ==> Run(t, ok) == n)
  {
  }

  /** A text in parts: spaces, ones, characters, spaces, and whatever comes then. */
  datatype Parts = Parts(ones: nat, chars: seq<Byte>, rest: seq<Byte>)

  function PartsOf(t: seq<Byte>): Parts {
    var t1 := t[Run(t, SPACE)..];
    AfterOnes(Run(t1, IS_ONE), t1[Run(t1, IS_ONE)..])
  }

  function AfterOnes(ones: nat, t: seq<Byte>): Parts {
    var n := Run(t, NOT_SPACE);
    Parts(ones, t[..n], t[n..][Run(t[n..], SPACE)..])
  }

  function NumberOf(chars: seq<Byte>): nat
    requires AllValid(chars)
  {
    Value(58, Nums(chars))
  }

  /** What decoding means. */
  function Decoded(t: seq<Byte>, max: int): Option<seq<Byte>> {
    if 0 in t || (PartsOf(t).ones > 0 && PartsOf(t).ones > max) then None else Outcome(PartsOf(t), max)
  }

  function Outcome(p: Parts, max: int): Option<seq<Byte>> {
    if p.rest != [] || Fails(p.chars, p.ones, max) then None else Some(Repeat(0, p.ones) + Bytes(NumberOf(p.chars)))
  }

  /** A wrong character, or a result that is too long. */
  predicate Fails(chars: seq<Byte>, ones: nat, max: int) {
    !AllValid(chars) || (chars != [] && ones + |Digits(256, NumberOf(chars))| > max)
  }

  function Bytes(v: nat): (r: seq<Byte>)
    ensures r == Digits(256, v)
  {
    DigitsValue(256, v);
    Digits(256, v)
  }

  method SkipWhile(t: seq<Byte>, ok: Byte -> bool) returns (rest: seq<Byte>)
    ensures rest == t[Run(t, ok)..]
  {
    var n := 0;
    while n < |t| && ok(t[n])
      invariant n <= |t| && forall k :: 0 <= k < n ==> ok(t[k])
    {
      n := n + 1;
    }
    RunIs(t, ok, n);
    rest := t[n..];
  }

  /** The number in the buffer has exactly the digits from the given place on. */
  ghost predicate Holds(b: nat, s: seq<nat>, length: nat, v: nat) {
    && b > 1 && length <= |s| && AllBelow(b, s) && Zeros(s[..|s| - length]) && (length > 0 ==> s[|s| - length] != 0)
    && Value(b, s) == v
  }

  lemma HoldsDigits(b: nat, s: seq<nat>, length: nat, v: nat)
    requires Holds(b, s, length, v)
    ensures s[|s| - length..] == Digits(b, v) && |Digits(b, v)| == length
  {
    BufferDigits(b, s, |s| - length);
  }

  /** A number that grew without needing another digit still begins with a nonzero one. */
  lemma KeepsTop(b: nat, was: seq<nat>, s: seq<nat>, length: nat, v: nat)
    requires Holds(b, was, length, v) && |s| == |was| && length > 0 && AllBelow(b, s) && Zeros(s[..|s| - length])
             && Value(b, s) >= v
    ensures s[|s| - length] != 0
  {
    var k := |s| - length;
    AfterZeros(b, was, k);
    LeadingDigit(b, was[k..]);
    if s[k] == 0 {
      assert s[..k + 1] == s[..k] + [s[k]];
      AfterZeros(b, s, k + 1);
      ValueBound(b, s[k + 1..]);
    }
  }

  /** One more character into the base 256 buffer: no carry is left over. */
  method AddChar(b256: array<nat>, digit: nat, length: nat, ghost v: nat) returns (used: nat)
    requires Holds(256, b256[..], length, v) && digit < 58 && 58 * v + digit < Pow(256, b256.Length)
    modifies b256
    ensures Holds(256, b256[..], used, 58 * v + digit)
  {
    ghost var was := b256[..];
    var carry;
    carry, used := MulAdd(b256, 256, 58, digit, length);
    NoCarry(256, 58, digit, was, b256[..], carry);
    HoldsMore(was, b256[..], length, used, v, digit);
  }

  lemma HoldsMore(was: seq<nat>, s: seq<nat>, length: nat, used: nat, v: nat, digit: nat)
    requires Holds(256, was, length, v) && Multiplied(256, 58, digit, was, s, 0) && AllBelow(256, s)
    requires length <= used <= |s| == |was| && Zeros(s[..|s| - used]) && (used > length ==> s[|s| - used] != 0)
    ensures Holds(256, s, used, 58 * v + digit)
  {
    if used == length && length > 0 { KeepsTop(256, was, s, length, v); }
  }

  lemma NumberSnoc(chars: seq<Byte>, c: Byte)
    requires AllValid(chars) && MapBase58(c) >= 0
    ensures AllValid(chars + [c]) && NumberOf(chars + [c]) == 58 * NumberOf(chars) + MapBase58(c)
  {
    assert (chars + [c])[..|chars|] == chars;
    ValueSnoc(58, Nums(chars), MapBase58(c));
  }

  lemma CharsFit(chars: seq<Byte>, n: nat)
    requires AllValid(chars) && |chars| <= n
    ensures NumberOf(chars) < Pow(256, n * 733 / 1000 + 1)
  {
    ValueBound(58, Nums(chars));
    PowMonoExp(58, |chars|, n);
    DecodeFits(n);
  }

  lemma FailsEarly(part: seq<Byte>, all: seq<Byte>, ones: nat, max: int)
    requires part <= all && Fails(part, ones, max)
    ensures Fails(all, ones, max)
  {
    assert all[..|part|] == part;
    if AllValid(all) {
      assert AllValid(part) by {
        forall k | 0 <= k < |part| ensures MapBase58(part[k]) >= 0 { assert all[k] == part[k]; }
      }
      assert Nums(all)[..|part|] == Nums(part);
      PrefixValue(58, Nums(all), |part|);
      DigitsMono(256, NumberOf(part), NumberOf(all));
    }
  }

  /** The characters so far are in the buffer. */
  ghost predicate ReadSoFar(part: seq<Byte>, ones: nat, max: int, s: seq<nat>, length: nat) {
    !Fails(part, ones, max) && Holds(256, s, length, NumberOf(part))
  }

  method ReadChar(c: Byte, ghost part: seq<Byte>, ones: nat, max: int, b256: array<nat>, length: nat)
    returns (ok: bool, used: nat)
    requires ReadSoFar(part, ones, max, b256[..], length)
    requires MapBase58(c) >= 0 ==> 58 * NumberOf(part) + MapBase58(c) < Pow(256, b256.Length)
    modifies b256
    ensures if ok then ReadSoFar(part + [c], ones, max, b256[..], used) else Fails(part + [c], ones, max)
  {
    var digit := MapBase58(c);
    if digit == -1 {
      assert (part + [c])[|part|] == c;
      return false, length;
    }
    AlphabetOnto(c);
    NumberSnoc(part, c);
    used := AddChar(b256, digit, length, NumberOf(part));
    HoldsDigits(256, b256[..], used, NumberOf(part + [c]));
    ok := used + ones <= max;
  }

  lemma RoomForChar(part: seq<Byte>, c: Byte, n: nat)
    requires AllValid(part) && |part| < n
    ensures MapBase58(c) >= 0 ==> 58 * NumberOf(part) + MapBase58(c) < Pow(256, n * 733 / 1000 + 1)
  {
    if MapBase58(c) >= 0 {
      NumberSnoc(part, c);
      CharsFit(part + [c], n);
    }
  }

  method ReadNext(t: seq<Byte>, end: nat, ones: nat, max: int, b256: array<nat>, length: nat)
    returns (ok: bool, used: nat)
    requires b256.Length == |t| * 733 / 1000 + 1 && end < |t| && ReadSoFar(t[..end], ones, max, b256[..], length)
    modifies b256
    ensures if ok then ReadSoFar(t[..end + 1], ones, max, b256[..], used) else Fails(t[..end + 1], ones, max)
  {
    RoomForChar(t[..end], t[end], |t|);
    ok, used := ReadChar(t[end], t[..end], ones, max, b256, length);
    assert t[..end + 1] == t[..end] + [t[end]];
  }

  method ReadChars(t: seq<Byte>, ones: nat, max: int, b256: array<nat>) returns (ok: bool, end: nat, length: nat)
    requires b256.Length == |t| * 733 / 1000 + 1 && Zeros(b256[..])
    modifies b256
    ensures ok ==> end == Run(t, NOT_SPACE) && ReadSoFar(t[..end], ones, max, b256[..], length)
    ensures !ok ==> Fails(t[..Run(t, NOT_SPACE)], ones, max)
  {
    ghost var stop := Run(t, NOT_SPACE);
    NothingRead(ones, max, b256[..]);
    length, end := 0, 0;
    while end < |t| && !IsSpace(t[end])
      invariant end <= stop && ReadSoFar(t[..end], ones, max, b256[..], length)
    {
      StillInRun(t, end);
      ok, length := ReadNext(t, end, ones, max, b256, length);
      end := end + 1;
      if !ok {
        FailsInRun(t, end, ones, max);
        return;
      }
    }
    ok := true;
  }

  lemma StillInRun(t: seq<Byte>, end: nat)
    requires end <= Run(t, NOT_SPACE) && end < |t| && !IsSpace(t[end])
    ensures end < Run(t, NOT_SPACE)
  {
  }

  lemma FailsInRun(t: seq<Byte>, end: nat, ones: nat, max: int)
    requires end <= Run(t, NOT_SPACE) && Fails(t[..end], ones, max)
    ensures Fails(t[..Run(t, NOT_SPACE)], ones, max)
  {
    FailsEarly(t[..end], t[..Run(t, NOT_SPACE)], ones, max);
  }

  lemma NothingRead(ones: nat, max: int, s: seq<nat>)
    requires Zeros(s)
    ensures ReadSoFar([], ones, max, s, 0)
  {
    ZeroValue(256, s);
  }

  /** Counts the ones, giving up when there are too many. */
  method CountOnes(t: seq<Byte>, max: int) returns (ok: bool, zeroes: nat)
    ensures ok <==> !(Run(t, IS_ONE) > 0 && Run(t, IS_ONE) > max)
    ensures ok ==> zeroes == Run(t, IS_ONE)
  {
    zeroes := 0;
    while zeroes < |t| && t[zeroes] == ONE
      invariant zeroes <= |t| && (zeroes > 0 ==> zeroes <= max) && forall k :: 0 <= k < zeroes ==> IS_ONE(t[k])
    {
      zeroes := zeroes + 1;
      if zeroes > max {
        RunIs(t, IS_ONE, zeroes);
        return false, zeroes;
      }
    }
    RunIs(t, IS_ONE, zeroes);
    ok := true;
  }

  /** Everything after the ones. */
  method DecodeRest(t: seq<Byte>, zeroes: nat, max: int) returns (r: Option<seq<Byte>>)
    ensures r == Outcome(AfterOnes(zeroes, t), max)
  {
    var b256 := new nat[|t| * 733 / 1000 + 1](_ => 0);
    var ok, end, length := ReadChars(t, zeroes, max, b256);
    if !ok {
      return None;
    }
    var rest := SkipWhile(t[end..], SPACE);
    r := Finish(zeroes, t[..end], rest, b256[..], length, max);
  }

  method Finish(zeroes: nat, ghost chars: seq<Byte>, rest: seq<Byte>, b256: seq<nat>, length: nat, ghost max: int)
    returns (r: Option<seq<Byte>>)
    requires ReadSoFar(chars, zeroes, max, b256, length)
    ensures r == Outcome(Parts(zeroes, chars, rest), max)
  {
    if rest != [] {
      return None;
    }
    HoldsDigits(256, b256, length, NumberOf(chars));
    r := Some(Repeat(0, zeroes) + Copy(b256[|b256| - length..]));
  }

  method DecodeBase58(t: seq<Byte>, max: int) returns (r: Option<seq<Byte>>)
    ensures r == Decoded(t, max)
  {
    if 0 in t {
      return None;
    }
    var t1 := SkipWhile(t, SPACE);
    var ok, zeroes := CountOnes(t1, max);
    if !ok {
      return None;
    }
    r := DecodeRest(t1[zeroes..], zeroes, max);
  }

  function Copy(ds: seq<nat>): (r: seq<Byte>)
    requires AllBelow(256, ds)
    ensures r == ds
  {
    ds
  }

  // ---------- the two undo each other ----------

  lemma NumsText(ds: seq<nat>)
    requires AllBelow(58, ds)
    ensures AllValid(Text(ds)) && Nums(Text(ds)) == ds
  {
    forall k | 0 <= k < |ds| ensures MapBase58(Text(ds)[k]) == ds[k] { AlphabetInverse(ds[k]); }
  }

  lemma TextNums(t: seq<Byte>)
    requires AllValid(t)
    ensures Text(Nums(t)) == t
  {
    forall k | 0 <= k < |t| ensures Text(Nums(t))[k] == t[k] { AlphabetOnto(t[k]); }
  }

  lemma NoRun(t: seq<Byte>, ok: Byte -> bool)
    requires t != [] ==> !ok(t[0])
    ensures t[Run(t, ok)..] == t
  {
    RunIs(t, ok, 0);
  }

  lemma SplitOnes(z: nat, chars: seq<Byte>)
    requires chars != [] ==> chars[0] != ONE
    ensures var t := Repeat(ONE, z) + chars;
            Run(t, IS_ONE) == z && t[z..] == chars
  {
    RunIs(Repeat(ONE, z) + chars, IS_ONE, z);
  }

  lemma NoMore(z: nat, chars: seq<Byte>)
    requires forall k :: 0 <= k < |chars| ==> !IsSpace(chars[k])
    ensures AfterOnes(z, chars) == Parts(z, chars, [])
  {
    RunIs(chars, NOT_SPACE, |chars|);
    assert chars[..|chars|] == chars && chars[|chars|..] == [];
    NoRun([], SPACE);
  }

  lemma ValidChars(chars: seq<Byte>)
    requires AllValid(chars)
    ensures forall k :: 0 <= k < |chars| ==> !IsSpace(chars[k]) && chars[k] != 0
  {
  }

  /** A text of ones and characters, the first of which is not a one, is split where it was put together. */
  lemma PlainParts(z: nat, chars: seq<Byte>)
    requires AllValid(chars) && (chars != [] ==> chars[0] != ONE)
    ensures PartsOf(Repeat(ONE, z) + chars) == Parts(z, chars, []) && 0 !in Repeat(ONE, z) + chars
  {
    ValidChars(chars);
    NothingBefore(z, chars);
    SplitOnes(z, chars);
    NoMore(z, chars);
    PartsFrom(Repeat(ONE, z) + chars, z, chars);
  }

  lemma NothingBefore(z: nat, chars: seq<Byte>)
    requires forall k :: 0 <= k < |chars| ==> !IsSpace(chars[k]) && chars[k] != 0
    ensures var t := Repeat(ONE, z) + chars;
            t[Run(t, SPACE)..] == t && 0 !in t
  {
    var t := Repeat(ONE, z) + chars;
    assert t != [] ==> t[0] == if z > 0 then ONE else chars[0];
    NoRun(t, SPACE);
  }

  lemma PartsFrom(t: seq<Byte>, z: nat, chars: seq<Byte>)
    requires t[Run(t, SPACE)..] == t && Run(t, IS_ONE) == z && t[z..] == chars
    requires AfterOnes(z, chars) == Parts(z, chars, [])
    ensures PartsOf(t) == Parts(z, chars, [])
  {
  }

  lemma PlainOutcome(z: nat, chars: seq<Byte>, rest: seq<Byte>, max: int)
    requires AllValid(chars) && Digits(256, NumberOf(chars)) == rest
    ensures Outcome(Parts(z, chars, []), max) ==
              if chars != [] && z + |rest| > max then None else Some(Repeat(0, z) + rest)
  {
  }

  lemma DecodedPlain(t: seq<Byte>, z: nat, chars: seq<Byte>, rest: seq<Byte>, max: int)
    requires PartsOf(t) == Parts(z, chars, []) && 0 !in t && AllValid(chars)
    requires Digits(256, NumberOf(chars)) == rest && (chars == [] <==> rest == [])
    ensures Decoded(t, max) == if z + |rest| == 0 || z + |rest| <= max then Some(Repeat(0, z) + rest) else None
  {
    PlainOutcome(z, chars, rest, max);
  }

  lemma CharsIfBytes(rest: seq<Byte>)
    requires rest != [] ==> rest[0] != 0
    ensures Digits(58, Value(256, rest)) == [] <==> rest == []
  {
    DigitsValue(58, Value(256, rest));
    if rest != [] { LeadingDigit(256, rest); }
  }

  /** Decoding ones and digits. */
  lemma DecodedDigits(z: nat, ds: seq<nat>, rest: seq<Byte>, max: int)
    requires AllBelow(58, ds) && (ds != [] ==> ds[0] != 0) && (ds == [] <==> rest == [])
             && Digits(256, Value(58, ds)) == rest
    ensures Decoded(Repeat(ONE, z) + Text(ds), max) ==
              if z + |rest| == 0 || z + |rest| <= max then Some(Repeat(0, z) + rest) else None
  {
    var chars := Text(ds);
    NumsText(ds);
    if ds != [] { AlphabetInverse(ds[0]); }
    PlainParts(z, chars);
    DecodedPlain(Repeat(ONE, z) + chars, z, chars, rest, max);
  }

  lemma ZerosBack(x: seq<Byte>)
    ensures x == Repeat(0, LeadingZeros(x)) + x[LeadingZeros(x)..]
  {
  }

  lemma RestBack(rest: seq<Byte>)
    requires rest != [] ==> rest[0] != 0
    ensures var v := Value(256, rest);
            var ds := Digits(58, v);
            && Digits(256, v) == rest && AllBelow(58, ds) && Value(58, ds) == v
            && (ds != [] ==> ds[0] != 0) && (ds == [] <==> rest == [])
  {
    ValueDigits(256, rest);
    CharsIfBytes(rest);
    DigitsValue(58, Value(256, rest));
  }

  /** Decoding an encoded byte string gives it back, exactly if it fits in the limit. */
  lemma DecodeUndoesEncode(x: seq<Byte>, max: int)
    ensures Decoded(Encoded(x), max) == if x == [] || |x| <= max then Some(x) else None
  {
    var rest := x[LeadingZeros(x)..];
    ZerosBack(x);
    RestBack(rest);
    DecodedDigits(LeadingZeros(x), Digits(58, Value(256, rest)), rest, max);
  }

  predicate AllSpaces(t: seq<Byte>) { forall k :: 0 <= k < |t| ==> IsSpace(t[k]) }

  lemma RunSplits(t: seq<Byte>, ok: Byte -> bool)
    ensures t == t[..Run(t, ok)] + t[Run(t, ok)..]
    ensures forall c :: c in t[..Run(t, ok)] ==> ok(c)
  {
  }

  lemma RestTogether(z: nat, t: seq<Byte>) returns (after: seq<Byte>)
    ensures AllSpaces(after) && t == AfterOnes(z, t).chars + (after + AfterOnes(z, t).rest)
  {
    var t3 := t[Run(t, NOT_SPACE)..];
    after := t3[..Run(t3, SPACE)];
    RunSplits(t, NOT_SPACE);
    RunSplits(t3, SPACE);
  }

  lemma OnesTogether(t: seq<Byte>)
    ensures t == Repeat(ONE, Run(t, IS_ONE)) + t[Run(t, IS_ONE)..]
  {
    assert t[..Run(t, IS_ONE)] == Repeat(ONE, Run(t, IS_ONE));
  }

  lemma FirstChar(z: nat, t: seq<Byte>)
    requires t != [] ==> t[0] != ONE
    ensures AfterOnes(z, t).chars != [] ==> AfterOnes(z, t).chars[0] != ONE
  {
  }

  /** A text is spaces, ones, characters, spaces and the rest. */
  lemma PutTogether(t: seq<Byte>) returns (before: seq<Byte>, after: seq<Byte>)
    ensures AllSpaces(before) && AllSpaces(after)
    ensures var p := PartsOf(t);
            t == before + (Repeat(ONE, p.ones) + (p.chars + (after + p.rest))) && (p.chars != [] ==> p.chars[0] != ONE)
  {
    var t1, z, t2;
    before, t1, z, t2 := SplitFront(t);
    after := RestTogether(z, t2);
    FirstChar(z, t2);
    Nested(t, before, t1, Repeat(ONE, z), t2);
  }

  lemma SplitFront(t: seq<Byte>) returns (before: seq<Byte>, t1: seq<Byte>, z: nat, t2: seq<Byte>)
    ensures AllSpaces(before) && t == before + t1 && t1 == Repeat(ONE, z) + t2 && PartsOf(t) == AfterOnes(z, t2)
    ensures t2 != [] ==> t2[0] != ONE
  {
    before, t1 := t[..Run(t, SPACE)], t[Run(t, SPACE)..];
    RunSplits(t, SPACE);
    OnesTogether(t1);
    z := Run(t1, IS_ONE);
    t2 := t1[z..];
  }

  lemma Nested(t: seq<Byte>, a: seq<Byte>, t1: seq<Byte>, b: seq<Byte>, t2: seq<Byte>)
    requires t == a + t1 && t1 == b + t2
    ensures t == a + (b + t2)
  {
  }

  /** A text that decodes is, between spaces, the encoding of the result. */
  lemma EncodeUndoesDecode(t: seq<Byte>, max: int) returns (before: seq<Byte>, after: seq<Byte>)
    requires Decoded(t, max).Some?
    ensures AllSpaces(before) && AllSpaces(after) && t == before + Encoded(Decoded(t, max).value) + after
  {
    before, after := PutTogether(t);
    var p := PartsOf(t);
    EncodedResult(p);
    Regrouped(before, Repeat(ONE, p.ones), p.chars, after);
    assert after + p.rest == after;
  }

  lemma Regrouped(a: seq<Byte>, b: seq<Byte>, c: seq<Byte>, d: seq<Byte>)
    ensures a + (b + (c + d)) == a + (b + c) + d
  {
  }

  lemma EncodedResult(p: Parts)
    requires AllValid(p.chars) && (p.chars != [] ==> p.chars[0] != ONE)
    ensures Encoded(Repeat(0, p.ones) + Bytes(NumberOf(p.chars))) == Repeat(ONE, p.ones) + p.chars
  {
    var v := NumberOf(p.chars);
    var y := Repeat(0, p.ones) + Bytes(v);
    DigitsValue(256, v);
    LeadingZerosAre(y, p.ones);
    assert y[p.ones..] == Bytes(v);
    if p.chars != [] { AlphabetOnto(p.chars[0]); }
    ValueDigits(58, Nums(p.chars));
    TextNums(p.chars);
  }
}
