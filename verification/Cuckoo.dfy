/** The lossy set behind the signature and script caches (src/cuckoocache.h): eight possible slots for every key,
  * erasure that only sets a flag, and two generations of entries.
  */
module Cuckoo {
  import opened CuckooFlags
  import opened CuckooGenerations
  import opened Wrappers

  /** The high half of a 32 by 32 bit product. */
  function FastRange32(x: U32, n: nat): (r: nat)
    ensures n > 0 ==> r < n
  {
    if n > 0 then ProductBound(x, n); x * n / 0x1_0000_0000 else 0
  }

  lemma ProductBound(x: U32, n: nat)
    requires n > 0
    ensures 0 <= x * n < 0x1_0000_0000 * n
  {
  }

  /** The reduction keeps the order of hashes, and every slot is reached. */
  lemma FastRangeSpreads(x: U32, y: U32, n: nat, j: nat) returns (h: U32)
    requires x <= y && j < n <= 0x1_0000_0000
    ensures FastRange32(x, n) <= FastRange32(y, n) && FastRange32(h, n) == j
  {
    Scaled(x, y, n);
    h := FirstHash(n, j);
  }

  lemma Scaled(x: nat, y: nat, n: nat)
    requires x <= y
    ensures x * n / 0x1_0000_0000 <= y * n / 0x1_0000_0000
  {
    assert y * n == x * n + (y - x) * n;
  }

  /** The smallest hash that is reduced to j. */
  lemma FirstHash(n: nat, j: nat) returns (h: U32)
    requires j < n <= 0x1_0000_0000
    ensures h * n / 0x1_0000_0000 == j
  {
    var q, r := (j * 0x1_0000_0000 + n - 1) / n, (j * 0x1_0000_0000 + n - 1) % n;
    assert q * n + r == j * 0x1_0000_0000 + n - 1;
    assert j * 0x1_0000_0000 <= q * n < (j + 1) * 0x1_0000_0000;
    if q >= 0x1_0000_0000 { Grows(0x1_0000_0000, q, n); }
    h := q;
  }

  lemma Grows(p: nat, q: nat, n: nat)
    requires p <= q
    ensures p * n <= q * n
  {
  }

  function ComputeHashes<K(!new)>(hash: (nat, K) -> U32, k: K, size: nat): (r: seq<nat>)
    ensures |r| == 8 && (size > 0 ==> forall m :: 0 <= m < 8 ==> r[m] < size)
    ensures forall m :: 0 <= m < 8 ==> r[m] == FastRange32(hash(m, k), size)
  {
    [FastRange32(hash(0, k), size), FastRange32(hash(1, k), size), FastRange32(hash(2, k), size),
     FastRange32(hash(3, k), size), FastRange32(hash(4, k), size), FastRange32(hash(5, k), size),
     FastRange32(hash(6, k), size), FastRange32(hash(7, k), size)]
  }

  /** The size of the table, the key of an element, and the eight slots a key may be in. */
  datatype Geometry<!E, !K(!new)> = Geometry(size: nat, key: E -> K, homes: K -> seq<nat>) {
    ghost predicate Ok() {
      forall k :: |homes(k)| == 8 && forall m :: 0 <= m < 8 ==> homes(k)[m] < size
    }
  }

  /** 45 per cent of the table, in 32-bit arithmetic. */
  function EpochSize(size: nat): nat {
    var share := 45 * size % 0x1_0000_0000 / 100;
    if share < 1 then 1 else share
  }

  /** It is what it should be exactly if the product does not wrap. */
  lemma EpochIsShare(size: nat)
    requires 3 <= size < 0x1_0000_0000
    ensures 1 <= EpochSize(size) && (EpochSize(size) == 45 * size / 100 <==> size <= 95443717)
  {
    var q, r := 45 * size / 0x1_0000_0000, 45 * size % 0x1_0000_0000;
    assert 45 * size == q * 0x1_0000_0000 + r;
  }

  // ---------- where elements are ----------

  /** Slot i is the first of the key's slots that holds the key. */
  ghost predicate FoundAt<E, K(!new)>(g: Geometry<E, K>, t: seq<E>, k: K, i: nat)
    requires g.Ok() && |t| == g.size
  {
    && i < |t| && g.key(t[i]) == k
    && exists m :: 0 <= m < 8 && g.homes(k)[m] == i && MissesBefore(g, t, k, m)
  }

  ghost predicate MissesBefore<E, K(!new)>(g: Geometry<E, K>, t: seq<E>, k: K, m: nat)
    requires g.Ok() && |t| == g.size && m <= 8
  {
    forall j :: 0 <= j < m ==> g.key(t[g.homes(k)[j]]) != k
  }

  /** Every live element is where a lookup of its key ends. */
  ghost predicate Placed<E, K(!new)>(g: Geometry<E, K>, t: seq<E>, c: seq<bool>) {
    && g.Ok() && |t| == |c| == g.size
    && forall i :: 0 <= i < |t| && !c[i] ==> FoundAt(g, t, g.key(t[i]), i)
  }

  /** The elements in slots that are not marked for collection. */
  ghost function Live<E>(t: seq<E>, c: seq<bool>): set<E>
    requires |t| == |c|
  {
    set i | 0 <= i < |t| && !c[i] :: t[i]
  }

  ghost predicate NotLive<E, K(!new)>(g: Geometry<E, K>, t: seq<E>, c: seq<bool>, k: K)
    requires |t| == |c|
  {
    forall i :: 0 <= i < |t| && !c[i] ==> g.key(t[i]) != k
  }

  lemma FoundOnce<E, K(!new)>(g: Geometry<E, K>, t: seq<E>, k: K, i: nat, j: nat)
    requires g.Ok() && |t| == g.size && FoundAt(g, t, k, i) && FoundAt(g, t, k, j)
    ensures i == j
  {
    var m :| 0 <= m < 8 && g.homes(k)[m] == i && MissesBefore(g, t, k, m);
    var n :| 0 <= n < 8 && g.homes(k)[n] == j && MissesBefore(g, t, k, n);
  }

  /** A result in its own right: in a valid table no two live elements have the same key. */
  lemma LiveKeysDistinct<E, K(!new)>(g: Geometry<E, K>, t: seq<E>, c: seq<bool>, x: E, y: E)
    requires Placed(g, t, c) && x in Live(t, c) && y in Live(t, c) && g.key(x) == g.key(y)
    ensures x == y
  {
    var i :| 0 <= i < |t| && !c[i] && t[i] == x;
    var j :| 0 <= j < |t| && !c[j] && t[j] == y;
    FoundOnce(g, t, g.key(x), i, j);
  }

  /** A lookup of a live element's key finds that element. */
  lemma LiveIsFound<E, K(!new)>(g: Geometry<E, K>, t: seq<E>, c: seq<bool>, x: E, l: nat)
    requires Placed(g, t, c) && x in Live(t, c)
    ensures !MissesBefore(g, t, g.key(x), 8)
    ensures FoundAt(g, t, g.key(x), l) ==> t[l] == x && !c[l]
  {
    var i :| 0 <= i < |t| && !c[i] && t[i] == x;
    assert FoundAt(g, t, g.key(x), i);
    if FoundAt(g, t, g.key(x), l) { FoundOnce(g, t, g.key(x), i, l); }
  }

  /** Overwriting a slot with an element of another key does not disturb a lookup that ends elsewhere. */
  lemma FoundAfterWrite<E, K(!new)>(g: Geometry<E, K>, t: seq<E>, k: K, i: nat, l: nat, e: E)
    requires g.Ok() && |t| == g.size && FoundAt(g, t, k, i) && l < |t| && i != l && g.key(e) != k
    ensures FoundAt(g, t[l := e], k, i)
  {
    var m :| 0 <= m < 8 && g.homes(k)[m] == i && MissesBefore(g, t, k, m);
    assert MissesBefore(g, t[l := e], k, m) by {
      forall j | 0 <= j < m ensures g.key(t[l := e][g.homes(k)[j]]) != k {
        assert g.key(t[g.homes(k)[j]]) != k;
      }
    }
  }

  /** Writing an element whose key is live nowhere else, at a place where its lookup ends. */
  lemma WriteKeepsPlaced<E, K(!new)>(g: Geometry<E, K>, t: seq<E>, c: seq<bool>, e: E, l: nat)
    requires Placed(g, t, c) && l < |t| && FoundAt(g, t[l := e], g.key(e), l)
    requires forall i :: 0 <= i < |t| && !c[i] && i != l ==> g.key(t[i]) != g.key(e)
    ensures Placed(g, t[l := e], c[l := false])
  {
    var t', c' := t[l := e], c[l := false];
    forall i | 0 <= i < |t'| && !c'[i] ensures FoundAt(g, t', g.key(t'[i]), i) {
      if i != l { FoundAfterWrite(g, t, g.key(t[i]), i, l, e); }
    }
  }

  lemma LiveAfterWrite<E>(t: seq<E>, c: seq<bool>, e: E, l: nat)
    requires |t| == |c| && l < |t| && forall i :: 0 <= i < |t| && !c[i] && i != l ==> t[i] != t[l]
    ensures Live(t[l := e], c[l := false]) == (if c[l] then Live(t, c) else Live(t, c) - {t[l]}) + {e}
  {
    var t', c' := t[l := e], c[l := false];
    forall x | x in (if c[l] then Live(t, c) else Live(t, c) - {t[l]}) + {e} ensures x in Live(t', c') {
      if x == e {
        assert t'[l] == e && !c'[l];
      } else {
        var i :| 0 <= i < |t| && !c[i] && t[i] == x;
        assert t'[i] == x && !c'[i];
      }
    }
    forall x | x in Live(t', c') && x != e ensures x in Live(t, c) && (!c[l] ==> x != t[l]) {
      var i :| 0 <= i < |t'| && !c'[i] && t'[i] == x;
      assert i != l && t[i] == x;
    }
  }

  lemma LiveAfterFill<E>(t: seq<E>, c: seq<bool>, e: E, l: nat)
    requires |t| == |c| && l < |t| && c[l]
    ensures Live(t[l := e], c[l := false]) == Live(t, c) + {e}
  {
    var t', c' := t[l := e], c[l := false];
    assert t'[l] == e && !c'[l];
    forall x | x in Live(t, c) ensures x in Live(t', c') {
      var i :| 0 <= i < |t| && !c[i] && t[i] == x;
      assert t'[i] == x && !c'[i];
    }
    forall x | x in Live(t', c') ensures x in Live(t, c) + {e} {
      var i :| 0 <= i < |t'| && !c'[i] && t'[i] == x;
      assert i != l ==> t[i] == x;
    }
  }

  /** Filling the first slot that is marked for collection. */
  lemma FillIsRight<E, K(!new)>(g: Geometry<E, K>, t: seq<E>, c: seq<bool>, e: E, m: nat)
    requires Placed(g, t, c) && NotLive(g, t, c, g.key(e)) && m < 8 && c[g.homes(g.key(e))[m]]
    requires forall j :: 0 <= j < m ==> !c[g.homes(g.key(e))[j]]
    ensures var l := g.homes(g.key(e))[m];
            Placed(g, t[l := e], c[l := false]) && Live(t[l := e], c[l := false]) == Live(t, c) + {e}
  {
    var l := g.homes(g.key(e))[m];
    assert MissesBefore(g, t[l := e], g.key(e), m);
    assert FoundAt(g, t[l := e], g.key(e), l);
    WriteKeepsPlaced(g, t, c, e, l);
    LiveAfterFill(t, c, e, l);
  }

  /** Changing places with a live element when all eight slots are live. */
  lemma SwapIsRight<E, K(!new)>(g: Geometry<E, K>, t: seq<E>, c: seq<bool>, e: E, m: nat)
    requires Placed(g, t, c) && NotLive(g, t, c, g.key(e)) && m < 8
    requires forall j :: 0 <= j < 8 ==> !c[g.homes(g.key(e))[j]]
    ensures var l := g.homes(g.key(e))[m];
            && Placed(g, t[l := e], c) && NotLive(g, t[l := e], c, g.key(t[l])) && t[l] in Live(t, c)
            && Live(t[l := e], c) == Live(t, c) - {t[l]} + {e}
  {
    var l := g.homes(g.key(e))[m];
    FirstHome(g, t, e, m, l);
    WriteKeepsPlaced(g, t, c, e, l);
    assert c[l := false] == c;
    forall i | 0 <= i < |t| && !c[i] && i != l ensures t[i] != t[l] && g.key(t[i]) != g.key(t[l]) {
      if g.key(t[i]) == g.key(t[l]) { FoundOnce(g, t, g.key(t[l]), i, l); }
    }
    LiveAfterWrite(t, c, e, l);
    assert t[l] in Live(t, c);
  }

  /** If no slot of e's key holds the key, e is found where it is written. */
  lemma {:induction false} FirstHome<E, K(!new)>(g: Geometry<E, K>, t: seq<E>, e: E, m: nat, l: nat)
    requires g.Ok() && |t| == g.size && m < 8 && l == g.homes(g.key(e))[m]
    requires forall j :: 0 <= j < 8 && g.homes(g.key(e))[j] != l ==> g.key(t[g.homes(g.key(e))[j]]) != g.key(e)
    ensures FoundAt(g, t[l := e], g.key(e), l)
  {
    if j :| 0 <= j < m && g.homes(g.key(e))[j] == l {
      FirstHome(g, t, e, j, l);
    } else {
      assert MissesBefore(g, t[l := e], g.key(e), m);
    }
  }

  /** Keeping or replacing the element that a lookup of the key finds. */
  lemma KeepIsRight<E, K(!new)>(g: Geometry<E, K>, t: seq<E>, c: seq<bool>, x: E, l: nat)
    requires Placed(g, t, c) && FoundAt(g, t, g.key(x), l)
    ensures Placed(g, t[l := x], c[l := false])
    ensures Live(t[l := x], c[l := false]) == Live(t, c) - {t[l]} + {x}
  {
    forall i | 0 <= i < |t| && !c[i] && i != l ensures g.key(t[i]) != g.key(x) {
      if g.key(t[i]) == g.key(x) { FoundOnce(g, t, g.key(x), i, l); }
    }
    var m :| 0 <= m < 8 && g.homes(g.key(x))[m] == l && MissesBefore(g, t, g.key(x), m);
    assert MissesBefore(g, t[l := x], g.key(x), m);
    WriteKeepsPlaced(g, t, c, x, l);
    LiveAfterWrite(t, c, x, l);
    assert c[l] ==> t[l] !in Live(t, c);
  }

  lemma NoMatchNotLive<E, K(!new)>(g: Geometry<E, K>, t: seq<E>, c: seq<bool>, k: K)
    requires Placed(g, t, c) && MissesBefore(g, t, k, 8)
    ensures NotLive(g, t, c, k)
  {
    forall i | 0 <= i < |t| && !c[i] ensures g.key(t[i]) != k {
      assert FoundAt(g, t, g.key(t[i]), i);
    }
  }

  lemma CollectIsRight<E, K(!new)>(g: Geometry<E, K>, t: seq<E>, c: seq<bool>, l: nat)
    requires Placed(g, t, c) && l < |t| && FoundAt(g, t, g.key(t[l]), l)
    ensures Placed(g, t, c[l := true]) && Live(t, c[l := true]) == Live(t, c) - {t[l]}
  {
    forall i | 0 <= i < |t| && !c[i] && i != l ensures t[i] != t[l] {
      if t[i] == t[l] { FoundOnce(g, t, g.key(t[l]), i, l); }
    }
    forall x | x in Live(t, c) - {t[l]} ensures x in Live(t, c[l := true]) {
      var i :| 0 <= i < |t| && !c[i] && t[i] == x;
      assert !c[l := true][i];
    }
  }

  // ---------- generations ----------

  /** The live slots of the current epoch. */
  ghost function Current(c: seq<bool>, recent: seq<bool>): set<nat>
    requires |c| == |recent|
  {
    set i: nat | i < |c| && recent[i] && !c[i]
  }

  /** How far the current epoch may grow beyond its size before the next scan. */
  function Slack(epochSize: nat): nat {
    if epochSize / 16 > 1 then epochSize / 16 else 1
  }

  ghost predicate EpochBounded(c: seq<bool>, recent: seq<bool>, counter: nat, epochSize: nat)
    requires |c| == |recent|
  {
    |Current(c, recent)| + counter <= epochSize + Slack(epochSize)
  }

  lemma SizeWithout<T>(s: set<T>, x: T)
    ensures |s| == |s - {x}| + if x in s then 1 else 0
  {
    if x in s { assert s == s - {x} + {x}; } else { assert s == s - {x}; }
  }

  lemma CurrentElsewhere(c: seq<bool>, recent: seq<bool>, l: nat, flag: bool, mark: bool)
    requires |c| == |recent| && l < |c|
    ensures Current(c, recent) - {l} == Current(c[l := flag], recent[l := mark]) - {l}
    ensures l in Current(c, recent) <==> recent[l] && !c[l]
    ensures l in Current(c[l := flag], recent[l := mark]) <==> mark && !flag
  {
    var c', recent' := c[l := flag], recent[l := mark];
    forall i: nat | i != l ensures i in Current(c, recent) <==> i in Current(c', recent') {
      assert i < |c| ==> c'[i] == c[i] && recent'[i] == recent[i];
    }
  }

  /** One slot changes: the count grows by at most the slot's new share. */
  lemma CurrentAfterWrite(c: seq<bool>, recent: seq<bool>, l: nat, flag: bool, mark: bool)
    requires |c| == |recent| && l < |c|
    ensures |Current(c[l := flag], recent[l := mark])| + (if recent[l] && !c[l] then 1 else 0)
            == |Current(c, recent)| + (if mark && !flag then 1 else 0)
  {
    var before, after := Current(c, recent), Current(c[l := flag], recent[l := mark]);
    CurrentElsewhere(c, recent, l, flag, mark);
    SizeWithout(before, l);
    SizeWithout(after, l);
  }

  /** What ageing does to the collection flags: the old generation goes. */
  ghost function Aged(c: seq<bool>, recent: seq<bool>): seq<bool>
    requires |c| == |recent|
  {
    seq(|c|, i requires 0 <= i < |c| => c[i] || !recent[i])
  }

  lemma AgedKeepsPlaced<E, K(!new)>(g: Geometry<E, K>, t: seq<E>, c: seq<bool>, c': seq<bool>)
    requires Placed(g, t, c) && |c'| == |c| && forall i :: 0 <= i < |c| && c[i] ==> c'[i]
    ensures Placed(g, t, c') && Live(t, c') <= Live(t, c)
  {
  }

  /** The live elements of one generation: the current one if b, the one before it otherwise. */
  ghost function Gen<E>(t: seq<E>, c: seq<bool>, recent: seq<bool>, b: bool): set<E>
    requires |t| == |c| == |recent|
  {
    set i | 0 <= i < |t| && !c[i] && recent[i] == b :: t[i]
  }

  /** The same without one slot. */
  ghost function GenElse<E>(t: seq<E>, c: seq<bool>, recent: seq<bool>, b: bool, l: nat): set<E>
    requires |t| == |c| == |recent|
  {
    set i | 0 <= i < |t| && i != l && !c[i] && recent[i] == b :: t[i]
  }

  ghost function OnlyIf<E>(cond: bool, e: E): set<E> { if cond then {e} else {} }

  lemma GenAt<E>(t: seq<E>, c: seq<bool>, recent: seq<bool>, b: bool, l: nat)
    requires |t| == |c| == |recent| && l < |t|
    ensures Gen(t, c, recent, b) == GenElse(t, c, recent, b, l) + OnlyIf(!c[l] && recent[l] == b, t[l])
  {
    forall x | x in Gen(t, c, recent, b)
      ensures x in GenElse(t, c, recent, b, l) + OnlyIf(!c[l] && recent[l] == b, t[l])
    {
      var i :| 0 <= i < |t| && !c[i] && recent[i] == b && t[i] == x;
      if i != l { assert t[i] in GenElse(t, c, recent, b, l); }
    }
  }

  lemma ElseAlike<E>(t: seq<E>, c: seq<bool>, recent: seq<bool>, t': seq<E>, c': seq<bool>, recent': seq<bool>, b: bool,
                     l: nat)
    requires |t| == |c| == |recent| == |t'| == |c'| == |recent'|
    requires forall i :: 0 <= i < |t| && i != l ==> t[i] == t'[i] && c[i] == c'[i] && recent[i] == recent'[i]
    ensures GenElse(t, c, recent, b, l) == GenElse(t', c', recent', b, l)
  {
    forall x | x in GenElse(t, c, recent, b, l) ensures x in GenElse(t', c', recent', b, l) {
      var i :| 0 <= i < |t| && i != l && !c[i] && recent[i] == b && t[i] == x;
      assert t'[i] == x && !c'[i] && recent'[i] == b;
    }
    forall x | x in GenElse(t', c', recent', b, l) ensures x in GenElse(t, c, recent, b, l) {
      var i :| 0 <= i < |t'| && i != l && !c'[i] && recent'[i] == b && t'[i] == x;
      assert t[i] == x && !c[i] && recent[i] == b;
    }
  }

  /** One slot is written: what was there leaves its generation, and what is there now enters the one it is marked
    * with.
    */
  lemma GenAfterWrite<E>(t: seq<E>, c: seq<bool>, recent: seq<bool>, e: E, l: nat, flag: bool, mark: bool, b: bool)
    requires |t| == |c| == |recent| && l < |t|
    ensures Gen(t[l := e], c[l := flag], recent[l := mark], b) + OnlyIf(!c[l] && recent[l] == b, t[l]) ==
              Gen(t, c, recent, b) + OnlyIf(!flag && mark == b, e)
    ensures Gen(t[l := e], c[l := flag], recent[l := mark], b) ==
              GenElse(t, c, recent, b, l) + OnlyIf(!flag && mark == b, e)
  {
    var t', c', recent' := t[l := e], c[l := flag], recent[l := mark];
    GenAt(t, c, recent, b, l);
    GenAt(t', c', recent', b, l);
    ElseAlike(t, c, recent, t', c', recent', b, l);
  }

  /** Where a key is found, no other live slot holds it. */
  lemma ElseOtherKeys<E, K(!new)>(g: Geometry<E, K>, t: seq<E>, c: seq<bool>, recent: seq<bool>, l: nat, k: K, b: bool)
    requires Placed(g, t, c) && |recent| == |t| && FoundAt(g, t, k, l)
    ensures GenElse(t, c, recent, b, l) == Gen(t, c, recent, b) - {t[l]} == Except(g.key, Gen(t, c, recent, b), k)
  {
    GenAt(t, c, recent, b, l);
    forall x | x in GenElse(t, c, recent, b, l) ensures g.key(x) != k {
      var i :| 0 <= i < |t| && i != l && !c[i] && recent[i] == b && t[i] == x;
      if g.key(x) == k { FoundOnce(g, t, k, i, l); }
    }
  }

  lemma NotLiveInGen<E, K(!new)>(g: Geometry<E, K>, t: seq<E>, c: seq<bool>, recent: seq<bool>, k: K, b: bool)
    requires |t| == |c| == |recent| && NotLive(g, t, c, k)
    ensures Except(g.key, Gen(t, c, recent, b), k) == Gen(t, c, recent, b)
  {
    forall x | x in Gen(t, c, recent, b) ensures g.key(x) != k {
      var i :| 0 <= i < |t| && !c[i] && recent[i] == b && t[i] == x;
    }
  }

  /** Ageing makes the current generation the one before it, and the one before it goes. */
  lemma GensAged<E>(t: seq<E>, c: seq<bool>, recent: seq<bool>, recent': seq<bool>)
    requires |t| == |c| == |recent| == |recent'| && forall i :: 0 <= i < |recent'| ==> !recent'[i]
    ensures Gen(t, Aged(c, recent), recent', true) == {}
    ensures Gen(t, Aged(c, recent), recent', false) == Gen(t, c, recent, true)
  {
    var c' := Aged(c, recent);
    forall x | x in Gen(t, c, recent, true) ensures x in Gen(t, c', recent', false) {
      var i :| 0 <= i < |t| && !c[i] && recent[i] == true && t[i] == x;
      assert !c'[i] && !recent'[i];
    }
    forall x | x in Gen(t, c', recent', false) ensures x in Gen(t, c, recent, true) {
      var i :| 0 <= i < |t| && !c'[i] && recent'[i] == false && t[i] == x;
      assert !c[i] && recent[i];
    }
  }

  lemma {:induction false} SizeOfImage<E>(t: seq<E>, a: set<nat>)
    requires forall i :: i in a ==> i < |t|
    requires forall i, j :: i in a && j in a && i != j ==> t[i] != t[j]
    ensures |set i | i in a :: t[i]| == |a|
    decreases |a|
  {
    if a != {} {
      var x :| x in a;
      SizeOfImage(t, a - {x});
      assert (set i | i in a :: t[i]) == (set i | i in a - {x} :: t[i]) + {t[x]};
    }
  }

  /** The scan counts the elements of the current generation. */
  lemma CurrentIsYoung<E, K(!new)>(g: Geometry<E, K>, t: seq<E>, c: seq<bool>, recent: seq<bool>)
    requires Placed(g, t, c) && |recent| == |t|
    ensures |Current(c, recent)| == |Gen(t, c, recent, true)|
  {
    var a := Current(c, recent);
    forall i, j | i in a && j in a && i != j ensures t[i] != t[j] {
      if t[i] == t[j] { FoundOnce(g, t, g.key(t[i]), i, j); }
    }
    SizeOfImage(t, a);
    assert (set i | i in a :: t[i]) == Gen(t, c, recent, true);
  }

  /** An element without a slot takes one from another; each has the generation it is marked with. */
  ghost predicate Moves<E>(s: Gens<E>, s': Gens<E>, e: E, mark: bool, e': E, mark': bool) {
    && s'.young + OnlyIf(mark', e') == s.young + OnlyIf(mark, e)
    && s'.old_ + OnlyIf(!mark', e') == s.old_ + OnlyIf(!mark, e) && s'.counter == s.counter
  }

  lemma MovesOn<E>(s0: Gens<E>, s: Gens<E>, s': Gens<E>, e0: E, e: E, mark: bool, e': E, mark': bool)
    requires Moves(s0, s, e0, true, e, mark) && Moves(s, s', e, mark, e', mark')
    ensures Moves(s0, s', e0, true, e', mark')
  {
  }

  lemma MovesEnd<E>(s0: Gens<E>, s: Gens<E>, s': Gens<E>, e0: E, e: E, mark: bool)
    requires Moves(s0, s, e0, true, e, mark)
    requires s' == s.(young := s.young + OnlyIf(mark, e), old_ := s.old_ + OnlyIf(!mark, e))
    ensures s' == s0.(young := s0.young + {e0} - {}, old_ := s0.old_ - {})
  {
  }

  lemma LiveIsGens<E>(t: seq<E>, c: seq<bool>, recent: seq<bool>)
    requires |t| == |c| == |recent|
    ensures Live(t, c) == Gen(t, c, recent, true) + Gen(t, c, recent, false)
  {
    forall x | x in Live(t, c) ensures x in Gen(t, c, recent, true) + Gen(t, c, recent, false) {
      var i :| 0 <= i < |t| && !c[i] && t[i] == x;
      assert t[i] in Gen(t, c, recent, recent[i]);
    }
  }

  /** At the end of a walk the last element without a slot is lost. */
  lemma LostOne<E, K(!new)>(g: Geometry<E, K>, t: seq<E>, c: seq<bool>, recent: seq<bool>, s: Gens<E>, s': Gens<E>,
                            e: E, e': E, mark': bool)
    requires |t| == |c| == |recent| && NotLive(g, t, c, g.key(e'))
    requires s' == Gens(Gen(t, c, recent, true), Gen(t, c, recent, false), s.counter)
    requires Moves(s, s', e, true, e', mark')
    ensures s' == Gens(s.young + {e} - {e'}, s.old_ - {e'}, s.counter)
  {
    NotLiveInGen(g, t, c, recent, g.key(e'), true);
    NotLiveInGen(g, t, c, recent, g.key(e'), false);
    assert e' !in s'.young && e' !in s'.old_;
  }

  ghost predicate GainsOnly<E>(t: seq<E>, t': seq<E>, e: E) {
    forall x :: x in t' ==> x in t || x == e
  }

  /** In the middle of a walk that began with e0 the element e is without a slot. */
  ghost predicate Walking<E, K(!new)>(g: Geometry<E, K>, t0: seq<E>, t: seq<E>, c: seq<bool>, e0: E, e: E)
    requires |t0| == |t| == |c|
  {
    && NotLive(g, t, c, g.key(e)) && e in Live(t0, c) + {e0} && (e == e0 || e in t0)
    && Live(t, c) == Live(t0, c) + {e0} - {e} && GainsOnly(t0, t, e0)
  }

  lemma WalkOn<E, K(!new)>(g: Geometry<E, K>, t0: seq<E>, t: seq<E>, t': seq<E>, c: seq<bool>, e0: E, e: E, e': E)
    requires |t0| == |t| == |t'| == |c| && Walking(g, t0, t, c, e0, e)
    requires NotLive(g, t', c, g.key(e')) && e' in Live(t, c) && e' in t
    requires Live(t', c) == Live(t, c) - {e'} + {e} && GainsOnly(t, t', e)
    ensures Walking(g, t0, t', c, e0, e')
  {
    assert e !in Live(t, c);
  }

  /** The live elements by generation. */
  ghost function GensOf<E>(t: seq<E>, c: seq<bool>, recent: seq<bool>, counter: nat): Gens<E>
    requires |t| == |c| == |recent|
  {
    Gens(Gen(t, c, recent, true), Gen(t, c, recent, false), counter)
  }

  /** A turn of the walk that ends it: the element is in a slot that was marked for collection. */
  ghost predicate Fills<E>(t: seq<E>, c: seq<bool>, r: seq<bool>, t': seq<E>, c': seq<bool>, r': seq<bool>, n: nat,
                           e: E, mark: bool)
    requires |t| == |c| == |r| == |t'| == |c'| == |r'|
  {
    && Live(t', c') == Live(t, c) + {e} && GainsOnly(t, t', e)
    && |Current(c', r')| <= |Current(c, r)| + (if mark then 1 else 0)
    && var s := GensOf(t, c, r, n);
       GensOf(t', c', r', n) == s.(young := s.young + OnlyIf(mark, e), old_ := s.old_ + OnlyIf(!mark, e))
  }

  /** A turn that goes on: the element is in the slot of another, which now has none. */
  ghost predicate Ousts<E, K(!new)>(g: Geometry<E, K>, t: seq<E>, c: seq<bool>, r: seq<bool>, t': seq<E>, r': seq<bool>,
                                    n: nat, e: E, mark: bool, e': E, mark': bool)
    requires |t| == |c| == |r| == |t'| == |r'|
  {
    && NotLive(g, t', c, g.key(e')) && e' in Live(t, c) && e' in t && GainsOnly(t, t', e)
    && Live(t', c) == Live(t, c) - {e'} + {e}
    && |Current(c, r')| + (if mark' then 1 else 0) == |Current(c, r)| + (if mark then 1 else 0)
    && Moves(GensOf(t, c, r, n), GensOf(t', c, r', n), e, mark, e', mark')
  }

  /** In the middle of a walk: the tables before and now, and the element without a slot. */
  ghost predicate MidWalk<E, K(!new)>(g: Geometry<E, K>, t0: seq<E>, r0: seq<bool>, t: seq<E>, c: seq<bool>,
                                      r: seq<bool>, n: nat, e0: E, e: E, mark: bool)
  {
    && |t0| == |r0| == |t| == |c| == |r| && Walking(g, t0, t, c, e0, e)
    && |Current(c, r)| + (if mark then 1 else 0) <= |Current(c, r0)| + 1
    && Moves(GensOf(t0, c, r0, n), GensOf(t, c, r, n), e0, true, e, mark)
  }

  /** What a walk has done: the new element is there and young, at most one element is lost, all others are live as
    * before and in their own generation.
    */
  ghost predicate Walked<E, K(!new)>(g: Geometry<E, K>, t0: seq<E>, c0: seq<bool>, r0: seq<bool>, t: seq<E>,
                                     c: seq<bool>, r: seq<bool>, n: nat, e0: E, lost: set<E>)
    requires |t0| == |c0| == |r0| == |t| == |c| == |r|
  {
    && |lost| <= 1 && lost <= Live(t0, c0) + {e0} && Live(t, c) == Live(t0, c0) + {e0} - lost
    && |Current(c, r)| <= |Current(c0, r0)| + 1 && GainsOnly(t0, t, e0)
    && var s := GensOf(t0, c0, r0, n); GensOf(t, c, r, n) == s.(young := s.young + {e0} - lost, old_ := s.old_ - lost)
  }

  lemma MidWalkOn<E, K(!new)>(g: Geometry<E, K>, t0: seq<E>, r0: seq<bool>, t: seq<E>, c: seq<bool>, r: seq<bool>,
                              t': seq<E>, r': seq<bool>, n: nat, e0: E, e: E, mark: bool, e': E, mark': bool)
    requires |t'| == |r'| == |t| && MidWalk(g, t0, r0, t, c, r, n, e0, e, mark)
    requires Ousts(g, t, c, r, t', r', n, e, mark, e', mark')
    ensures MidWalk(g, t0, r0, t', c, r', n, e0, e', mark')
  {
    WalkOn(g, t0, t, t', c, e0, e, e');
    MovesOn(GensOf(t0, c, r0, n), GensOf(t, c, r, n), GensOf(t', c, r', n), e0, e, mark, e', mark');
  }

  lemma MidWalkFilled<E, K(!new)>(g: Geometry<E, K>, t0: seq<E>, r0: seq<bool>, t: seq<E>, c: seq<bool>, r: seq<bool>,
                                  t': seq<E>, c': seq<bool>, r': seq<bool>, n: nat, e0: E, e: E, mark: bool)
    requires |t'| == |c'| == |r'| == |t| && MidWalk(g, t0, r0, t, c, r, n, e0, e, mark)
    requires Fills(t, c, r, t', c', r', n, e, mark)
    ensures Walked(g, t0, c, r0, t', c', r', n, e0, {})
  {
    MovesEnd(GensOf(t0, c, r0, n), GensOf(t, c, r, n), GensOf(t', c', r', n), e0, e, mark);
    LiveAgain(Live(t0, c), Live(t, c), Live(t', c'), e0, e);
    GainsThrough(t0, t, t', e0, e);
  }

  lemma LiveAgain<E>(live0: set<E>, live: set<E>, live': set<E>, e0: E, e: E)
    requires live == live0 + {e0} - {e} && e in live0 + {e0} && live' == live + {e}
    ensures live' == live0 + {e0} - {}
  {
  }

  lemma GainsThrough<E>(t0: seq<E>, t: seq<E>, t': seq<E>, e0: E, e: E)
    requires GainsOnly(t0, t, e0) && GainsOnly(t, t', e) && (e == e0 || e in t0)
    ensures GainsOnly(t0, t', e0)
  {
  }

  /** An insertion of a key that was not found, as a step of the generations. */
  lemma WalkedIsStep<E, K(!new)>(g: Geometry<E, K>, t0: seq<E>, c0: seq<bool>, r0: seq<bool>, t: seq<E>, c: seq<bool>,
                                 r: seq<bool>, n: nat, e: E, replace: bool, lost: set<E>, epochSize: nat, s: Gens<E>)
    requires |t0| == |c0| == |r0| == |t| == |c| == |r| && Walked(g, t0, c0, r0, t, c, r, n, e, lost)
    requires GensOf(t0, c0, r0, n) == AfterCheck(s, epochSize)
    ensures InsertStep(g.key, epochSize, s, GensOf(t, c, r, n), e, replace, Event({}, e, lost))
  {
    var s1 := AfterCheck(s, epochSize);
    LiveIsGens(t0, c0, r0);
    assert s1.young - {} == s1.young && s1.old_ - {} == s1.old_;
  }

  /** An insertion of a key that was found. */
  lemma KeptIsStep<E, K(!new)>(g: Geometry<E, K>, s: Gens<E>, s': Gens<E>, e: E, replace: bool, there: E,
                               epochSize: nat)
    requires g.key(there) == g.key(e)
    requires var s1, x := AfterCheck(s, epochSize), if replace then e else there;
             s' == s1.(young := s1.young - {there} + {x}, old_ := s1.old_ - {there})
    ensures InsertStep(g.key, epochSize, s, s', e, replace, Event({there}, if replace then e else there, {}))
  {
    var s1, x := AfterCheck(s, epochSize), if replace then e else there;
    assert s1.young - {there} + {x} - {} == s1.young - {there} + {x} && s1.old_ - {there} - {} == s1.old_ - {there};
  }

  lemma MidWalkLost<E, K(!new)>(g: Geometry<E, K>, t0: seq<E>, r0: seq<bool>, t: seq<E>, c: seq<bool>, r: seq<bool>,
                                n: nat, e0: E, e: E, mark: bool)
    requires MidWalk(g, t0, r0, t, c, r, n, e0, e, mark)
    ensures Walked(g, t0, c, r0, t, c, r, n, e0, {e})
  {
    LostOne(g, t, c, r, GensOf(t0, c, r0, n), GensOf(t, c, r, n), e0, e, mark);
  }

  ghost function Inserted<E, K>(calls: seq<Call<E, K>>): set<E> {
    set i | 0 <= i < |calls| && calls[i].Insert? :: calls[i].e
  }

  lemma InsertedNext<E, K>(calls: seq<Call<E, K>>, i: nat)
    requires i < |calls|
    ensures Inserted(calls[..i + 1]) == Inserted(calls[..i]) + if calls[i].Insert? then {calls[i].e} else {}
  {
    var one, all := calls[..i], calls[..i + 1];
    assert forall j :: 0 <= j < i ==> all[j] == one[j];
    forall x | x in Inserted(one) ensures x in Inserted(all) {
      var j :| 0 <= j < |one| && one[j].Insert? && one[j].e == x;
      assert all[j].Insert? && all[j].e == x;
    }
    assert all[i] == calls[i];
  }

  class Cache<E(0), K(==,!new)> {
    const g: Geometry<E, K>
    const epochSize: nat
    const depthLimit: nat

    var table: seq<E>
    const flags: BitPackedFlags
    /** The collection flags that the bits stand for. */
    ghost var collected: seq<bool>
    var recent: seq<bool>
    var counter: nat

    ghost predicate Packed()
      reads this, flags
    {
      g.size <= |Unpack(flags.mem)| && collected == Unpack(flags.mem)[..g.size]
    }

    ghost predicate Valid()
      reads this, flags
    {
      && Packed()
      && Placed(g, table, collected) && |recent| == g.size && epochSize >= 1
      && EpochBounded(collected, recent, counter, epochSize)
    }

    /** Construction and the one call of setup; every element is whatever the element type starts with. The seven
      * largest sizes get too few flags.
      */
    constructor (newSize: U32, key: E -> K, hash: (nat, K) -> U32, blank: E, depthLimit: nat)
      ensures fresh(flags)
      ensures Valid() <==> newSize + 7 < 0x1_0000_0000
      ensures g.size == (if newSize < 2 then 2 else newSize) && g.key == key && this.depthLimit == depthLimit
      ensures forall k :: g.homes(k) == ComputeHashes(hash, k, g.size)
      ensures |table| == |collected| == |recent| == g.size && Live(table, collected) == {}
      ensures forall i :: 0 <= i < g.size ==> table[i] == blank && !recent[i]
      ensures epochSize == EpochSize(g.size) && counter == epochSize
    {
      var size := if newSize < 2 then 2 else newSize;
      g := Geometry(size, key, k => ComputeHashes(hash, k, size));
      this.depthLimit := depthLimit;
      table := seq(size, _ => blank);
      flags := new BitPackedFlags(size);
      collected := seq(size, _ => true);
      recent := seq(size, _ => false);
      epochSize := EpochSize(size);
      counter := EpochSize(size);
      new;
      assert Current(collected, recent) == {};
    }

    method IsCollected(l: nat) returns (r: bool)
      requires Packed() && l < g.size
      ensures r == collected[l]
    {
      r := flags.BitIsSet(l);
    }

    method AllowErase(l: nat)
      requires Packed() && l < g.size
      modifies `collected, flags
      ensures Packed() && collected == old(collected)[l := true]
    {
      flags.BitSet(l);
      collected := collected[l := true];
    }

    method PleaseKeep(l: nat)
      requires Packed() && l < g.size
      modifies `collected, flags
      ensures Packed() && collected == old(collected)[l := false]
    {
      flags.BitUnset(l);
      collected := collected[l := false];
    }

    /** The live elements by generation. */
    ghost function G(): Gens<E>
      requires |table| == |collected| == |recent|
      reads this
    {
      GensOf(table, collected, recent, counter)
    }

    /** The collection flags after the check that begins every insertion. */
    ghost function Checked(): seq<bool>
      requires |collected| == |recent|
      reads this
    {
      if counter == 0 && |Current(collected, recent)| >= epochSize then Aged(collected, recent) else collected
    }

    /** The scan of the whole table. */
    method CountCurrent() returns (n: nat)
      requires Packed() && |recent| == g.size
      ensures n == |Current(collected, recent)|
    {
      n := 0;
      ghost var seen: set<nat> := {};
      for i := 0 to g.size
        invariant seen == (set j: nat | j < i && recent[j] && !collected[j]) && n == |seen|
      {
        var gone := IsCollected(i);
        if recent[i] && !gone {
          n := n + 1;
          seen := seen + {i};
        }
      }
      assert seen == Current(collected, recent);
    }

    method Age()
      requires Packed() && |recent| == g.size
      modifies `collected, `recent, flags
      ensures Packed() && |recent| == g.size
      ensures collected == Aged(old(collected), old(recent)) && Current(collected, recent) == {}
      ensures forall i :: 0 <= i < g.size ==> !recent[i]
    {
      for i := 0 to g.size
        invariant Packed() && |recent| == g.size
        invariant forall j :: 0 <= j < i ==> !recent[j] && collected[j] == (old(collected[j]) || !old(recent[j]))
        invariant forall j :: i <= j < g.size ==> recent[j] == old(recent[j]) && collected[j] == old(collected[j])
      {
        if recent[i] {
          recent := recent[i := false];
        } else {
          AllowErase(i);
        }
      }
    }

    /** Leaves room for one more live entry in the current epoch. */
    method EpochCheck()
      requires Valid()
      modifies `collected, `recent, `counter, flags
      ensures Packed() && Placed(g, table, collected) && |recent| == g.size
      ensures |Current(collected, recent)| + 1 + counter <= epochSize + Slack(epochSize)
      ensures collected == old(Checked()) && G() == AfterCheck(old(G()), epochSize)
    {
      if counter != 0 {
        counter := counter - 1;
        return;
      }
      var unused := CountCurrent();
      CurrentIsYoung(g, table, collected, recent);
      if unused >= epochSize {
        Age();
        GensAged(table, old(collected), old(recent), recent);
        AgedKeepsPlaced(g, table, old(collected), collected);
        counter := epochSize;
      } else {
        var least := if epochSize / 16 > epochSize - unused then epochSize / 16 else epochSize - unused;
        counter := if least > 1 then least else 1;
      }
    }

    /** The first of the key's slots that holds it. */
    method FirstMatch(k: K) returns (m: nat)
      requires g.Ok() && |table| == g.size
      ensures m <= 8 && MissesBefore(g, table, k, m)
      ensures m < 8 ==> FoundAt(g, table, k, g.homes(k)[m])
    {
      m := 0;
      while m < 8
        invariant m <= 8 && MissesBefore(g, table, k, m)
      {
        if g.key(table[g.homes(k)[m]]) == k {
          return;
        }
        m := m + 1;
      }
    }

    /** The first of eight slots that is marked for collection. */
    method FirstCollected(locs: seq<nat>) returns (m: nat)
      requires Packed() && |locs| == 8 && forall j :: 0 <= j < 8 ==> locs[j] < |collected|
      ensures m <= 8 && (forall j :: 0 <= j < m ==> !collected[locs[j]]) && (m < 8 ==> collected[locs[m]])
    {
      m := 0;
      while m < 8
        invariant m <= 8 && forall j :: 0 <= j < m ==> !collected[locs[j]]
      {
        var gone := IsCollected(locs[m]);
        if gone {
          return;
        }
        m := m + 1;
      }
    }

    /** The slot after the last one used, going around; an unknown slot counts as the ninth. */
    static method NextSlot(locs: seq<nat>, last: int) returns (m: nat)
      requires |locs| == 8
      ensures m < 8 && (last !in locs ==> m == 1)
      ensures (forall i, j :: 0 <= i < j < 8 ==> locs[i] != locs[j]) ==> locs[m] != last
    {
      var i := 0;
      while i < 8 && locs[i] != last
        invariant i <= 8 && last !in locs[..i]
      {
        i := i + 1;
      }
      m := (1 + i) % 8;
    }

    /** Marks slot l as live, holding x. */
    method Keep(l: nat, x: E)
      requires Packed() && Placed(g, table, collected) && |recent| == g.size && FoundAt(g, table, g.key(x), l)
      modifies `table, `collected, `recent, flags
      ensures Packed() && Placed(g, table, collected) && |recent| == g.size
      ensures Live(table, collected) == old(Live(table, collected)) - {old(table)[l]} + {x}
      ensures |Current(collected, recent)| <= |old(Current(collected, recent))| + 1
      ensures GainsOnly(old(table), table, x)
      ensures G() == old(G()).(young := old(G()).young - {old(table)[l]} + {x}, old_ := old(G()).old_ - {old(table)[l]})
    {
      forall b ensures GenElse(table, collected, recent, b, l) == Gen(table, collected, recent, b) - {table[l]} {
        ElseOtherKeys(g, table, collected, recent, l, g.key(x), b);
        GenAfterWrite(table, collected, recent, x, l, false, true, b);
      }
      GenAfterWrite(table, collected, recent, x, l, false, true, true);
      GenAfterWrite(table, collected, recent, x, l, false, true, false);
      KeepIsRight(g, table, collected, x, l);
      CurrentAfterWrite(collected, recent, l, false, true);
      table := table[l := x];
      PleaseKeep(l);
      recent := recent[l := true];
    }

    /** Puts an element into the first of its slots that is marked for collection. */
    method Fill(e: E, mark: bool, m: nat)
      requires Packed() && Placed(g, table, collected) && |recent| == g.size && NotLive(g, table, collected, g.key(e))
      requires m < 8 && collected[g.homes(g.key(e))[m]]
      requires forall j :: 0 <= j < m ==> !collected[g.homes(g.key(e))[j]]
      modifies `table, `collected, `recent, flags
      ensures Packed() && Placed(g, table, collected) && |recent| == g.size
      ensures Live(table, collected) == old(Live(table, collected)) + {e}
      ensures |Current(collected, recent)| <= |old(Current(collected, recent))| + (if mark then 1 else 0)
      ensures GainsOnly(old(table), table, e)
      ensures G() == old(G()).(young := old(G()).young + OnlyIf(mark, e), old_ := old(G()).old_ + OnlyIf(!mark, e))
    {
      var l := g.homes(g.key(e))[m];
      GenAfterWrite(table, collected, recent, e, l, false, mark, true);
      GenAfterWrite(table, collected, recent, e, l, false, mark, false);
      FillIsRight(g, table, collected, e, m);
      CurrentAfterWrite(collected, recent, l, false, mark);
      table := table[l := e];
      PleaseKeep(l);
      recent := recent[l := mark];
    }

    /** Swaps an element with the live one in slot m of its eight, epochs included. */
    method Swap(e: E, mark: bool, m: nat) returns (evicted: E, epoch: bool)
      requires Placed(g, table, collected) && |recent| == g.size && NotLive(g, table, collected, g.key(e)) && m < 8
      requires forall j :: 0 <= j < 8 ==> !collected[g.homes(g.key(e))[j]]
      modifies `table, `recent
      ensures Placed(g, table, collected) && |recent| == g.size && NotLive(g, table, collected, g.key(evicted))
      ensures evicted in old(Live(table, collected))
      ensures Live(table, collected) == old(Live(table, collected)) - {evicted} + {e}
      ensures |Current(collected, recent)| + (if epoch then 1 else 0)
              == |old(Current(collected, recent))| + (if mark then 1 else 0)
      ensures GainsOnly(old(table), table, e) && evicted in old(table)
      ensures Moves(old(G()), G(), e, mark, evicted, epoch)
    {
      var l := g.homes(g.key(e))[m];
      GenAfterWrite(table, collected, recent, e, l, false, mark, true);
      GenAfterWrite(table, collected, recent, e, l, false, mark, false);
      SwapIsRight(g, table, collected, e, m);
      CurrentAfterWrite(collected, recent, l, false, mark);
      assert collected[l := false] == collected;
      evicted, epoch := table[l], recent[l];
      table := table[l := e];
      recent := recent[l := mark];
    }

    /** The cuckoo walk for an element whose key was not found: at most one element is lost on the way. */
    method Displace(e0: E) returns (ghost lost: set<E>)
      requires Packed() && Placed(g, table, collected) && |recent| == g.size
      requires NotLive(g, table, collected, g.key(e0))
      modifies `table, `collected, `recent, flags
      ensures Packed() && Placed(g, table, collected) && |recent| == g.size
      ensures Walked(g, old(table), old(collected), old(recent), table, collected, recent, counter, e0, lost)
      ensures depthLimit > 0 && (exists m :: 0 <= m < 8 && old(collected[g.homes(g.key(e0))[m]])) ==> lost == {}
    {
      ghost var t0, r0 := table, recent;
      var e, mark, last := e0, true, 0xffff_ffff;
      for depth := 0 to depthLimit
        invariant Packed() && Placed(g, table, collected) && |recent| == g.size
        invariant collected == old(collected) && MidWalk(g, t0, r0, table, collected, recent, counter, e0, e, mark)
        invariant if depth == 0 then e == e0 else forall m :: 0 <= m < 8 ==> !collected[g.homes(g.key(e0))[m]]
      {
        ghost var t, c, r, homeless, marked := table, collected, recent, e, mark;
        var done;
        done, e, mark, last := Turn(e, mark, last);
        if done {
          MidWalkFilled(g, t0, r0, t, c, r, table, collected, recent, counter, e0, homeless, marked);
          lost := {};
          return;
        }
        MidWalkOn(g, t0, r0, t, c, r, table, recent, counter, e0, homeless, marked, e, mark);
      }
      MidWalkLost(g, t0, r0, table, collected, recent, counter, e0, e, mark);
      lost := {e};
    }

    /** One turn of the walk: the element gets a slot that is marked for collection, or another element's. */
    method Turn(e: E, mark: bool, last: int) returns (done: bool, e': E, mark': bool, last': int)
      requires Packed() && Placed(g, table, collected) && |recent| == g.size && NotLive(g, table, collected, g.key(e))
      modifies `table, `collected, `recent, flags
      ensures Packed() && Placed(g, table, collected) && |recent| == g.size
      ensures done ==> Fills(old(table), old(collected), old(recent), table, collected, recent, counter, e, mark)
      ensures !done ==>
                && collected == old(collected) && (forall m :: 0 <= m < 8 ==> !collected[g.homes(g.key(e))[m]])
                && Ousts(g, old(table), collected, old(recent), table, recent, counter, e, mark, e', mark')
    {
      var locs := g.homes(g.key(e));
      var m := FirstCollected(locs);
      if m < 8 {
        Fill(e, mark, m);
        return true, e, mark, last;
      }
      m := NextSlot(locs, last);
      e', mark' := Swap(e, mark, m);
      done, last' := false, locs[m];
    }

    method InsertElement(e: E, replace: bool) returns (ghost ev: Event<E>)
      requires Valid()
      modifies `table, `collected, `recent, `counter, flags
      ensures Valid() && |old(Checked())| == |old(table)|
      ensures forall l: nat :: old(FoundAt(g, table, g.key(e), l)) ==>
                ev.lost == {} && Live(table, collected) ==
                  Live(old(table), old(Checked())) - {old(table)[l]} + {if replace then e else old(table)[l]}
      ensures old(MissesBefore(g, table, g.key(e), 8)) ==>
                |ev.lost| <= 1 && ev.lost <= Live(old(table), old(Checked())) + {e}
                && Live(table, collected) == Live(old(table), old(Checked())) + {e} - ev.lost
      ensures (exists m :: 0 <= m < 8 && old(Checked())[g.homes(g.key(e))[m]]) && depthLimit > 0 ==> ev.lost == {}
      ensures GainsOnly(old(table), table, e)
      ensures InsertStep(g.key, epochSize, old(G()), G(), e, replace, ev)
      ensures ev.kept !in ev.lost ==> exists l: nat :: FoundAt(g, table, g.key(e), l) && IsYoung(l, ev.kept)
    {
      EpochCheck();
      var k := g.key(e);
      var m := FirstMatch(k);
      if m < 8 {
        ev := KeepFound(e, replace, g.homes(k)[m]);
        KeptIsStep(g, old(G()), G(), e, replace, old(table)[g.homes(k)[m]], epochSize);
      } else {
        NoMatchNotLive(g, table, collected, k);
        ghost var t0, c0, r0 := table, collected, recent;
        ghost var lost := Displace(e);
        ev := Event({}, e, lost);
        WalkedIsStep(g, t0, c0, r0, table, collected, recent, counter, e, replace, lost, epochSize, old(G()));
      }
      if ev.kept !in ev.lost { YoungIsFound(ev.kept); }
    }

    /** The key is there: its element is kept or replaced. */
    method KeepFound(e: E, replace: bool, l: nat) returns (ghost ev: Event<E>)
      requires Packed() && Placed(g, table, collected) && |recent| == g.size && FoundAt(g, table, g.key(e), l)
      modifies `table, `collected, `recent, flags
      ensures Packed() && Placed(g, table, collected) && |recent| == g.size
      ensures ev == Event({old(table)[l]}, if replace then e else old(table)[l], {})
      ensures Live(table, collected) == old(Live(table, collected)) - {old(table)[l]} + {ev.kept}
      ensures |Current(collected, recent)| <= |old(Current(collected, recent))| + 1
      ensures GainsOnly(old(table), table, e)
      ensures forall i: nat :: old(FoundAt(g, table, g.key(e), i)) ==> i == l
      ensures G() == old(G()).(young := old(G()).young - ev.replaced + {ev.kept}, old_ := old(G()).old_ - ev.replaced)
    {
      forall i | FoundAt(g, table, g.key(e), i) ensures i == l { FoundOnce(g, table, g.key(e), i, l); }
      ev := Event({table[l]}, if replace then e else table[l], {});
      Keep(l, if replace then e else table[l]);
    }

    /** Slot l holds x, live and of the current generation. */
    ghost predicate IsYoung(l: nat, x: E)
      reads this
    {
      l < |table| == |collected| == |recent| && table[l] == x && !collected[l] && recent[l]
    }

    lemma YoungIsFound(x: E)
      requires Placed(g, table, collected) && |recent| == g.size && x in G().young
      ensures exists l: nat :: FoundAt(g, table, g.key(x), l) && IsYoung(l, x)
    {
      var i :| 0 <= i < |table| && !collected[i] && recent[i] == true && table[i] == x;
      assert FoundAt(g, table, g.key(x), i) && IsYoung(i, x);
    }

    /** Looks in the key's slots, whether marked for collection or not; erasing only marks the slot. */
    method Find(k: K, erase: bool) returns (r: Option<E>)
      requires Valid()
      modifies `collected, flags
      ensures Valid()
      ensures r.None? <==> MissesBefore(g, table, k, 8)
      ensures r.Some? ==> exists l: nat :: FoundAt(g, table, k, l) && table[l] == r.value
      ensures forall x :: x in old(Live(table, collected)) && g.key(x) == k ==> r == Some(x)
      ensures Live(table, collected) ==
                if erase && r.Some? then old(Live(table, collected)) - {r.value} else old(Live(table, collected))
      ensures LookupStep(g.key, old(G()), G(), k, erase)
    {
      forall x, l: nat | x in Live(table, collected) && g.key(x) == k && FoundAt(g, table, k, l)
        ensures table[l] == x
      {
        LiveIsFound(g, table, collected, x, l);
      }
      forall x | x in Live(table, collected) && g.key(x) == k ensures !MissesBefore(g, table, k, 8) {
        LiveIsFound(g, table, collected, x, 0);
      }
      var m := FirstMatch(k);
      if m == 8 {
        NoMatchNotLive(g, table, collected, k);
        NotLiveInGen(g, table, collected, recent, k, true);
        NotLiveInGen(g, table, collected, recent, k, false);
        return None;
      }
      var l := g.homes(k)[m];
      r := Some(table[l]);
      if erase {
        ElseOtherKeys(g, table, collected, recent, l, k, true);
        ElseOtherKeys(g, table, collected, recent, l, k, false);
        GenAfterWrite(table, collected, recent, table[l], l, true, recent[l], true);
        GenAfterWrite(table, collected, recent, table[l], l, true, recent[l], false);
        assert table[l := table[l]] == table;
        CollectIsRight(g, table, collected, l);
        CurrentAfterWrite(collected, recent, l, true, recent[l]);
        assert recent[l := recent[l]] == recent;
        AllowErase(l);
      }
    }

    method ContainsKey(k: K, erase: bool) returns (found: bool)
      requires Valid()
      modifies `collected, flags
      ensures Valid() && found == !MissesBefore(g, table, k, 8)
      ensures (exists x :: x in old(Live(table, collected)) && g.key(x) == k) ==> found
      ensures Live(table, collected) ==
                if erase then Except(g.key, old(Live(table, collected)), k) else old(Live(table, collected))
      ensures LookupStep(g.key, old(G()), G(), k, erase)
    {
      var r := Find(k, erase);
      found := r.Some?;
    }

    /** The copy that get makes into its argument. */
    method GetElement(e: E, erase: bool) returns (found: bool, copy: E)
      requires Valid()
      modifies `collected, flags
      ensures Valid() && found == !MissesBefore(g, table, g.key(e), 8)
      ensures if found then g.key(copy) == g.key(e) else copy == e
      ensures forall x :: x in old(Live(table, collected)) && g.key(x) == g.key(e) ==> found && copy == x
      ensures Live(table, collected) ==
                if erase then Except(g.key, old(Live(table, collected)), g.key(e)) else old(Live(table, collected))
      ensures LookupStep(g.key, old(G()), G(), g.key(e), erase)
    {
      var r := Find(g.key(e), erase);
      if r.Some? {
        return true, r.value;
      }
      return false, e;
    }

    /** Any run of calls after setup: nothing is ever found that was not inserted or there from the start, and the
      * generations go through the steps that the laws are about.
      */
    method Run(calls: seq<Call<E, K>>) returns (ghost states: seq<Gens<E>>, ghost events: seq<Event<E>>)
      requires Valid()
      modifies `table, `collected, `recent, `counter, flags
      ensures Valid() && forall x :: x in table ==> x in old(table) || x in Inserted(calls)
      ensures Trace(g.key, epochSize, states, calls, events) && states[0] == old(G()) && states[|calls|] == G()
    {
      states, events := [G()], [];
      for i := 0 to |calls|
        invariant Valid() && forall x :: x in table ==> x in old(table) || x in Inserted(calls[..i])
        invariant Trace(g.key, epochSize, states, calls[..i], events) && states[0] == old(G()) && states[i] == G()
      {
        InsertedNext(calls, i);
        ghost var ev := Perform(calls[i]);
        TraceSnoc(g.key, epochSize, states, calls, i, events, G(), ev);
        states, events := states + [G()], events + [ev];
      }
      assert calls[..|calls|] == calls;
    }

    method Perform(call: Call<E, K>) returns (ghost ev: Event<E>)
      requires Valid()
      modifies `table, `collected, `recent, `counter, flags
      ensures Valid() && Step(g.key, epochSize, old(G()), G(), call, ev)
      ensures forall x :: x in table ==> x in old(table) || (call.Insert? && x == call.e)
    {
      ev := *;
      match call
      case Insert(e, replace) => ev := InsertElement(e, replace);
      case Contains(k, erase) => var _ := ContainsKey(k, erase);
      case Get(e, erase) => var _, _ := GetElement(e, erase);
    }
  }
}
