/** Eight collection flags to the byte (src/cuckoocache.h). */
module CuckooFlags {
  type U32 = x: int | 0 <= x < 0x1_0000_0000

  /** One bit, shifted to position k. */
  function Mask(k: nat): bv8
    requires k < 8
  {
    match k
    case 0 => 1
    case 1 => 2
    case 2 => 4
    case 3 => 8
    case 4 => 16
    case 5 => 32
    case 6 => 64
    case _ => 128
  }

  predicate Hits(m: bv8, b: bv8) { m & b != 0 }

  predicate IsSet(b: bv8, k: nat)
    requires k < 8
  {
    Hits(Mask(k), b)
  }

  lemma MaskIsShift(k: nat)
    requires k < 8
    ensures Mask(k) == 1 << k && Mask(k) != 0
  {
    if
    case k == 0 => assert 1 as bv8 << 0 == 1;
    case k == 1 => assert 1 as bv8 << 1 == 2;
    case k == 2 => assert 1 as bv8 << 2 == 4;
    case k == 3 => assert 1 as bv8 << 3 == 8;
    case k == 4 => assert 1 as bv8 << 4 == 16;
    case k == 5 => assert 1 as bv8 << 5 == 32;
    case k == 6 => assert 1 as bv8 << 6 == 64;
    case k == 7 => assert 1 as bv8 << 7 == 128;
  }

  method Cleared(b: bv8, k: nat) returns (r: bv8)
    requires k < 8
    ensures r == b & !Mask(k)
  {
    MaskIsShift(k);
    r := b & !(1 << k);
  }

  lemma MasksDisjoint(j: nat, k: nat)
    requires j < 8 && k < 8 && j != k
    ensures !Hits(Mask(j), Mask(k))
  {
  }

  lemma Elsewhere(b: bv8, m: bv8, n: bv8)
    requires !Hits(m, n)
    ensures Hits(n, b | m) == Hits(n, b)
    ensures Hits(n, b & !m) == Hits(n, b)
  {
  }

  lemma There(b: bv8, m: bv8)
    requires m != 0
    ensures Hits(m, b | m) && !Hits(m, b & !m)
  {
  }

  /** Setting or clearing one bit of a byte is seen at that bit only. */
  lemma OneBit(b: bv8, j: nat, k: nat)
    requires j < 8 && k < 8
    ensures IsSet(b | Mask(j), k) <==> j == k || IsSet(b, k)
    ensures IsSet(b & !Mask(j), k) <==> j != k && IsSet(b, k)
  {
    if j == k { SameBit(b, j); } else { OtherBitSet(b, j, k); OtherBitUnset(b, j, k); }
  }

  lemma SameBit(b: bv8, k: nat)
    requires k < 8
    ensures IsSet(b | Mask(k), k) && !IsSet(b & !Mask(k), k)
  {
    MaskIsShift(k);
    There(b, Mask(k));
  }

  lemma OtherBitSet(b: bv8, j: nat, k: nat)
    requires j < 8 && k < 8 && j != k
    ensures IsSet(b | Mask(j), k) <==> IsSet(b, k)
  {
    MasksDisjoint(j, k);
    Elsewhere(b, Mask(j), Mask(k));
  }

  lemma OtherBitUnset(b: bv8, j: nat, k: nat)
    requires j < 8 && k < 8 && j != k
    ensures IsSet(b & !Mask(j), k) <==> IsSet(b, k)
  {
    MasksDisjoint(j, k);
    Elsewhere(b, Mask(j), Mask(k));
  }

  /** The flags as a plain sequence. */
  ghost function Unpack(mem: seq<bv8>): (r: seq<bool>)
    ensures |r| == 8 * |mem|
  {
    seq(8 * |mem|, s requires 0 <= s < 8 * |mem| => IsSet(mem[s / 8], s % 8))
  }

  lemma ByteUpdate(mem: seq<bv8>, s: nat, b: bv8, v: bool)
    requires s < 8 * |mem| && forall k :: 0 <= k < 8 ==> IsSet(b, k) == if k == s % 8 then v else IsSet(mem[s / 8], k)
    ensures Unpack(mem[s / 8 := b]) == Unpack(mem)[s := v]
  {
    var after := Unpack(mem[s / 8 := b]);
    forall i | 0 <= i < |after| ensures after[i] == if i == s then v else Unpack(mem)[i] {
      assert i / 8 == s / 8 ==> IsSet(b, i % 8) == if i % 8 == s % 8 then v else IsSet(mem[s / 8], i % 8);
    }
  }

  lemma SetIsRight(mem: seq<bv8>, s: nat)
    requires s < 8 * |mem|
    ensures Unpack(mem[s / 8 := mem[s / 8] | Mask(s % 8)]) == Unpack(mem)[s := true]
  {
    forall k | 0 <= k < 8
      ensures IsSet(mem[s / 8] | Mask(s % 8), k) == if k == s % 8 then true else IsSet(mem[s / 8], k)
    {
      OneBit(mem[s / 8], s % 8, k);
    }
    ByteUpdate(mem, s, mem[s / 8] | Mask(s % 8), true);
  }

  lemma UnsetIsRight(mem: seq<bv8>, s: nat)
    requires s < 8 * |mem|
    ensures Unpack(mem[s / 8 := mem[s / 8] & !Mask(s % 8)]) == Unpack(mem)[s := false]
  {
    forall k | 0 <= k < 8
      ensures IsSet(mem[s / 8] & !Mask(s % 8), k) == if k == s % 8 then false else IsSet(mem[s / 8], k)
    {
      OneBit(mem[s / 8], s % 8, k);
    }
    ByteUpdate(mem, s, mem[s / 8] & !Mask(s % 8), false);
  }

  class BitPackedFlags {
    var mem: seq<bv8>

    /** Every flag is set; there are enough of them unless the padding goes round in 32 bits. */
    constructor (size: U32)
      ensures forall s :: 0 <= s < |Unpack(mem)| ==> Unpack(mem)[s]
      ensures size <= |Unpack(mem)| <==> size + 7 < 0x1_0000_0000
    {
      mem := seq((size + 7) % 0x1_0000_0000 / 8, _ => 0xff);
    }

    method BitSet(s: nat)
      requires s < |Unpack(mem)|
      modifies this
      ensures Unpack(mem) == old(Unpack(mem))[s := true]
    {
      SetIsRight(mem, s);
      MaskIsShift(s % 8);
      mem := mem[s / 8 := mem[s / 8] | (1 << (s % 8))];
    }

    method BitUnset(s: nat)
      requires s < |Unpack(mem)|
      modifies this
      ensures Unpack(mem) == old(Unpack(mem))[s := false]
    {
      UnsetIsRight(mem, s);
      var b := Cleared(mem[s / 8], s % 8);
      mem := mem[s / 8 := b];
    }

    method BitIsSet(s: nat) returns (r: bool)
      requires s < |Unpack(mem)|
      ensures r == Unpack(mem)[s]
    {
      MaskIsShift(s % 8);
      r := (1 << (s % 8)) & mem[s / 8] != 0;
    }
  }
}
