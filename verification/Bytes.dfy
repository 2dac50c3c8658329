/** Little-endian fields and the alignment arithmetic of the ELF note reader. */
module Bytes {

  type byte = x: int | 0 <= x < 256

  function Pow256(n: nat): (p: nat)
    ensures p > 0
  {
    if n == 0 then 1 else 256 * Pow256(n - 1)
  }

  lemma FieldWidths()
    ensures Pow256(2) == 0x1_0000 && Pow256(4) == 0x1_0000_0000
    ensures Pow256(8) == 0x1_0000_0000_0000_0000
  {
    assert Pow256(2) == 256 * Pow256(1);
    assert Pow256(4) == 256 * (256 * Pow256(2));
    assert Pow256(8) == 256 * (256 * Pow256(6)) && Pow256(6) == 256 * (256 * Pow256(4));
  }

  /** The value of a little-endian field, as struct.unpack_from reads it. */
  function Unpack(s: seq<byte>): nat {
    if s == [] then 0 else s[0] + 256 * Unpack(s[1..])
  }

  /** The little-endian field of n bytes that holds v. */
  function Pack(v: nat, n: nat): (s: seq<byte>)
    ensures |s| == n
  {
    if n == 0 then [] else [v % 256] + Pack(v / 256, n - 1)
  }

  lemma {:induction false} UnpackPack(v: nat, n: nat)
    requires v < Pow256(n)
    ensures Unpack(Pack(v, n)) == v
  {
    if n == 0 {
    } else {
      assert Pack(v, n)[1..] == Pack(v / 256, n - 1);
      UnpackPack(v / 256, n - 1);
    }
  }

  lemma {:induction false} PackUnpack(s: seq<byte>)
    ensures Unpack(s) < Pow256(|s|)
    ensures Pack(Unpack(s), |s|) == s
  {
    if s == [] {
    } else {
      PackUnpack(s[1..]);
      assert Unpack(s) / 256 == Unpack(s[1..]);
      assert s == [s[0]] + s[1..];
    }
  }

  /** The n bytes of data from offset on, as a number. */
  function Field(data: seq<byte>, offset: nat, n: nat): nat
    requires offset + n <= |data|
  {
    Unpack(data[offset..offset + n])
  }

  /** x & ~mask on unbounded non-negative numbers. */
  function ClearBits(x: nat, mask: nat): nat {
    if x == 0 then 0
    else 2 * ClearBits(x / 2, mask / 2) + (if x % 2 == 1 && mask % 2 == 0 then 1 else 0)
  }

  function Align(value: nat, alignment: nat): nat
    requires alignment > 0
  {
    ClearBits(value + alignment - 1, alignment - 1)
  }

  lemma {:induction false} ClearNothing(x: nat)
    ensures ClearBits(x, 0) == x
  {
    if x == 0 {
    } else {
      ClearNothing(x / 2);
    }
  }

  lemma ClearStep(x: nat, mask: nat)
    ensures mask % 2 == 1 ==> ClearBits(x, mask) == 2 * ClearBits(x / 2, mask / 2)
  {
  }

  lemma Halves(x: nat)
    ensures x / 2 / 2 == x / 4 && x / 4 / 2 == x / 8
  {
  }

  /** Clearing the low bits rounds down to a multiple of the power of two above them. */
  lemma RoundDown(x: nat)
    ensures ClearBits(x, 3) == 4 * (x / 4) && ClearBits(x, 7) == 8 * (x / 8)
  {
    hide ClearBits;
    Halves(x);
    ClearStep(x, 7);
    ClearStep(x / 2, 3);
    ClearStep(x / 4, 1);
    ClearNothing(x / 8);
    ClearStep(x, 3);
    ClearStep(x / 2, 1);
    ClearNothing(x / 4);
  }

  /** A multiple of the alignment, for the two alignments of note segments. */
  predicate Multiple(x: nat, alignment: nat) {
    if alignment == 8 then x == 8 * (x / 8) else x == 4 * (x / 4)
  }

  /** Aligning gives the least multiple of the alignment that is not below the value. */
  lemma AlignMeaning(value: nat, alignment: nat)
    requires alignment == 4 || alignment == 8
    ensures Multiple(Align(value, alignment), alignment)
    ensures value <= Align(value, alignment) < value + alignment
  {
    hide ClearBits;
    RoundDown(value + alignment - 1);
    if alignment == 4 {
      var q := (value + 3) / 4;
      assert Align(value, 4) == 4 * q;
      assert 4 * q / 4 == q;
    } else {
      var q := (value + 7) / 8;
      assert Align(value, 8) == 8 * q;
      assert 8 * q / 8 == q;
    }
  }

  lemma OneStep4(b: nat, x: nat, y: nat, low: nat)
    requires 4 * b + low <= 4 * x < 4 * b + low + 4 && low <= 4 * y < low + 4
    ensures x == b + y
  {
  }

  lemma OneStep8(b: nat, x: nat, y: nat, low: nat)
    requires 8 * b + low <= 8 * x < 8 * b + low + 8 && low <= 8 * y < low + 8
    ensures x == b + y
  {
  }

  /** A window as wide as the alignment holds one multiple of it. */
  lemma OneMultiple(base: nat, x: nat, y: nat, low: nat, alignment: nat)
    requires alignment == 4 || alignment == 8
    requires Multiple(base, alignment) && Multiple(x, alignment) && Multiple(y, alignment)
    requires base + low <= x < base + low + alignment && low <= y < low + alignment
    ensures x == base + y
  {
    if alignment == 4 {
      OneStep4(base / 4, x / 4, y / 4, low);
    } else {
      OneStep8(base / 8, x / 8, y / 8, low);
    }
  }

  /** Aligning commutes with moving by a multiple of the alignment. */
  lemma AlignShift(base: nat, value: nat, alignment: nat)
    requires alignment == 4 || alignment == 8
    requires Multiple(base, alignment)
    ensures Align(base + value, alignment) == base + Align(value, alignment)
  {
    hide ClearBits, Align, Multiple;
    AlignMeaning(value, alignment);
    AlignMeaning(base + value, alignment);
    OneMultiple(base, Align(base + value, alignment), Align(value, alignment), value, alignment);
  }
}
