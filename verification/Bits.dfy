/** 64-bit words as naturals, bit 0 being the least significant. */
module Bits {
  import opened Sets
  import RowMajor

  const WORD := 0x1_0000_0000_0000_0000

  type Uint64 = n: int | 0 <= n < 0x1_0000_0000_0000_0000

  function Bit(v: nat, i: nat): bool
    decreases i
  {
    if i == 0 then v % 2 == 1 else Bit(v / 2, i - 1)
  }

  /** Go's `v << 1`: the top bit is lost. */
  function ShiftLeft(v: Uint64): Uint64 {
    (2 * v) % WORD
  }

  /** Go's `v | 1`. */
  function OrOne(v: Uint64): Uint64 {
    if v % 2 == 0 then v + 1 else v
  }

  function Xor(a: nat, b: nat, width: nat): nat
    decreases a, width
  {
    if width == 0 then 0
    else 2 * Xor(a / 2, b / 2, width - 1) + if a % 2 != b % 2 then 1 else 0
  }

  function OnesCount(v: nat, width: nat): nat
    decreases v, width
  {
    if width == 0 then 0 else OnesCount(v / 2, width - 1) + v % 2
  }

  /** The number of bits in a word. */
  function Size(): nat {
    64
  }

  function HammingDistance(a: Uint64, b: Uint64): nat {
    OnesCount(Xor(a, b, Size()), Size())
  }

  // ---------- what the distance means ----------

  lemma {:induction false} XorBit(a: nat, b: nat, width: nat, i: nat)
    requires i < width
    ensures Bit(Xor(a, b, width), i) <==> Bit(a, i) != Bit(b, i)
    decreases width
  {
    var low := if a % 2 != b % 2 then 1 else 0;
    assert Xor(a, b, width) / 2 == Xor(a / 2, b / 2, width - 1);
    if i > 0 {
      XorBit(a / 2, b / 2, width - 1, i - 1);
    }
  }

  ghost function SetBits(v: nat, width: nat): set<nat> {
    set i: nat | i < width && Bit(v, i)
  }

  lemma {:induction false} OnesCountCounts(v: nat, width: nat)
    ensures OnesCount(v, width) == |SetBits(v, width)|
    decreases width
  {
    if width == 0 {
      assert SetBits(v, width) == {};
    } else {
      var upper := SetBits(v / 2, width - 1);
      var up := (i: nat) => i + 1;
      OnesCountCounts(v / 2, width - 1);
      ImageSize(upper, up);
      forall i: nat
        ensures i in SetBits(v, width) <==> i in ImageOf(upper, up) || (i == 0 && v % 2 == 1)
      {
        if i in SetBits(v, width) && i > 0 {
          assert i - 1 in upper && up(i - 1) == i;
        }
      }
      assert SetBits(v, width) == ImageOf(upper, up) + if v % 2 == 1 then {0} else {};
    }
  }

  ghost function DifferingBits(a: nat, b: nat): set<nat> {
    set i: nat | i < Size() && Bit(a, i) != Bit(b, i)
  }

  /** The distance is the number of positions in which the words differ. */
  lemma HammingCounts(a: Uint64, b: Uint64)
    ensures HammingDistance(a, b) == |DifferingBits(a, b)|
  {
    OnesCountCounts(Xor(a, b, Size()), Size());
    forall i: nat | i < Size()
      ensures Bit(Xor(a, b, Size()), i) <==> Bit(a, i) != Bit(b, i)
    {
      XorBit(a, b, Size(), i);
    }
    assert SetBits(Xor(a, b, Size()), Size()) == DifferingBits(a, b);
  }

  lemma HammingSymmetric(a: Uint64, b: Uint64)
    ensures HammingDistance(a, b) == HammingDistance(b, a)
  {
    HammingCounts(a, b);
    HammingCounts(b, a);
    assert DifferingBits(a, b) == DifferingBits(b, a);
  }

  lemma HammingTriangle(a: Uint64, b: Uint64, c: Uint64)
    ensures HammingDistance(a, c) <= HammingDistance(a, b) + HammingDistance(b, c)
  {
    HammingCounts(a, b);
    HammingCounts(b, c);
    HammingCounts(a, c);
    var both := DifferingBits(a, b) + DifferingBits(b, c);
    SubsetSize(DifferingBits(a, c), both);
    UnionSize(DifferingBits(a, b), DifferingBits(b, c));
  }

  lemma {:induction false} EqualBits(a: nat, b: nat, limit: nat, width: nat)
    requires a < limit && b < limit && limit == Pow2(width)
    requires forall i :: 0 <= i < width ==> Bit(a, i) == Bit(b, i)
    ensures a == b
    decreases width
  {
    if width > 0 {
      forall i | 0 <= i < width - 1
        ensures Bit(a / 2, i) == Bit(b / 2, i)
      {
        assert Bit(a, i + 1) == Bit(b, i + 1);
      }
      EqualBits(a / 2, b / 2, Pow2(width - 1), width - 1);
      assert Bit(a, 0) == Bit(b, 0);
    }
  }

  lemma ShiftFits(v: Uint64)
    requires 2 * v < WORD
    ensures ShiftLeft(v) == 2 * v
  {
  }

  function Pow2(n: nat): nat {
    if n == 0 then 1 else 2 * Pow2(n - 1)
  }

  lemma Pow2Byte(n: nat)
    ensures Pow2(n + 8) == 256 * Pow2(n)
  {
    assert Pow2(n + 2) == 2 * Pow2(n + 1);
    assert Pow2(n + 4) == 2 * Pow2(n + 3);
    assert Pow2(n + 6) == 2 * Pow2(n + 5);
    assert Pow2(n + 8) == 2 * Pow2(n + 7);
  }

  lemma WordIsPow2()
    ensures Pow2(Size()) == WORD
  {
    Pow2Byte(0);
    Pow2Byte(8);
    Pow2Byte(16);
    Pow2Byte(24);
    Pow2Byte(32);
    Pow2Byte(40);
    Pow2Byte(48);
    Pow2Byte(56);
  }

  /** Distance zero means the same word. */
  lemma HammingZero(a: Uint64, b: Uint64)
    ensures HammingDistance(a, b) == 0 <==> a == b
  {
    HammingCounts(a, b);
    WordIsPow2();
    if HammingDistance(a, b) == 0 {
      forall i: nat | i < Size()
        ensures Bit(a, i) == Bit(b, i)
      {
        assert i !in DifferingBits(a, b);
      }
      EqualBits(a, b, WORD, Size());
    } else {
      assert DifferingBits(a, b) != {};
    }
  }

  // ---------- packing bits into a word ----------

  /** A row of bits as a number, the last one in position 0. */
  function Packed(bits: seq<bool>): (v: nat)
    ensures v < Pow2(|bits|)
  {
    if bits == [] then 0
    else
      var k := |bits| - 1;
      2 * Packed(bits[..k]) + if bits[k] then 1 else 0
  }

  lemma {:induction false} Pow2Monotone(m: nat, n: nat)
    requires m <= n
    ensures Pow2(m) <= Pow2(n)
  {
    if m < n {
      Pow2Monotone(m, n - 1);
    }
  }

  lemma PackedFits(bits: seq<bool>)
    requires |bits| <= Size()
    ensures Packed(bits) < WORD
  {
    WordIsPow2();
    Pow2Monotone(|bits|, Size());
  }

  /** Shifting in one more bit never loses one. */
  lemma ShiftIn(bits: seq<bool>, k: nat)
    requires k < |bits| <= Size()
    ensures Packed(bits[..k]) < WORD && Packed(bits[..k + 1]) < WORD
    ensures Packed(bits[..k + 1]) == (var v := ShiftLeft(Packed(bits[..k])); if bits[k] then OrOne(v) else v)
  {
    assert bits[..k + 1][..k] == bits[..k];
    PackedFits(bits[..k]);
    PackedFits(bits[..k + 1]);
    ShiftFits(Packed(bits[..k]));
  }

  lemma {:induction false} PackedBit(bits: seq<bool>, i: nat)
    requires i < |bits|
    ensures Bit(Packed(bits), |bits| - 1 - i) == bits[i]
  {
    var k := |bits| - 1;
    assert Packed(bits) / 2 == Packed(bits[..k]);
    if i < k {
      PackedBit(bits[..k], i);
    }
  }

  /** A packed word determines its bits. */
  lemma PackedSame(a: seq<bool>, b: seq<bool>)
    requires |a| == |b| && Packed(a) == Packed(b)
    ensures a == b
  {
    forall i | 0 <= i < |a|
      ensures a[i] == b[i]
    {
      PackedBit(a, i);
      PackedBit(b, i);
    }
  }

  /** Bits that are all set make the largest number, cleared ones make zero. */
  lemma {:induction false} PackedUniform(bits: seq<bool>)
    ensures (forall i :: 0 <= i < |bits| ==> bits[i]) ==> Packed(bits) == Pow2(|bits|) - 1
    ensures (forall i :: 0 <= i < |bits| ==> !bits[i]) ==> Packed(bits) == 0
  {
    if bits != [] {
      PackedUniform(bits[..|bits| - 1]);
    }
  }

  /** Bit i is the binary digit of weight 2^i. */
  lemma {:induction false} BitIsDigit(v: nat, i: nat)
    ensures Pow2(i) > 0 && (Bit(v, i) <==> (v / Pow2(i)) % 2 == 1)
    decreases i
  {
    if i > 0 {
      BitIsDigit(v / 2, i - 1);
      HalveFirst(v, Pow2(i - 1));
    }
  }

  lemma HalveFirst(v: nat, n: nat)
    requires n > 0
    ensures v / 2 / n == v / (2 * n)
  {
    var q, r := v / (2 * n), v % (2 * n);
    assert v == q * (2 * n) + r;
    assert q * (2 * n) == 2 * (q * n);
    assert v / 2 == q * n + r / 2;
    RowMajor.Flat(n, v / 2, r / 2, q);
  }

  /** The words 0 and 2^64 - 1 differ everywhere. */
  lemma OppositeWords()
    ensures HammingDistance(0, WORD - 1) == Size()
  {
    HammingCounts(0, WORD - 1);
    forall i: nat | i < Size()
      ensures !Bit(0, i) && Bit(WORD - 1, i)
    {
      ZeroBit(i);
      WordIsPow2();
      OnesBit(WORD - 1, Size(), i);
    }
    assert DifferingBits(0, WORD - 1) == Positions(Size());
  }

  lemma {:induction false} ZeroBit(i: nat)
    ensures !Bit(0, i)
  {
    if i > 0 {
      ZeroBit(i - 1);
    }
  }

  lemma {:induction false} OnesBit(v: nat, width: nat, i: nat)
    requires i < width && v + 1 == Pow2(width)
    ensures Bit(v, i)
    decreases i
  {
    var half := Pow2(width - 1);
    assert v == 2 * (half - 1) + 1;
    if i > 0 {
      OnesBit(half - 1, width - 1, i - 1);
    }
  }

  function Positions(n: nat): (s: set<nat>)
    ensures |s| == n && forall i: nat :: i in s <==> i < n
  {
    if n == 0 then {} else Positions(n - 1) + {n - 1}
  }
}
