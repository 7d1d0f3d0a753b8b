/**
 Bytes, bits and little-endian fields.

 The kernel reads and writes its on-disk structures through casts of byte
 buffers: bitmaps are arrays of bits packed eight to a byte, block pointers and
 directory entry fields are little-endian integers.  Every other file-system
 module works through the laws proved here: reading back what was written, and
 leaving every other field alone.
 */
module Bytes {

  type byte = x: int | 0 <= x < 256

  const U16: nat := 0x1_0000
  const U32: nat := 0x1_0000_0000

  // ----- bits of a byte ------------------------------------------------------

  /** (b >> k) & 1 */
  predicate TestBit(b: nat, k: nat)
    decreases k
  {
    if k == 0 then b % 2 == 1 else TestBit(b / 2, k - 1)
  }

  /** b |= 1 << k when v, b &= ~(1 << k) otherwise. */
  function PutBit(b: nat, k: nat, v: bool): (r: nat)
    ensures forall j: nat :: TestBit(r, j) == if j == k then v else TestBit(b, j)
    decreases k
  {
    if k == 0 then
      2 * (b / 2) + (if v then 1 else 0)
    else
      var h := PutBit(b / 2, k - 1, v);
      var r := 2 * h + b % 2;
      assert forall j: nat :: TestBit(r, j) == if j == k then v else TestBit(b, j) by {
        assert r / 2 == h;
        forall j: nat
          ensures TestBit(r, j) == if j == k then v else TestBit(b, j)
        {
          if j > 0 {
            assert TestBit(h, j - 1) == if j - 1 == k - 1 then v else TestBit(b / 2, j - 1);
          }
        }
      }
      r
  }

  function Pow2(n: nat): (p: nat)
    ensures p > 0
  {
    if n == 0 then 1 else 2 * Pow2(n - 1)
  }

  /** Bit k is the digit worth 2^k. */
  lemma {:induction false} BitWeight(high: nat, v: nat, low: nat, k: nat)
    requires v < 2 && low < Pow2(k)
    ensures TestBit((2 * high + v) * Pow2(k) + low, k) <==> v == 1
    decreases k
  {
    if k == 0 {
      assert (2 * high + v) * Pow2(k) == 2 * high + v;
    } else {
      var x := (2 * high + v) * Pow2(k - 1);
      assert (2 * high + v) * Pow2(k) == 2 * x;
      BitWeight(high, v, low / 2, k - 1);
    }
  }

  /** Changing a bit below n keeps an n-bit number an n-bit number. */
  lemma {:induction false} PutBitRange(b: nat, k: nat, v: bool, n: nat)
    requires k < n && b < Pow2(n)
    ensures PutBit(b, k, v) < Pow2(n)
    decreases n
  {
    if k > 0 {
      PutBitRange(b / 2, k - 1, v, n - 1);
    }
  }

  function PutBitInByte(b: byte, k: nat, v: bool): (r: byte)
    requires k < 8
    ensures forall j: nat :: TestBit(r, j) == if j == k then v else TestBit(b, j)
  {
    assert Pow2(8) == 256;
    PutBitRange(b, k, v, 8);
    PutBit(b, k, v)
  }

  // ----- bitmaps -------------------------------------------------------------

  /** Bit i of a bitmap; bits beyond the bitmap read as clear. */
  predicate Bit(bm: seq<byte>, i: nat)
  {
    i / 8 < |bm| && TestBit(bm[i / 8], i % 8)
  }

  /** Bit 8n + k of a bitmap is the digit worth 2^k of its byte n. */
  lemma BitmapBit(bm: seq<byte>, n: nat, high: nat, v: nat, low: nat, k: nat)
    requires n < |bm| && k < 8 && v < 2 && low < Pow2(k) && bm[n] == (2 * high + v) * Pow2(k) + low
    ensures Bit(bm, 8 * n + k) <==> v == 1
  {
    BitWeight(high, v, low, k);
  }

  function SetBit(bm: seq<byte>, i: nat, v: bool): (r: seq<byte>)
    requires i / 8 < |bm|
    ensures |r| == |bm|
    ensures forall j: nat :: Bit(r, j) == if j == i then v else Bit(bm, j)
  {
    bm[i / 8 := PutBitInByte(bm[i / 8], i % 8, v)]
  }

  /** Number of clear bits among the first n. */
  function ClearBits(bm: seq<byte>, n: nat): (c: nat)
    ensures c <= n
  {
    if n == 0 then 0 else ClearBits(bm, n - 1) + if Bit(bm, n - 1) then 0 else 1
  }

  /** Flipping one bit below n moves the count of clear bits by one. */
  lemma {:induction false} ClearBitsFlip(bm: seq<byte>, i: nat, v: bool, n: nat)
    requires i / 8 < |bm|
    requires Bit(bm, i) != v
    ensures ClearBits(SetBit(bm, i, v), n) ==
            if i < n then (if v then ClearBits(bm, n) - 1 else ClearBits(bm, n) + 1) else ClearBits(bm, n)
  {
    if n > 0 {
      ClearBitsFlip(bm, i, v, n - 1);
    }
  }

  /** The count is zero exactly when every bit is set. */
  lemma {:induction false} NoClearBits(bm: seq<byte>, n: nat)
    ensures ClearBits(bm, n) == 0 <==> forall i :: 0 <= i < n ==> Bit(bm, i)
  {
    if n > 0 {
      NoClearBits(bm, n - 1);
    }
  }

  lemma {:induction false} ClearBitsExt(a: seq<byte>, b: seq<byte>, n: nat)
    requires forall i :: 0 <= i < n ==> Bit(a, i) == Bit(b, i)
    ensures ClearBits(a, n) == ClearBits(b, n)
  {
    if n > 0 {
      ClearBitsExt(a, b, n - 1);
    }
  }

  /** The scan every bitmap allocator runs: the first clear bit below n, or n. */
  method FindClear(bitmap: seq<byte>, n: nat) returns (i: nat)
    requires n <= 8 * |bitmap|
    ensures i <= n && forall j :: 0 <= j < i ==> Bit(bitmap, j)
    ensures i < n ==> !Bit(bitmap, i)
  {
    i := 0;
    while i < n
      invariant i <= n
      invariant forall j :: 0 <= j < i ==> Bit(bitmap, j)
    {
      if !TestBit(bitmap[i / 8], i % 8) {
        return;
      }
      i := i + 1;
    }
  }

  // ----- little-endian fields ------------------------------------------------

  function GetU16(b: seq<byte>, o: nat): (v: nat)
    requires o + 2 <= |b|
    ensures v < U16
  {
    b[o] as int + 256 * b[o + 1] as int
  }

  function PutU16(b: seq<byte>, o: nat, v: nat): (r: seq<byte>)
    requires o + 2 <= |b| && v < U16
    ensures |r| == |b| && GetU16(r, o) == v
    ensures forall i :: 0 <= i < |b| && !(o <= i < o + 2) ==> r[i] == b[i]
  {
    b[o := v % 256][o + 1 := v / 256]
  }

  function GetU32(b: seq<byte>, o: nat): (v: nat)
    requires o + 4 <= |b|
    ensures v < U32
  {
    b[o] as int + 256 * (b[o + 1] as int) + 0x1_0000 * (b[o + 2] as int) + 0x100_0000 * (b[o + 3] as int)
  }

  function PutU32(b: seq<byte>, o: nat, v: nat): (r: seq<byte>)
    requires o + 4 <= |b| && v < U32
    ensures |r| == |b| && GetU32(r, o) == v
    ensures forall i :: 0 <= i < |b| && !(o <= i < o + 4) ==> r[i] == b[i]
  {
    Digits(v);
    b[o := v % 256][o + 1 := v / 256 % 256][o + 2 := v / 0x1_0000 % 256][o + 3 := v / 0x100_0000]
  }

  /** The lowest byte comes first. */
  lemma HalfBytes(b: seq<byte>, o: nat, v: nat)
    requires o + 2 <= |b| && v < U16
    ensures GetU16(b, o) == v <==> b[o] == v % 256 && b[o + 1] == v / 256
  {
  }

  lemma WordBytes(b: seq<byte>, o: nat, v: nat)
    requires o + 4 <= |b| && v < U32
    ensures GetU32(b, o) == v <==>
            b[o] == v % 256 && b[o + 1] == v / 256 % 256 && b[o + 2] == v / 0x1_0000 % 256 && b[o + 3] == v / 0x100_0000
  {
    WordHalves(b, o, v);
    Halves(v);
    HalfBytes(b, o, v % 0x1_0000);
    HalfBytes(b, o + 2, v / 0x1_0000);
    hide GetU16, GetU32;
  }

  lemma WordHalves(b: seq<byte>, o: nat, v: nat)
    requires o + 4 <= |b| && v < U32
    ensures GetU32(b, o) == v <==> GetU16(b, o) == v % 0x1_0000 && GetU16(b, o + 2) == v / 0x1_0000
  {
    var low, high := GetU16(b, o), GetU16(b, o + 2);
    assert GetU32(b, o) == low + 0x1_0000 * high;
  }

  lemma Halves(v: nat)
    ensures v % 0x1_0000 % 256 == v % 256 && v % 0x1_0000 / 256 == v / 256 % 256
    ensures v / 0x1_0000 / 256 == v / 0x100_0000
  {
    var h := v / 256;
    assert v == 0x1_0000 * (h / 256) + (256 * (h % 256) + v % 256);
  }

  /** A word is its four bytes. */
  lemma Digits(v: nat)
    requires v < U32
    ensures v / 0x100_0000 < 256
    ensures v % 256 + 256 * (v / 256 % 256) + 0x1_0000 * (v / 0x1_0000 % 256) + 0x100_0000 * (v / 0x100_0000) == v
  {
    assert v / 0x1_0000 == v / 256 / 256;
    assert v / 0x100_0000 == v / 256 / 256 / 256;
  }

  /** Storing one word of an aligned table leaves every other word alone. */
  lemma PutU32Frame(b: seq<byte>, i: nat, v: nat, j: nat)
    requires 4 * i + 4 <= |b| && v < U32
    requires 4 * j + 4 <= |b| && i != j
    ensures GetU32(PutU32(b, 4 * i, v), 4 * j) == GetU32(b, 4 * j)
  {
  }

  /** n zero bytes. */
  function Zeros(n: nat): (z: seq<byte>)
    ensures |z| == n && forall i :: 0 <= i < n ==> z[i] == 0
  {
    seq(n, _ => 0)
  }
}
