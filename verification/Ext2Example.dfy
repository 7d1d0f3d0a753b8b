/**
 A volume with one free block, and what a failed write leaves there
 (kernel/fs/ext2_write.c:279-356).
 */
module Ext2Example {
  import opened Arith
  import opened Bytes
  import opened Ext2Tree
  import opened Ext2Alloc
  import opened Ext2Need
  import opened Ext2Fit
  import opened Ext2File
  import opened Ext2Data
  import opened Ext2Free

  /** Four blocks: three in use, by the bitmap in block 1. */
  function Bits(): seq<byte> { [7] + Zeros(1023) }

  function Tiny(): Space { Space(1024, 4, [Zeros(1024), Bits(), Zeros(1024), Zeros(1024)], [Group(1, 1)], 1) }

  /** Inode 5 is an empty file. */
  function TinyLedger(): Ledger { Ledger({0, 1, 2}, map[5 := NoPointers()], map[]) }

  lemma BitsAre(i: nat)
    requires i < 4
    ensures Bit(Bits(), i) <==> i < 3
  {
    assert TestBit(7, 0) && TestBit(7, 1) && TestBit(7, 2) && !TestBit(7, 3);
    assert Bits()[0] == 7;
  }

  lemma OneClear()
    ensures ClearBits(Bits(), 4) == 1
  {
    hide Bit, Bits;
    BitsAre(0);
    BitsAre(1);
    BitsAre(2);
    BitsAre(3);
    assert ClearBits(Bits(), 3) == ClearBits(Bits(), 2) == ClearBits(Bits(), 1) == ClearBits(Bits(), 0) == 0;
  }

  lemma TinyUsed(b: nat)
    ensures InGroups(Tiny(), b) <==> b < 4
    ensures b < 4 ==> (Used(Tiny(), b) <==> b < 3)
  {
    QuotRem(4, b);
    if b < 4 {
      BitsAre(b);
    }
  }

  lemma NoBlocks(s: Slot)
    ensures AtP(Tiny().disk, NoPointers(), s) == 0
  {
  }

  lemma TinySound()
    ensures Sound(Tiny())
  {
    OneClear();
    assert SumFree(Tiny().groups) == 1 by { assert Tiny().groups[..0] == []; }
    TinyUsed(0);
  }

  lemma TinyOwned()
    ensures Owned(Tiny().disk, TinyLedger().trees, map[])
  {
    hide AtP, Tiny;
    forall key
      ensures At(Tiny().disk, TinyLedger().trees, key) == 0
    {
      NoBlocks(key.slot);
    }
  }

  lemma TinyAccounted()
    ensures Accounted(Tiny(), {0, 1, 2}, map[])
  {
    hide Used, InGroups;
    forall b: nat
      ensures InGroups(Tiny(), b) <==> b < 4
      ensures b < 4 ==> (Used(Tiny(), b) <==> b < 3)
    {
      TinyUsed(b);
    }
  }

  lemma TinyConsistent()
    ensures Consistent(Tiny(), TinyLedger())
  {
    hide Sound, Owned, Accounted, Tiny;
    TinySound();
    TinyOwned();
    TinyAccounted();
  }

  // ----- how much fits

  function Ones(n: nat): (s: seq<byte>)
    ensures |s| == n && forall i :: 0 <= i < n ==> s[i] == 1
  {
    seq(n, _ => 1)
  }

  /** The first block's worth of bytes fits, and no byte more. */
  lemma OneBlockFits()
    ensures Fit(Tiny(), NoPointers(), 0, 1025) == 1024
  {
    var sp, p := Tiny(), NoPointers();
    hide Tiny, Touched, Missing, Gaps, Fit;
    assert sp.bs == 1024 && Room(sp) == 1 by { TinyShape(); }
    NothingFits(sp, p, 0);
    FirstBlocks();
    TouchedMore(1024, 0, 0, 1024);
    TouchedMore(1024, 0, 1024, 1);
    MissingMore(1024, sp.disk, p, {}, 0);
    MissingMore(1024, sp.disk, p, {0}, 1);
    RootGap(0);
    RootGap(1);
    assert {} + {0} == {0};
    FitIs(sp, p, 0, 1025, 1024);
  }

  lemma TinyShape()
    ensures Tiny().bs == 1024 && |Tiny().disk| == 4 && Room(Tiny()) == 1
  {
  }

  lemma FirstBlocks()
    ensures Rem(1024, 0) == 0 && Quot(1024, 0) == 0 && Rem(1024, 1024) == 0 && Quot(1024, 1024) == 1
    ensures 1 < Capacity(256) && SlotOf(256, 0) == Root(0) && SlotOf(256, 1) == Root(1)
  {
    QuotRem(1024, 1024);
  }

  lemma RootGap(k: nat)
    requires k < NDIR
    ensures Gaps(Tiny().disk, NoPointers(), Root(k)) == {Root(k)}
  {
    NoBlocks(Root(k));
  }

  // ----- the failed write, and the next one

  lemma StoredByte(bs: nat, disk: Disk, trees: Trees, disk': Disk, trees': Trees, ino: nat, offset: nat,
                   data: seq<byte>, k: nat)
    requires bs >= 4 && offset < U32 && Stored(bs, disk, trees, disk', trees', ino, offset, data)
    requires k < U32 && ino in trees && ino in trees'
    ensures FileByte(bs, disk', trees'[ino], k) ==
            if Dist(offset, k) < |data| then data[Dist(offset, k)] else FileByte(bs, disk, trees[ino], k)
  {
    hide FileByte;
    assert Byte(bs, disk', trees', ino, k) == FileByte(bs, disk', trees'[ino], k);
  }

  /** A byte in a block that is there already fits. */
  lemma MappedFits(sp: Space, p: Pointers, offset: nat)
    requires sp.bs == 1024 && offset < 1024 && FileByte(1024, sp.disk, p, 0) != 0
    ensures Fits(sp, p, offset, 1)
  {
    FirstBlocks();
    NothingFits(sp, p, offset);
    NoGaps(sp.disk, p, Root(0));
    assert Quot(1024, offset) == 0 && Rem(1024, offset) == offset;
    hide Touched, Missing, Gaps, Quot, Rem;
    TouchedMore(1024, offset, 0, 1);
    MissingMore(1024, sp.disk, p, {}, 0);
  }

  /**
   Writing 1025 ones into the empty file fails and leaves its size at zero.  Then one
   byte is written at offset 10: the ten bytes before it read as ones, not as zeros.
   */
  method StaleTail() returns (n: int, size: nat, m: int, contents: seq<byte>)
    ensures n == -1 && size == 0 && m == 1
    ensures |contents| == 11 && contents[0] == 1 && contents != Overlay([], 10, [5])
  {
    hide Tiny, Stored, Consistent, OthersKept, SameLayout, FileByte, Fit, Fits;
    TinyConsistent();
    TinyShape();
    OneBlockFits();
    var sp, p, led := Tiny(), NoPointers(), TinyLedger();
    ghost var led1, led2, w, v;
    var sp1, p1;
    sp1, p1, size, n, led1, w := WriteFile(sp, p, 0, 0, Ones(1025), led, 5);
    StoredByte(1024, sp.disk, led.trees, sp1.disk, led1.trees, 5, 0, Ones(1025)[..w], 0);
    LayoutShape(sp, sp1);
    MappedFits(sp1, p1, 10);
    var sp2, p2, size2;
    sp2, p2, size2, m, led2, v := WriteFile(sp1, p1, size, 10, [5], led1, 5);
    StoredByte(1024, sp1.disk, led1.trees, sp2.disk, led2.trees, 5, 10, [5][..v], 0);
    LayoutShape(sp1, sp2);
    OnDevice(sp2, led2);
    PointersOnDevice(sp2, led2, 5);
    contents := ReadFile(sp2, p2, size2, 0, size2);
  }

  lemma LayoutShape(sp: Space, sp': Space)
    requires SameLayout(sp, sp')
    ensures sp'.bs == sp.bs && |sp'.disk| == |sp.disk|
  {
  }

  lemma OnDevice(sp: Space, led: Ledger)
    requires Consistent(sp, led)
    ensures Shaped(sp)
  {
  }
}
