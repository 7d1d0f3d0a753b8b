/**
 Block allocation from the group bitmaps (kernel/fs/ext2_alloc.c).

 Each block group has a bitmap block on disk and a free count in its descriptor;
 the superblock keeps the total.  `Space` is the value of those fields at one
 moment, `Counted` the agreement of counters and bitmaps.
 */
module Ext2Alloc {
  import opened Arith
  import opened Bytes
  import opened Ext2Tree

  datatype Group = Group(blockBitmap: nat, freeBlocks: nat)

  /** The allocator's fields: device, group descriptors, superblock free count. */
  datatype Space = Space(bs: nat, bpg: nat, disk: Disk, groups: seq<Group>, free: nat)

  function SumFree(groups: seq<Group>): nat
  {
    if groups == [] then 0 else SumFree(groups[..|groups| - 1]) + groups[|groups| - 1].freeBlocks
  }

  /** Shape of the volume: block sizes, bitmaps on the device and in distinct blocks. */
  ghost predicate Shaped(sp: Space) {
    && 0 < sp.bpg <= 8 * sp.bs
    && |sp.disk| <= U32
    && (forall b :: 0 <= b < |sp.disk| ==> |sp.disk[b]| == sp.bs)
    && (forall g :: 0 <= g < |sp.groups| ==> 0 < sp.groups[g].blockBitmap < |sp.disk|)
    && (forall g, h :: 0 <= g < |sp.groups| && 0 <= h < |sp.groups| && g != h ==> Apart(sp.groups, g, h))
  }

  /** Groups g and h keep their bitmaps in different blocks. */
  predicate Apart(groups: seq<Group>, g: nat, h: nat)
    requires g < |groups| && h < |groups|
  {
    groups[g].blockBitmap != groups[h].blockBitmap
  }

  /** The bitmap of group g. */
  function Bitmap(sp: Space, g: nat): (bm: seq<byte>)
  {
    if g < |sp.groups| && sp.groups[g].blockBitmap < |sp.disk| then sp.disk[sp.groups[g].blockBitmap] else []
  }

  /** Every free count equals the clear bits it stands for. */
  ghost predicate Counted(sp: Space) {
    && Shaped(sp)
    && (forall g :: 0 <= g < |sp.groups| ==> sp.groups[g].freeBlocks == ClearBits(Bitmap(sp, g), sp.bpg))
    && sp.free == SumFree(sp.groups)
  }

  /** Block numbers the groups cover. */
  predicate InGroups(sp: Space, b: nat) {
    sp.bpg > 0 && Quot(sp.bpg, b) < |sp.groups|
  }

  /** The bit of block b in its group's bitmap. */
  predicate Used(sp: Space, b: nat) {
    InGroups(sp, b) && Bit(Bitmap(sp, Quot(sp.bpg, b)), Rem(sp.bpg, b))
  }

  /** Block g * bpg + i is bit i of group g's bitmap. */
  lemma UsedByNumber(sp: Space, g: nat, i: nat)
    requires g < |sp.groups| && i < sp.bpg && sp.groups[g].blockBitmap < |sp.disk|
    ensures InGroups(sp, g * sp.bpg + i)
    ensures Used(sp, g * sp.bpg + i) <==> Bit(sp.disk[sp.groups[g].blockBitmap], i)
  {
    hide Bit, Quot, Rem;
    var b := g * sp.bpg + i;
    Split(sp.bpg, g, i, b);
  }

  /** group * blocks_per_group + i */
  method NumberOf(bpg: nat, g: nat, i: nat) returns (b: nat)
    requires i < bpg
    ensures Quot(bpg, b) == g && Rem(bpg, b) == i
  {
    b := g * bpg + i;
    Split(bpg, g, i, b);
  }

  /** The space after writing v into bit i of group g and moving both counters by one. */
  function Flip(sp: Space, g: nat, i: nat, v: bool): (r: Space)
    requires g < |sp.groups| && sp.groups[g].blockBitmap < |sp.disk|
    requires i / 8 < |Bitmap(sp, g)|
    requires v ==> sp.groups[g].freeBlocks > 0 && sp.free > 0
  {
    var d := sp.groups[g];
    sp.(disk := sp.disk[d.blockBitmap := SetBit(Bitmap(sp, g), i, v)],
        groups := sp.groups[g := d.(freeBlocks := if v then d.freeBlocks - 1 else d.freeBlocks + 1)],
        free := if v then sp.free - 1 else sp.free + 1)
  }

  lemma {:induction false} SumFreeUpdate(groups: seq<Group>, g: nat, d: Group)
    requires g < |groups|
    ensures SumFree(groups[g := d]) == SumFree(groups) - groups[g].freeBlocks + d.freeBlocks
  {
    var n := |groups| - 1;
    if g < n {
      SumFreeUpdate(groups[..n], g, d);
      assert groups[g := d][..n] == groups[..n][g := d];
    } else {
      assert groups[g := d][..n] == groups[..n];
    }
  }

  lemma {:induction false} SumFreeAtLeast(groups: seq<Group>, g: nat)
    requires g < |groups|
    ensures SumFree(groups) >= groups[g].freeBlocks
  {
    if g < |groups| - 1 {
      SumFreeAtLeast(groups[..|groups| - 1], g);
    }
  }

  lemma FlipBit(sp: Space, g: nat, i: nat, v: bool, h: nat, j: nat)
    requires Shaped(sp) && g < |sp.groups| && i < sp.bpg
    requires v ==> sp.groups[g].freeBlocks > 0 && sp.free > 0
    ensures i / 8 < |Bitmap(sp, g)|
    ensures Bit(Bitmap(Flip(sp, g, i, v), h), j) == if h == g && j == i then v else Bit(Bitmap(sp, h), j)
  {
    if h < |sp.groups| && h != g {
      assert Apart(sp.groups, g, h);
    }
  }

  /** A flip changes the use of one block only. */
  lemma FlipUsed(sp: Space, b: nat, v: bool, x: nat)
    requires Shaped(sp) && InGroups(sp, b)
    requires v ==> sp.groups[Quot(sp.bpg, b)].freeBlocks > 0 && sp.free > 0
    ensures Rem(sp.bpg, b) / 8 < |Bitmap(sp, Quot(sp.bpg, b))|
    ensures Used(Flip(sp, Quot(sp.bpg, b), Rem(sp.bpg, b), v), x) == if x == b then v else Used(sp, x)
  {
    var g, i, h, j := Quot(sp.bpg, b), Rem(sp.bpg, b), Quot(sp.bpg, x), Rem(sp.bpg, x);
    FlipBit(sp, g, i, v, h, j);
    if h == g && j == i {
      SplitUnique(sp.bpg, b, x);
    }
  }

  lemma FlipShaped(sp: Space, g: nat, i: nat, v: bool)
    requires Shaped(sp) && g < |sp.groups| && i < sp.bpg
    requires v ==> sp.groups[g].freeBlocks > 0 && sp.free > 0
    ensures i / 8 < |Bitmap(sp, g)|
    ensures Shaped(Flip(sp, g, i, v))
    ensures Bitmap(Flip(sp, g, i, v), g) == SetBit(Bitmap(sp, g), i, v)
    ensures forall h: nat :: h != g ==> Bitmap(Flip(sp, g, i, v), h) == Bitmap(sp, h)
  {
    var r := Flip(sp, g, i, v);
    forall h, k | 0 <= h < |sp.groups| && 0 <= k < |sp.groups| && h != k
      ensures Apart(r.groups, h, k)
    {
      assert Apart(sp.groups, h, k);
    }
    forall h: nat | h != g
      ensures Bitmap(r, h) == Bitmap(sp, h)
    {
      if h < |sp.groups| {
        assert Apart(sp.groups, g, h);
      }
    }
  }

  /** Counters keep their meaning exactly when the bit really changed. */
  lemma FlipCounted(sp: Space, g: nat, i: nat, v: bool)
    requires Counted(sp) && g < |sp.groups| && i < sp.bpg
    requires v ==> sp.groups[g].freeBlocks > 0 && sp.free > 0
    ensures i / 8 < |Bitmap(sp, g)|
    ensures Shaped(Flip(sp, g, i, v))
    ensures Counted(Flip(sp, g, i, v)) <==> Bit(Bitmap(sp, g), i) != v
  {
    FlipShaped(sp, g, i, v);
    var r := Flip(sp, g, i, v);
    var bm, bm' := Bitmap(sp, g), Bitmap(r, g);
    SumFreeUpdate(sp.groups, g, r.groups[g]);
    assert sp.groups[g].freeBlocks == ClearBits(bm, sp.bpg);
    if Bit(bm, i) != v {
      ClearBitsFlip(bm, i, v, sp.bpg);
    } else {
      ClearBitsExt(bm', bm, sp.bpg);
      assert r.groups[g].freeBlocks != ClearBits(bm', sp.bpg);
    }
  }

  /** Of the device, only the bitmap block of group g is written. */
  ghost predicate RewritesBitmap(sp: Space, sp': Space, g: nat) {
    && g < |sp.groups| == |sp'.groups| && |sp'.disk| == |sp.disk|
    && (forall h :: 0 <= h < |sp.groups| ==> sp'.groups[h].blockBitmap == sp.groups[h].blockBitmap)
    && (forall h :: 0 <= h < |sp.groups| && h != g ==> sp'.groups[h] == sp.groups[h])
    && (forall x :: 0 <= x < |sp.disk| && x != sp.groups[g].blockBitmap ==> sp'.disk[x] == sp.disk[x])
  }

  /** Same geometry and bitmap blocks. */
  ghost predicate SameLayout(sp: Space, sp': Space) {
    && sp'.bs == sp.bs && sp'.bpg == sp.bpg && |sp'.disk| == |sp.disk| && |sp'.groups| == |sp.groups|
    && forall g :: 0 <= g < |sp.groups| ==> sp'.groups[g].blockBitmap == sp.groups[g].blockBitmap
  }

  /** sp' is sp with block b's bit set to v: one bitmap block rewritten, the total moved by one. */
  ghost predicate Marks(sp: Space, sp': Space, b: nat, v: bool) {
    && InGroups(sp, b)
    && sp'.bs == sp.bs && sp'.bpg == sp.bpg
    && RewritesBitmap(sp, sp', Quot(sp.bpg, b))
    && (forall x: nat :: Used(sp', x) == if x == b then v else Used(sp, x))
    && sp'.free == (if v then sp.free - 1 else sp.free + 1)
  }

  /** Use of a block depends on the bitmaps alone. */
  lemma SameBitmapsUsed(sp: Space, sp': Space, b: nat)
    requires sp'.bpg == sp.bpg && |sp'.groups| == |sp.groups|
    requires forall g: nat :: Bitmap(sp', g) == Bitmap(sp, g)
    ensures Used(sp', b) == Used(sp, b)
  {
    if sp.bpg > 0 {
      assert Bitmap(sp', Quot(sp.bpg, b)) == Bitmap(sp, Quot(sp.bpg, b));
    }
  }

  lemma FlipMarks(sp: Space, b: nat, v: bool)
    requires Shaped(sp) && InGroups(sp, b)
    requires v ==> sp.groups[Quot(sp.bpg, b)].freeBlocks > 0 && sp.free > 0
    ensures Rem(sp.bpg, b) / 8 < |Bitmap(sp, Quot(sp.bpg, b))|
    ensures Marks(sp, Flip(sp, Quot(sp.bpg, b), Rem(sp.bpg, b), v), b, v)
  {
    forall x: nat
      ensures Rem(sp.bpg, b) / 8 < |Bitmap(sp, Quot(sp.bpg, b))|
      ensures Used(Flip(sp, Quot(sp.bpg, b), Rem(sp.bpg, b), v), x) == if x == b then v else Used(sp, x)
    {
      FlipUsed(sp, b, v, x);
    }
    FlipShaped(sp, Quot(sp.bpg, b), Rem(sp.bpg, b), v);
  }

  /** Counters agree with bitmaps; the allocator never hands out block 0. */
  ghost predicate Sound(sp: Space) {
    && Counted(sp)
    && (InGroups(sp, 0) ==> Used(sp, 0))
  }

  /** No free block in the group, or no such group. */
  ghost predicate FullGroup(sp: Space, group: nat) {
    group < |sp.groups| ==> forall i :: 0 <= i < sp.bpg ==> Bit(Bitmap(sp, group), i)
  }

  ghost predicate LowestFree(sp: Space, group: nat, b: nat) {
    && sp.bpg > 0
    && Quot(sp.bpg, b) == group < |sp.groups|
    && !Used(sp, b)
    && forall i :: 0 <= i < Rem(sp.bpg, b) ==> Bit(Bitmap(sp, group), i)
  }

  /** Taking the first clear bit of a group. */
  lemma TakeBit(sp: Space, g: nat, i: nat, b: nat)
    requires Sound(sp) && InGroups(sp, b) && g == Quot(sp.bpg, b) && i == Rem(sp.bpg, b)
    requires !Bit(Bitmap(sp, g), i) && forall j :: 0 <= j < i ==> Bit(Bitmap(sp, g), j)
    ensures b != 0 && i / 8 < |Bitmap(sp, g)| && sp.groups[g].freeBlocks > 0 && sp.free > 0
    ensures LowestFree(sp, g, b) && !FullGroup(sp, g)
    ensures Sound(Flip(sp, g, i, true)) && Marks(sp, Flip(sp, g, i, true), b, true)
  {
    assert !Used(sp, b);
    NoClearBits(Bitmap(sp, g), sp.bpg);
    SumFreeAtLeast(sp.groups, g);
    FlipCounted(sp, g, i, true);
    FlipMarks(sp, b, true);
  }

  /** Clearing a bit. */
  lemma DropBit(sp: Space, b: nat)
    requires Sound(sp) && b != 0 && InGroups(sp, b)
    ensures var g, i := Quot(sp.bpg, b), Rem(sp.bpg, b);
            && i / 8 < |Bitmap(sp, g)|
            && Marks(sp, Flip(sp, g, i, false), b, false)
            && (Sound(Flip(sp, g, i, false)) <==> Used(sp, b))
  {
    var g, i := Quot(sp.bpg, b), Rem(sp.bpg, b);
    FlipCounted(sp, g, i, false);
    FlipMarks(sp, b, false);
  }

  /** What the block pointers of the inodes amount to: blocks never handed out (block 0,
      bitmaps, inode tables, padding past the device), the pointer array of every inode,
      and the one position of every block in use. */
  datatype Ledger = Ledger(reserved: set<nat>, trees: Trees, owner: Owner)

  /** Whole volume: counters right, trees disjoint, bitmaps exact. */
  ghost predicate Consistent(sp: Space, led: Ledger) {
    && Sound(sp)
    && Owned(sp.disk, led.trees, led.owner)
    && Accounted(sp, led.reserved, led.owner)
  }

  /** The bits set are exactly the reserved blocks and the blocks with a position in some tree. */
  ghost predicate Accounted(sp: Space, reserved: set<nat>, owner: Owner) {
    && 0 in reserved
    && (forall g :: 0 <= g < |sp.groups| ==> sp.groups[g].blockBitmap in reserved)
    && (forall b :: b in reserved ==> b !in owner)
    && (forall b :: b in owner ==> Used(sp, b))
    && (forall b: nat :: InGroups(sp, b) ==> (Used(sp, b) <==> b in reserved || b in owner))
    && (forall b: nat :: InGroups(sp, b) ==> b in reserved || b < |sp.disk|)
  }

  lemma FullGroupWhenCounted(sp: Space, g: nat)
    requires Counted(sp) && g < |sp.groups|
    ensures sp.groups[g].freeBlocks == 0 <==> FullGroup(sp, g)
  {
    NoClearBits(Bitmap(sp, g), sp.bpg);
  }

  lemma SoundShape(sp: Space)
    requires Sound(sp)
    ensures 0 < sp.bpg <= 8 * sp.bs
    ensures forall g :: 0 <= g < |sp.groups| ==>
              sp.groups[g].blockBitmap < |sp.disk| && |sp.disk[sp.groups[g].blockBitmap]| == sp.bs
  {
  }

  /** ext2_alloc_block: the lowest free block of the group, or 0 exactly when it has none. */
  method AllocBlock(sp: Space, group: nat) returns (sp': Space, b: nat)
    requires Sound(sp)
    ensures Sound(sp')
    ensures b == 0 <==> FullGroup(sp, group)
    ensures b == 0 ==> sp' == sp
    ensures b != 0 ==> LowestFree(sp, group, b) && Marks(sp, sp', b, true)
  {
    SoundShape(sp);
    hide Sound, Used, Marks, LowestFree, Quot, Rem;
    sp', b := sp, 0;
    if group >= |sp.groups| {
      return;
    }
    FullGroupWhenCounted(sp, group);
    var gd := sp.groups[group];
    if gd.freeBlocks == 0 {
      return;
    }
    var bitmap := sp.disk[gd.blockBitmap];
    var i := FindClear(bitmap, sp.bpg);
    if i == sp.bpg {
      return;
    }
    b := NumberOf(sp.bpg, group, i);
    TakeBit(sp, group, i, b);
    sp' := sp'.(disk := sp'.disk[gd.blockBitmap := SetBit(bitmap, i, true)]);
    sp' := sp'.(groups := sp'.groups[group := gd.(freeBlocks := gd.freeBlocks - 1)]);
    sp' := sp'.(free := sp'.free - 1);
  }

  /** ext2_free_block: clears one bit; the counters stay right exactly when the block was in use. */
  method FreeBlock(sp: Space, b: nat) returns (sp': Space, ok: bool)
    requires Sound(sp)
    ensures ok <==> b != 0 && InGroups(sp, b)
    ensures !ok ==> sp' == sp
    ensures ok ==> Marks(sp, sp', b, false)
    ensures ok ==> (Sound(sp') <==> Used(sp, b))
  {
    SoundShape(sp);
    hide Sound, Used, Marks, Quot, Rem;
    sp', ok := sp, false;
    if b == 0 {
      return;
    }
    var group := Quot(sp.bpg, b);
    var offset := Rem(sp.bpg, b);
    if group >= |sp.groups| {
      return;
    }
    var gd := sp.groups[group];
    sp' := sp'.(disk := sp'.disk[gd.blockBitmap := SetBit(sp.disk[gd.blockBitmap], offset, false)]);
    sp' := sp'.(groups := sp'.groups[group := gd.(freeBlocks := gd.freeBlocks + 1)]);
    sp' := sp'.(free := sp'.free + 1);
    assert sp' == Flip(sp, group, offset, false);
    DropBit(sp, b);
    ok := true;
  }

  // ----- where a block is on the device

  const SECTOR_SIZE: nat := 512

  /** read_block and write_block: the first sector of a block, from a product of 32 bits. */
  function Sector(bs: nat, b: nat): nat { b * bs % U32 / SECTOR_SIZE }

  lemma SectorBelow(bs: nat, b: nat)
    requires bs in {1024, 2048, 4096} && b < U32 / bs
    ensures Sector(bs, b) == b * (bs / SECTOR_SIZE)
  {
    if bs == 1024 {
      assert b * 1024 < U32;
    } else if bs == 2048 {
      assert b * 2048 < U32;
    } else {
      assert b * 4096 < U32;
    }
  }

  lemma SectorWraps(bs: nat)
    requires bs in {1024, 2048, 4096}
    ensures Sector(bs, 0) == Sector(bs, U32 / bs) && U32 / bs > 0
  {
  }

  /** Different blocks are in different places exactly on volumes of at most 4 GiB. */
  lemma SectorsApart(bs: nat, n: nat)
    requires bs in {1024, 2048, 4096}
    ensures (forall a: nat, b: nat :: a < n && b < n && Sector(bs, a) == Sector(bs, b) ==> a == b) <==> n <= U32 / bs
  {
    hide Sector;
    SectorWraps(bs);
    if n <= U32 / bs {
      forall a: nat, b: nat | a < n && b < n && Sector(bs, a) == Sector(bs, b)
        ensures a == b
      {
        SectorBelow(bs, a);
        SectorBelow(bs, b);
      }
    }
  }
}
