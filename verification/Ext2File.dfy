/**
 Mapping, reading, writing and freeing the blocks of a file
 (kernel/fs/ext2_file.c and the first half of kernel/fs/ext2_write.c).
 */
module Ext2File {
  import opened Arith
  import opened Bytes
  import opened Ext2Tree
  import opened Ext2Alloc
  import opened Ext2Need

  /** Byte o of the block at a position; zero where no block is attached. */
  function Peek(disk: Disk, trees: Trees, key: Key, o: nat): (c: byte)
  {
    var b := At(disk, trees, key);
    if 0 < b < |disk| && o < |disk[b]| then disk[b][o] else 0
  }

  /** No byte a reader of any file can see differs. */
  ghost predicate SameBytes(disk: Disk, trees: Trees, disk': Disk, trees': Trees) {
    forall key: Key, o: nat :: IsData(key.slot) ==> Peek(disk', trees', key, o) == Peek(disk, trees, key, o)
  }

  // ----- hanging a fresh block into the tree -------------------------------------

  /** What a successful hang of block b at `key` leaves: every other position as it was, no byte changed. */
  ghost predicate Hung(disk: Disk, trees: Trees, disk': Disk, trees': Trees, key: Key, b: nat) {
    && trees'.Keys == trees.Keys
    && (forall q :: At(disk', trees', q) == if q == key then b else At(disk, trees, q))
    && SameBytes(disk, trees, disk', trees')
  }

  /** Rewriting a bitmap block touches neither trees nor the blocks in them. */
  lemma MarksKeepsTrees(sp: Space, sp': Space, g: nat, trees: Trees, owner: Owner)
    requires RewritesBitmap(sp, sp', g) && sp.groups[g].blockBitmap < |sp.disk| && sp.groups[g].blockBitmap !in owner
    requires Owned(sp.disk, trees, owner)
    ensures Owned(sp'.disk, trees, owner)
    ensures forall q :: At(sp'.disk, trees, q) == At(sp.disk, trees, q)
    ensures forall x :: x in owner ==> x < |sp.disk| && sp'.disk[x] == sp.disk[x]
  {
    var bm := sp.groups[g].blockBitmap;
    assert sp'.disk == sp.disk[bm := sp'.disk[bm]];
    WriteKeepsTree(sp.disk, trees, owner, bm, sp'.disk[bm]);
  }

  /** Owning a freshly marked block restores the account. */
  lemma MarksAccounted(sp: Space, sp': Space, b: nat, owner: Owner, reserved: set<nat>, key: Key)
    requires Marks(sp, sp', b, true) && Accounted(sp, reserved, owner) && !Used(sp, b)
    ensures b !in owner && b !in reserved && 0 < b < |sp.disk|
    ensures Accounted(sp', reserved, owner[b := key])
  {
  }

  lemma BytesKept(disk: Disk, trees: Trees, owner: Owner, disk': Disk, trees': Trees, key: Key, b: nat)
    requires Owned(disk, trees, owner)
    requires At(disk, trees, key) == 0
    requires forall q :: At(disk', trees', q) == if q == key then b else At(disk, trees, q)
    requires |disk'| == |disk| && b < |disk| && disk'[b] == Zeros(|disk'[b]|)
    requires forall x :: x in owner && IsData(owner[x].slot) ==> disk'[x] == disk[x]
    ensures SameBytes(disk, trees, disk', trees')
  {
    forall q: Key, o: nat | IsData(q.slot)
      ensures Peek(disk', trees', q, o) == Peek(disk, trees, q, o)
    {
      var x := At(disk, trees, q);
      if q != key && x != 0 {
        assert x in owner && owner[x] == q;
      }
    }
  }

  /** Writing a block that is no bitmap leaves the allocator's account alone. */
  lemma ZeroingAccounted(sp: Space, sp': Space, b: nat, reserved: set<nat>, owner: Owner)
    requires Counted(sp) && Accounted(sp, reserved, owner)
    requires b in owner && b < |sp.disk|
    requires |sp'.disk| == |sp.disk| && |sp'.disk[b]| == sp.bs
    requires sp' == sp.(disk := sp.disk[b := sp'.disk[b]])
    ensures Counted(sp') && Accounted(sp', reserved, owner)
    ensures forall x: nat :: Used(sp', x) == Used(sp, x)
  {
    NonBitmapWrite(sp, sp', b);
    forall x: nat
      ensures Used(sp', x) == Used(sp, x)
    {
      SameBitmapsUsed(sp, sp', x);
    }
  }

  lemma NonBitmapWrite(sp: Space, sp': Space, b: nat)
    requires Counted(sp)
    requires forall g :: 0 <= g < |sp.groups| ==> sp.groups[g].blockBitmap != b
    requires b < |sp.disk| && |sp'.disk| == |sp.disk| && |sp'.disk[b]| == sp.bs
    requires sp' == sp.(disk := sp.disk[b := sp'.disk[b]])
    ensures Counted(sp') && forall g: nat :: Bitmap(sp', g) == Bitmap(sp, g)
  {
  }

  /** The state after a fresh block b is zeroed and stored in i_block[k]. */
  lemma HangRootLaw(sp: Space, sp1: Space, reserved: set<nat>, trees: Trees, owner: Owner, ino: nat, k: nat, b: nat)
    requires Consistent(sp, Ledger(reserved, trees, owner)) && Sound(sp1)
    requires LowestFree(sp, 0, b) && Marks(sp, sp1, b, true)
    requires ino in trees && k <= DIND && trees[ino][k] == 0
    ensures 0 < b < |sp1.disk|
    ensures var sp2 := sp1.(disk := sp1.disk[b := Zeros(sp.bs)]);
            var trees2, key := trees[ino := SetPtr(trees[ino], k, b)], Key(ino, Root(k));
            && Consistent(sp2, Ledger(reserved, trees2, owner[b := key]))
            && Hung(sp.disk, trees, sp2.disk, trees2, key, b)
  {
    var key := Key(ino, Root(k));
    MarksKeepsTrees(sp, sp1, 0, trees, owner);
    MarksAccounted(sp, sp1, b, owner, reserved, key);
    AttachRoot(sp1.disk, trees, owner, ino, k, b, Zeros(sp.bs));
    var sp2 := sp1.(disk := sp1.disk[b := Zeros(sp.bs)]);
    ZeroingAccounted(sp1, sp2, b, reserved, owner[b := key]);
    BytesKept(sp.disk, trees, owner, sp2.disk, trees[ino := SetPtr(trees[ino], k, b)], key, b);
  }

  /** The state after a fresh block b is stored in a word of a pointer block and zeroed. */
  lemma HangWordLaw(sp: Space, sp1: Space, reserved: set<nat>, trees: Trees, owner: Owner, key: Key, b: nat)
    requires Consistent(sp, Ledger(reserved, trees, owner)) && Sound(sp1)
    requires LowestFree(sp, 0, b) && Marks(sp, sp1, b, true)
    requires key.ino in trees && !key.slot.Root? && At(sp.disk, trees, key) == 0
    requires ParentBlock(sp.disk, trees, key) != 0 && 4 * WordIndex(key.slot) + 4 <= sp.bs
    ensures 0 < b < |sp1.disk| && b < U32
    ensures ParentBlock(sp.disk, trees, key) < |sp1.disk| &&
              sp1.disk[ParentBlock(sp.disk, trees, key)] == sp.disk[ParentBlock(sp.disk, trees, key)]
    ensures |sp.disk[ParentBlock(sp.disk, trees, key)]| == sp.bs
    ensures var q := ParentBlock(sp.disk, trees, key);
            var sp2 := sp1.(disk := sp1.disk[q := PutU32(sp.disk[q], 4 * WordIndex(key.slot), b)][b := Zeros(sp.bs)]);
            && Consistent(sp2, Ledger(reserved, trees, owner[b := key]))
            && Hung(sp.disk, trees, sp2.disk, trees, key, b)
  {
    var q := ParentBlock(sp.disk, trees, key);
    MarksAccounted(sp, sp1, b, owner, reserved, key);
    ParentOnDisk(sp.disk, trees, owner, key);
    HangWordTrees(sp, sp1, trees, owner, key, b);
    var sp' := sp1.(disk := sp1.disk[q := PutU32(sp.disk[q], 4 * WordIndex(key.slot), b)]);
    var sp2 := sp'.(disk := sp'.disk[b := Zeros(sp.bs)]);
    ZeroingAccounted(sp1, sp', q, reserved, owner[b := key]);
    ZeroingAccounted(sp', sp2, b, reserved, owner[b := key]);
  }

  lemma HangWordTrees(sp: Space, sp1: Space, trees: Trees, owner: Owner, key: Key, b: nat)
    requires Owned(sp.disk, trees, owner) && RewritesBitmap(sp, sp1, 0)
    requires sp.groups[0].blockBitmap < |sp.disk| && sp.groups[0].blockBitmap !in owner
    requires 0 < b < |sp.disk| && b < U32 && b !in owner && b != sp.groups[0].blockBitmap
    requires key.ino in trees && !key.slot.Root? && At(sp.disk, trees, key) == 0
    requires ParentBlock(sp.disk, trees, key) != 0
    requires ParentBlock(sp.disk, trees, key) < |sp.disk| &&
               4 * WordIndex(key.slot) + 4 <= |sp.disk[ParentBlock(sp.disk, trees, key)]|
    ensures var q := ParentBlock(sp.disk, trees, key);
            var disk2 := sp1.disk[q := PutU32(sp.disk[q], 4 * WordIndex(key.slot), b)][b := Zeros(sp.bs)];
            && sp1.disk[q] == sp.disk[q]
            && Owned(disk2, trees, owner[b := key])
            && Hung(sp.disk, trees, disk2, trees, key, b)
  {
    var q := ParentBlock(sp.disk, trees, key);
    assert At(sp.disk, trees, ParentKey(key)) == q && q in owner && owner[q] == ParentKey(key);
    MarksKeepsTrees(sp, sp1, 0, trees, owner);
    assert At(sp1.disk, trees, ParentKey(key)) == q;
    AttachWord(sp1.disk, trees, owner, key, b, Zeros(sp.bs));
    var disk2 := sp1.disk[q := PutU32(sp.disk[q], 4 * WordIndex(key.slot), b)][b := Zeros(sp.bs)];
    BytesKept(sp.disk, trees, owner, disk2, trees, key, b);
  }

  lemma ParentOnDisk(disk: Disk, trees: Trees, owner: Owner, key: Key)
    requires Owned(disk, trees, owner) && !key.slot.Root?
    ensures ParentBlock(disk, trees, key) != 0 ==>
              ParentBlock(disk, trees, key) < |disk| && ParentBlock(disk, trees, key) in owner
  {
    assert ParentBlock(disk, trees, key) == At(disk, trees, ParentKey(key));
  }

  /** Allocate a block, store it in i_block[k], zero it. */
  method HangRoot(sp: Space, p: Pointers, k: nat, ghost led: Ledger, ghost ino: nat)
    returns (sp': Space, p': Pointers, b: nat, ghost led': Ledger)
    requires Consistent(sp, led) && ino in led.trees && led.trees[ino] == p
    requires k <= DIND && p[k] == 0
    ensures Consistent(sp', led') && led'.reserved == led.reserved && SameLayout(sp, sp')
    ensures p' == SetPtr(p, k, b) && led'.trees == led.trees[ino := p']
    ensures b == 0 <==> Room(sp) == 0
    ensures b == 0 ==> sp' == sp && led' == led
    ensures b != 0 ==> Hung(sp.disk, led.trees, sp'.disk, led'.trees, Key(ino, Root(k)), b) && Room(sp') == Room(sp) - 1
  {
    led' := led;
    RoomFull(sp);
    sp', b := AllocBlock(sp, 0);
    p' := SetPtr(p, k, b);
    if b == 0 {
      assert p' == p;
      return;
    }
    RoomMarked(sp, sp', b);
    HangRootLaw(sp, sp', led.reserved, led.trees, led.owner, ino, k, b);
    sp' := sp'.(disk := sp'.disk[b := Zeros(sp.bs)]);
    led' := Ledger(led.reserved, led.trees[ino := p'], led.owner[b := Key(ino, Root(k))]);
  }

  /** Allocate a block, store it in word n of pointer block q, zero it. */
  method HangWord(sp: Space, q: nat, n: nat, ghost led: Ledger, ghost key: Key)
    returns (sp': Space, b: nat, ghost led': Ledger)
    requires Consistent(sp, led) && key.ino in led.trees && !key.slot.Root? && At(sp.disk, led.trees, key) == 0
    requires q == ParentBlock(sp.disk, led.trees, key) != 0 && n == WordIndex(key.slot) && 4 * n + 4 <= sp.bs
    ensures Consistent(sp', led') && led'.reserved == led.reserved && led'.trees == led.trees && SameLayout(sp, sp')
    ensures b == 0 <==> Room(sp) == 0
    ensures b == 0 ==> sp' == sp && led' == led
    ensures b != 0 ==> Hung(sp.disk, led.trees, sp'.disk, led.trees, key, b) && Room(sp') == Room(sp) - 1
  {
    ParentOnDisk(sp.disk, led.trees, led.owner, key);
    var buffer := sp.disk[q];
    led' := led;
    RoomFull(sp);
    sp', b := AllocBlock(sp, 0);
    if b == 0 {
      return;
    }
    RoomMarked(sp, sp', b);
    HangWordLaw(sp, sp', led.reserved, led.trees, led.owner, key, b);
    sp' := sp'.(disk := sp'.disk[q := PutU32(buffer, 4 * n, b)]);
    sp' := sp'.(disk := sp'.disk[b := Zeros(sp.bs)]);
    led' := led.(owner := led.owner[b := key]);
  }

  // ----- mapping a file block ------------------------------------------------------

  /** Words in a pointer block. */
  function WordsPerBlock(sp: Space): nat { sp.bs / 4 }

  ghost predicate Sized(sp: Space) {
    sp.bs in {1024, 2048, 4096}
  }

  /** get_block_number: the read-side walk. */
  method GetBlockNumber(sp: Space, p: Pointers, fileBlock: nat) returns (b: nat)
    requires Shaped(sp) && Sized(sp) && |p| == NPTR
    ensures b == BlockOf(WordsPerBlock(sp), sp.disk, p, fileBlock)
  {
    var P := WordsPerBlock(sp);
    if fileBlock < NDIR {
      return p[fileBlock];
    }
    var fb := fileBlock - NDIR;
    if fb < P {
      if p[IND] == 0 || p[IND] >= |sp.disk| {
        return 0;
      }
      var indirect := sp.disk[p[IND]];
      return GetU32(indirect, 4 * fb);
    }
    fb := fb - P;
    if fb < Times(P, P) {
      if p[DIND] == 0 || p[DIND] >= |sp.disk| {
        return 0;
      }
      var dindirect := sp.disk[p[DIND]];
      QuotBound(P, P, fb);
      var indirectBlock := GetU32(dindirect, 4 * Quot(P, fb));
      if indirectBlock == 0 || indirectBlock >= |sp.disk| {
        return 0;
      }
      var indirect := sp.disk[indirectBlock];
      return GetU32(indirect, 4 * Rem(P, fb));
    }
    return 0;
  }

  /** The effect of mapping one file block: no byte of any file changes, no other data
      position moves, and a block already mapped stays where it is. */
  ghost predicate MapsOnly(disk: Disk, trees: Trees, disk': Disk, trees': Trees, target: Key) {
    && trees'.Keys == trees.Keys
    && SameBytes(disk, trees, disk', trees')
    && (forall q: Key :: IsData(q.slot) && q != target ==> At(disk', trees', q) == At(disk, trees, q))
    && (At(disk, trees, target) != 0 ==> At(disk', trees', target) == At(disk, trees, target))
    && OthersKept(disk, trees, disk', trees', target.ino)
  }

  /** Every position of every other inode holds what it held. */
  ghost predicate OthersKept(disk: Disk, trees: Trees, disk': Disk, trees': Trees, ino: nat) {
    forall q: Key :: q.ino != ino ==> At(disk', trees', q) == At(disk, trees, q)
  }

  lemma HungMapsOnly(disk: Disk, trees: Trees, disk': Disk, trees': Trees, key: Key, b: nat, target: Key)
    requires Hung(disk, trees, disk', trees', key, b) && At(disk, trees, key) == 0
    requires key.ino == target.ino && (key == target || !IsData(key.slot))
    ensures MapsOnly(disk, trees, disk', trees', target)
  {
  }

  lemma MapsOnlyTransitive(d0: Disk, t0: Trees, d1: Disk, t1: Trees, d2: Disk, t2: Trees, target: Key)
    requires MapsOnly(d0, t0, d1, t1, target) && MapsOnly(d1, t1, d2, t2, target)
    ensures MapsOnly(d0, t0, d2, t2, target)
  {
  }

  /** What get_or_alloc_block promises about the position `key` it is asked for. */
  ghost predicate Obtained(sp: Space, led: Ledger, sp': Space, led': Ledger, key: Key, b: nat, allocate: bool) {
    && Consistent(sp', led') && led'.reserved == led.reserved && SameLayout(sp, sp')
    && MapsOnly(sp.disk, led.trees, sp'.disk, led'.trees, key)
    && b == At(sp'.disk, led'.trees, key)
    && (At(sp.disk, led.trees, key) != 0 || !allocate ==> sp' == sp && led' == led)
    && (allocate && key.ino in led.trees ==> Paid(sp, led.trees[key.ino], sp', led'.trees[key.ino], key.slot, b))
  }

  lemma HungAttached(disk: Disk, trees: Trees, disk': Disk, trees': Trees, key: Key, b: nat)
    requires Hung(disk, trees, disk', trees', key, b) && key.ino in trees
    ensures Attached(disk, trees[key.ino], disk', trees'[key.ino], key.slot, b)
  {
    forall q
      ensures AtP(disk', trees'[key.ino], q) == if q == key.slot then b else AtP(disk, trees[key.ino], q)
    {
      assert At(disk', trees', Key(key.ino, q)) == if q == key.slot then b else At(disk, trees, Key(key.ino, q));
    }
  }

  lemma ObtainedAsIs(sp: Space, led: Ledger, key: Key, b: nat, allocate: bool)
    requires Consistent(sp, led) && b == At(sp.disk, led.trees, key)
    requires b == 0 && allocate ==> Room(sp) == 0
    ensures Obtained(sp, led, sp, led, key, b, allocate)
  {
    if allocate && key.ino in led.trees {
      PaidAsIs(sp, led.trees[key.ino], key.slot);
    }
  }

  lemma ObtainedHung(sp: Space, led: Ledger, sp': Space, led': Ledger, key: Key, b: nat)
    requires Consistent(sp', led') && led'.reserved == led.reserved && SameLayout(sp, sp')
    requires At(sp.disk, led.trees, key) == 0 && b != 0 && key.ino in led.trees && Room(sp') == Room(sp) - 1
    requires !key.slot.Root? ==> ParentBlock(sp.disk, led.trees, key) != 0
    requires Hung(sp.disk, led.trees, sp'.disk, led'.trees, key, b)
    ensures Obtained(sp, led, sp', led', key, b, true)
  {
    HungAttached(sp.disk, led.trees, sp'.disk, led'.trees, key, b);
    OwnGap(sp.disk, led.trees[key.ino], key.slot);
    PaidHung(sp, led.trees[key.ino], sp', led'.trees[key.ino], key.slot, b);
  }

  /** A pointer block was hung first, then the rest of the walk succeeded or ran out of blocks. */
  lemma ObtainedAfterHang(sp: Space, led: Ledger, sp1: Space, led1: Ledger, parent: Key, q: nat,
                          sp': Space, led': Ledger, key: Key, b: nat)
    requires At(sp.disk, led.trees, parent) == 0 && At(sp.disk, led.trees, key) == 0
    requires !IsData(parent.slot) && parent.ino == key.ino && parent.slot in Path(key.slot)
    requires q != 0 && Room(sp1) == Room(sp) - 1 && key.ino in led.trees
    requires led1.reserved == led.reserved && SameLayout(sp, sp1)
    requires Hung(sp.disk, led.trees, sp1.disk, led1.trees, parent, q)
    requires Obtained(sp1, led1, sp', led', key, b, true)
    ensures Obtained(sp, led, sp', led', key, b, true)
  {
    HungMapsOnly(sp.disk, led.trees, sp1.disk, led1.trees, parent, q, key);
    MapsOnlyTransitive(sp.disk, led.trees, sp1.disk, led1.trees, sp'.disk, led'.trees, key);
    HungAttached(sp.disk, led.trees, sp1.disk, led1.trees, parent, q);
    PaidAfter(sp, led.trees[key.ino], sp1, led1.trees[key.ino], parent.slot, q, sp', led'.trees[key.ino], key.slot, b);
  }

  /** The direct branch of get_or_alloc_block. */
  method GetOrAllocDirect(sp: Space, p: Pointers, k: nat, allocate: bool, ghost led: Ledger, ghost ino: nat)
    returns (sp': Space, p': Pointers, b: nat, ghost led': Ledger)
    requires Consistent(sp, led) && ino in led.trees && led.trees[ino] == p
    requires k < NDIR
    ensures Obtained(sp, led, sp', led', Key(ino, Root(k)), b, allocate)
    ensures led'.trees == led.trees[ino := p']
  {
    ghost var key := Key(ino, Root(k));
    if p[k] == 0 && allocate {
      sp', p', b, led' := HangRoot(sp, p, k, led, ino);
      if b != 0 {
        ObtainedHung(sp, led, sp', led', key, b);
      } else {
        ObtainedAsIs(sp, led, key, b, allocate);
      }
      return;
    }
    sp', p', b, led' := sp, p, p[k], led;
    assert led.trees == led.trees[ino := p];
    ObtainedAsIs(sp, led, key, b, allocate);
  }

  /** The word of a pointer block that is already in place. */
  method GetOrAllocWord(sp: Space, q: nat, n: nat, allocate: bool, ghost led: Ledger, ghost key: Key)
    returns (sp': Space, b: nat, ghost led': Ledger)
    requires Consistent(sp, led) && key.ino in led.trees && !key.slot.Root?
    requires q == ParentBlock(sp.disk, led.trees, key) != 0 && n == WordIndex(key.slot) && 4 * n + 4 <= sp.bs
    ensures Obtained(sp, led, sp', led', key, b, allocate)
    ensures led'.trees == led.trees
    ensures b == 0 ==> sp' == sp && led' == led
    ensures b == 0 && allocate ==> Room(sp) == 0
    ensures b != 0 && At(sp.disk, led.trees, key) == 0 ==>
              Hung(sp.disk, led.trees, sp'.disk, led.trees, key, b) && Room(sp') == Room(sp) - 1
  {
    WordOnDisk(sp, led, key);
    sp', led' := sp, led;
    var buffer := sp.disk[q];
    b := GetU32(buffer, 4 * n);
    if b == 0 && allocate {
      sp', b, led' := HangWord(sp, q, n, led, key);
      if b != 0 {
        ObtainedHung(sp, led, sp', led', key, b);
        return;
      }
    }
    ObtainedAsIs(sp, led, key, b, allocate);
  }

  /** A position's word is in its parent block, which is a whole block on the device. */
  lemma WordOnDisk(sp: Space, led: Ledger, key: Key)
    requires Consistent(sp, led) && key.ino in led.trees && !key.slot.Root?
    requires ParentBlock(sp.disk, led.trees, key) != 0 && 4 * WordIndex(key.slot) + 4 <= sp.bs
    ensures var q := ParentBlock(sp.disk, led.trees, key);
            q < |sp.disk| && |sp.disk[q]| == sp.bs && GetU32(sp.disk[q], 4 * WordIndex(key.slot)) ==
              At(sp.disk, led.trees, key)
  {
    ParentOnDisk(sp.disk, led.trees, led.owner, key);
  }

  /** The indirect branch. */
  method GetOrAllocIndirect(sp: Space, p: Pointers, i: nat, allocate: bool, ghost led: Ledger, ghost ino: nat)
    returns (sp': Space, p': Pointers, b: nat, ghost led': Ledger)
    requires Consistent(sp, led) && ino in led.trees && led.trees[ino] == p
    requires 4 * i + 4 <= sp.bs
    ensures Obtained(sp, led, sp', led', Key(ino, Leaf1(i)), b, allocate)
    ensures led'.trees == led.trees[ino := p']
  {
    ghost var key, parent := Key(ino, Leaf1(i)), Key(ino, Root(IND));
    sp', p', b, led' := sp, p, 0, led;
    assert led.trees == led.trees[ino := p];
    if p[IND] == 0 {
      if !allocate {
        ObtainedAsIs(sp, led, key, 0, allocate);
        return;
      }
      var q;
      sp', p', q, led' := HangRoot(sp, p, IND, led, ino);
      if q == 0 {
        ObtainedAsIs(sp, led, key, 0, allocate);
        return;
      }
      ghost var sp1, led1 := sp', led';
      sp', b, led' := GetOrAllocWord(sp', q, i, allocate, led1, key);
      ObtainedAfterHang(sp, led, sp1, led1, parent, q, sp', led', key, b);
      return;
    }
    sp', b, led' := GetOrAllocWord(sp, p[IND], i, allocate, led, key);
  }

  /** The two words below a double-indirect block that is already in place. */
  method GetOrAllocBelow(sp: Space, q: nat, i: nat, j: nat, allocate: bool, ghost led: Ledger, ghost ino: nat)
    returns (sp': Space, b: nat, ghost led': Ledger)
    requires Consistent(sp, led) && ino in led.trees
    requires q == At(sp.disk, led.trees, Key(ino, Root(DIND))) != 0
    requires 4 * i + 4 <= sp.bs && 4 * j + 4 <= sp.bs
    ensures Obtained(sp, led, sp', led', Key(ino, Leaf2(i, j)), b, allocate)
    ensures led'.trees == led.trees
  {
    ghost var key, mid := Key(ino, Leaf2(i, j)), Key(ino, Mid(i));
    b := 0;
    var indirectBlock;
    sp', indirectBlock, led' := GetOrAllocWord(sp, q, i, allocate, led, mid);
    if indirectBlock == 0 {
      ObtainedAsIs(sp, led, key, 0, allocate);
      return;
    }
    ghost var sp1, led1 := sp', led';
    sp', b, led' := GetOrAllocWord(sp', indirectBlock, j, allocate, led1, key);
    if At(sp.disk, led.trees, mid) == 0 {
      ObtainedAfterHang(sp, led, sp1, led1, mid, indirectBlock, sp', led', key, b);
    }
  }

  /** The double-indirect branch. */
  method GetOrAllocDouble(sp: Space, p: Pointers, i: nat, j: nat, allocate: bool, ghost led: Ledger, ghost ino: nat)
    returns (sp': Space, p': Pointers, b: nat, ghost led': Ledger)
    requires Consistent(sp, led) && ino in led.trees && led.trees[ino] == p
    requires 4 * i + 4 <= sp.bs && 4 * j + 4 <= sp.bs
    ensures Obtained(sp, led, sp', led', Key(ino, Leaf2(i, j)), b, allocate)
    ensures led'.trees == led.trees[ino := p']
  {
    ghost var key, parent := Key(ino, Leaf2(i, j)), Key(ino, Root(DIND));
    sp', p', b, led' := sp, p, 0, led;
    assert led.trees == led.trees[ino := p];
    if p[DIND] == 0 {
      if !allocate {
        ObtainedAsIs(sp, led, key, 0, allocate);
        return;
      }
      var q;
      sp', p', q, led' := HangRoot(sp, p, DIND, led, ino);
      if q == 0 {
        ObtainedAsIs(sp, led, key, 0, allocate);
        return;
      }
      ghost var sp1, led1 := sp', led';
      sp', b, led' := GetOrAllocBelow(sp', q, i, j, allocate, led1, ino);
      ObtainedAfterHang(sp, led, sp1, led1, parent, q, sp', led', key, b);
      return;
    }
    sp', b, led' := GetOrAllocBelow(sp, p[DIND], i, j, allocate, led, ino);
  }

  /** The slot of a file block lies inside pointer blocks of P words. */
  lemma SlotInRange(P: nat, fb: nat)
    requires P > 0 && fb < Capacity(P)
    ensures match SlotOf(P, fb)
            case Root(k) => k == fb < NDIR
            case Leaf1(i) => i < P
            case Mid(_) => false
            case Leaf2(i, j) => i < P && j < P
  {
    if fb >= NDIR + P {
      QuotBound(P, P, fb - NDIR - P);
    }
  }

  /** get_or_alloc_block */
  method GetOrAllocBlock(sp: Space, p: Pointers, fileBlock: nat, allocate: bool, ghost led: Ledger, ghost ino: nat)
    returns (sp': Space, p': Pointers, b: nat, ghost led': Ledger)
    requires sp.bs >= 4 && Consistent(sp, led) && ino in led.trees && led.trees[ino] == p
    ensures led'.trees == led.trees[ino := p']
    ensures fileBlock < Capacity(WordsPerBlock(sp)) ==>
              Obtained(sp, led, sp', led', Key(ino, SlotOf(WordsPerBlock(sp), fileBlock)), b, allocate)
    ensures fileBlock >= Capacity(WordsPerBlock(sp)) ==> b == 0 && sp' == sp && led' == led
    ensures b == BlockOf(WordsPerBlock(sp), sp'.disk, p', fileBlock)
    ensures forall g: nat :: g != fileBlock ==>
              BlockOf(WordsPerBlock(sp), sp'.disk, p', g) == BlockOf(WordsPerBlock(sp), sp.disk, p, g)
    ensures !allocate ==> b == BlockOf(WordsPerBlock(sp), sp.disk, p, fileBlock) && p' == p
  {
    var P := WordsPerBlock(sp);
    if fileBlock >= Capacity(P) {
      assert led.trees == led.trees[ino := p];
      return sp, p, 0, led;
    }
    SlotInRange(P, fileBlock);
    match SlotOf(P, fileBlock) {
      case Root(k) =>
        sp', p', b, led' := GetOrAllocDirect(sp, p, k, allocate, led, ino);
      case Leaf1(i) =>
        sp', p', b, led' := GetOrAllocIndirect(sp, p, i, allocate, led, ino);
      case Leaf2(i, j) =>
        sp', p', b, led' := GetOrAllocDouble(sp, p, i, j, allocate, led, ino);
    }
    assert led'.trees[ino] == p';
    forall g: nat
      ensures BlockOf(P, sp'.disk, p', g) == if g == fileBlock then b else BlockOf(P, sp.disk, p, g)
    {
      ObtainedWalk(sp, led, sp', led', ino, fileBlock, b, allocate, P, g);
    }
  }

  /** The read-side walk after mapping a file block: that block is found, every other one is where it was. */
  lemma ObtainedWalk(sp: Space, led: Ledger, sp': Space, led': Ledger, ino: nat, fb: nat, b: nat, allocate: bool,
                     P: nat, g: nat)
    requires P > 0 && fb < Capacity(P) && ino in led.trees && ino in led'.trees
    requires Obtained(sp, led, sp', led', Key(ino, SlotOf(P, fb)), b, allocate)
    ensures BlockOf(P, sp'.disk, led'.trees[ino], g) == if g == fb then b else BlockOf(P, sp.disk, led.trees[ino], g)
  {
    if g < Capacity(P) {
      var key := Key(ino, SlotOf(P, g));
      if SlotOf(P, g) == SlotOf(P, fb) {
        SlotOfInjective(P, g, fb);
      }
      assert BlockOf(P, sp'.disk, led'.trees[ino], g) == At(sp'.disk, led'.trees, key);
      assert BlockOf(P, sp.disk, led.trees[ino], g) == At(sp.disk, led.trees, key);
    }
  }
}
