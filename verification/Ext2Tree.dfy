/**
 The block tree of an ext2 inode, as a map from pointer positions to blocks.

 An inode reaches its blocks through twelve direct pointers, one indirect block
 and one double-indirect block.  A `Slot` names one pointer position in that
 tree; `At` is the block number stored there, zero where nothing is attached.
 "No block is reachable twice, as data or as pointer block, from one inode or
 two" is then injectivity of `At` over pairs of an inode number and a slot.
 `Owned` carries it as a map from each block to its only position.
 */
module Ext2Tree {
  import opened Arith
  import opened Bytes

  const NDIR: nat := 12   // EXT2_NDIR_BLOCKS
  const IND: nat := 12    // EXT2_IND_BLOCK
  const DIND: nat := 13   // EXT2_DIND_BLOCK
  const NPTR: nat := 15   // EXT2_N_BLOCKS

  type Block = seq<byte>
  type Disk = seq<Block>
  /** The i_block array of an inode. */
  type Pointers = seq<nat>
  /** The i_block array of every inode, by inode number. */
  type Trees = map<nat, Pointers>

  datatype Slot =
    | Root(k: nat)              // i_block[k]
    | Leaf1(i: nat)             // word i of the indirect block
    | Mid(i: nat)               // word i of the double-indirect block
    | Leaf2(i: nat, j: nat)     // word j of the indirect block that Mid(i) points to

  datatype Key = Key(ino: nat, slot: Slot)
  type Owner = map<nat, Key>

  /** Slots that hold data blocks, as opposed to blocks of pointers. */
  predicate IsData(s: Slot) {
    match s
    case Root(k) => k < NDIR
    case Leaf1(_) => true
    case Mid(_) => false
    case Leaf2(_, _) => true
  }

  /** Word i of pointer block b; an absent block has no words. */
  function Word(disk: Disk, b: nat, i: nat): (p: nat)
  {
    if 0 < b < |disk| && 4 * i + 4 <= |disk[b]| then GetU32(disk[b], 4 * i) else 0
  }

  function RootAt(p: Pointers, k: nat): (b: nat)
  {
    if k <= DIND && k < |p| then p[k] else 0
  }

  function AtP(disk: Disk, p: Pointers, s: Slot): (b: nat)
  {
    match s
    case Root(k) => RootAt(p, k)
    case Leaf1(i) => Word(disk, RootAt(p, IND), i)
    case Mid(i) => Word(disk, RootAt(p, DIND), i)
    case Leaf2(i, j) => Word(disk, Word(disk, RootAt(p, DIND), i), j)
  }

  function At(disk: Disk, trees: Trees, key: Key): (b: nat)
  {
    if key.ino in trees then AtP(disk, trees[key.ino], key.slot) else 0
  }

  function SetPtr(p: Pointers, k: nat, b: nat): (r: Pointers)
    requires k < |p|
  {
    p[k := b]
  }

  /** Every position holding a block is that block's owner, and owners hold their blocks. */
  ghost predicate Owned(disk: Disk, trees: Trees, owner: Owner) {
    && (forall ino :: ino in trees ==> |trees[ino]| == NPTR)
    && (forall key :: At(disk, trees, key) != 0 ==>
                        At(disk, trees, key) in owner && owner[At(disk, trees, key)] == key)
    && (forall b :: b in owner ==> 0 < b < |disk| && At(disk, trees, owner[b]) == b)
  }

  /** The statement `Owned` stands for: no block has two positions. */
  ghost predicate NoSharing(disk: Disk, trees: Trees) {
    forall k1, k2 :: At(disk, trees, k1) != 0 && At(disk, trees, k1) == At(disk, trees, k2) ==> k1 == k2
  }

  lemma OwnedImpliesNoSharing(disk: Disk, trees: Trees, owner: Owner)
    requires Owned(disk, trees, owner)
    ensures NoSharing(disk, trees)
  {
  }

  // ----- file blocks -----------------------------------------------------------

  /** The data slot of file block fb when a pointer block holds P words; none past double-indirect. */
  function SlotOf(P: nat, fb: nat): (s: Slot)
    requires P > 0 && fb < Capacity(P)
    ensures IsData(s)
  {
    if fb < NDIR then Root(fb)
    else if fb - NDIR < P then Leaf1(fb - NDIR)
    else Leaf2(Quot(P, fb - NDIR - P), Rem(P, fb - NDIR - P))
  }

  /** File blocks a tree can map: direct, indirect and double-indirect. */
  function Capacity(P: nat): nat { NDIR + P + Times(P, P) }

  lemma SlotOfInjective(P: nat, f: nat, g: nat)
    requires P > 0 && f < Capacity(P) && g < Capacity(P)
    requires SlotOf(P, f) == SlotOf(P, g)
    ensures f == g
  {
    if f >= NDIR + P && g >= NDIR + P {
      SplitUnique(P, f - NDIR - P, g - NDIR - P);
    }
  }

  /** The disk block of file block fb, zero for a hole or past the double-indirect range. */
  function BlockOf(P: nat, disk: Disk, p: Pointers, fb: nat): (b: nat)
    requires P > 0
  {
    if fb < Capacity(P) then AtP(disk, p, SlotOf(P, fb)) else 0
  }

  /** The first twelve file blocks are the first twelve words of i_block. */
  lemma DirectBlocks(P: nat, disk: Disk, p: Pointers, k: nat)
    requires P > 0 && |p| == 15 && k < 12
    ensures BlockOf(P, disk, p, k) == p[k]
  {
  }

  /** The next P are the words of the block i_block[12] names, in order. */
  lemma IndirectBlocks(P: nat, disk: Disk, p: Pointers, i: nat)
    requires |p| == 15 && i < P
    ensures 0 < p[12] < |disk| && 4 * P <= |disk[p[12]]| ==>
              BlockOf(P, disk, p, 12 + i) == GetU32(disk[p[12]], 4 * i)
    ensures p[12] == 0 ==> BlockOf(P, disk, p, 12 + i) == 0
  {
  }

  /** The next P * P are read off the block i_block[13] names: its word i names the block whose
      word j holds file block 12 + P + i * P + j.  Nothing is mapped past them. */
  lemma DoubleIndirectBlocks(P: nat, disk: Disk, p: Pointers, i: nat, j: nat)
    requires |p| == 15 && i < P && j < P
    ensures 0 < p[13] < |disk| && 4 * P <= |disk[p[13]]| ==>
              var q := GetU32(disk[p[13]], 4 * i);
              && (q == 0 ==> BlockOf(P, disk, p, 12 + P + (i * P + j)) == 0)
              && (0 < q < |disk| && 4 * P <= |disk[q]| ==>
                    BlockOf(P, disk, p, 12 + P + (i * P + j)) == GetU32(disk[q], 4 * j))
    ensures p[13] == 0 ==> BlockOf(P, disk, p, 12 + P + (i * P + j)) == 0
  {
    hide SlotOf, GetU32, Capacity;
    SlotByNumber(P, i, j);
  }

  lemma SlotByNumber(P: nat, i: nat, j: nat)
    requires i < P && j < P
    ensures 0 <= i * P + j && 12 + P + (i * P + j) < Capacity(P) && SlotOf(P, 12 + P + (i * P + j)) == Leaf2(i, j)
  {
    hide Quot, Rem;
    ProductBound(P, i, j);
    Split(P, i, j, i * P + j);
    TimesIsProduct(P, P);
  }

  lemma ProductBound(P: nat, i: nat, j: nat)
    requires i < P && j < P
    ensures 0 <= i * P + j < P * P
  {
    assert P * P == i * P + (P - i) * P;
    MulAtLeast(P, P - i);
  }

  lemma PastTheTree(P: nat, disk: Disk, p: Pointers, fb: nat)
    requires P > 0 && fb >= 12 + P + P * P
    ensures BlockOf(P, disk, p, fb) == 0
  {
    TimesIsProduct(P, P);
  }

  // ----- what block writes do to the tree --------------------------------------

  /** Writing a block that holds no pointers moves nothing. */
  lemma WriteKeepsTree(disk: Disk, trees: Trees, owner: Owner, b: nat, data: Block)
    requires Owned(disk, trees, owner)
    requires b < |disk|
    requires b in owner ==> IsData(owner[b].slot)
    ensures forall key :: At(disk[b := data], trees, key) == At(disk, trees, key)
    ensures Owned(disk[b := data], trees, owner)
  {
    var disk' := disk[b := data];
    forall key
      ensures At(disk', trees, key) == At(disk, trees, key)
    {
      if key.ino in trees && !key.slot.Root? {
        NotPointerBlock(disk, trees, owner, b, key);
      }
    }
    SameTreeOwned(disk, trees, disk', trees, owner);
  }

  lemma SameTreeOwned(disk: Disk, trees: Trees, disk': Disk, trees': Trees, owner: Owner)
    requires Owned(disk, trees, owner)
    requires |disk'| == |disk|
    requires forall ino :: ino in trees' ==> |trees'[ino]| == NPTR
    requires forall key :: At(disk', trees', key) == At(disk, trees, key)
    ensures Owned(disk', trees', owner)
  {
  }

  /** The block a slot's word is stored in, zero for the slots kept in the inode. */
  function ParentBlock(disk: Disk, trees: Trees, key: Key): (b: nat)
  {
    match key.slot
    case Root(_) => 0
    case Leaf1(_) => At(disk, trees, Key(key.ino, Root(IND)))
    case Mid(_) => At(disk, trees, Key(key.ino, Root(DIND)))
    case Leaf2(i, _) => At(disk, trees, Key(key.ino, Mid(i)))
  }

  lemma NotPointerBlock(disk: Disk, trees: Trees, owner: Owner, b: nat, key: Key)
    requires Owned(disk, trees, owner)
    requires key.ino in trees && !key.slot.Root?
    requires b in owner ==> IsData(owner[b].slot)
    ensures ParentBlock(disk, trees, key) != 0 ==> ParentBlock(disk, trees, key) != b
    ensures key.slot.Leaf2? ==> At(disk, trees, Key(key.ino, Root(DIND))) != 0 ==>
              At(disk, trees, Key(key.ino, Root(DIND))) != b
  {
    var k1 := Key(key.ino, Root(IND));
    var k2 := Key(key.ino, Root(DIND));
    assert At(disk, trees, k1) != 0 ==> owner[At(disk, trees, k1)] == k1;
    assert At(disk, trees, k2) != 0 ==> owner[At(disk, trees, k2)] == k2;
    if key.slot.Leaf2? {
      var k3 := Key(key.ino, Mid(key.slot.i));
      assert At(disk, trees, k3) != 0 ==> owner[At(disk, trees, k3)] == k3;
    }
  }

  // ----- attaching a fresh block -----------------------------------------------

  /** The tree after block b, zeroed, is hung into an empty position of the inode itself. */
  lemma AttachRoot(disk: Disk, trees: Trees, owner: Owner, ino: nat, k: nat, b: nat, zeros: Block)
    requires Owned(disk, trees, owner)
    requires ino in trees && k <= DIND && trees[ino][k] == 0
    requires 0 < b < |disk| && b !in owner
    requires zeros == Zeros(|zeros|)
    ensures var disk', key := disk[b := zeros], Key(ino, Root(k));
            var trees' := trees[ino := SetPtr(trees[ino], k, b)];
            && (forall q :: At(disk', trees', q) == if q == key then b else At(disk, trees, q))
            && Owned(disk', trees', owner[b := key])
  {
    var disk1 := disk[b := zeros];
    WriteKeepsTree(disk, trees, owner, b, zeros);
    var trees' := trees[ino := SetPtr(trees[ino], k, b)];
    var key := Key(ino, Root(k));
    forall q
      ensures At(disk1, trees', q) == if q == key then b else At(disk1, trees, q)
    {
      if q.ino == ino && q != key {
        AttachRootOne(disk1, trees[ino], k, b, q.slot);
      }
    }
  }

  lemma ZeroWord(disk: Disk, b: nat, i: nat)
    requires b < |disk| && disk[b] == Zeros(|disk[b]|)
    ensures Word(disk, b, i) == 0
  {
  }

  lemma AttachRootOne(disk: Disk, p: Pointers, k: nat, b: nat, s: Slot)
    requires |p| == NPTR && k <= DIND && p[k] == 0 && s != Root(k)
    requires 0 < b < |disk| && disk[b] == Zeros(|disk[b]|)
    ensures AtP(disk, SetPtr(p, k, b), s) == AtP(disk, p, s)
  {
    match s
    case Root(_) =>
    case Leaf1(i) => if k == IND { ZeroWord(disk, b, i); }
    case Mid(i) => if k == DIND { ZeroWord(disk, b, i); }
    case Leaf2(i, j) => if k == DIND { ZeroWord(disk, b, i); }
  }

  /** The word index of a slot inside its parent block. */
  function WordIndex(s: Slot): nat
    requires !s.Root?
  {
    match s case Leaf1(i) => i case Mid(i) => i case Leaf2(_, j) => j
  }

  /** The tree after block b, zeroed, is stored into an empty word of a pointer block. */
  lemma AttachWord(disk: Disk, trees: Trees, owner: Owner, key: Key, b: nat, zeros: Block)
    requires Owned(disk, trees, owner)
    requires key.ino in trees && !key.slot.Root? && At(disk, trees, key) == 0
    requires 0 < b < |disk| && b !in owner && b < U32
    requires zeros == Zeros(|zeros|)
    requires ParentBlock(disk, trees, key) != 0
    requires 4 * WordIndex(key.slot) + 4 <= |disk[ParentBlock(disk, trees, key)]|
    ensures var q := ParentBlock(disk, trees, key);
            var disk' := disk[q := PutU32(disk[q], 4 * WordIndex(key.slot), b)][b := zeros];
            && (forall k :: At(disk', trees, k) == if k == key then b else At(disk, trees, k))
            && Owned(disk', trees, owner[b := key])
  {
    var q := ParentBlock(disk, trees, key);
    var disk1 := disk[b := zeros];
    WriteKeepsTree(disk, trees, owner, b, zeros);
    var n := WordIndex(key.slot);
    var disk' := disk1[q := PutU32(disk1[q], 4 * n, b)];
    assert b != q;
    assert disk' == disk[q := PutU32(disk[q], 4 * n, b)][b := zeros];
    forall k
      ensures At(disk', trees, k) == if k == key then b else At(disk1, trees, k)
    {
      AttachWordOne(disk1, trees, owner, key, b, k);
    }
  }

  lemma AttachWordOne(disk: Disk, trees: Trees, owner: Owner, key: Key, b: nat, k: Key)
    requires Owned(disk, trees, owner)
    requires key.ino in trees && !key.slot.Root? && At(disk, trees, key) == 0
    requires 0 < b < |disk| && b !in owner && b < U32 && disk[b] == Zeros(|disk[b]|)
    requires ParentBlock(disk, trees, key) != 0
    requires 4 * WordIndex(key.slot) + 4 <= |disk[ParentBlock(disk, trees, key)]|
    ensures var q := ParentBlock(disk, trees, key);
            At(disk[q := PutU32(disk[q], 4 * WordIndex(key.slot), b)], trees, k)
            == if k == key then b else At(disk, trees, k)
  {
    var q := ParentBlock(disk, trees, key);
    var n := WordIndex(key.slot);
    var disk' := disk[q := PutU32(disk[q], 4 * n, b)];
    forall x: nat, m: nat | x != q || m != n
      ensures Word(disk', x, m) == Word(disk, x, m)
    {
      if x == q && 4 * m + 4 <= |disk[q]| {
        PutU32Frame(disk[q], n, b, m);
      }
    }
    assert Word(disk', q, n) == b;
    if k.ino in trees && !k.slot.Root? {
      var p := trees[k.ino];
      var r := At(disk, trees, Key(k.ino, Root(DIND)));
      assert At(disk', trees, Key(k.ino, Root(DIND))) == r;
      var kq := owner[q];
      match k.slot
      case Leaf1(i) =>
        if k != key {
          assert owner[q] == ParentKey(key);
          assert ParentBlock(disk, trees, k) != 0 ==> owner[ParentBlock(disk, trees, k)] == ParentKey(k);
        }
      case Mid(i) =>
        if k != key {
          assert owner[q] == ParentKey(key);
          assert ParentBlock(disk, trees, k) != 0 ==> owner[ParentBlock(disk, trees, k)] == ParentKey(k);
        }
      case Leaf2(i, j) =>
        assert owner[q] == ParentKey(key);
        assert r != 0 ==> owner[r] == Key(k.ino, Root(DIND));
        var m := Key(k.ino, Mid(i));
        if m == key {
          ZeroWord(disk', b, j);
        } else {
          assert Word(disk', r, i) == Word(disk, r, i);
          if k != key {
            assert ParentBlock(disk, trees, k) != 0 ==> owner[ParentBlock(disk, trees, k)] == ParentKey(k);
          }
        }
    }
  }

  /** The position of the pointer block a slot's word is stored in. */
  function ParentKey(key: Key): Key
    requires !key.slot.Root?
  {
    match key.slot
    case Leaf1(_) => Key(key.ino, Root(IND))
    case Mid(_) => Key(key.ino, Root(DIND))
    case Leaf2(i, _) => Key(key.ino, Mid(i))
  }
}
