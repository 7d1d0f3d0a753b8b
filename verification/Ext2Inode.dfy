/**
 The inode table (kernel/fs/ext2_inode.c): reading and writing the 128 bytes of an
 inode through the block that holds them.
 */
module Ext2Inode {
  import opened Arith
  import opened Bytes
  import opened Ext2Tree

  const RECORD: nat := 128   // sizeof(ext2_inode_t)

  /**
   count: s_inodes_count.  perGroup: s_inodes_per_group.  slot: the bytes an inode
   takes in the table.  perBlock: inodes_per_block.  tables: bg_inode_table by group.
   */
  datatype Layout = Layout(count: nat, perGroup: nat, slot: nat, perBlock: nat, tables: seq<nat>)

  /** Blocks of one group's table. */
  function TableBlocks(l: Layout): nat
    requires l.perGroup > 0 && l.perBlock > 0
  {
    Quot(l.perBlock, l.perGroup - 1) + 1
  }

  /** A mounted file system's table: whole blocks on the device, one group's apart from another's. */
  ghost predicate Fits(l: Layout, bs: nat, disk: Disk) {
    && l.perGroup > 0 && l.perBlock > 0 && l.slot >= RECORD && Times(l.perBlock, l.slot) <= bs
    && (forall g, b: nat :: 0 <= g < |l.tables| && l.tables[g] <= b < l.tables[g] + TableBlocks(l) ==>
          OnDevice(bs, disk, b))
    && (forall g, h :: 0 <= g < |l.tables| && 0 <= h < |l.tables| && g != h ==>
          l.tables[g] + TableBlocks(l) <= l.tables[h] || l.tables[h] + TableBlocks(l) <= l.tables[g])
  }

  ghost predicate OnDevice(bs: nat, disk: Disk, b: nat) { b < |disk| && |disk[b]| == bs }

  predicate InTable(l: Layout, ino: nat)
    requires l.perGroup > 0
  {
    0 < ino <= l.count && Quot(l.perGroup, ino - 1) < |l.tables|
  }

  function BlockOfInode(l: Layout, ino: nat): nat
    requires l.perGroup > 0 && l.perBlock > 0 && InTable(l, ino)
  {
    l.tables[Quot(l.perGroup, ino - 1)] + Quot(l.perBlock, Rem(l.perGroup, ino - 1))
  }

  function OffsetOf(l: Layout, ino: nat): nat
    requires l.perGroup > 0 && l.perBlock > 0 && ino > 0
  {
    Times(Rem(l.perBlock, Rem(l.perGroup, ino - 1)), l.slot)
  }

  /** The record of an inode as it lies on disk. */
  ghost function Record(l: Layout, bs: nat, disk: Disk, ino: nat): seq<byte>
    requires Fits(l, bs, disk) && InTable(l, ino)
  {
    InodePlace(l, bs, disk, ino);
    disk[BlockOfInode(l, ino)][OffsetOf(l, ino)..OffsetOf(l, ino) + RECORD]
  }

  lemma {:induction false} TimesBelow(a: nat, b: nat, c: nat)
    requires a < b
    ensures Times(a, c) + c <= Times(b, c)
    decreases b
  {
    if a < b - 1 {
      TimesBelow(a, b - 1, c);
    }
  }

  lemma {:induction false} QuotOrder(n: nat, x: nat, y: nat)
    requires n > 0 && x <= y
    ensures Quot(n, x) <= Quot(n, y)
    decreases x
  {
    if x >= n {
      QuotOrder(n, x - n, y - n);
    }
  }

  /** The record lies inside one block of its group's table. */
  lemma InodePlace(l: Layout, bs: nat, disk: Disk, ino: nat)
    requires Fits(l, bs, disk) && InTable(l, ino)
    ensures OnDevice(bs, disk, BlockOfInode(l, ino)) && OffsetOf(l, ino) + RECORD <= bs
  {
    var t := Rem(l.perGroup, ino - 1);
    QuotOrder(l.perBlock, t, l.perGroup - 1);
    TimesBelow(Rem(l.perBlock, t), l.perBlock, l.slot);
  }

  /** Inode 1 + g * perGroup + b * perBlock + k is record k of block b of group g's table. */
  lemma InodeByNumber(l: Layout, g: nat, b: nat, k: nat)
    requires g < |l.tables| && k < l.perBlock && b * l.perBlock + k < l.perGroup
    requires g * l.perGroup + (b * l.perBlock + k) < l.count
    ensures var ino := g * l.perGroup + (b * l.perBlock + k) + 1;
            InTable(l, ino) && BlockOfInode(l, ino) == l.tables[g] + b && OffsetOf(l, ino) == k * l.slot
  {
    var t := b * l.perBlock + k;
    assert g * l.perGroup >= 0 && b * l.perBlock >= 0;
    Split(l.perGroup, g, t, g * l.perGroup + t);
    Split(l.perBlock, b, k, t);
    TimesIsProduct(k, l.slot);
  }

  /** Records of two inodes do not overlap. */
  lemma InodesApart(l: Layout, bs: nat, disk: Disk, i: nat, j: nat)
    requires Fits(l, bs, disk) && InTable(l, i) && InTable(l, j) && i != j && BlockOfInode(l, i) == BlockOfInode(l, j)
    ensures OffsetOf(l, i) + RECORD <= OffsetOf(l, j) || OffsetOf(l, j) + RECORD <= OffsetOf(l, i)
  {
    var gi, gj := Quot(l.perGroup, i - 1), Quot(l.perGroup, j - 1);
    var ti, tj := Rem(l.perGroup, i - 1), Rem(l.perGroup, j - 1);
    QuotOrder(l.perBlock, ti, l.perGroup - 1);
    QuotOrder(l.perBlock, tj, l.perGroup - 1);
    assert gi == gj;
    if ti == tj {
      SplitUnique(l.perGroup, i - 1, j - 1);
    } else {
      var ri, rj := Rem(l.perBlock, ti), Rem(l.perBlock, tj);
      if ri == rj {
        SplitUnique(l.perBlock, ti, tj);
      } else if ri < rj {
        TimesBelow(ri, rj, l.slot);
      } else {
        TimesBelow(rj, ri, l.slot);
      }
    }
  }

  datatype Status = Done | Invalid | BadInode

  /** ext2_read_inode. */
  method ReadInode(l: Layout, bs: nat, disk: Disk, ino: nat) returns (status: Status, inode: seq<byte>)
    requires Fits(l, bs, disk)
    ensures status == if ino == 0 then Invalid else if InTable(l, ino) then Done else BadInode
    ensures status == Done ==> inode == Record(l, bs, disk, ino)
  {
    inode := [];
    if ino == 0 {
      return Invalid, inode;
    }
    if ino > l.count || Quot(l.perGroup, ino - 1) >= |l.tables| {
      return BadInode, inode;
    }
    InodePlace(l, bs, disk, ino);
    hide Fits, InTable, OffsetOf, BlockOfInode;
    var block := disk[BlockOfInode(l, ino)];
    var offset := OffsetOf(l, ino);
    var i := 0;
    while i < RECORD
      invariant i <= RECORD && inode == block[offset..offset + i]
    {
      inode := inode + [block[offset + i]];
      i := i + 1;
    }
    return Done, inode;
  }

  /** ext2_write_inode: that inode's record is the new one, every other inode's is as it was, and so is every other
      block. */
  method WriteInode(l: Layout, bs: nat, disk: Disk, ino: nat, inode: seq<byte>) returns (status: Status, disk': Disk)
    requires Fits(l, bs, disk) && |inode| == RECORD
    ensures status == if ino == 0 then Invalid else if InTable(l, ino) then Done else BadInode
    ensures status != Done ==> disk' == disk
    ensures Fits(l, bs, disk') && |disk'| == |disk|
    ensures status == Done ==>
              && (forall j :: InTable(l, j) ==>
                 Record(l, bs, disk', j) == if j == ino then inode else Record(l, bs, disk, j))
              && (forall b :: 0 <= b < |disk| && b != BlockOfInode(l, ino) ==> disk'[b] == disk[b])
  {
    disk' := disk;
    if ino == 0 {
      return Invalid, disk';
    }
    if ino > l.count || Quot(l.perGroup, ino - 1) >= |l.tables| {
      return BadInode, disk';
    }
    InodePlace(l, bs, disk, ino);
    var b, offset := BlockOfInode(l, ino), OffsetOf(l, ino);
    var block := CopyOver(disk[b], offset, inode);
    disk' := disk[b := block];
    FitsAfter(l, bs, disk, b, block);
    forall j | InTable(l, j)
      ensures Record(l, bs, disk', j) == if j == ino then inode else Record(l, bs, disk, j)
    {
      RecordAfter(l, bs, disk, ino, inode, block, j);
    }
    status := Done;
  }

  /** The byte loop of the write. */
  method CopyOver(block: Block, offset: nat, data: seq<byte>) returns (r: Block)
    requires offset + |data| <= |block|
    ensures r == block[..offset] + data + block[offset + |data|..]
  {
    r := block;
    var i := 0;
    while i < |data|
      invariant i <= |data| && r == block[..offset] + data[..i] + block[offset + i..]
    {
      r := r[offset + i := data[i]];
      i := i + 1;
    }
    assert data[..i] == data;
  }

  lemma FitsAfter(l: Layout, bs: nat, disk: Disk, b: nat, block: Block)
    requires Fits(l, bs, disk) && OnDevice(bs, disk, b) && |block| == bs
    ensures Fits(l, bs, disk[b := block])
  {
    var disk' := disk[b := block];
    forall g, x: nat | 0 <= g < |l.tables| && l.tables[g] <= x < l.tables[g] + TableBlocks(l)
      ensures OnDevice(bs, disk', x)
    {
      assert OnDevice(bs, disk, x);
    }
  }

  lemma RecordAfter(l: Layout, bs: nat, disk: Disk, ino: nat, inode: seq<byte>, block: Block, j: nat)
    requires Fits(l, bs, disk) && InTable(l, ino) && InTable(l, j) && |inode| == RECORD
    requires OnDevice(bs, disk, BlockOfInode(l, ino)) && OffsetOf(l, ino) + RECORD <= bs
    requires var o, was := OffsetOf(l, ino), disk[BlockOfInode(l, ino)];
             block == was[..o] + inode + was[o + RECORD..]
    ensures Fits(l, bs, disk[BlockOfInode(l, ino) := block])
    ensures Record(l, bs, disk[BlockOfInode(l, ino) := block], j) == if j == ino then inode else Record(l, bs, disk, j)
  {
    FitsAfter(l, bs, disk, BlockOfInode(l, ino), block);
    InodePlace(l, bs, disk, j);
    if j != ino && BlockOfInode(l, j) == BlockOfInode(l, ino) {
      InodesApart(l, bs, disk, ino, j);
    }
    hide Fits, InTable, OffsetOf, BlockOfInode;
    assert Record(l, bs, disk[BlockOfInode(l, ino) := block], j) == if j == ino then inode else Record(l, bs, disk, j);
  }

  /** Write, then read: what was written comes back. */
  method WriteThenRead(l: Layout, bs: nat, disk: Disk, ino: nat, inode: seq<byte>)
    returns (status: Status, back: seq<byte>)
    requires Fits(l, bs, disk) && |inode| == RECORD
    ensures status == Done <==> InTable(l, ino)
    ensures status == Done ==> back == inode
  {
    var disk';
    status, disk' := WriteInode(l, bs, disk, ino, inode);
    back := [];
    if status == Done {
      status, back := ReadInode(l, bs, disk', ino);
    }
  }
}
