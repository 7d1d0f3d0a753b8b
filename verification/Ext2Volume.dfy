/**
 Runs of file operations on one mounted volume.

 `Volume` holds the device with its counters and the inode of every file; its
 methods update both in place.  The theorems here are about whole runs: what every
 run keeps (`Volume.Valid`), what it computes (`Replay`), with the writes that a full
 disk cuts short and those that wrap at 2^32, and what is left once a file's blocks
 are given back.
 */
module Ext2Volume {
  import opened Arith
  import opened Bytes
  import opened Ext2Tree
  import opened Ext2Alloc
  import opened Ext2Fit
  import opened Ext2File
  import opened Ext2Data
  import opened Ext2Free

  // ----- writes followed by free_inode_blocks ----------------------------------------

  datatype WriteOp = WriteOp(offset: nat, data: seq<byte>)

  ghost predicate InWord(w: WriteOp) { w.offset < U32 && |w.data| < U32 }

  /** Two consistent volumes with the same trees have the same bitmaps and counters. */
  lemma SameTreesSameUse(sp: Space, led: Ledger, sp': Space, led': Ledger, x: nat)
    requires Consistent(sp, led) && Consistent(sp', led') && SameLayout(sp, sp') && led'.reserved == led.reserved
    requires forall q :: At(sp'.disk, led'.trees, q) == At(sp.disk, led.trees, q)
    ensures Used(sp', x) == Used(sp, x)
  {
    if x in led.owner {
      assert At(sp'.disk, led'.trees, led.owner[x]) == x;
    }
    if x in led'.owner {
      assert At(sp.disk, led.trees, led'.owner[x]) == x;
    }
    assert InGroups(sp', x) == InGroups(sp, x);
  }

  lemma SameUseSameBits(sp: Space, sp': Space, g: nat, i: nat)
    requires SameLayout(sp, sp') && g < |sp.groups| && i < sp.bpg
    requires forall x: nat :: Used(sp', x) == Used(sp, x)
    ensures Bit(Bitmap(sp', g), i) == Bit(Bitmap(sp, g), i)
  {
    var x := g * sp.bpg + i;
    Split(sp.bpg, g, i, x);
    assert Used(sp', x) == Used(sp, x);
  }

  lemma SameUseSameCounts(sp: Space, sp': Space)
    requires Counted(sp) && Counted(sp') && SameLayout(sp, sp')
    requires forall x: nat :: Used(sp', x) == Used(sp, x)
    ensures sp'.groups == sp.groups && sp'.free == sp.free
  {
    forall g | 0 <= g < |sp.groups|
      ensures sp'.groups[g] == sp.groups[g]
    {
      forall i | 0 <= i < sp.bpg
        ensures Bit(Bitmap(sp', g), i) == Bit(Bitmap(sp, g), i)
      {
        SameUseSameBits(sp, sp', g, i);
      }
      ClearBitsExt(Bitmap(sp', g), Bitmap(sp, g), sp.bpg);
    }
  }

  /** From an inode with no blocks, any sequence of writes, completed or cut short by a full
      disk, and then free_inode_blocks: bitmap and counters are back exactly. */
  method WritesThenFree(sp: Space, writes: seq<WriteOp>, ghost led: Ledger, ghost ino: nat) returns (sp': Space)
    requires Consistent(sp, led) && Sized(sp) && ino in led.trees && led.trees[ino] == NoPointers()
    requires forall w :: w in writes ==> InWord(w)
    ensures SameLayout(sp, sp')
    ensures forall x: nat :: Used(sp', x) == Used(sp, x)
    ensures sp'.groups == sp.groups && sp'.free == sp.free
  {
    ghost var led';
    var p;
    sp', p, led' := WriteAll(sp, NoPointers(), writes, led, ino);
    ghost var sp1, led1 := sp', led';
    sp', p, led' := FreeInodeBlocks(sp', p, led', ino);
    BackToEmpty(sp, led, sp1, led1, sp', led', ino);
  }

  /** All the writes, in order. */
  method WriteAll(sp: Space, p: Pointers, writes: seq<WriteOp>, ghost led: Ledger, ghost ino: nat)
    returns (sp': Space, p': Pointers, ghost led': Ledger)
    requires Consistent(sp, led) && Sized(sp) && ino in led.trees && led.trees[ino] == p
    requires forall w :: w in writes ==> InWord(w)
    ensures Consistent(sp', led') && SameLayout(sp, sp') && led'.reserved == led.reserved
    ensures led'.trees == led.trees[ino := p'] && OthersKept(sp.disk, led.trees, sp'.disk, led'.trees, ino)
  {
    hide Consistent;
    sp', p', led' := sp, p, led;
    assert led.trees == led.trees[ino := p];
    var size: nat, i: nat := 0, 0;
    while i < |writes|
      invariant i <= |writes| && size < U32
      invariant Consistent(sp', led') && SameLayout(sp, sp') && led'.reserved == led.reserved
      invariant led'.trees == led.trees[ino := p'] && OthersKept(sp.disk, led.trees, sp'.disk, led'.trees, ino)
    {
      var n;
      ghost var w;
      assert InWord(writes[i]);
      sp', p', size, n, led', w := WriteFile(sp', p', size, writes[i].offset, writes[i].data, led', ino);
      i := i + 1;
    }
  }

  lemma BackToEmpty(sp0: Space, led0: Ledger, sp1: Space, led1: Ledger, sp2: Space, led2: Ledger, ino: nat)
    requires Consistent(sp0, led0) && Consistent(sp2, led2) && SameLayout(sp0, sp1) && SameLayout(sp1, sp2)
    requires ino in led0.trees && led0.trees[ino] == NoPointers()
    requires led1.reserved == led0.reserved && led2 == Emptied(led1, ino) && ino in led1.trees
    requires OthersKept(sp0.disk, led0.trees, sp1.disk, led1.trees, ino)
    requires OthersKept(sp1.disk, led1.trees, sp2.disk, led2.trees, ino)
    ensures forall x: nat :: Used(sp2, x) == Used(sp0, x)
    ensures sp2.groups == sp0.groups && sp2.free == sp0.free
  {
    hide Consistent;
    forall q: Key
      ensures At(sp2.disk, led2.trees, q) == At(sp0.disk, led0.trees, q)
    {
      if q.ino == ino {
        NoPositions(sp0.disk, led0.trees, q);
        NoPositions(sp2.disk, led2.trees, q);
      }
    }
    forall x: nat
      ensures Used(sp2, x) == Used(sp0, x)
    {
      SameTreesSameUse(sp0, led0, sp2, led2, x);
    }
    ConsistentCounts(sp0, led0);
    ConsistentCounts(sp2, led2);
    SameUseSameCounts(sp0, sp2);
  }

  lemma ConsistentCounts(sp: Space, led: Ledger)
    requires Consistent(sp, led)
    ensures Counted(sp) && NoSharing(sp.disk, led.trees)
    ensures forall q :: At(sp.disk, led.trees, q) != 0 ==> Used(sp, At(sp.disk, led.trees, q))
  {
    OwnedImpliesNoSharing(sp.disk, led.trees, led.owner);
  }

  // ----- files as bytes ---------------------------------------------------------------

  /** A file: its size and the bytes stored for it, which may reach past the size; zeros follow them. */
  datatype File = File(size: nat, raw: seq<byte>)

  type Files = map<nat, File>

  function RawAt(raw: seq<byte>, k: nat): byte { if k < |raw| then raw[k] else 0 }

  /** What a reader sees. */
  function Visible(f: File): (s: seq<byte>)
    ensures |s| == f.size && forall k :: 0 <= k < f.size ==> s[k] == RawAt(f.raw, k)
  {
    seq(f.size, (k: nat) => RawAt(f.raw, k))
  }

  /** The stored bytes after data is laid at offset, going round at 2^32. */
  function LayRaw(raw: seq<byte>, offset: nat, data: seq<byte>): (r: seq<byte>)
    requires offset < U32 && |data| < U32
  {
    if offset + |data| <= U32 then Overlay(raw, offset, data)
    else Overlay(Overlay(raw, offset, data[..U32 - offset]), 0, data[U32 - offset..])
  }

  lemma LayRawAt(raw: seq<byte>, offset: nat, data: seq<byte>, k: nat)
    requires offset < U32 && |data| < U32 && k < U32
    ensures RawAt(LayRaw(raw, offset, data), k) ==
            if Dist(offset, k) < |data| then data[Dist(offset, k)] else RawAt(raw, k)
  {
  }

  datatype Op = Create(ino: nat) | Write(ino: nat, offset: nat, data: seq<byte>) | Remove(ino: nat)

  /** Offsets and sizes are 32-bit numbers. */
  predicate Proper(op: Op) { op.Write? ==> op.offset < U32 && |op.data| < U32 }

  /** The size after a write that stored w bytes. */
  function SizeAfter(size: nat, offset: nat, data: seq<byte>, w: nat): nat
    requires offset < U32 && |data| < U32
  {
    if 0 < |data| == w && Wrap(offset + |data|) > size then Wrap(offset + |data|) else size
  }

  /** What an operation means for all files, when a write stores w bytes. */
  function Apply(files: Files, op: Op, w: nat): Files
    requires Proper(op)
  {
    match op
    case Create(ino) => if ino in files then files else files[ino := File(0, [])]
    case Write(ino, offset, data) =>
      if ino !in files || w == 0 || w > |data| then files
      else files[ino := File(SizeAfter(files[ino].size, offset, data, w), LayRaw(files[ino].raw, offset, data[..w]))]
    case Remove(ino) => files - {ino}
  }

  /** ws[k] is what the k-th operation stored, if it is a write. */
  function Replay(files: Files, ops: seq<Op>, ws: seq<nat>): Files
    requires |ws| == |ops| && forall op :: op in ops ==> Proper(op)
  {
    if ops == [] then files
    else
      var n := |ops| - 1;
      Apply(Replay(files, ops[..n], ws[..n]), ops[n], ws[n])
  }

  // ----- runs in which every write is stored whole -------------------------------------------

  type Texts = map<nat, seq<byte>>

  function ApplyText(texts: Texts, op: Op): Texts {
    match op
    case Create(ino) => if ino in texts then texts else texts[ino := []]
    case Write(ino, offset, data) =>
      if ino in texts && |data| > 0 then texts[ino := Overlay(texts[ino], offset, data)] else texts
    case Remove(ino) => texts - {ino}
  }

  function ReplayText(texts: Texts, ops: seq<Op>): Texts {
    if ops == [] then texts else ApplyText(ReplayText(texts, ops[..|ops| - 1]), ops[|ops| - 1])
  }

  function TextsOf(files: Files): Texts { map i | i in files :: Visible(files[i]) }

  /** No file has stored bytes past its size. */
  ghost predicate Clean(files: Files) { forall i :: i in files ==> |files[i].raw| <= files[i].size < U32 }

  /** The write stored all of its bytes, and its end is in range. */
  predicate Stores(op: Op, w: nat) { op.Write? ==> w == |op.data| && op.offset + |op.data| < U32 }

  lemma CleanWrite(f: File, offset: nat, data: seq<byte>)
    requires |f.raw| <= f.size < U32 && 0 < |data| && offset + |data| < U32
    ensures var f' := File(SizeAfter(f.size, offset, data, |data|), LayRaw(f.raw, offset, data));
            |f'.raw| <= f'.size < U32 && Visible(f') == Overlay(Visible(f), offset, data)
  {
  }

  lemma CleanStep(files: Files, op: Op, w: nat)
    requires Clean(files) && Proper(op) && Stores(op, w)
    ensures Clean(Apply(files, op, w)) && TextsOf(Apply(files, op, w)) == ApplyText(TextsOf(files), op)
  {
    hide Visible, Overlay, LayRaw, SizeAfter;
    var files' := Apply(files, op, w);
    if op.Write? && op.ino in files && w > 0 {
      assert op.data[..w] == op.data;
      CleanWrite(files[op.ino], op.offset, op.data);
    } else if op.Create? {
      NewVisible();
    }
  }

  lemma NewVisible()
    ensures Visible(File(0, [])) == []
  {
  }

  /** A run of whole writes from clean files lays each over the contents before it, and leaves no file bytes past
      its end. */
  lemma {:induction false} CleanReplay(files: Files, ops: seq<Op>, ws: seq<nat>)
    requires Clean(files) && |ws| == |ops| && forall op :: op in ops ==> Proper(op)
    requires forall k :: 0 <= k < |ops| ==> Stores(ops[k], ws[k])
    ensures Clean(Replay(files, ops, ws)) && TextsOf(Replay(files, ops, ws)) == ReplayText(TextsOf(files), ops)
    decreases |ops|
  {
    hide Apply, ApplyText, TextsOf, Clean;
    if ops != [] {
      var n := |ops| - 1;
      CleanReplay(files, ops[..n], ws[..n]);
      CleanStep(Replay(files, ops[..n], ws[..n]), ops[n], ws[n]);
    }
  }

  // ----- the volume shows the files ----------------------------------------------------------

  /** The parts of ext2_inode_t the block engine uses. */
  datatype InodeRec = InodeRec(iBlock: Pointers, iSize: nat)

  function TreesOf(inodes: map<nat, InodeRec>): (t: Trees) {
    map i | i in inodes :: inodes[i].iBlock
  }

  ghost predicate ShowsFile(bs: nat, disk: Disk, rec: InodeRec, f: File)
    requires bs >= 4
  {
    f.size == rec.iSize < U32 && forall k: nat :: k < U32 ==> FileByte(bs, disk, rec.iBlock, k) == RawAt(f.raw, k)
  }

  ghost predicate Shows(sp: Space, inodes: map<nat, InodeRec>, files: Files)
    requires sp.bs >= 4
  {
    files.Keys == inodes.Keys && forall i :: i in inodes ==> ShowsFile(sp.bs, sp.disk, inodes[i], files[i])
  }

  lemma CreateShows(sp: Space, inodes: map<nat, InodeRec>, files: Files, ino: nat)
    requires sp.bs >= 4 && ino !in inodes && Shows(sp, inodes, files)
    ensures Shows(sp, inodes[ino := InodeRec(NoPointers(), 0)], Apply(files, Create(ino), 0))
  {
    forall k: nat
      ensures FileByte(sp.bs, sp.disk, NoPointers(), k) == 0
    {
      if Quot(sp.bs, k) < Capacity(sp.bs / 4) {
        NoPositions(sp.disk, map[0 := NoPointers()], Key(0, SlotOf(sp.bs / 4, Quot(sp.bs, k))));
      }
    }
  }

  lemma CreateConsistent(sp: Space, led: Ledger, ino: nat)
    requires Consistent(sp, led) && ino !in led.trees
    ensures Consistent(sp, led.(trees := led.trees[ino := NoPointers()]))
  {
    var trees' := led.trees[ino := NoPointers()];
    forall q: Key
      ensures At(sp.disk, trees', q) == At(sp.disk, led.trees, q)
    {
      if q.ino == ino {
        NoPositions(sp.disk, trees', q);
      }
    }
    SameTreeOwned(sp.disk, led.trees, sp.disk, trees', led.owner);
  }

  lemma RemoveConsistent(sp: Space, led: Ledger, ino: nat)
    requires Consistent(sp, led) && ino in led.trees && led.trees[ino] == NoPointers()
    ensures Consistent(sp, led.(trees := led.trees - {ino}))
  {
    var trees' := led.trees - {ino};
    forall q: Key
      ensures At(sp.disk, trees', q) == At(sp.disk, led.trees, q)
    {
      if q.ino == ino {
        NoPositions(sp.disk, led.trees, q);
      }
    }
    SameTreeOwned(sp.disk, led.trees, sp.disk, trees', led.owner);
  }

  /** The file written to. */
  lemma WrittenShows(bs: nat, disk: Disk, trees: Trees, disk': Disk, trees': Trees, ino: nat,
                     rec: InodeRec, rec': InodeRec, f: File, offset: nat, data: seq<byte>, w: nat)
    requires bs >= 4 && offset < U32 && w <= |data| < U32 && ino in trees && ino in trees'
    requires trees[ino] == rec.iBlock && trees'[ino] == rec'.iBlock && ShowsFile(bs, disk, rec, f)
    requires rec'.iSize == SizeAfter(rec.iSize, offset, data, w)
    requires Stored(bs, disk, trees, disk', trees', ino, offset, data[..w])
    ensures ShowsFile(bs, disk', rec', File(SizeAfter(f.size, offset, data, w), LayRaw(f.raw, offset, data[..w])))
  {
    hide FileByte, LayRaw, RawAt;
    forall k: nat | k < U32
      ensures FileByte(bs, disk', rec'.iBlock, k) == RawAt(LayRaw(f.raw, offset, data[..w]), k)
    {
      LayRawAt(f.raw, offset, data[..w], k);
      assert Byte(bs, disk', trees', ino, k) == FileByte(bs, disk', rec'.iBlock, k);
    }
  }

  /** Any other file. */
  lemma KeptShows(bs: nat, disk: Disk, trees: Trees, disk': Disk, trees': Trees, ino: nat,
                  offset: nat, data: seq<byte>, i: nat, rec: InodeRec, f: File)
    requires bs >= 4 && offset < U32 && i in trees && i in trees' && i != ino
    requires trees[i] == trees'[i] == rec.iBlock && ShowsFile(bs, disk, rec, f)
    requires Stored(bs, disk, trees, disk', trees', ino, offset, data)
    ensures ShowsFile(bs, disk', rec, f)
  {
    hide FileByte;
    forall k: nat | k < U32
      ensures FileByte(bs, disk', rec.iBlock, k) == FileByte(bs, disk, rec.iBlock, k)
    {
      assert Byte(bs, disk', trees', i, k) == FileByte(bs, disk', rec.iBlock, k);
    }
  }

  lemma NothingShows(bs: nat, disk: Disk, rec: InodeRec, f: File, offset: nat)
    requires bs >= 4 && offset < U32 && ShowsFile(bs, disk, rec, File(f.size, LayRaw(f.raw, offset, [])))
    ensures ShowsFile(bs, disk, rec, f)
  {
    hide FileByte;
    forall k: nat | k < U32
      ensures RawAt(LayRaw(f.raw, offset, []), k) == RawAt(f.raw, k)
    {
      LayRawAt(f.raw, offset, [], k);
    }
  }

  lemma WriteShows(sp: Space, inodes: map<nat, InodeRec>, files: Files, sp': Space, rec': InodeRec,
                   ino: nat, offset: nat, data: seq<byte>, w: nat)
    requires sp'.bs == sp.bs >= 4 && ino in inodes && Shows(sp, inodes, files)
    requires offset < U32 && w <= |data| < U32 && rec'.iSize == SizeAfter(inodes[ino].iSize, offset, data, w)
    requires Stored(sp.bs, sp.disk, TreesOf(inodes), sp'.disk, TreesOf(inodes[ino := rec']), ino, offset, data[..w])
    ensures Shows(sp', inodes[ino := rec'], Apply(files, Write(ino, offset, data), w))
  {
    var inodes' := inodes[ino := rec'];
    var t, t' := TreesOf(inodes), TreesOf(inodes');
    hide Stored, ShowsFile, LayRaw;
    WrittenShows(sp.bs, sp.disk, t, sp'.disk, t', ino, inodes[ino], rec', files[ino], offset, data, w);
    if w == 0 {
      assert data[..w] == [];
      NothingShows(sp.bs, sp'.disk, rec', files[ino], offset);
    }
    forall i | i in inodes && i != ino
      ensures ShowsFile(sp.bs, sp'.disk, inodes[i], files[i])
    {
      KeptShows(sp.bs, sp.disk, t, sp'.disk, t', ino, offset, data[..w], i, inodes[i], files[i]);
    }
  }

  /** Blocks of other files are untouched, so their bytes are. */
  lemma RemoveShows(sp: Space, inodes: map<nat, InodeRec>, files: Files, sp': Space, led: Ledger, ino: nat)
    requires Consistent(sp, led) && SameLayout(sp, sp') && sp.bs >= 4 && Shows(sp, inodes, files) &&
               led.trees == TreesOf(inodes)
    requires forall b :: b in led.owner ==> b < |sp.disk| && sp'.disk[b] == sp.disk[b]
    ensures Shows(sp', inodes - {ino}, Apply(files, Remove(ino), 0))
  {
    forall i, k: nat | i in inodes
      ensures FileByte(sp.bs, sp'.disk, inodes[i].iBlock, k) == FileByte(sp.bs, sp.disk, inodes[i].iBlock, k)
    {
      assert led.trees[i] == inodes[i].iBlock;
      if Quot(sp.bs, k) < Capacity(sp.bs / 4) {
        var key := Key(i, SlotOf(sp.bs / 4, Quot(sp.bs, k)));
        AgreeAt(sp.disk, led.trees, led.owner, sp'.disk, key);
        assert At(sp.disk, led.trees, key) != 0 ==> At(sp.disk, led.trees, key) in led.owner;
      }
    }
  }

  // ----- traces

  /** The volume between two operations. */
  datatype Snapshot = Snapshot(sp: Space, inodes: map<nat, InodeRec>)

  /** What a write stores and returns, told from the volume before it. */
  ghost predicate TraceStep(before: Snapshot, op: Op, n: int, w: nat) {
    && Proper(op) && before.sp.bs >= 4
    && (op.Write? ==>
          && w == (if op.ino in before.inodes
                   then Fit(before.sp, before.inodes[op.ino].iBlock, op.offset, |op.data|) else 0)
          && n == if op.ino in before.inodes && 0 < |op.data| == w then w else -1)
  }

  lemma TraceIntro(before: Snapshot, op: Op, n: int, w: nat)
    requires Proper(op) && before.sp.bs >= 4
    requires op.Write? ==>
               && w == (if op.ino in before.inodes
                        then Fit(before.sp, before.inodes[op.ino].iBlock, op.offset, |op.data|) else 0)
               && n == if op.ino in before.inodes && 0 < |op.data| == w then w else -1
    ensures TraceStep(before, op, n, w)
  {
  }

  ghost predicate Traced(ops: seq<Op>, results: seq<int>, ws: seq<nat>, trace: seq<Snapshot>) {
    && |ws| == |results| == |ops| && |trace| == |ops| + 1
    && forall k :: 0 <= k < |ops| ==> TraceStep(trace[k], ops[k], results[k], ws[k])
  }

  lemma TracedMore(ops: seq<Op>, results: seq<int>, ws: seq<nat>, trace: seq<Snapshot>,
                   op: Op, n: int, w: nat, after: Snapshot)
    requires Traced(ops, results, ws, trace) && TraceStep(trace[|ops|], op, n, w)
    ensures Traced(ops + [op], results + [n], ws + [w], trace + [after])
  {
    hide TraceStep;
  }

  /** A mounted volume and the inodes of its files. */
  class Volume {
    var sp: Space
    var inodes: map<nat, InodeRec>
    ghost var led: Ledger
    ghost var files: Files

    constructor (sp: Space, ghost reserved: set<nat>)
      requires Sized(sp) && |sp.disk| > 0 && Consistent(sp, Ledger(reserved, map[], map[]))
      ensures Valid() && this.sp == sp && inodes == map[] && files == map[]
    {
      this.sp, inodes := sp, map[];
      led, files := Ledger(reserved, map[], map[]), map[];
    }

    /** What every run keeps: counters, bitmaps and trees consistent with one another, and the bytes of every file. */
    ghost predicate Valid()
      reads this
    {
      && Sized(sp) && |sp.disk| > 0
      && Consistent(sp, led)
      && led.trees == TreesOf(inodes)
      && Shows(sp, inodes, files)
    }

    method Create(ino: nat)
      requires Valid()
      modifies this
      ensures Valid() && files == Apply(old(files), Op.Create(ino), 0)
    {
      hide Consistent, Shows;
      ShowsKeys(sp, inodes, files);
      if ino !in inodes {
        CreateShows(sp, inodes, files, ino);
        CreateConsistent(sp, led, ino);
        inodes := inodes[ino := InodeRec(NoPointers(), 0)];
        led := led.(trees := led.trees[ino := NoPointers()]);
        assert led.trees == TreesOf(inodes);
      }
      files := Apply(files, Op.Create(ino), 0);
    }

    /** w is how much of the data was stored: what fitted on the volume before the call. */
    method Write(ino: nat, offset: nat, data: seq<byte>) returns (n: int, ghost w: nat)
      requires Valid() && offset < U32 && |data| < U32
      modifies this
      ensures Valid() && files == Apply(old(files), Op.Write(ino, offset, data), w)
      ensures w == if ino in old(inodes) then Fit(old(sp), old(inodes)[ino].iBlock, offset, |data|) else 0
      ensures n == if ino in old(inodes) && 0 < |data| == w then w else -1
    {
      hide Consistent, Stored, Shows, Fit, LayRaw;
      n, w := -1, 0;
      ShowsKeys(sp, inodes, files);
      if ino !in inodes {
        return;
      }
      var rec := inodes[ino];
      ghost var sp0, inodes0 := sp, inodes;
      var sp', p', size';
      ghost var led';
      sp', p', size', n, led', w := WriteFile(sp, rec.iBlock, rec.iSize, offset, data, led, ino);
      var rec' := InodeRec(p', size');
      sp, led, inodes := sp', led', inodes[ino := rec'];
      assert led.trees == TreesOf(inodes);
      WriteShows(sp0, inodes0, files, sp, rec', ino, offset, data, w);
      files := Apply(files, Op.Write(ino, offset, data), w);
    }

    method Remove(ino: nat)
      requires Valid()
      modifies this
      ensures Valid() && files == Apply(old(files), Op.Remove(ino), 0)
    {
      hide Consistent, Shows;
      if ino in inodes {
        ghost var sp0, led0, inodes0 := sp, led, inodes;
        var sp', p';
        ghost var led';
        sp', p', led' := FreeInodeBlocks(sp, inodes[ino].iBlock, led, ino);
        RemoveShows(sp0, inodes0, files, sp', led0, ino);
        RemoveConsistent(sp', led', ino);
        sp, inodes := sp', inodes - {ino};
        led := led'.(trees := led'.trees - {ino});
        assert led.trees == TreesOf(inodes);
      } else {
        ShowsKeys(sp, inodes, files);
        assert files - {ino} == files;
      }
      files := Apply(files, Op.Remove(ino), 0);
    }

    /** ext2_read_file: that part of the file, as far as it goes. */
    method Read(ino: nat, offset: nat, size: nat) returns (contents: seq<byte>)
      requires Valid() && ino in inodes && offset < U32 && size < U32
      ensures ino in files
      ensures offset >= |Visible(files[ino])| ==> contents == []
      ensures offset < |Visible(files[ino])| && offset + size < U32 ==>
                contents == if offset + size <= |Visible(files[ino])|
                then Visible(files[ino])[offset..offset + size] else Visible(files[ino])[offset..]
      ensures offset == 0 && size == |Visible(files[ino])| ==> contents == Visible(files[ino])
    {
      PointersOnDevice(sp, led, ino);
      contents := ReadFile(sp, inodes[ino].iBlock, inodes[ino].iSize, offset, size);
      assert ShowsFile(sp.bs, sp.disk, inodes[ino], files[ino]);
      ghost var v := Visible(files[ino]);
      assert offset == 0 && size == |v| ==> v[offset..offset + size] == v;
    }

    /** Any run at all: the volume stays consistent, so no block is reachable twice, every reachable
        block is marked and every counter is right; and the files are the replay of what was stored,
        which for each write is what fitted on the volume as it was before that write. */
    method Run(ops: seq<Op>) returns (results: seq<int>, ghost ws: seq<nat>, ghost trace: seq<Snapshot>)
      requires Valid() && forall op :: op in ops ==> Proper(op)
      modifies this
      ensures Valid() && NoSharing(sp.disk, led.trees) && Counted(sp)
      ensures forall q :: At(sp.disk, led.trees, q) != 0 ==> Used(sp, At(sp.disk, led.trees, q))
      ensures |ws| == |ops| == |results| && files == Replay(old(files), ops, ws)
      ensures Traced(ops, results, ws, trace)
      ensures trace[0] == Snapshot(old(sp), old(inodes)) && trace[|ops|] == Snapshot(sp, inodes)
    {
      hide Consistent, Shows, Apply, Fit, TraceStep;
      results, ws, trace := [], [], [Snapshot(sp, inodes)];
      var i := 0;
      while i < |ops|
        invariant i <= |ops| && Valid() && |ws| == i == |results|
        invariant files == Replay(old(files), ops[..i], ws)
        invariant Traced(ops[..i], results, ws, trace)
        invariant trace[0] == Snapshot(old(sp), old(inodes)) && trace[i] == Snapshot(sp, inodes)
      {
        assert ops[i] in ops;
        ghost var w := 0;
        var n := 0;
        match ops[i] {
          case Create(ino) => Create(ino);
          case Remove(ino) => Remove(ino);
          case Write(ino, offset, data) => n, w := Write(ino, offset, data);
        }
        TraceIntro(trace[i], ops[i], n, w);
        assert ops[..i + 1][..i] == ops[..i] && (ws + [w])[..i] == ws;
        TracedMore(ops[..i], results, ws, trace, ops[i], n, w, Snapshot(sp, inodes));
        assert ops[..i] + [ops[i]] == ops[..i + 1];
        ws, results, trace := ws + [w], results + [n], trace + [Snapshot(sp, inodes)];
        i := i + 1;
      }
      assert ops[..i] == ops;
      ConsistentCounts(sp, led);
    }
  }

  lemma ShowsKeys(sp: Space, inodes: map<nat, InodeRec>, files: Files)
    requires sp.bs >= 4 && Shows(sp, inodes, files)
    ensures files.Keys == inodes.Keys && forall i :: i in inodes ==> inodes[i].iSize < U32
  {
  }
}
