/**
 File contents: ext2_read_file and ext2_write_file
 (kernel/fs/ext2_file.c:140-214, kernel/fs/ext2_write.c:279-356).

 `Byte` is what byte k of a file reads as: the byte of the mapped block, zero in
 a hole.  Offsets are 32-bit and wrap around as the C code's do.
 */
module Ext2Data {
  import opened Arith
  import opened Bytes
  import opened Ext2Tree
  import opened Ext2Alloc
  import opened Ext2Need
  import opened Ext2File
  import opened Ext2Fit

  /** Byte k of the file with pointer array p. */
  function FileByte(bs: nat, disk: Disk, p: Pointers, k: nat): (c: byte)
    requires bs >= 4
  {
    var b := BlockOf(bs / 4, disk, p, Quot(bs, k));
    if 0 < b < |disk| && Rem(bs, k) < |disk[b]| then disk[b][Rem(bs, k)] else 0
  }

  /** Byte o of file block fb is byte o of the disk block that holds it, zero in a hole. */
  lemma FileByteAt(bs: nat, disk: Disk, p: Pointers, fb: nat, o: nat)
    requires bs >= 4 && o < bs
    ensures var b := BlockOf(bs / 4, disk, p, fb);
            && (0 < b < |disk| && |disk[b]| == bs ==> FileByte(bs, disk, p, fb * bs + o) == disk[b][o])
            && (b == 0 ==> FileByte(bs, disk, p, fb * bs + o) == 0)
  {
    Split(bs, fb, o, fb * bs + o);
  }

  /** Byte k of file `ino`; a file that does not exist reads as zeros. */
  function Byte(bs: nat, disk: Disk, trees: Trees, ino: nat, k: nat): (c: byte)
    requires bs >= 4
  {
    if ino in trees then FileByte(bs, disk, trees[ino], k) else 0
  }

  lemma ByteIsPeek(bs: nat, disk: Disk, trees: Trees, ino: nat, k: nat)
    requires bs >= 4 && Quot(bs, k) < Capacity(bs / 4)
    ensures Byte(bs, disk, trees, ino, k) == Peek(disk, trees, Key(ino, SlotOf(bs / 4, Quot(bs, k))), Rem(bs, k))
  {
  }

  lemma SameBytesByte(bs: nat, disk: Disk, trees: Trees, disk': Disk, trees': Trees, ino: nat, k: nat)
    requires bs >= 4 && SameBytes(disk, trees, disk', trees')
    ensures Byte(bs, disk', trees', ino, k) == Byte(bs, disk, trees, ino, k)
  {
    if Quot(bs, k) < Capacity(bs / 4) {
      ByteIsPeek(bs, disk, trees, ino, k);
      ByteIsPeek(bs, disk', trees', ino, k);
    }
  }

  /** Rewriting the block at one data position is seen at that position only. */
  lemma PokePeek(disk: Disk, trees: Trees, owner: Owner, key: Key, b: nat, block: Block, q: Key, o: nat)
    requires Owned(disk, trees, owner) && IsData(key.slot)
    requires b == At(disk, trees, key) != 0 && b < |disk|
    ensures Peek(disk[b := block], trees, q, o) ==
            if q == key then (if o < |block| then block[o] else 0) else Peek(disk, trees, q, o)
  {
    WriteKeepsTree(disk, trees, owner, b, block);
    assert owner[b] == key;
    assert At(disk, trees, q) != 0 ==> owner[At(disk, trees, q)] == q;
  }

  /** Overwriting part of one mapped block changes the bytes of that part of that file only. */
  lemma PokeByte(sp: Space, led: Ledger, ino: nat, pos: nat, data: seq<byte>, b: nat, i: nat, k: nat)
    requires Owned(sp.disk, led.trees, led.owner) && sp.bs >= 4
    requires Rem(sp.bs, pos) + |data| <= sp.bs && Quot(sp.bs, pos) < Capacity(sp.bs / 4)
    requires b == At(sp.disk, led.trees, Key(ino, SlotOf(sp.bs / 4, Quot(sp.bs, pos)))) != 0
    requires b < |sp.disk| && |sp.disk[b]| == sp.bs
    ensures var disk' := sp.disk[b := Patch(sp.disk[b], Rem(sp.bs, pos), data)];
            Byte(sp.bs, disk', led.trees, i, k) ==
            if i == ino && pos <= k < pos + |data| then data[k - pos] else Byte(sp.bs, sp.disk, led.trees, i, k)
  {
    var P, fb, fk := sp.bs / 4, Quot(sp.bs, pos), Quot(sp.bs, k);
    var key := Key(ino, SlotOf(P, fb));
    var block := Patch(sp.disk[b], Rem(sp.bs, pos), data);
    InRun(sp.bs, pos, |data|, k);
    if fk < Capacity(P) {
      ByteIsPeek(sp.bs, sp.disk, led.trees, i, k);
      ByteIsPeek(sp.bs, sp.disk[b := block], led.trees, i, k);
      PokePeek(sp.disk, led.trees, led.owner, key, b, block, Key(i, SlotOf(P, fk)), Rem(sp.bs, k));
      if Key(i, SlotOf(P, fk)) == key {
        SlotOfInjective(P, fk, fb);
        PatchAt(sp.disk[b], Rem(sp.bs, pos), data, Rem(sp.bs, k));
      }
    }
  }

  /** block[o..o+|data|] overwritten. */
  function Patch(block: Block, o: nat, data: seq<byte>): (r: Block)
    ensures |r| == |block|
  {
    if o + |data| <= |block| then block[..o] + data + block[o + |data|..] else block
  }

  lemma PatchAt(block: Block, o: nat, data: seq<byte>, x: nat)
    requires o + |data| <= |block| && x < |block|
    ensures Patch(block, o, data)[x] == if o <= x < o + |data| then data[x - o] else block[x]
  {
  }

  /** The bytes of every file after `data` is laid at `pos` in file `ino`. */
  ghost predicate Laid(bs: nat, disk: Disk, trees: Trees, disk': Disk, trees': Trees, ino: nat, pos: nat,
                       data: seq<byte>)
    requires bs >= 4
  {
    forall i: nat, k: nat :: Byte(bs, disk', trees', i, k) ==
      if i == ino && pos <= k < pos + |data| then data[k - pos] else Byte(bs, disk, trees, i, k)
  }

  lemma PokeLaid(sp: Space, led: Ledger, sp1: Space, led1: Ledger, ino: nat, pos: nat, data: seq<byte>, b: nat)
    requires Consistent(sp1, led1) && sp1.bs == sp.bs >= 4 && ino in led1.trees
    requires SameBytes(sp.disk, led.trees, sp1.disk, led1.trees)
    requires Rem(sp.bs, pos) + |data| <= sp.bs && Quot(sp.bs, pos) < Capacity(sp.bs / 4)
    requires b == At(sp1.disk, led1.trees, Key(ino, SlotOf(sp.bs / 4, Quot(sp.bs, pos)))) != 0
    ensures b < |sp1.disk| && |sp1.disk[b]| == sp.bs
    ensures var sp2 := sp1.(disk := sp1.disk[b := Patch(sp1.disk[b], Rem(sp.bs, pos), data)]);
            && Consistent(sp2, led1)
            && Laid(sp.bs, sp.disk, led.trees, sp2.disk, led1.trees, ino, pos, data)
            && forall q :: At(sp2.disk, led1.trees, q) == At(sp1.disk, led1.trees, q)
  {
    MappedBlock(sp1, led1, Key(ino, SlotOf(sp.bs / 4, Quot(sp.bs, pos))), b);
    var sp2 := sp1.(disk := sp1.disk[b := Patch(sp1.disk[b], Rem(sp.bs, pos), data)]);
    forall i: nat, k: nat
      ensures Byte(sp.bs, sp2.disk, led1.trees, i, k) ==
              if i == ino && pos <= k < pos + |data| then data[k - pos] else Byte(sp.bs, sp.disk, led.trees, i, k)
    {
      SameBytesByte(sp.bs, sp.disk, led.trees, sp1.disk, led1.trees, i, k);
      PokeByte(sp1, led1, ino, pos, data, b, i, k);
    }
    DataWriteConsistent(sp1, sp2, led1, b);
  }

  lemma NothingLaid(bs: nat, disk: Disk, trees: Trees, disk': Disk, trees': Trees, ino: nat, pos: nat)
    requires bs >= 4 && SameBytes(disk, trees, disk', trees')
    ensures Laid(bs, disk, trees, disk', trees', ino, pos, [])
  {
    forall i: nat, k: nat
      ensures Byte(bs, disk', trees', i, k) == Byte(bs, disk, trees, i, k)
    {
      SameBytesByte(bs, disk, trees, disk', trees', i, k);
    }
  }

  /** One round of the write loop: map the block, merge the bytes into it, write it back. */
  method WriteChunk(sp: Space, p: Pointers, pos: nat, data: seq<byte>, ghost led: Ledger, ghost ino: nat)
    returns (sp': Space, p': Pointers, ok: bool, ghost led': Ledger)
    requires Consistent(sp, led) && sp.bs >= 4 && ino in led.trees && led.trees[ino] == p
    requires 0 < |data| && Rem(sp.bs, pos) + |data| <= sp.bs
    ensures Consistent(sp', led') && led'.reserved == led.reserved && SameLayout(sp, sp')
    ensures led'.trees == led.trees[ino := p'] && OthersKept(sp.disk, led.trees, sp'.disk, led'.trees, ino)
    ensures Laid(sp.bs, sp.disk, led.trees, sp'.disk, led'.trees, ino, pos, if ok then data else [])
    ensures ok <==>
            && Quot(sp.bs, pos) < Capacity(sp.bs / 4)
            && |Gaps(sp.disk, p, SlotOf(sp.bs / 4, Quot(sp.bs, pos)))| <= Room(sp)
    ensures ok ==> var gaps := Gaps(sp.disk, p, SlotOf(sp.bs / 4, Quot(sp.bs, pos)));
                   Room(sp') == Room(sp) - |gaps| && Closed(sp.disk, p, sp'.disk, p', gaps)
  {
    hide Laid, Closed, Gaps, Capacity, BlockOf, Accounted, Sound, SlotOf;
    var fileBlock, blockOffset := Quot(sp.bs, pos), Rem(sp.bs, pos);
    var b;
    sp', p', b, led' := GetOrAllocBlock(sp, p, fileBlock, true, led, ino);
    ok := b != 0;
    if !ok {
      NothingLaid(sp.bs, sp.disk, led.trees, sp'.disk, led'.trees, ino, pos);
      return;
    }
    PokeLaid(sp, led, sp', led', ino, pos, data, b);
    var buffer := Zeros(sp.bs);
    if blockOffset != 0 || |data| < sp.bs {
      buffer := sp'.disk[b];
    }
    buffer := Patch(buffer, blockOffset, data);
    assert buffer == Patch(sp'.disk[b], blockOffset, data);
    ghost var sp1 := sp';
    sp' := sp'.(disk := sp'.disk[b := buffer]);
    PokeClosed(sp.disk, p, sp1.disk, sp'.disk, led'.trees, ino, Gaps(sp.disk, p, SlotOf(sp.bs / 4, fileBlock)));
  }

  lemma PokeClosed(disk: Disk, p: Pointers, disk1: Disk, disk2: Disk, trees: Trees, ino: nat, gaps: set<Slot>)
    requires ino in trees && Closed(disk, p, disk1, trees[ino], gaps)
    requires forall q :: At(disk2, trees, q) == At(disk1, trees, q)
    ensures Closed(disk, p, disk2, trees[ino], gaps)
  {
    forall q
      ensures AtP(disk2, trees[ino], q) == AtP(disk1, trees[ino], q)
    {
      assert At(disk2, trees, Key(ino, q)) == At(disk1, trees, Key(ino, q));
    }
  }

  lemma MappedBlock(sp: Space, led: Ledger, key: Key, b: nat)
    requires Consistent(sp, led) && b == At(sp.disk, led.trees, key) != 0
    ensures b < |sp.disk| && |sp.disk[b]| == sp.bs && b in led.owner && led.owner[b] == key
  {
  }

  lemma DataWriteConsistent(sp: Space, sp': Space, led: Ledger, b: nat)
    requires Consistent(sp, led) && b in led.owner && IsData(led.owner[b].slot)
    requires b < |sp.disk| == |sp'.disk| && |sp'.disk[b]| == sp.bs
    requires sp' == sp.(disk := sp.disk[b := sp'.disk[b]])
    ensures Consistent(sp', led)
    ensures forall q :: At(sp'.disk, led.trees, q) == At(sp.disk, led.trees, q)
  {
    WriteKeepsTree(sp.disk, led.trees, led.owner, b, sp'.disk[b]);
    ZeroingAccounted(sp, sp', b, led.reserved, led.owner);
  }

  // ----- 32-bit offsets ----------------------------------------------------------

  /** How far k lies past offset, going round at 2^32. */
  function Dist(offset: nat, k: nat): (d: nat)
    requires offset < U32 && k < U32
    ensures d < U32 && Wrap(offset + d) == k
  {
    if k >= offset then k - offset else k + U32 - offset
  }

  /** Block sizes divide 2^32, so a run inside one block never crosses it. */
  lemma NoStraddle(bs: nat, pos: nat, d: nat)
    requires bs in {1024, 2048, 4096} && pos < U32 && Rem(bs, pos) + d <= bs
    ensures pos + d <= U32
  {
    QuotRem(bs, pos);
  }

  // ----- writing -------------------------------------------------------------------

  /** The bytes of every file after `data` is written at `offset` in file `ino`. */
  ghost predicate Stored(bs: nat, disk: Disk, trees: Trees, disk': Disk, trees': Trees, ino: nat, offset: nat,
                         data: seq<byte>)
    requires bs >= 4 && offset < U32
  {
    forall i: nat, k: nat :: Byte(bs, disk', trees', i, k) ==
      if i == ino && k < U32 && Dist(offset, k) < |data| then data[Dist(offset, k)] else Byte(bs, disk, trees, i, k)
  }

  lemma StoredExtend(bs: nat, d0: Disk, t0: Trees, d1: Disk, t1: Trees, d2: Disk, t2: Trees,
                     ino: nat, offset: nat, data: seq<byte>, w: nat, n: nat)
    requires bs >= 4 && offset < U32 && w + n <= |data| < U32
    requires Stored(bs, d0, t0, d1, t1, ino, offset, data[..w])
    requires Laid(bs, d1, t1, d2, t2, ino, Wrap(offset + w), data[w..w + n])
    requires Wrap(offset + w) + n <= U32
    ensures Stored(bs, d0, t0, d2, t2, ino, offset, data[..w + n])
  {
    var pos := Wrap(offset + w);
    forall i: nat, k: nat
      ensures Byte(bs, d2, t2, i, k) ==
              if i == ino && k < U32 && Dist(offset, k) < w + n then data[..w + n][Dist(offset, k)]
              else Byte(bs, d0, t0, i, k)
    {
      assert Byte(bs, d1, t1, i, k) ==
             if i == ino && k < U32 && Dist(offset, k) < w then data[..w][Dist(offset, k)] else Byte(bs, d0, t0, i, k);
      if k < U32 {
        assert pos <= k < pos + n <==> w <= Dist(offset, k) < w + n;
      }
    }
  }

  /** The write loop: w bytes reach the file before it stops. */
  method WriteLoop(sp: Space, p: Pointers, offset: nat, buffer: seq<byte>, ghost led: Ledger, ghost ino: nat)
    returns (sp': Space, p': Pointers, w: nat, ghost led': Ledger)
    requires Consistent(sp, led) && Sized(sp) && ino in led.trees && led.trees[ino] == p
    requires offset < U32 && |buffer| < U32
    ensures Consistent(sp', led') && led'.reserved == led.reserved && SameLayout(sp, sp')
    ensures led'.trees == led.trees[ino := p'] && OthersKept(sp.disk, led.trees, sp'.disk, led'.trees, ino)
    ensures w <= |buffer| && Stored(sp.bs, sp.disk, led.trees, sp'.disk, led'.trees, ino, offset, buffer[..w])
    ensures w == Fit(sp, p, offset, |buffer|)
  {
    hide Consistent, Laid, Stored, OthersKept, Capacity, SameLayout, Rem, Quot, Spent, Closed, Gaps, SlotOf, Fits, Fit;
    sp', p', led', w := sp, p, led, 0;
    NothingWritten(sp, led, p, ino, offset, buffer);
    NothingSpent(sp, p, offset);
    while w < |buffer|
      invariant w <= |buffer|
      invariant Consistent(sp', led') && led'.reserved == led.reserved && SameLayout(sp, sp') && Sized(sp')
      invariant led'.trees == led.trees[ino := p'] && OthersKept(sp.disk, led.trees, sp'.disk, led'.trees, ino)
      invariant Spent(sp, p, sp', p', offset, w)
      invariant sp'.bs == sp.bs && Stored(sp.bs, sp.disk, led.trees, sp'.disk, led'.trees, ino, offset, buffer[..w])
    {
      var pos := Wrap(offset + w);
      RemBelow(sp.bs, pos);
      var toWrite := sp.bs - Rem(sp.bs, pos);
      if toWrite > |buffer| - w {
        toWrite := |buffer| - w;
      }
      NoStraddle(sp.bs, pos, toWrite);
      var ok;
      ghost var sp1, p1, trees1 := sp', p', led'.trees;
      sp', p', ok, led' := WriteChunk(sp', p', pos, buffer[w..w + toWrite], led', ino);
      SameLayoutTwice(sp, sp1, sp');
      OthersKeptTwice(sp.disk, led.trees, sp1.disk, trees1, sp'.disk, led'.trees, ino);
      if !ok {
        StoredExtend(sp.bs, sp.disk, led.trees, sp1.disk, trees1, sp'.disk, led'.trees, ino, offset, buffer, w, 0);
        SpentFits(sp, p, sp1, p1, offset, w);
        SpentAll(sp, p, sp1, p1, offset, w);
        FitIs(sp, p, offset, |buffer|, w);
        return;
      }
      SpentMore(sp, p, sp1, p1, sp', p', offset, w, toWrite);
      StoredExtend(sp.bs, sp.disk, led.trees, sp1.disk, trees1, sp'.disk, led'.trees, ino, offset, buffer, w, toWrite);
      w := w + toWrite;
    }
    SpentFits(sp, p, sp', p', offset, w);
    FitIs(sp, p, offset, |buffer|, w);
  }

  lemma NothingWritten(sp: Space, led: Ledger, p: Pointers, ino: nat, offset: nat, buffer: seq<byte>)
    requires sp.bs >= 4 && offset < U32 && ino in led.trees && led.trees[ino] == p
    ensures SameLayout(sp, sp) && led.trees == led.trees[ino := p] &&
              OthersKept(sp.disk, led.trees, sp.disk, led.trees, ino)
    ensures Stored(sp.bs, sp.disk, led.trees, sp.disk, led.trees, ino, offset, buffer[..0])
  {
  }

  lemma RemBelow(n: nat, x: nat)
    requires n > 0
    ensures Rem(n, x) < n
  {
  }

  lemma SameLayoutTwice(sp: Space, sp1: Space, sp2: Space)
    requires SameLayout(sp, sp1) && SameLayout(sp1, sp2)
    ensures SameLayout(sp, sp2) && sp2.bs == sp.bs && (Sized(sp) ==> Sized(sp2))
  {
  }

  lemma OthersKeptTwice(disk: Disk, trees: Trees, disk1: Disk, trees1: Trees, disk2: Disk, trees2: Trees, ino: nat)
    requires OthersKept(disk, trees, disk1, trees1, ino) && OthersKept(disk1, trees1, disk2, trees2, ino)
    ensures OthersKept(disk, trees, disk2, trees2, ino)
  {
    hide At;
  }

  /** ext2_write_file.  n is -1 on error, when only the first w bytes have reached the file. */
  method WriteFile(sp: Space, p: Pointers, iSize: nat, offset: nat, buffer: seq<byte>, ghost led: Ledger,
                   ghost ino: nat)
    returns (sp': Space, p': Pointers, iSize': nat, n: int, ghost led': Ledger, ghost w: nat)
    requires Consistent(sp, led) && Sized(sp) && ino in led.trees && led.trees[ino] == p
    requires iSize < U32 && offset < U32 && |buffer| < U32
    ensures Consistent(sp', led') && led'.reserved == led.reserved && SameLayout(sp, sp')
    ensures led'.trees == led.trees[ino := p'] && OthersKept(sp.disk, led.trees, sp'.disk, led'.trees, ino)
    ensures w <= |buffer| && Stored(sp.bs, sp.disk, led.trees, sp'.disk, led'.trees, ino, offset, buffer[..w])
    ensures n == if 0 < |buffer| == w then w else -1
    ensures w == Fit(sp, p, offset, |buffer|) && (n != -1 <==> 0 < |buffer| && Fits(sp, p, offset, |buffer|))
    ensures iSize' == if n != -1 && Wrap(offset + |buffer|) > iSize then Wrap(offset + |buffer|) else iSize
  {
    hide Stored, OthersKept, Consistent, Fits;
    iSize', n := iSize, -1;
    var written;
    sp', p', written, led' := WriteLoop(sp, p, offset, buffer, led, ino);
    w := written;
    if |buffer| == 0 || written < |buffer| {
      return;
    }
    if Wrap(offset + written) > iSize {
      iSize' := Wrap(offset + written);
    }
    n := written;
  }

  // ----- reading -------------------------------------------------------------------

  /** How many bytes ext2_read_file returns. */
  function ReadLength(iSize: nat, offset: nat, size: nat): (n: nat)
    requires iSize < U32 && offset < U32 && size < U32
  {
    if offset >= iSize then 0 else if Wrap(offset + size) > iSize then iSize - offset else size
  }

  /** The clamp at the end of the file works exactly when offset + size does not wrap around. */
  lemma ReadLengthExact(iSize: nat, offset: nat, size: nat)
    requires offset < iSize < U32 && size < U32
    ensures ReadLength(iSize, offset, size) == (if size <= iSize - offset then size else iSize - offset) <==>
              offset + size < U32
  {
  }

  /** Of a file of 100 bytes, a read at 50 returns 4294967280. */
  lemma ReadWraps()
    ensures ReadLength(100, 50, 0xFFFF_FFF0) == 0xFFFF_FFF0
  {
  }

  /** One round of the read loop: at most n bytes from pos, within one block. */
  method ReadChunk(sp: Space, p: Pointers, pos: nat, n: nat) returns (chunk: seq<byte>)
    requires Shaped(sp) && Sized(sp) && |p| == NPTR && 0 < n
    requires forall fb: nat :: BlockOf(WordsPerBlock(sp), sp.disk, p, fb) < |sp.disk|
    ensures 0 < |chunk| <= n && Rem(sp.bs, pos) + |chunk| <= sp.bs
    ensures forall i :: 0 <= i < |chunk| ==> chunk[i] == FileByte(sp.bs, sp.disk, p, pos + i)
  {
    var fileBlock, blockOffset := Quot(sp.bs, pos), Rem(sp.bs, pos);
    var b := GetBlockNumber(sp, p, fileBlock);
    var toCopy := sp.bs - blockOffset;
    if toCopy > n {
      toCopy := n;
    }
    if b == 0 {
      chunk := Zeros(toCopy);
    } else {
      chunk := sp.disk[b][blockOffset..blockOffset + toCopy];
    }
    forall i | 0 <= i < toCopy
      ensures chunk[i] == FileByte(sp.bs, sp.disk, p, pos + i)
    {
      Shift(sp.bs, pos, i);
    }
  }

  /** ext2_read_file: holes read as zeros. */
  method ReadFile(sp: Space, p: Pointers, iSize: nat, offset: nat, size: nat) returns (dest: seq<byte>)
    requires Shaped(sp) && Sized(sp) && |p| == NPTR
    requires forall fb: nat :: BlockOf(WordsPerBlock(sp), sp.disk, p, fb) < |sp.disk|
    requires iSize < U32 && offset < U32 && size < U32
    ensures |dest| == ReadLength(iSize, offset, size)
    ensures forall i :: 0 <= i < |dest| ==> dest[i] == FileByte(sp.bs, sp.disk, p, Wrap(offset + i))
    ensures offset >= iSize ==> dest == []
    ensures offset < iSize && offset + size < U32 ==> |dest| == if size < iSize - offset then size else iSize - offset
    ensures offset < iSize && offset + size >= U32 ==>
              |dest| == if offset + size - U32 > iSize then iSize - offset else size
  {
    dest := [];
    if offset >= iSize {
      return;
    }
    var n := size;
    if Wrap(offset + size) > iSize {
      n := iSize - offset;
    }
    while |dest| < n
      invariant |dest| <= n
      invariant forall i :: 0 <= i < |dest| ==> dest[i] == FileByte(sp.bs, sp.disk, p, Wrap(offset + i))
      decreases n - |dest|
    {
      var pos := Wrap(offset + |dest|);
      var chunk := ReadChunk(sp, p, pos, n - |dest|);
      NoStraddle(sp.bs, pos, |chunk|);
      dest := dest + chunk;
    }
  }

  // ----- whole files -----------------------------------------------------------------

  /** The contents of a file of the given size. */
  function Contents(bs: nat, disk: Disk, p: Pointers, size: nat): (s: seq<byte>)
    requires bs >= 4
    ensures |s| == size && forall k :: 0 <= k < size ==> s[k] == FileByte(bs, disk, p, k)
  {
    seq(size, (k: nat) => FileByte(bs, disk, p, k))
  }

  /** `data` laid over `prior` at `offset`, a gap between them read as zeros. */
  function Overlay(prior: seq<byte>, offset: nat, data: seq<byte>): (s: seq<byte>)
    ensures |s| == if offset + |data| > |prior| then offset + |data| else |prior|
    ensures forall k :: 0 <= k < |s| ==>
              s[k] == if offset <= k < offset + |data| then data[k - offset] else if k < |prior| then prior[k] else 0
  {
    var n := if offset + |data| > |prior| then offset + |data| else |prior|;
    seq(n, (k: nat) => if offset <= k < offset + |data| then data[k - offset] else if k < |prior| then prior[k] else 0)
  }

  /** Bytes past the end of the file are zero in the blocks already mapped. */
  ghost predicate ZeroTail(bs: nat, disk: Disk, p: Pointers, size: nat)
    requires bs >= 4
  {
    forall k :: size <= k < U32 ==> FileByte(bs, disk, p, k) == 0
  }

  /** What a completed write means for the file as a whole. */
  lemma WriteIsOverlay(bs: nat, disk: Disk, trees: Trees, disk': Disk, trees': Trees,
                       ino: nat, size: nat, offset: nat, data: seq<byte>)
    requires bs >= 4 && ino in trees && ino in trees' && size < U32 && offset + |data| < U32
    requires Stored(bs, disk, trees, disk', trees', ino, offset, data)
    requires ZeroTail(bs, disk, trees[ino], size)
    ensures var size' := if offset + |data| > size then offset + |data| else size;
            && Contents(bs, disk', trees'[ino], size') == Overlay(Contents(bs, disk, trees[ino], size), offset, data)
            && ZeroTail(bs, disk', trees'[ino], size')
    ensures forall i: nat, n: nat :: i in trees && i in trees' && i != ino ==>
              Contents(bs, disk', trees'[i], n) == Contents(bs, disk, trees[i], n)
  {
    forall k: nat | k < U32
      ensures FileByte(bs, disk', trees'[ino], k) ==
              if offset <= k < offset + |data| then data[k - offset] else FileByte(bs, disk, trees[ino], k)
    {
      assert Byte(bs, disk', trees', ino, k) == FileByte(bs, disk', trees'[ino], k);
    }
    forall i: nat, n: nat | i in trees && i in trees' && i != ino
      ensures Contents(bs, disk', trees'[i], n) == Contents(bs, disk, trees[i], n)
    {
      forall k: nat | k < n
        ensures FileByte(bs, disk', trees'[i], k) == FileByte(bs, disk, trees[i], k)
      {
        assert Byte(bs, disk', trees', i, k) == FileByte(bs, disk', trees'[i], k);
      }
    }
  }

  /** Every pointer of a consistent tree is on the device. */
  lemma PointersOnDevice(sp: Space, led: Ledger, ino: nat)
    requires Consistent(sp, led) && sp.bs >= 4 && ino in led.trees && |sp.disk| > 0
    ensures |led.trees[ino]| == NPTR
    ensures forall fb: nat :: BlockOf(WordsPerBlock(sp), sp.disk, led.trees[ino], fb) < |sp.disk|
  {
    forall fb: nat
      ensures BlockOf(WordsPerBlock(sp), sp.disk, led.trees[ino], fb) < |sp.disk|
    {
      var P := WordsPerBlock(sp);
      if fb < Capacity(P) {
        var key := Key(ino, SlotOf(P, fb));
        assert At(sp.disk, led.trees, key) == BlockOf(P, sp.disk, led.trees[ino], fb);
      }
    }
  }

  /** Write, then read the whole file back. */
  method WriteThenRead(sp: Space, p: Pointers, iSize: nat, offset: nat, buffer: seq<byte>, ghost led: Ledger,
                       ghost ino: nat)
    returns (sp': Space, p': Pointers, iSize': nat, n: int, contents: seq<byte>, ghost led': Ledger)
    requires Consistent(sp, led) && Sized(sp) && ino in led.trees && led.trees[ino] == p && |sp.disk| > 0
    requires iSize < U32 && offset + |buffer| < U32
    requires ZeroTail(sp.bs, sp.disk, p, iSize)
    ensures Consistent(sp', led') && led'.trees == led.trees[ino := p']
    ensures n != -1 ==>
              && contents == Overlay(Contents(sp.bs, sp.disk, p, iSize), offset, buffer)
              && ZeroTail(sp.bs, sp'.disk, p', iSize')
    ensures n != -1 ==> forall i: nat, m: nat :: i in led.trees && i != ino ==>
              Contents(sp.bs, sp'.disk, led.trees[i], m) == Contents(sp.bs, sp.disk, led.trees[i], m)
  {
    hide Stored, Owned, Accounted, Fits, Overlay, ZeroTail;
    ghost var w;
    sp', p', iSize', n, led', w := WriteFile(sp, p, iSize, offset, buffer, led, ino);
    contents := [];
    if n == -1 {
      return;
    }
    assert buffer[..w] == buffer;
    WriteIsOverlay(sp.bs, sp.disk, led.trees, sp'.disk, led'.trees, ino, iSize, offset, buffer);
    PointersOnDevice(sp', led', ino);
    contents := ReadFile(sp', p', iSize', 0, iSize');
    assert contents == Contents(sp.bs, sp'.disk, p', iSize');
  }

  /** A write that stops part-way leaves the size alone, so zeros past the end survive it
      exactly when no nonzero byte of the part that fits lies beyond the old end. */
  lemma FailedWriteTail(sp: Space, p: Pointers, disk': Disk, p': Pointers, trees: Trees, trees': Trees,
                        ino: nat, size: nat, offset: nat, buffer: seq<byte>)
    requires sp.bs >= 4 && ino in trees && trees[ino] == p && ino in trees' && trees'[ino] == p'
    requires size < U32 && offset + |buffer| < U32 && ZeroTail(sp.bs, sp.disk, p, size)
    requires Stored(sp.bs, sp.disk, trees, disk', trees', ino, offset, buffer[..Fit(sp, p, offset, |buffer|)])
    ensures ZeroTail(sp.bs, disk', p', size) <==>
            forall j :: 0 <= j < Fit(sp, p, offset, |buffer|) && size <= offset + j ==> buffer[j] == 0
  {
    hide Fit, Fits, FileByte;
    var w := Fit(sp, p, offset, |buffer|);
    forall k: nat | k < U32
      ensures FileByte(sp.bs, disk', p', k) ==
              if offset <= k < offset + w then buffer[k - offset] else FileByte(sp.bs, sp.disk, p, k)
    {
      assert Byte(sp.bs, disk', trees', ino, k) == FileByte(sp.bs, disk', p', k);
    }
    if ZeroTail(sp.bs, disk', p', size) {
      forall j | 0 <= j < w && size <= offset + j
        ensures buffer[j] == 0
      {
        assert FileByte(sp.bs, disk', p', offset + j) == 0;
      }
    }
  }
}
