/**
 How much of a write fits (kernel/fs/ext2_write.c:279-356), told from the volume before it.

 The blocks that the bytes fall into need those of their data and pointer blocks that are
 not there yet, each once, and group 0 has so many free.  What the write loop stores is the
 longest beginning of the buffer that fits.
 */
module Ext2Fit {
  import opened Arith
  import opened Bytes
  import opened Ext2Tree
  import opened Ext2Alloc
  import opened Ext2Need

  /** x modulo 2^32, for the sums of two 32-bit numbers the code forms. */
  function Wrap(x: nat): (r: nat)
    requires x < 2 * U32
    ensures r < U32 && r == x % U32
  {
    if x < U32 then x else x - U32
  }

  /** The file block of byte j from offset. */
  function BlockAt(bs: nat, offset: nat, j: nat): nat
    requires bs > 0 && offset < U32 && j < U32
  {
    Quot(bs, Wrap(offset + j))
  }

  /** The file blocks of the first w bytes from offset. */
  ghost function Touched(bs: nat, offset: nat, w: nat): set<nat>
    requires bs > 0 && offset < U32 && w <= U32
  {
    set j | 0 <= j < w :: BlockAt(bs, offset, j)
  }

  /** The positions without a block on the way to these file blocks. */
  ghost function Missing(bs: nat, disk: Disk, p: Pointers, blocks: set<nat>): set<Slot>
    requires bs >= 4
  {
    set fb, q | fb in blocks && fb < Capacity(bs / 4) && q in Gaps(disk, p, SlotOf(bs / 4, fb)) :: q
  }

  /** The first w bytes from offset are in range, and there is a free block for every missing one. */
  ghost predicate Fits(sp: Space, p: Pointers, offset: nat, w: nat)
    requires sp.bs >= 4 && offset < U32 && w <= U32
  {
    && (forall fb :: fb in Touched(sp.bs, offset, w) ==> fb < Capacity(sp.bs / 4))
    && |Missing(sp.bs, sp.disk, p, Touched(sp.bs, offset, w))| <= Room(sp)
  }

  /** How many of size bytes fit. */
  ghost function Fit(sp: Space, p: Pointers, offset: nat, size: nat): (w: nat)
    requires sp.bs >= 4 && offset < U32 && size <= U32
    ensures w <= size && Fits(sp, p, offset, w) && (w < size ==> !Fits(sp, p, offset, w + 1))
    decreases size
  {
    if size == 0 then
      NothingFits(sp, p, offset);
      0
    else if Fits(sp, p, offset, size) then size
    else Fit(sp, p, offset, size - 1)
  }

  lemma NothingFits(sp: Space, p: Pointers, offset: nat)
    requires sp.bs >= 4 && offset < U32
    ensures Touched(sp.bs, offset, 0) == {} && Missing(sp.bs, sp.disk, p, {}) == {} && Fits(sp, p, offset, 0)
  {
    assert Missing(sp.bs, sp.disk, p, {}) == {};
  }

  /** Less fits as well. */
  lemma FitsLess(sp: Space, p: Pointers, offset: nat, v: nat, w: nat)
    requires sp.bs >= 4 && offset < U32 && v <= w <= U32 && Fits(sp, p, offset, w)
    ensures Fits(sp, p, offset, v)
  {
    hide BlockAt, Capacity, Gaps, SlotOf;
    var a, b := Touched(sp.bs, offset, v), Touched(sp.bs, offset, w);
    TouchedLess(sp.bs, offset, v, w);
    MissingLess(sp.bs, sp.disk, p, a, b);
    SubsetSize(Missing(sp.bs, sp.disk, p, a), Missing(sp.bs, sp.disk, p, b));
  }

  lemma TouchedLess(bs: nat, offset: nat, v: nat, w: nat)
    requires bs > 0 && offset < U32 && v <= w <= U32
    ensures Touched(bs, offset, v) <= Touched(bs, offset, w)
  {
    hide BlockAt;
  }

  lemma MissingLess(bs: nat, disk: Disk, p: Pointers, a: set<nat>, b: set<nat>)
    requires bs >= 4 && a <= b
    ensures Missing(bs, disk, p, a) <= Missing(bs, disk, p, b)
  {
    hide Capacity, Gaps, SlotOf;
  }

  /** Fit is the only place where fitting ends. */
  lemma FitIs(sp: Space, p: Pointers, offset: nat, size: nat, w: nat)
    requires sp.bs >= 4 && offset < U32 && w <= size <= U32
    requires Fits(sp, p, offset, w) && (w < size ==> !Fits(sp, p, offset, w + 1))
    ensures w == Fit(sp, p, offset, size)
  {
    hide Fits;
    var f := Fit(sp, p, offset, size);
    if f < w {
      FitsLess(sp, p, offset, f + 1, w);
    } else if w < f {
      FitsLess(sp, p, offset, w + 1, f);
    }
  }

  // ----- the write loop's account

  /** sp1 and p1 are sp and p after the first w bytes were stored. */
  ghost predicate Spent(sp: Space, p: Pointers, sp1: Space, p1: Pointers, offset: nat, w: nat)
    requires sp.bs >= 4 && offset < U32 && w <= U32
  {
    var missing := Missing(sp.bs, sp.disk, p, Touched(sp.bs, offset, w));
    && Fits(sp, p, offset, w) && Room(sp1) + |missing| == Room(sp)
    && Closed(sp.disk, p, sp1.disk, p1, missing)
  }

  lemma SpentFits(sp: Space, p: Pointers, sp1: Space, p1: Pointers, offset: nat, w: nat)
    requires sp.bs >= 4 && offset < U32 && w <= U32 && Spent(sp, p, sp1, p1, offset, w)
    ensures Fits(sp, p, offset, w)
  {
  }

  lemma NothingSpent(sp: Space, p: Pointers, offset: nat)
    requires sp.bs >= 4 && offset < U32
    ensures Spent(sp, p, sp, p, offset, 0)
  {
    hide AtP;
    NothingFits(sp, p, offset);
  }

  /** A run within one block touches that block only. */
  lemma TouchedMore(bs: nat, offset: nat, w: nat, n: nat)
    requires bs > 0 && offset < U32 && 0 < n && w + n <= U32
    requires Rem(bs, Wrap(offset + w)) + n <= bs && Wrap(offset + w) + n <= U32
    ensures Touched(bs, offset, w + n) == Touched(bs, offset, w) + {Quot(bs, Wrap(offset + w))}
  {
    hide Quot, Rem;
    var pos, fb := Wrap(offset + w), BlockAt(bs, offset, w);
    forall j | w <= j < w + n
      ensures BlockAt(bs, offset, j) == fb
    {
      Shift(bs, pos, j - w);
    }
    assert forall x :: x in Touched(bs, offset, w + n) ==> x in Touched(bs, offset, w) + {fb} by {
      hide BlockAt;
    }
    TouchedLess(bs, offset, w, w + n);
    assert fb in Touched(bs, offset, w + n);
  }

  lemma MissingMore(bs: nat, disk: Disk, p: Pointers, blocks: set<nat>, fb: nat)
    requires bs >= 4 && fb < Capacity(bs / 4)
    ensures Missing(bs, disk, p, blocks + {fb}) == Missing(bs, disk, p, blocks) + Gaps(disk, p, SlotOf(bs / 4, fb))
  {
    hide Capacity, Gaps, SlotOf;
  }

  /** What is missing for one more block is what the blocks before it did not bring. */
  lemma GapsLeft(disk: Disk, p: Pointers, disk1: Disk, p1: Pointers, missing: set<Slot>, s: Slot)
    requires Closed(disk, p, disk1, p1, missing)
    ensures Gaps(disk1, p1, s) == Gaps(disk, p, s) - missing
    ensures |missing + Gaps(disk, p, s)| == |missing| + |Gaps(disk1, p1, s)|
  {
    hide AtP, Path;
    assert Gaps(disk1, p1, s) == Gaps(disk, p, s) - missing;
    assert missing + Gaps(disk, p, s) == missing + Gaps(disk1, p1, s);
  }

  lemma ClosedMore(disk: Disk, p: Pointers, disk1: Disk, p1: Pointers, disk2: Disk, p2: Pointers, missing: set<Slot>,
                   s: Slot)
    requires Closed(disk, p, disk1, p1, missing) && Closed(disk1, p1, disk2, p2, Gaps(disk1, p1, s))
    ensures Closed(disk, p, disk2, p2, missing + Gaps(disk, p, s))
  {
    hide AtP, Path;
    GapsLeft(disk, p, disk1, p1, missing, s);
  }

  /** One more run of bytes within one block. */
  lemma SpentMore(sp: Space, p: Pointers, sp1: Space, p1: Pointers, sp2: Space, p2: Pointers, offset: nat, w: nat,
                  n: nat)
    requires sp.bs >= 4 && offset < U32 && 0 < n && w + n <= U32
    requires Rem(sp.bs, Wrap(offset + w)) + n <= sp.bs && Wrap(offset + w) + n <= U32
    requires Spent(sp, p, sp1, p1, offset, w)
    requires Quot(sp.bs, Wrap(offset + w)) < Capacity(sp.bs / 4)
    requires var gaps := Gaps(sp1.disk, p1, SlotOf(sp.bs / 4, Quot(sp.bs, Wrap(offset + w))));
             |gaps| <= Room(sp1) && Room(sp2) == Room(sp1) - |gaps| && Closed(sp1.disk, p1, sp2.disk, p2, gaps)
    ensures Spent(sp, p, sp2, p2, offset, w + n)
  {
    hide Touched, Missing, Closed, Gaps, Quot, Rem, Capacity, SlotOf;
    var fb := Quot(sp.bs, Wrap(offset + w));
    var blocks := Touched(sp.bs, offset, w);
    var missing := Missing(sp.bs, sp.disk, p, blocks);
    TouchedMore(sp.bs, offset, w, n);
    MissingMore(sp.bs, sp.disk, p, blocks, fb);
    GapsLeft(sp.disk, p, sp1.disk, p1, missing, SlotOf(sp.bs / 4, fb));
    ClosedMore(sp.disk, p, sp1.disk, p1, sp2.disk, p2, missing, SlotOf(sp.bs / 4, fb));
  }

  /** The next byte's block is out of range or out of reach. */
  lemma SpentAll(sp: Space, p: Pointers, sp1: Space, p1: Pointers, offset: nat, w: nat)
    requires sp.bs >= 4 && offset < U32 && w + 1 <= U32 && Spent(sp, p, sp1, p1, offset, w)
    requires Rem(sp.bs, Wrap(offset + w)) < sp.bs
    requires var fb := Quot(sp.bs, Wrap(offset + w));
             fb >= Capacity(sp.bs / 4) || |Gaps(sp1.disk, p1, SlotOf(sp.bs / 4, fb))| > Room(sp1)
    ensures !Fits(sp, p, offset, w + 1)
  {
    hide Touched, Missing, Closed, Gaps, Quot, Rem, Capacity, SlotOf;
    var fb := Quot(sp.bs, Wrap(offset + w));
    var blocks := Touched(sp.bs, offset, w);
    TouchedMore(sp.bs, offset, w, 1);
    assert fb in Touched(sp.bs, offset, w + 1);
    if fb < Capacity(sp.bs / 4) {
      MissingMore(sp.bs, sp.disk, p, blocks, fb);
      GapsLeft(sp.disk, p, sp1.disk, p1, Missing(sp.bs, sp.disk, p, blocks), SlotOf(sp.bs / 4, fb));
    }
  }
}
