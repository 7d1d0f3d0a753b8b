/**
 What mapping a file block costs (kernel/fs/ext2_write.c:60-273): the blocks on the way
 to it that are not there yet, data or pointers, against the free blocks of group 0, the
 only group this code allocates from.
 */
module Ext2Need {
  import opened Arith
  import opened Ext2Tree
  import opened Ext2Alloc

  /** The blocks that can still be allocated. */
  function Room(sp: Space): nat { if |sp.groups| == 0 then 0 else sp.groups[0].freeBlocks }

  lemma RoomFull(sp: Space)
    requires Counted(sp)
    ensures Room(sp) == 0 <==> FullGroup(sp, 0)
  {
    if |sp.groups| > 0 {
      FullGroupWhenCounted(sp, 0);
    }
  }

  lemma RoomMarked(sp: Space, sp1: Space, b: nat)
    requires Counted(sp) && Counted(sp1) && Marks(sp, sp1, b, true) && Quot(sp.bpg, b) == 0
    ensures Room(sp1) == Room(sp) - 1
  {
    hide Shaped, Used, Quot;
    SumFreeUpdate(sp.groups, 0, sp1.groups[0]);
    assert sp1.groups == sp.groups[0 := sp1.groups[0]];
  }

  /** Positions on the way to s, s among them. */
  function Path(s: Slot): set<Slot> {
    match s
    case Root(_) => {s}
    case Leaf1(_) => {Root(IND), s}
    case Mid(_) => {Root(DIND), s}
    case Leaf2(i, _) => {Root(DIND), Mid(i), s}
  }

  /** Those of them with no block attached. */
  ghost function Gaps(disk: Disk, p: Pointers, s: Slot): set<Slot> {
    set q | q in Path(s) && AtP(disk, p, q) == 0
  }

  /** Positions hang on their pointer blocks. */
  lemma NoGaps(disk: Disk, p: Pointers, s: Slot)
    ensures Gaps(disk, p, s) == {} <==> AtP(disk, p, s) != 0
    ensures AtP(disk, p, s) == 0 ==> s in Gaps(disk, p, s)
  {
    assert s in Path(s);
    if AtP(disk, p, s) != 0 {
      forall q | q in Path(s)
        ensures AtP(disk, p, q) != 0
      {
        match s
        case Root(_) =>
        case Leaf1(_) => assert q == s || q == Root(IND);
        case Mid(_) => assert q == s || q == Root(DIND);
        case Leaf2(i, _) => assert q == s || q == Mid(i) || q == Root(DIND);
      }
      assert Gaps(disk, p, s) == {};
    } else {
      assert s in Gaps(disk, p, s);
    }
  }

  /** The state after every gap on the way to s is closed, and nothing else. */
  ghost predicate Closed(disk: Disk, p: Pointers, disk': Disk, p': Pointers, gaps: set<Slot>) {
    forall q :: AtP(disk', p', q) == 0 <==> AtP(disk, p, q) == 0 && q !in gaps
  }

  /** Block b at position s was obtained at its price, or was out of reach. */
  ghost predicate Paid(sp: Space, p: Pointers, sp': Space, p': Pointers, s: Slot, b: nat) {
    var gaps := Gaps(sp.disk, p, s);
    && (b != 0 <==> |gaps| <= Room(sp))
    && (b != 0 ==> Room(sp') == Room(sp) - |gaps| && Closed(sp.disk, p, sp'.disk, p', gaps))
  }

  /** Block b was attached at position h, and nowhere else. */
  ghost predicate Attached(disk: Disk, p: Pointers, disk': Disk, p': Pointers, h: Slot, b: nat) {
    forall q :: AtP(disk', p', q) == if q == h then b else AtP(disk, p, q)
  }

  lemma PaidAsIs(sp: Space, p: Pointers, s: Slot)
    requires AtP(sp.disk, p, s) != 0 || Room(sp) == 0
    ensures Paid(sp, p, sp, p, s, AtP(sp.disk, p, s))
  {
    hide AtP;
    NoGaps(sp.disk, p, s);
  }

  /** The last gap. */
  lemma PaidHung(sp: Space, p: Pointers, sp': Space, p': Pointers, s: Slot, b: nat)
    requires b != 0 && Gaps(sp.disk, p, s) == {s} && Room(sp') == Room(sp) - 1
    requires Attached(sp.disk, p, sp'.disk, p', s, b)
    ensures Paid(sp, p, sp', p', s, b)
  {
    hide AtP;
  }

  /** One gap is closed first, then the rest. */
  lemma PaidAfter(sp: Space, p: Pointers, sp1: Space, p1: Pointers, h: Slot, c: nat, sp': Space, p': Pointers, s: Slot,
                  b: nat)
    requires h in Path(s) && AtP(sp.disk, p, h) == 0 && c != 0 && Room(sp1) == Room(sp) - 1
    requires Attached(sp.disk, p, sp1.disk, p1, h, c)
    requires Paid(sp1, p1, sp', p', s, b)
    ensures Paid(sp, p, sp', p', s, b)
  {
    hide AtP, Path;
    var gaps := Gaps(sp.disk, p, s);
    assert h in gaps && Gaps(sp1.disk, p1, s) == gaps - {h};
  }

  /** A position whose pointer block is there has no gap but itself. */
  lemma OwnGap(disk: Disk, p: Pointers, s: Slot)
    requires AtP(disk, p, s) == 0
    requires match s
             case Root(_) => true
             case Leaf1(_) => RootAt(p, IND) != 0
             case Mid(_) => RootAt(p, DIND) != 0
             case Leaf2(i, _) => AtP(disk, p, Mid(i)) != 0
    ensures Gaps(disk, p, s) == {s}
  {
  }
}
