/**
 Giving a file's blocks back (free_inode_blocks, kernel/fs/ext2_write.c:731-804),
 and what the volume looks like after whole runs of operations.
 */
module Ext2Free {
  import opened Arith
  import opened Bytes
  import opened Ext2Tree
  import opened Ext2Alloc
  import opened Ext2File

  /** How far free_inode_blocks has come: i_block[..direct], the first `leaf` words of the
      indirect block, whether that block, everything below the first `mids` words of the
      double-indirect block, the first `cur` words below the next one, and that block. */
  datatype Progress = Progress(direct: nat, leaf: nat, ind: bool, mids: nat, cur: nat, dind: bool)

  /** Nothing freed yet. */
  const Start := Progress(0, 0, false, 0, 0, false)

  predicate Done(pr: Progress, s: Slot) {
    match s
    case Root(k) => k < pr.direct || (k == IND && pr.ind) || (k == DIND && pr.dind)
    case Leaf1(i) => i < pr.leaf
    case Mid(i) => i < pr.mids
    case Leaf2(i, j) => i < pr.mids || (i == pr.mids && j < pr.cur)
  }

  /** pr' is pr with the position s done as well, among the positions inode `ino` owns a block at. */
  ghost predicate Advances(led: Ledger, ino: nat, pr: Progress, pr': Progress, s: Slot) {
    && !Done(pr, s)
    && forall x :: x in led.owner && led.owner[x].ino == ino ==>
         (Done(pr', led.owner[x].slot) <==> Done(pr, led.owner[x].slot) || led.owner[x].slot == s)
  }

  /** Of the volume sp0, the blocks of inode `ino` at the positions done have been freed, each once. */
  ghost predicate Freed(sp0: Space, sp: Space, led: Ledger, ino: nat, pr: Progress) {
    && Sound(sp) && SameLayout(sp0, sp)
    && (forall b :: b in led.owner ==> b < |sp0.disk| && sp.disk[b] == sp0.disk[b])
    && (forall x: nat :: Used(sp, x) <==>
          Used(sp0, x) && !(x in led.owner && led.owner[x].ino == ino && Done(pr, led.owner[x].slot)))
  }

  lemma OwnedOnDisk(sp: Space, led: Ledger)
    requires Consistent(sp, led)
    ensures forall b :: b in led.owner ==> b < |sp.disk|
  {
    hide Used, Accounted, Counted;
  }

  lemma NothingFreed(sp: Space, led: Ledger, ino: nat)
    requires Consistent(sp, led)
    ensures Freed(sp, sp, led, ino, Start)
  {
    OwnedOnDisk(sp, led);
    hide Used, Owned, Accounted, Counted;
    forall s
      ensures !Done(Start, s)
    {
    }
  }

  lemma FreedStep(sp0: Space, sp: Space, sp': Space, led: Ledger, ino: nat, pr: Progress, pr': Progress, s: Slot,
                  b: nat)
    requires Consistent(sp0, led) && Freed(sp0, sp, led, ino, pr) && Advances(led, ino, pr, pr', s)
    requires b == At(sp0.disk, led.trees, Key(ino, s)) != 0
    requires Sound(sp') && Marks(sp, sp', b, false)
    ensures Freed(sp0, sp', led, ino, pr')
  {
    FreedStepDisk(sp0, sp, sp', led, Quot(sp.bpg, b));
    forall x: nat
      ensures Used(sp', x) <==>
              Used(sp0, x) && !(x in led.owner && led.owner[x].ino == ino && Done(pr', led.owner[x].slot))
    {
      FreedStepUsed(sp0, led, ino, s, b, x);
    }
  }

  /** Writing a bitmap leaves the blocks of every tree alone. */
  lemma FreedStepDisk(sp0: Space, sp: Space, sp': Space, led: Ledger, g: nat)
    requires SameLayout(sp0, sp) && RewritesBitmap(sp, sp', g)
    requires forall h :: 0 <= h < |sp0.groups| ==> sp0.groups[h].blockBitmap !in led.owner
    requires forall b :: b in led.owner ==> b < |sp0.disk| && sp.disk[b] == sp0.disk[b]
    ensures forall b :: b in led.owner ==> sp'.disk[b] == sp0.disk[b]
  {
  }

  /** A block has one position. */
  lemma FreedStepUsed(sp: Space, led: Ledger, ino: nat, s: Slot, b: nat, x: nat)
    requires Owned(sp.disk, led.trees, led.owner) && b == At(sp.disk, led.trees, Key(ino, s)) != 0
    ensures b in led.owner && led.owner[b] == Key(ino, s)
    ensures x in led.owner && led.owner[x] == Key(ino, s) ==> x == b
  {
  }

  lemma StillUsed(sp0: Space, sp: Space, led: Ledger, ino: nat, pr: Progress, s: Slot, b: nat)
    requires Consistent(sp0, led) && Freed(sp0, sp, led, ino, pr) && !Done(pr, s)
    requires b == At(sp0.disk, led.trees, Key(ino, s)) != 0
    ensures Used(sp, b)
  {
  }

  lemma EmptyStep(sp0: Space, sp: Space, led: Ledger, ino: nat, pr: Progress, pr': Progress, s: Slot)
    requires Consistent(sp0, led) && Freed(sp0, sp, led, ino, pr) && Advances(led, ino, pr, pr', s)
    requires At(sp0.disk, led.trees, Key(ino, s)) == 0
    ensures Freed(sp0, sp, led, ino, pr')
  {
    forall x | x in led.owner
      ensures led.owner[x] != Key(ino, s)
    {
    }
  }

  /** Free the block a pointer names, if it names one. */
  method FreeSlot(sp: Space, b: nat, ghost sp0: Space, ghost led: Ledger, ghost ino: nat, ghost pr: Progress,
                  ghost pr': Progress, ghost s: Slot)
    returns (sp': Space)
    requires Consistent(sp0, led) && Freed(sp0, sp, led, ino, pr) && Advances(led, ino, pr, pr', s)
    requires b == At(sp0.disk, led.trees, Key(ino, s))
    ensures Freed(sp0, sp', led, ino, pr')
  {
    sp' := sp;
    if b != 0 {
      StillUsed(sp0, sp, led, ino, pr, s, b);
      var ok;
      sp', ok := FreeBlock(sp, b);
      FreedStep(sp0, sp, sp', led, ino, pr, pr', s, b);
    } else {
      EmptyStep(sp0, sp, led, ino, pr, pr', s);
    }
  }

  /** The position of word n of the pointer block at `parent`. */
  function Child(parent: Slot, n: nat): (s: Slot) {
    if parent.Mid? then Leaf2(parent.i, n) else Leaf1(n)
  }

  /** Progress through the first n words of the pointer block at `parent`. */
  function AtWord(pr: Progress, parent: Slot, n: nat): Progress {
    if parent.Mid? then pr.(cur := n) else pr.(leaf := n)
  }

  lemma ChildWord(sp: Space, led: Ledger, ino: nat, parent: Slot, q: nat, n: nat)
    requires Consistent(sp, led) && (parent == Root(IND) || parent.Mid?)
    requires q == At(sp.disk, led.trees, Key(ino, parent)) != 0
    ensures q in led.owner && q < |sp.disk| && |sp.disk[q]| == sp.bs
    ensures At(sp.disk, led.trees, Key(ino, Child(parent, n))) ==
              if 4 * n + 4 <= sp.bs then GetU32(sp.disk[q], 4 * n) else 0
  {
  }

  /** No word past the end of the block: once n words are done, everything below is. */
  lemma BelowMid(sp: Space, led: Ledger, ino: nat, i: nat, n: nat, x: nat)
    requires Consistent(sp, led) && 4 * n + 4 > sp.bs
    requires x in led.owner && led.owner[x].ino == ino && led.owner[x].slot.Leaf2? && led.owner[x].slot.i == i
    ensures led.owner[x].slot.j < n
  {
    var j := led.owner[x].slot.j;
    assert At(sp.disk, led.trees, Key(ino, Leaf2(i, j))) == x;
  }

  lemma MidAdvances(sp: Space, led: Ledger, ino: nat, pr: Progress)
    requires Consistent(sp, led) && 4 * pr.cur + 4 > sp.bs
    ensures Advances(led, ino, pr, pr.(mids := pr.mids + 1, cur := 0), Mid(pr.mids))
  {
    forall x | x in led.owner && led.owner[x].ino == ino && led.owner[x].slot.Leaf2? && led.owner[x].slot.i == pr.mids
      ensures led.owner[x].slot.j < pr.cur
    {
      BelowMid(sp, led, ino, pr.mids, pr.cur, x);
    }
  }

  lemma IndAdvances(led: Ledger, ino: nat, pr: Progress)
    requires pr.direct <= IND && !pr.ind
    ensures Advances(led, ino, pr, pr.(ind := true), Root(IND))
  {
  }

  lemma WordAdvances(led: Ledger, ino: nat, parent: Slot, pr: Progress, n: nat)
    requires parent == Root(IND) || parent == Mid(pr.mids)
    ensures Advances(led, ino, AtWord(pr, parent, n), AtWord(pr, parent, n + 1), Child(parent, n))
  {
  }

  lemma FreedBlock(sp0: Space, sp: Space, led: Ledger, ino: nat, pr: Progress, q: nat)
    requires Freed(sp0, sp, led, ino, pr) && q in led.owner
    ensures sp.bs == sp0.bs && q < |sp.disk| == |sp0.disk| && sp.disk[q] == sp0.disk[q]
  {
  }

  /** Free the blocks named in an indirect block. */
  method FreeWords(sp: Space, q: nat, ghost sp0: Space, ghost led: Ledger, ghost ino: nat, ghost pr: Progress,
                   ghost parent: Slot)
    returns (sp': Space)
    requires Consistent(sp0, led)
    requires parent == Root(IND) || parent == Mid(pr.mids)
    requires Freed(sp0, sp, led, ino, AtWord(pr, parent, 0))
    requires q == At(sp0.disk, led.trees, Key(ino, parent)) != 0
    ensures Freed(sp0, sp', led, ino, AtWord(pr, parent, sp0.bs / 4))
  {
    hide Consistent;
    hide Freed;
    hide Advances;
    sp' := sp;
    ChildWord(sp0, led, ino, parent, q, 0);
    FreedBlock(sp0, sp, led, ino, AtWord(pr, parent, 0), q);
    var words := sp.disk[q];
    var i, n := 0, sp.bs / 4;
    assert n == sp0.bs / 4;
    while i != n
      invariant i <= n
      invariant Freed(sp0, sp', led, ino, AtWord(pr, parent, i))
      decreases n - i
    {
      ChildWord(sp0, led, ino, parent, q, i);
      WordAdvances(led, ino, parent, pr, i);
      sp' := FreeSlot(sp', GetU32(words, 4 * i), sp0, led, ino,
                      AtWord(pr, parent, i), AtWord(pr, parent, i + 1), Child(parent, i));
      i := i + 1;
    }
  }

  /** Free an indirect block with everything it names. */
  method FreeBranch(sp: Space, q: nat, ghost sp0: Space, ghost led: Ledger, ghost ino: nat,
                    ghost parent: Slot, ghost pr: Progress, ghost all: Progress, ghost next: Progress)
    returns (sp': Space)
    requires Consistent(sp0, led) && Freed(sp0, sp, led, ino, pr)
    requires parent == Root(IND) || parent == Mid(pr.mids)
    requires pr == AtWord(pr, parent, 0) && all == AtWord(pr, parent, sp0.bs / 4)
    requires Advances(led, ino, all, next, parent)
    requires q == At(sp0.disk, led.trees, Key(ino, parent)) != 0
    ensures Freed(sp0, sp', led, ino, next)
  {
    sp' := FreeWords(sp, q, sp0, led, ino, pr, parent);
    sp' := FreeSlot(sp', q, sp0, led, ino, all, next, parent);
  }

  /** Word mids of the double-indirect block. */
  method FreeMid(sp: Space, q: nat, ghost sp0: Space, ghost led: Ledger, ghost ino: nat, ghost pr: Progress,
                 ghost next: Progress)
    returns (sp': Space)
    requires Consistent(sp0, led) && Freed(sp0, sp, led, ino, pr) && pr.cur == 0
    requires next == pr.(mids := pr.mids + 1)
    requires q == At(sp0.disk, led.trees, Key(ino, Mid(pr.mids)))
    ensures Freed(sp0, sp', led, ino, next)
  {
    sp' := sp;
    if q != 0 {
      ghost var all := MidSteps(sp0, led, ino, pr, next);
      sp' := FreeBranch(sp, q, sp0, led, ino, Mid(pr.mids), pr, all, next);
    } else {
      AbsentMid(sp0, sp, led, ino, pr, next);
    }
  }

  lemma MidSteps(sp: Space, led: Ledger, ino: nat, pr: Progress, next: Progress) returns (all: Progress)
    requires Consistent(sp, led) && pr.cur == 0 && next == pr.(mids := pr.mids + 1)
    ensures pr == AtWord(pr, Mid(pr.mids), 0) && all == AtWord(pr, Mid(pr.mids), sp.bs / 4)
    ensures Advances(led, ino, all, next, Mid(pr.mids))
  {
    all := AtWord(pr, Mid(pr.mids), sp.bs / 4);
    MidAdvances(sp, led, ino, all);
    assert next == all.(mids := all.mids + 1, cur := 0);
  }

  lemma AbsentMid(sp0: Space, sp: Space, led: Ledger, ino: nat, pr: Progress, next: Progress)
    requires Consistent(sp0, led) && Freed(sp0, sp, led, ino, pr) && pr.cur == 0 && next == pr.(mids := pr.mids + 1)
    requires At(sp0.disk, led.trees, Key(ino, Mid(pr.mids))) == 0
    ensures Freed(sp0, sp, led, ino, next)
  {
    forall x | x in led.owner && led.owner[x].ino == ino
      ensures Done(pr, led.owner[x].slot) == Done(next, led.owner[x].slot)
    {
      var s := led.owner[x].slot;
      assert At(sp0.disk, led.trees, Key(ino, s)) == x;
      if (s.Mid? || s.Leaf2?) && s.i == pr.mids {
        NothingBelow(sp0.disk, led.trees, ino, s);
      }
    }
  }

  lemma NothingBelow(disk: Disk, trees: Trees, ino: nat, s: Slot)
    requires (s.Mid? || s.Leaf2?) && At(disk, trees, Key(ino, Mid(s.i))) == 0
    ensures At(disk, trees, Key(ino, s)) == 0
  {
  }

  function MidsTo(pr: Progress, n: nat): Progress { pr.(mids := n) }

  function DirectTo(n: nat): Progress { Start.(direct := n) }

  lemma DirectAdvances(led: Ledger, ino: nat, n: nat)
    ensures n < NDIR ==> Advances(led, ino, DirectTo(n), DirectTo(n + 1), Root(n))
  {
  }

  /** Everything below a double-indirect block. */
  method FreeDouble(sp: Space, q: nat, ghost sp0: Space, ghost led: Ledger, ghost ino: nat, ghost pr: Progress)
    returns (sp': Space)
    requires Consistent(sp0, led) && pr.cur == 0 && Freed(sp0, sp, led, ino, MidsTo(pr, 0))
    requires q == At(sp0.disk, led.trees, Key(ino, Root(DIND))) != 0
    ensures Freed(sp0, sp', led, ino, MidsTo(pr, sp0.bs / 4))
  {
    hide Consistent;
    hide Freed;
    sp' := sp;
    DoubleWord(sp0, led, ino, q, 0);
    FreedBlock(sp0, sp, led, ino, MidsTo(pr, 0), q);
    var words := sp.disk[q];
    var i, n := 0, sp.bs / 4;
    assert n == sp0.bs / 4;
    while i != n
      invariant i <= n
      invariant Freed(sp0, sp', led, ino, MidsTo(pr, i))
      decreases n - i
    {
      DoubleWord(sp0, led, ino, q, i);
      sp' := FreeMid(sp', GetU32(words, 4 * i), sp0, led, ino, MidsTo(pr, i), MidsTo(pr, i + 1));
      i := i + 1;
    }
  }

  lemma DoubleWord(sp: Space, led: Ledger, ino: nat, q: nat, n: nat)
    requires Consistent(sp, led) && q == At(sp.disk, led.trees, Key(ino, Root(DIND))) != 0
    ensures q in led.owner && q < |sp.disk| && |sp.disk[q]| == sp.bs
    ensures At(sp.disk, led.trees, Key(ino, Mid(n))) == if 4 * n + 4 <= sp.bs then GetU32(sp.disk[q], 4 * n) else 0
  {
  }

  lemma RootWord(sp: Space, led: Ledger, ino: nat, k: nat)
    requires Consistent(sp, led) && ino in led.trees && k <= DIND
    ensures |led.trees[ino]| == NPTR && At(sp.disk, led.trees, Key(ino, Root(k))) == led.trees[ino][k]
  {
  }

  /** The direct blocks. */
  method FreeDirect(sp: Space, p: Pointers, ghost sp0: Space, ghost led: Ledger, ghost ino: nat)
    returns (sp': Space)
    requires Consistent(sp0, led) && Freed(sp0, sp, led, ino, DirectTo(0)) && ino in led.trees && led.trees[ino] == p
    ensures Freed(sp0, sp', led, ino, DirectTo(NDIR))
  {
    hide Consistent;
    hide Freed;
    hide Advances;
    sp' := sp;
    RootWord(sp0, led, ino, 0);
    var i := 0;
    while i != NDIR
      invariant i <= NDIR
      invariant Freed(sp0, sp', led, ino, DirectTo(i))
      decreases NDIR - i
    {
      DirectAdvances(led, ino, i);
      RootWord(sp0, led, ino, i);
      sp' := FreeSlot(sp', p[i], sp0, led, ino, DirectTo(i), DirectTo(i + 1), Root(i));
      i := i + 1;
    }
  }

  /** The indirect block, if there is one. */
  method FreeIndirect(sp: Space, q: nat, ghost sp0: Space, ghost led: Ledger, ghost ino: nat, ghost pr: Progress)
    returns (sp': Space, ghost pr': Progress)
    requires Consistent(sp0, led) && Freed(sp0, sp, led, ino, pr) && pr == DirectTo(NDIR)
    requires q == At(sp0.disk, led.trees, Key(ino, Root(IND)))
    ensures Freed(sp0, sp', led, ino, pr')
    ensures pr' == if q != 0 then pr.(leaf := sp0.bs / 4, ind := true) else pr
  {
    sp', pr' := sp, pr;
    if q != 0 {
      ghost var all := pr.(leaf := sp0.bs / 4);
      pr' := all.(ind := true);
      IndAdvances(led, ino, all);
      sp' := FreeBranch(sp, q, sp0, led, ino, Root(IND), pr, all, pr');
    }
  }

  /** The double-indirect block, if there is one. */
  method FreeDoubleRoot(sp: Space, q: nat, ghost sp0: Space, ghost led: Ledger, ghost ino: nat, ghost pr: Progress)
    returns (sp': Space, ghost pr': Progress)
    requires Consistent(sp0, led) && Freed(sp0, sp, led, ino, pr) && pr.direct == NDIR && pr.mids == 0 &&
               pr.cur == 0 && !pr.dind
    requires q == At(sp0.disk, led.trees, Key(ino, Root(DIND)))
    ensures Freed(sp0, sp', led, ino, pr')
    ensures pr' == if q != 0 then pr.(mids := sp0.bs / 4, dind := true) else pr
  {
    hide Consistent;
    hide Freed;
    sp', pr' := sp, pr;
    if q != 0 {
      assert MidsTo(pr, 0) == pr;
      sp' := FreeDouble(sp, q, sp0, led, ino, pr);
      ghost var all := MidsTo(pr, sp0.bs / 4);
      pr' := all.(dind := true);
      assert Advances(led, ino, all, pr', Root(DIND));
      sp' := FreeSlot(sp', q, sp0, led, ino, all, pr', Root(DIND));
    }
  }

  /** Every position the inode owns a block at has been visited. */
  lemma Covered(sp: Space, led: Ledger, ino: nat, pr: Progress, x: nat)
    requires Consistent(sp, led) && ino in led.trees && pr.direct == NDIR && pr.cur == 0
    requires led.trees[ino][IND] != 0 ==> pr.ind && pr.leaf == sp.bs / 4
    requires led.trees[ino][DIND] != 0 ==> pr.dind && pr.mids == sp.bs / 4
    requires x in led.owner && led.owner[x].ino == ino
    ensures Done(pr, led.owner[x].slot)
  {
    var s := led.owner[x].slot;
    assert At(sp.disk, led.trees, Key(ino, s)) == x;
    RootWord(sp, led, ino, IND);
    RootWord(sp, led, ino, DIND);
    match s
    case Root(k) =>
    case Leaf1(i) => LeafRange(sp.disk, led.trees, ino, i);
    case Mid(i) => MidRange(sp.disk, led.trees, ino, s);
    case Leaf2(i, j) => MidRange(sp.disk, led.trees, ino, s);
  }

  lemma LeafRange(disk: Disk, trees: Trees, ino: nat, i: nat)
    requires At(disk, trees, Key(ino, Leaf1(i))) != 0
    ensures var q := At(disk, trees, Key(ino, Root(IND))); 0 < q < |disk| && 4 * i + 4 <= |disk[q]|
  {
  }

  lemma MidRange(disk: Disk, trees: Trees, ino: nat, s: Slot)
    requires (s.Mid? || s.Leaf2?) && At(disk, trees, Key(ino, s)) != 0
    ensures var q := At(disk, trees, Key(ino, Root(DIND))); 0 < q < |disk| && 4 * s.i + 4 <= |disk[q]|
  {
  }

  function NoPointers(): (p: Pointers)
    ensures |p| == NPTR && forall k :: 0 <= k < NPTR ==> p[k] == 0
  {
    seq(NPTR, _ => 0)
  }

  /** The ledger once inode `ino` owns nothing. */
  function Emptied(led: Ledger, ino: nat): (r: Ledger) {
    led.(trees := led.trees[ino := NoPointers()],
         owner := map b | b in led.owner && led.owner[b].ino != ino :: led.owner[b])
  }

  lemma NoPositions(disk: Disk, trees: Trees, q: Key)
    requires q.ino in trees && trees[q.ino] == NoPointers()
    ensures At(disk, trees, q) == 0
  {
  }

  /** Trees depend only on the blocks they own. */
  lemma AgreeAt(disk: Disk, trees: Trees, owner: Owner, disk': Disk, q: Key)
    requires Owned(disk, trees, owner) && |disk'| == |disk|
    requires forall b :: b in owner ==> disk'[b] == disk[b]
    ensures At(disk', trees, q) == At(disk, trees, q)
  {
    if q.ino in trees {
      var k1, k2 := Key(q.ino, Root(IND)), Key(q.ino, Root(DIND));
      assert At(disk, trees, k1) != 0 ==> At(disk, trees, k1) in owner;
      assert At(disk, trees, k2) != 0 ==> At(disk, trees, k2) in owner;
      if q.slot.Leaf2? {
        var k3 := Key(q.ino, Mid(q.slot.i));
        assert At(disk, trees, k3) != 0 ==> At(disk, trees, k3) in owner;
      }
    }
  }

  lemma EmptiedTrees(sp0: Space, sp: Space, led: Ledger, ino: nat)
    requires Owned(sp0.disk, led.trees, led.owner) && |sp.disk| == |sp0.disk| && ino in led.trees
    requires forall b :: b in led.owner ==> b < |sp0.disk| && sp.disk[b] == sp0.disk[b]
    ensures Owned(sp.disk, Emptied(led, ino).trees, Emptied(led, ino).owner)
    ensures OthersKept(sp0.disk, led.trees, sp.disk, Emptied(led, ino).trees, ino)
  {
    var led' := Emptied(led, ino);
    forall q: Key
      ensures At(sp.disk, led'.trees, q) == if q.ino == ino then 0 else At(sp0.disk, led.trees, q)
    {
      AgreeAt(sp0.disk, led.trees, led.owner, sp.disk, q);
      if q.ino == ino {
        NoPositions(sp.disk, led'.trees, q);
      }
    }
  }

  lemma EmptiedAccount(sp0: Space, sp: Space, led: Ledger, ino: nat)
    requires Accounted(sp0, led.reserved, led.owner) && SameLayout(sp0, sp)
    requires forall x: nat :: Used(sp, x) <==> Used(sp0, x) && !(x in led.owner && led.owner[x].ino == ino)
    ensures Accounted(sp, led.reserved, Emptied(led, ino).owner)
  {
  }

  lemma AllFreed(sp0: Space, sp: Space, led: Ledger, ino: nat, pr: Progress)
    requires Consistent(sp0, led) && Freed(sp0, sp, led, ino, pr) && ino in led.trees
    requires forall x :: x in led.owner && led.owner[x].ino == ino ==> Done(pr, led.owner[x].slot)
    ensures Consistent(sp, Emptied(led, ino))
    ensures OthersKept(sp0.disk, led.trees, sp.disk, Emptied(led, ino).trees, ino)
    ensures forall x: nat :: Used(sp, x) <==> Used(sp0, x) && !(x in led.owner && led.owner[x].ino == ino)
  {
    EmptiedTrees(sp0, sp, led, ino);
    assert forall x: nat :: Used(sp, x) <==> Used(sp0, x) && !(x in led.owner && led.owner[x].ino == ino);
    EmptiedAccount(sp0, sp, led, ino);
  }

  /** free_inode_blocks: exactly the inode's blocks are freed, each once, and its pointers cleared. */
  method FreeInodeBlocks(sp: Space, p: Pointers, ghost led: Ledger, ghost ino: nat)
    returns (sp': Space, p': Pointers, ghost led': Ledger)
    requires Consistent(sp, led) && ino in led.trees && led.trees[ino] == p
    ensures led' == Emptied(led, ino) && p' == NoPointers()
    ensures Consistent(sp', led') && SameLayout(sp, sp')
    ensures OthersKept(sp.disk, led.trees, sp'.disk, led'.trees, ino)
    ensures forall x: nat :: Used(sp', x) <==> Used(sp, x) && !(x in led.owner && led.owner[x].ino == ino)
    ensures forall b :: b in led.owner ==> b < |sp.disk| && sp'.disk[b] == sp.disk[b]
  {
    ghost var pr;
    sp', pr := FreeWalk(sp, p, led, ino);
    AllFreed(sp, sp', led, ino, pr);
    p', led' := NoPointers(), Emptied(led, ino);
  }

  /** The walk over the whole tree. */
  method FreeWalk(sp: Space, p: Pointers, ghost led: Ledger, ghost ino: nat) returns (sp': Space, ghost pr: Progress)
    requires Consistent(sp, led) && ino in led.trees && led.trees[ino] == p
    ensures Freed(sp, sp', led, ino, pr)
    ensures forall x :: x in led.owner && led.owner[x].ino == ino ==> Done(pr, led.owner[x].slot)
  {
    hide Consistent;
    hide Freed;
    NothingFreed(sp, led, ino);
    RootWord(sp, led, ino, IND);
    RootWord(sp, led, ino, DIND);
    assert DirectTo(0) == Start;
    sp' := FreeDirect(sp, p, sp, led, ino);
    pr := DirectTo(NDIR);
    sp', pr := FreeIndirect(sp', p[IND], sp, led, ino, pr);
    sp', pr := FreeDoubleRoot(sp', p[DIND], sp, led, ino, pr);
    forall x | x in led.owner && led.owner[x].ino == ino
      ensures Done(pr, led.owner[x].slot)
    {
      Covered(sp, led, ino, pr, x);
    }
  }
}
