/**
 The memory half of fork, and pointer validation (kernel/core/process.c).

 Fork gives the child a page table of its own, and for every mapped page of every
 region of the parent a fresh frame with the same words.
 */
module Fork {
  import opened Arith
  import opened Pmm
  import opened Paging
  import opened TableSet
  import opened AddressSpace
  import opened UserTables

  const U64: nat := 0x1_0000_0000_0000_0000
  const USER_LIMIT: nat := 0x8000_0000
  const KERNEL_VIRT_BASE: nat := 0xFFFF_FFFF_8000_0000

  // Protection flags, by bit number
  const VM_READ: nat := 0
  const VM_WRITE: nat := 1
  const VM_EXEC: nat := 2
  const VM_USER: nat := 3

  /** A region of a process; the flag word is the set of its bits. */
  datatype Vma = Vma(start: nat, end: nat, flags: set<nat>)

  function PteFlags(flags: set<nat>): (r: nat)
    ensures r < 1024
  {
    1 + (if VM_READ in flags then 2 else 0) + (if VM_WRITE in flags then 4 else 0)
    + (if VM_EXEC in flags then 8 else 0) + (if VM_USER in flags then 16 else 0)
  }

  /** Bit n of an entry. */
  predicate EntryBit(pte: nat, n: nat) {
    match n
    case 0 => pte % 2 == 1
    case 1 => pte / 2 % 2 == 1
    case 2 => pte / 4 % 2 == 1
    case 3 => pte / 8 % 2 == 1
    case _ => pte / 16 % 2 == 1
  }

  /** The child's entry lets it read, write, execute and be reached from user mode exactly as the region says. */
  lemma Permissions(frame: nat, flags: set<nat>)
    ensures var pte := MakePte(frame * PAGE, PteFlags(flags));
            && EntryBit(pte, 0)
            && (EntryBit(pte, 1) <==> VM_READ in flags) && (EntryBit(pte, 2) <==> VM_WRITE in flags)
            && (EntryBit(pte, 3) <==> VM_EXEC in flags) && (EntryBit(pte, 4) <==> VM_USER in flags)
  {
    var f := PteFlags(flags);
    assert f % 2 == 1 && f < 32;
    LowBits(frame, f);
  }

  lemma LowBits(frame: nat, f: nat)
    requires f < 32 && f % 2 == 1
    ensures var pte := MakePte(frame * PAGE, f);
            && pte % 2 == f % 2 && pte / 2 % 2 == f / 2 % 2 && pte / 4 % 2 == f / 4 % 2
            && pte / 8 % 2 == f / 8 % 2 && pte / 16 % 2 == f / 16 % 2
  {
    Even(512 * frame, f);
    Even(256 * frame, f / 2);
    Even(128 * frame, f / 4);
    Even(64 * frame, f / 8);
    Even(32 * frame, f / 16);
    var pte := MakePte(frame * PAGE, f);
    assert pte == 1024 * frame + f;
    assert pte / 2 == 512 * frame + f / 2;
    assert pte / 4 == 256 * frame + f / 4;
    assert pte / 8 == 128 * frame + f / 8;
    assert pte / 16 == 64 * frame + f / 16;
  }

  lemma Even(k: nat, x: nat)
    ensures (2 * k + x) % 2 == x % 2
  {
  }

  // ----- regions and pointers

  predicate Holds(w: Vma, a: nat) { w.start <= a < w.end }

  /** process_find_vma: the first region of the list that holds a. */
  method FindVma(vmas: seq<Vma>, a: nat) returns (n: nat)
    ensures n == First(vmas, a)
  {
    n := 0;
    while n < |vmas|
      invariant n <= |vmas| && First(vmas, a) == n + First(vmas[n..], a)
    {
      if Holds(vmas[n], a) {
        return;
      }
      n := n + 1;
    }
  }

  function First(vmas: seq<Vma>, a: nat): (n: nat)
    ensures n <= |vmas|
    ensures n < |vmas| ==> Holds(vmas[n], a)
    ensures forall k :: 0 <= k < n ==> !Holds(vmas[k], a)
  {
    if vmas == [] || Holds(vmas[0], a) then 0
    else
      var n := First(vmas[1..], a);
      assert forall k :: 0 < k < 1 + n ==> vmas[k] == vmas[1..][k - 1];
      1 + n
  }

  /** process_validate_user_ptr. */
  predicate ValidPtr(vmas: seq<Vma>, p: nat, size: nat, required: set<nat>) {
    var end := (p + size) % U64;
    var n := First(vmas, p);
    && p != 0 && size != 0
    && p < KERNEL_VIRT_BASE && end < KERNEL_VIRT_BASE && p <= end
    && n < |vmas| && end <= vmas[n].end && required <= vmas[n].flags
  }

  /** An accepted pointer names bytes of one region, all below the kernel. */
  lemma AcceptedInside(vmas: seq<Vma>, p: nat, size: nat, required: set<nat>, a: nat)
    requires p < U64 && size < U64 && ValidPtr(vmas, p, size, required) && p <= a < p + size
    ensures exists n :: 0 <= n < |vmas| && Holds(vmas[n], a) && required <= vmas[n].flags
    ensures a < KERNEL_VIRT_BASE
  {
    assert Holds(vmas[First(vmas, p)], a);
  }

  /** The whole verdict: with regions that do not overlap, a pointer is accepted exactly when its bytes, one at
      least, are in one region with the required rights, and they and the address behind them are below the
      kernel. */
  lemma AcceptedExactly(vmas: seq<Vma>, p: nat, size: nat, required: set<nat>)
    requires Disjoint(vmas) && p < U64 && size < U64
    ensures ValidPtr(vmas, p, size, required) <==>
            && 0 < p && 0 < size && p + size < KERNEL_VIRT_BASE
            && exists n :: 0 <= n < |vmas| && vmas[n].start <= p && p + size <= vmas[n].end && required <= vmas[n].flags
  {
    if n :| 0 <= n < |vmas| && vmas[n].start <= p && 0 < size && p + size <= vmas[n].end {
      assert Holds(vmas[n], p);
      assert First(vmas, p) == n;
    }
  }

  /** Where regions overlap, the first that holds the address decides. */
  lemma FirstDecides(vmas: seq<Vma>, p: nat, size: nat, required: set<nat>, n: nat)
    requires p < U64 && size < U64 && n < |vmas| && Holds(vmas[n], p)
    requires forall k :: 0 <= k < n ==> !Holds(vmas[k], p)
    ensures ValidPtr(vmas, p, size, required) <==>
            0 < p && 0 < size && p + size < KERNEL_VIRT_BASE && p + size <= vmas[n].end && required <= vmas[n].flags
  {
    assert First(vmas, p) == n;
  }

  function Reversed(vmas: seq<Vma>): (r: seq<Vma>)
    ensures |r| == |vmas|
    ensures forall k :: 0 <= k < |r| ==> r[k] == vmas[|vmas| - 1 - k]
  {
    if vmas == [] then [] else Reversed(vmas[1..]) + [vmas[0]]
  }

  ghost predicate Disjoint(vmas: seq<Vma>) {
    forall m, n, a :: 0 <= m < n < |vmas| && Holds(vmas[m], a) ==> !Holds(vmas[n], a)
  }

  /** With regions that do not overlap, the order of the list does not matter. */
  lemma SameVerdict(vmas: seq<Vma>, p: nat, size: nat, required: set<nat>)
    requires Disjoint(vmas)
    ensures ValidPtr(Reversed(vmas), p, size, required) == ValidPtr(vmas, p, size, required)
  {
    var n, m := First(vmas, p), First(Reversed(vmas), p);
    if m < |vmas| {
      assert Holds(vmas[|vmas| - 1 - m], p);
    }
    if n < |vmas| {
      assert Reversed(vmas)[|vmas| - 1 - n] == vmas[n];
    }
  }

  /** Where regions overlap the two lists agree at p on every query exactly when first and last holder do. */
  lemma VerdictAgrees(vmas: seq<Vma>, p: nat)
    requires 0 < p && First(vmas, p) < |vmas|
    requires forall k :: 0 <= k < |vmas| ==> vmas[k].end < KERNEL_VIRT_BASE
    ensures First(Reversed(vmas), p) < |vmas|
    ensures var f, l := vmas[First(vmas, p)], Reversed(vmas)[First(Reversed(vmas), p)];
            (forall size: nat, required: set<nat> :: size < U64 ==>
               ValidPtr(Reversed(vmas), p, size, required) == ValidPtr(vmas, p, size, required))
            <==> f.end == l.end && f.flags == l.flags
  {
    var rev := Reversed(vmas);
    var n, m := First(vmas, p), First(rev, p);
    assert rev[|vmas| - 1 - n] == vmas[n];
    var f, l := vmas[n], rev[m];
    assert l == vmas[|vmas| - 1 - m];
    if f.end != l.end || f.flags != l.flags {
      assert ValidPtr(vmas, p, f.end - p, f.flags);
      assert ValidPtr(rev, p, l.end - p, l.flags);
    }
  }

  /** Two overlapping regions for which the child answers differently. */
  lemma OverlapDiffers()
    ensures var vmas := [Vma(0x1000, 0x2000, {VM_READ}), Vma(0x1000, 0x2000, {VM_WRITE})];
            ValidPtr(vmas, 0x1000, 1, {VM_READ}) && !ValidPtr(Reversed(vmas), 0x1000, 1, {VM_READ})
  {
    var vmas := [Vma(0x1000, 0x2000, {VM_READ}), Vma(0x1000, 0x2000, {VM_WRITE})];
    assert Holds(vmas[0], 0x1000);
    assert Reversed(vmas)[0] == vmas[1];
    assert VM_READ !in vmas[1].flags;
  }

  // ----- copying the pages of the regions

  /** The k-th page address of a region is a. */
  predicate PageIn(w: Vma, k: nat, v: Vpn) {
    w.start + k * PAGE < w.end && VpnOf(w.start + k * PAGE) == v
  }

  /** The frames of the parent's mapped region pages are RAM in use, and no page tables. */
  ghost predicate FrameOk(mem: Mem, pm: Pmm, g: Space, f: nat) {
    f in mem && |mem[f]| == ENTRIES && f !in g.owner && (Managed(pm, f) ==> FrameTaken(pm, f))
  }

  ghost predicate ParentOk(mem: Mem, pm: Pmm, g: Space, parent: nat, vmas: seq<Vma>) {
    && parent in g.users
    && (forall w :: w in vmas ==> w.end <= USER_LIMIT)
    && forall w, k: nat, v :: w in vmas && PageIn(w, k, v) && Pte(mem, parent, v) != 0 ==>
      FrameOk(mem, pm, g, Ppn(Pte(mem, parent, v)))
  }

  /** Tables and pages were added in frames that were free; nothing in use was written but tables. */
  ghost predicate Extends(mem: Mem, pm: Pmm, g: Space, mem': Mem, pm': Pmm, g': Space) {
    && pm'.start == pm.start && pm'.total == pm.total
    && (forall t :: t in g.owner ==> t in g'.owner && g'.owner[t] == g.owner[t])
    && (forall t :: t in g'.owner && t !in g.owner ==> Managed(pm, t) && !FrameTaken(pm, t))
    && (forall t: nat :: FrameTaken(pm, t) ==> FrameTaken(pm', t))
    && (forall t :: t in mem && t !in g'.owner && (Managed(pm, t) ==> FrameTaken(pm, t)) ==>
          t in mem' && mem'[t] == mem[t])
  }

  lemma ExtendsGrew(mem: Mem, pm: Pmm, g: Space, mem1: Mem, pm1: Pmm, g1: Space, mem2: Mem, pm2: Pmm, g2: Space)
    requires Extends(mem, pm, g, mem1, pm1, g1) && Grew(mem1, pm1, g1, mem2, pm2, g2) && Held(pm2, g2)
    requires g2.kernel in g1.owner
    ensures Extends(mem, pm, g, mem2, pm2, g2)
  {
    assert forall t: nat :: FrameTaken(pm2, t) ==> Managed(pm, t);
    hide FrameTaken, Managed;
  }

  lemma ExtendsFresh(mem: Mem, pm: Pmm, g: Space, mem1: Mem, pm1: Pmm, g1: Space, mem2: Mem, pm2: Pmm, f: nat)
    requires Extends(mem, pm, g, mem1, pm1, g1) && Managed(pm1, f) && !FrameTaken(pm1, f)
    requires Turns(pm1, pm2, f, true) && OnlyFrame(mem1, mem2, f)
    ensures Extends(mem, pm, g, mem2, pm2, g1)
  {
    assert Managed(pm, f) && !FrameTaken(pm, f);
    hide FrameTaken, Managed;
  }

  /** A page the child got: its frame and flags. */
  datatype Copy = Copy(frame: nat, flags: nat)

  ghost predicate Copied(mem: Mem, pm: Pmm, parent: nat, mem': Mem, pm': Pmm, g': Space, v: Vpn, c: Copy) {
    && Pte(mem, parent, v) != 0
    && Managed(pm, c.frame) && !FrameTaken(pm, c.frame) && FrameTaken(pm', c.frame) && c.frame !in g'.owner
    && Ppn(Pte(mem, parent, v)) in mem
    && c.frame in mem' && mem'[c.frame] == mem[Ppn(Pte(mem, parent, v))]
  }

  ghost predicate AllCopied(mem: Mem, pm: Pmm, parent: nat, mem': Mem, pm': Pmm, g': Space, copies: map<Vpn, Copy>) {
    && (forall v :: v in copies ==> Copied(mem, pm, parent, mem', pm', g', v, copies[v]))
    && (forall v, w :: v in copies && w in copies && copies[v].frame == copies[w].frame ==> v == w)
  }

  lemma CopiedGrew(mem: Mem, pm: Pmm, parent: nat, mem1: Mem, pm1: Pmm, g1: Space, mem2: Mem, pm2: Pmm, g2: Space,
                   copies: map<Vpn, Copy>)
    requires AllCopied(mem, pm, parent, mem1, pm1, g1, copies) && Grew(mem1, pm1, g1, mem2, pm2, g2)
    ensures AllCopied(mem, pm, parent, mem2, pm2, g2, copies)
  {
    hide FrameTaken, Managed, Pte;
  }

  lemma CopiedFresh(mem: Mem, pm: Pmm, parent: nat, mem1: Mem, pm1: Pmm, g1: Space, mem2: Mem, pm2: Pmm, f: nat,
                    copies: map<Vpn, Copy>)
    requires AllCopied(mem, pm, parent, mem1, pm1, g1, copies)
    requires !FrameTaken(pm1, f) && Turns(pm1, pm2, f, true) && OnlyFrame(mem1, mem2, f)
    ensures AllCopied(mem, pm, parent, mem2, pm2, g1, copies)
    ensures forall v :: v in copies ==> copies[v].frame != f
  {
    hide FrameTaken, Managed, Pte;
  }

  lemma CopiedAdd(mem: Mem, pm: Pmm, parent: nat, mem': Mem, pm': Pmm, g': Space, copies: map<Vpn, Copy>, v: Vpn,
                  c: Copy)
    requires AllCopied(mem, pm, parent, mem', pm', g', copies)
    requires Copied(mem, pm, parent, mem', pm', g', v, c)
    requires forall w :: w in copies ==> copies[w].frame != c.frame
    ensures AllCopied(mem, pm, parent, mem', pm', g', copies[v := c])
  {
    hide Copied;
  }

  /** Every page of the child below index 2. */
  ghost predicate ChildView(mem': Mem, g': Space, child: nat, copies: map<Vpn, Copy>) {
    forall v :: Home(g', child, v) ==>
      Pte(mem', child, v) ==
      if v in copies then MakePte(copies[v].frame * PAGE, copies[v].flags) else DevicePte(DEVICES, v)
  }

  /** Where fork stands: the child has exactly these copies, and no one else has noticed. */
  ghost predicate Forking(mem: Mem, pm: Pmm, g: Space, parent: nat, child: nat,
                          mem': Mem, pm': Pmm, g': Space, copies: map<Vpn, Copy>)
  {
    && Machine(mem', pm', g') && g'.kernel == g.kernel && g'.users == g.users + {child}
    && child !in g.users && child != g.kernel
    && SameView(mem, mem', g) && Extends(mem, pm, g, mem', pm', g')
    && AllCopied(mem, pm, parent, mem', pm', g', copies)
    && ChildView(mem', g', child, copies)
  }

  lemma BelowLimit(a: nat)
    requires a < USER_LIMIT
    ensures VpnOf(a).i < FIRST_SHARED
  {
  }

  /** The child's view after one more page. */
  lemma ViewNext(mem: Mem, mem1: Mem, mem2: Mem, g1: Space, g2: Space, child: nat, copies: map<Vpn, Copy>, at: Vpn,
                 c: Copy)
    requires ChildView(mem, g1, child, copies) && SameView(mem, mem1, g1)
    requires Remaps(mem1, mem2, g1, child, at, MakePte(c.frame * PAGE, c.flags))
    requires g2.kernel == g1.kernel && g2.users == g1.users
    ensures ChildView(mem2, g2, child, copies[at := c])
  {
    hide Pte, Entry, MakePte, DevicePte;
    forall v | Home(g2, child, v)
      ensures Home(g1, child, v)
    {
    }
  }

  /** The others' views after one more page of the child. */
  lemma OthersNext(mem: Mem, mem1: Mem, mem2: Mem, g: Space, g1: Space, child: nat, at: Vpn, pte: nat)
    requires SameView(mem, mem1, g) && g1.kernel == g.kernel && g1.users == g.users + {child}
    requires child !in g.users && child != g.kernel
    requires Remaps(mem1, mem2, g1, child, at, pte) || SameView(mem1, mem2, g1)
    ensures SameView(mem, mem2, g)
  {
    hide Pte, Entry;
    forall r: nat, v | Home(g, r, v)
      ensures Pte(mem2, r, v) == Pte(mem, r, v)
    {
      assert Home(g1, r, v);
    }
  }

  /** A frame given to the child's use, before it is mapped. */
  lemma TakeFrame(mem: Mem, pm: Pmm, g: Space, parent: nat, child: nat,
                  mem1: Mem, pm1: Pmm, g1: Space, copies: map<Vpn, Copy>, mem2: Mem, pm2: Pmm, f: nat)
    requires Forking(mem, pm, g, parent, child, mem1, pm1, g1, copies)
    requires Managed(pm1, f) && !FrameTaken(pm1, f) && Consistent(pm2) && Turns(pm1, pm2, f, true) &&
               OnlyFrame(mem1, mem2, f)
    ensures Forking(mem, pm, g, parent, child, mem2, pm2, g1, copies)
    ensures SameView(mem1, mem2, g1) && f !in g1.owner && f < PPN_LIMIT
    ensures Managed(pm, f) && !FrameTaken(pm, f) && FrameTaken(pm2, f)
    ensures forall v :: v in copies ==> copies[v].frame != f
  {
    FreshMachine(mem1, pm1, g1, mem2, pm2, f);
    ExtendsFresh(mem, pm, g, mem1, pm1, g1, mem2, pm2, f);
    CopiedFresh(mem, pm, parent, mem1, pm1, g1, mem2, pm2, f, copies);
    assert Managed(pm, f) && !FrameTaken(pm, f) && FrameTaken(pm2, f);
    hide Machine, Extends, AllCopied, FrameTaken, Pte, Entry, MakePte, DevicePte;
    MoreRoots(mem1, mem2, g, g1, child);
    SameViewTwice(mem, mem1, mem2, g);
    assert ChildView(mem2, g1, child, copies);
  }

  /** And mapped. */
  lemma MapFrame(mem: Mem, pm: Pmm, g: Space, parent: nat, child: nat,
                 mem1: Mem, pm1: Pmm, g1: Space, copies: map<Vpn, Copy>,
                 mem2: Mem, pm2: Pmm, g2: Space, at: Vpn, c: Copy)
    requires Forking(mem, pm, g, parent, child, mem1, pm1, g1, copies)
    requires Machine(mem2, pm2, g2) && Grows(mem1, pm1, g1, mem2, pm2, g2)
    requires Remaps(mem1, mem2, g1, child, at, MakePte(c.frame * PAGE, c.flags))
    requires Copied(mem, pm, parent, mem1, pm1, g1, at, c) && forall v :: v in copies ==> copies[v].frame != c.frame
    ensures Forking(mem, pm, g, parent, child, mem2, pm2, g2, copies[at := c])
  {
    assert g1.kernel in g1.owner by { KernelRoot(mem1, g1); }
    assert Held(pm2, g2);
    hide Machine, SameView, Remaps, Copied, ChildView, Grew, Extends, Held;
    CopiedAdd(mem, pm, parent, mem1, pm1, g1, copies, at, c);
    CopiedGrew(mem, pm, parent, mem1, pm1, g1, mem2, pm2, g2, copies[at := c]);
    ExtendsGrew(mem, pm, g, mem1, pm1, g1, mem2, pm2, g2);
    GrowsNot(mem1, pm1, g1);
    ViewNext(mem1, mem1, mem2, g1, g2, child, copies, at, c);
    OthersNext(mem, mem1, mem2, g, g1, child, at, MakePte(c.frame * PAGE, c.flags));
  }

  /** What holds whether or not fork could go on: no one else has noticed. */
  ghost predicate Unnoticed(mem: Mem, pm: Pmm, g: Space, mem': Mem, pm': Pmm, g': Space) {
    Machine(mem', pm', g') && SameView(mem, mem', g) && Extends(mem, pm, g, mem', pm', g')
  }

  lemma StuckUnnoticed(mem: Mem, pm: Pmm, g: Space, parent: nat, child: nat, mem1: Mem, pm1: Pmm, g1: Space,
                       copies: map<Vpn, Copy>, mem2: Mem, pm2: Pmm, g2: Space, pm3: Pmm, f: nat)
    requires Forking(mem, pm, g, parent, child, mem1, pm1, g1, copies)
    requires Machine(mem2, pm2, g2) && Grows(mem1, pm1, g1, mem2, pm2, g2) && SameView(mem1, mem2, g1)
    requires FrameTaken(pm1, f) && f !in g1.owner && !FrameTaken(pm, f)
    requires Consistent(pm3) && (FrameTaken(pm2, f) ==> Turns(pm2, pm3, f, false))
    ensures Unnoticed(mem, pm, g, mem2, pm3, g2)
  {
    assert g1.kernel in g1.owner by { KernelRoot(mem1, g1); }
    assert Held(pm2, g2);
    assert FrameTaken(pm2, f) && f !in g2.owner;
    hide SameView, Machine, AllCopied, ChildView, FrameTaken, Grew, Extends, Held, Turns;
    OthersNext(mem, mem1, mem2, g, g1, child, Vpn(0, 0, 0), 0);
    ExtendsGrew(mem, pm, g, mem1, pm1, g1, mem2, pm2, g2);
    MachineFree(mem2, pm2, g2, pm3, f);
    ExtendsFree(mem, pm, g, mem2, pm2, g2, pm3, f);
  }

  /** Giving back a frame that is no table. */
  lemma MachineFree(mem: Mem, pm: Pmm, g: Space, pm': Pmm, f: nat)
    requires Machine(mem, pm, g) && f !in g.owner && Consistent(pm') && Turns(pm, pm', f, false)
    ensures Machine(mem, pm', g)
  {
    SameManaged(pm, pm');
    hide Tables, Consistent, FrameTaken, Managed;
  }

  lemma ExtendsFree(mem: Mem, pm: Pmm, g: Space, mem': Mem, pm1: Pmm, g': Space, pm2: Pmm, f: nat)
    requires Extends(mem, pm, g, mem', pm1, g') && !FrameTaken(pm, f) && Turns(pm1, pm2, f, false)
    ensures Extends(mem, pm, g, mem', pm2, g')
  {
    hide FrameTaken, Managed;
  }

  lemma SameManaged(pm: Pmm, pm': Pmm)
    requires pm'.start == pm.start && pm'.total == pm.total
    ensures forall t: nat :: Managed(pm', t) == Managed(pm, t)
  {
  }

  lemma SameAllManaged(pm: Pmm, pm': Pmm)
    ensures pm'.start == pm.start && pm'.total == pm.total ==> forall t: nat :: Managed(pm', t) == Managed(pm, t)
  {
  }

  /** The parent's page at a, as fork reads it. */
  lemma ParentPage(mem: Mem, pm: Pmm, g: Space, parent: nat, child: nat, mem1: Mem, pm1: Pmm, g1: Space,
                   copies: map<Vpn, Copy>, vmas: seq<Vma>, w: Vma, k: nat)
    requires Forking(mem, pm, g, parent, child, mem1, pm1, g1, copies) && ParentOk(mem, pm, g, parent, vmas)
    requires w in vmas && w.start + k * PAGE < w.end
    ensures var v := VpnOf(w.start + k * PAGE);
            && Home(g, parent, v) && Home(g1, child, v) && Pte(mem1, parent, v) == Pte(mem, parent, v)
            && (Pte(mem, parent, v) != 0 ==>
                  var p := Ppn(Pte(mem, parent, v));
                  && p in mem && p in mem1 && mem1[p] == mem[p] && |mem[p]| == ENTRIES
                  && (Managed(pm1, p) ==> FrameTaken(pm1, p)))
  {
    var a := w.start + k * PAGE;
    var v := VpnOf(a);
    BelowLimit(a);
    assert PageIn(w, k, v);
    hide Pte, VpnOf, Machine, AllCopied, ChildView, Ppn, FrameTaken, Managed;
    SameAllManaged(pm, pm1);
    assert Home(g, parent, v) && Home(g1, child, v);
    if Pte(mem, parent, v) != 0 {
      var p := Ppn(Pte(mem, parent, v));
      assert FrameOk(mem, pm, g, p);
      assert p !in g1.owner;
    }
  }

  // ----- the two loops of fork

  /** Page q of region m comes before page k of region n. */
  predicate Before(m: nat, q: nat, n: nat, k: nat) { m < n || (m == n && q < k) }

  /** The copies are of the mapped pages before (n, k), each with its region's permissions. */
  ghost predicate Covers(mem: Mem, parent: nat, vmas: seq<Vma>, n: nat, k: nat, copies: map<Vpn, Copy>) {
    && (forall m: nat, q: nat, v ::
          m < |vmas| && Before(m, q, n, k) && PageIn(vmas[m], q, v) && Pte(mem, parent, v) != 0 ==>
          v in copies && copies[v].flags == PteFlags(vmas[m].flags))
    && (forall v :: v in copies ==> Pte(mem, parent, v) != 0)
    && (forall v :: v in copies ==> exists m: nat, q: nat :: m < |vmas| && Before(m, q, n, k) && PageIn(vmas[m], q, v))
  }

  lemma CoversNext(mem: Mem, parent: nat, vmas: seq<Vma>, n: nat, k: nat, copies: map<Vpn, Copy>,
                   copies': map<Vpn, Copy>)
    requires Covers(mem, parent, vmas, n, k, copies) && n < |vmas| && vmas[n].start + k * PAGE < vmas[n].end
    requires var v := VpnOf(vmas[n].start + k * PAGE);
             if Pte(mem, parent, v) == 0 then copies' == copies else
             && copies'.Keys == copies.Keys + {v} && v !in copies
             && (forall x :: x in copies ==> copies'[x] == copies[x])
             && copies'[v].flags == PteFlags(vmas[n].flags)
    ensures Covers(mem, parent, vmas, n, k + 1, copies')
  {
    hide Pte, VpnOf, PteFlags;
    var v := VpnOf(vmas[n].start + k * PAGE);
    forall x | x in copies'
      ensures exists m: nat, q: nat :: m < |vmas| && Before(m, q, n, k + 1) && PageIn(vmas[m], q, x)
    {
      if x in copies {
        var m: nat, q: nat :| m < |vmas| && Before(m, q, n, k) && PageIn(vmas[m], q, x);
        assert Before(m, q, n, k + 1);
      } else {
        assert Before(n, k, n, k + 1) && PageIn(vmas[n], k, v);
      }
    }
    forall m: nat, q: nat, x | m < |vmas| && Before(m, q, n, k + 1) && PageIn(vmas[m], q, x) && Pte(mem, parent, x) != 0
      ensures x in copies' && copies'[x].flags == PteFlags(vmas[m].flags)
    {
      assert Before(m, q, n, k) || (m == n && q == k);
    }
  }

  lemma CoversRegion(mem: Mem, parent: nat, vmas: seq<Vma>, n: nat, k: nat, copies: map<Vpn, Copy>)
    requires Covers(mem, parent, vmas, n, k, copies) && n < |vmas| && vmas[n].start + k * PAGE >= vmas[n].end
    ensures Covers(mem, parent, vmas, n + 1, 0, copies)
  {
    hide Pte, VpnOf, PteFlags;
    forall x | x in copies
      ensures exists m: nat, q: nat :: m < |vmas| && Before(m, q, n + 1, 0) && PageIn(vmas[m], q, x)
    {
      var m: nat, q: nat :| m < |vmas| && Before(m, q, n, k) && PageIn(vmas[m], q, x);
      assert Before(m, q, n + 1, 0);
    }
    forall m: nat, q: nat, x | m < |vmas| && Before(m, q, n + 1, 0) && PageIn(vmas[m], q, x) && Pte(mem, parent, x) != 0
      ensures x in copies && copies[x].flags == PteFlags(vmas[m].flags)
    {
      assert Before(m, q, n, k);
    }
  }

  // ----- what a fork takes

  /** Page q of region m is mapped, at v. */
  ghost predicate Visit(mem: Mem, parent: nat, vmas: seq<Vma>, m: nat, q: nat, v: Vpn) {
    m < |vmas| && PageIn(vmas[m], q, v) && Pte(mem, parent, v) != 0
  }

  /** The mapped pages of the regions. */
  ghost function Mapped(mem: Mem, parent: nat, vmas: seq<Vma>): set<Vpn> {
    set m: nat, q: nat, v | m < |vmas| && q < vmas[m].end && v == VpnOf(vmas[m].start + q * PAGE) &&
                            Visit(mem, parent, vmas, m, q, v) :: v
  }

  /** The regions up to page k of region n: none empty, mapped pages aligned, in one region each and clear of the
      devices. */
  ghost predicate Tidy(mem: Mem, parent: nat, vmas: seq<Vma>, n: nat, k: nat) {
    && (forall m: nat :: m < n && m < |vmas| ==> vmas[m].start < vmas[m].end)
    && (forall m: nat, q: nat, v :: Visit(mem, parent, vmas, m, q, v) && Before(m, q, n, k) ==>
          vmas[m].start % PAGE == 0 && v !in Devices(DEVICES))
    && (forall m: nat, q: nat, x: nat, y: nat, v ::
          && Visit(mem, parent, vmas, m, q, v) && Visit(mem, parent, vmas, x, y, v)
          && Before(m, q, n, k) && Before(x, y, n, k) ==>
            m == x && q == y)
  }

  /** The frames a fork takes: root, tables, a copy of every mapped page, and a node for every region. */
  ghost function Cost(mem: Mem, parent: nat, vmas: seq<Vma>): nat {
    var pages := Mapped(mem, parent, vmas);
    1 + |Spots(0, Devices(DEVICES) + pages)| + |pages| + |vmas|
  }

  /** When fork succeeds. */
  ghost predicate CanFork(mem: Mem, pm: Pmm, parent: nat, vmas: seq<Vma>) {
    Tidy(mem, parent, vmas, |vmas|, 0) && Cost(mem, parent, vmas) <= pm.free
  }

  /** The frames taken so far: root, tables, copies, and nodes. */
  ghost predicate Account(pm: Pmm, child: nat, mem': Mem, pm': Pmm, g': Space, copies: map<Vpn, Copy>, nodes: nat) {
    && HasExactly(mem', g', child, Devices(DEVICES) + copies.Keys)
    && pm'.free + 1 + |Spots(child, Devices(DEVICES) + copies.Keys)| + |copies| + nodes == pm.free
  }

  lemma VisitMapped(mem: Mem, parent: nat, vmas: seq<Vma>, m: nat, q: nat, v: Vpn)
    requires Visit(mem, parent, vmas, m, q, v)
    ensures v in Mapped(mem, parent, vmas)
  {
    hide Pte, VpnOf;
    assert q < vmas[m].end;
  }

  lemma MappedCopies(mem: Mem, parent: nat, vmas: seq<Vma>, n: nat, k: nat, copies: map<Vpn, Copy>)
    requires Covers(mem, parent, vmas, n, k, copies)
    ensures copies.Keys <= Mapped(mem, parent, vmas)
  {
    hide Pte, VpnOf, Mapped;
    forall v | v in copies
      ensures v in Mapped(mem, parent, vmas)
    {
      var m: nat, q: nat :| m < |vmas| && Before(m, q, n, k) && PageIn(vmas[m], q, v);
      VisitMapped(mem, parent, vmas, m, q, v);
    }
  }

  lemma AllMapped(mem: Mem, parent: nat, vmas: seq<Vma>, copies: map<Vpn, Copy>)
    requires Covers(mem, parent, vmas, |vmas|, 0, copies)
    ensures copies.Keys == Mapped(mem, parent, vmas)
  {
    MappedCopies(mem, parent, vmas, |vmas|, 0, copies);
    hide Pte, VpnOf, PteFlags;
    forall v | v in Mapped(mem, parent, vmas)
      ensures v in copies
    {
      var m: nat, q: nat :| m < |vmas| && q < vmas[m].end && Visit(mem, parent, vmas, m, q, v);
      assert Before(m, q, |vmas|, 0);
    }
  }

  lemma TidyNext(mem: Mem, parent: nat, vmas: seq<Vma>, n: nat, k: nat, copies: map<Vpn, Copy>)
    requires Tidy(mem, parent, vmas, n, k) && Covers(mem, parent, vmas, n, k, copies)
    requires n < |vmas| && vmas[n].start + k * PAGE < vmas[n].end
    requires var v := VpnOf(vmas[n].start + k * PAGE);
             Pte(mem, parent, v) == 0 || (vmas[n].start % PAGE == 0 && v !in copies && v !in Devices(DEVICES))
    ensures Tidy(mem, parent, vmas, n, k + 1)
  {
    hide Pte, VpnOf, PteFlags, Devices;
    forall m: nat, q: nat | Before(m, q, n, k + 1)
      ensures Before(m, q, n, k) || (m == n && q == k)
    {
    }
    forall m: nat, q: nat, v | Visit(mem, parent, vmas, m, q, v) && Before(m, q, n, k)
      ensures v in copies
    {
    }
  }

  lemma TidyRegion(mem: Mem, parent: nat, vmas: seq<Vma>, n: nat, k: nat)
    requires Tidy(mem, parent, vmas, n, k) && n < |vmas| && vmas[n].start < vmas[n].end <= vmas[n].start + k * PAGE
    ensures Tidy(mem, parent, vmas, n + 1, 0)
  {
    hide Pte, VpnOf, Devices;
    forall m: nat, q: nat, v | Visit(mem, parent, vmas, m, q, v) && Before(m, q, n + 1, 0)
      ensures Before(m, q, n, k)
    {
    }
  }

  /** A page that cannot be copied because of where it is. */
  lemma Untidy(mem: Mem, pm: Pmm, parent: nat, vmas: seq<Vma>, n: nat, k: nat, copies: map<Vpn, Copy>, v: Vpn)
    requires Covers(mem, parent, vmas, n, k, copies) && Visit(mem, parent, vmas, n, k, v)
    requires vmas[n].start % PAGE != 0 || v in copies || v in Devices(DEVICES)
    ensures !CanFork(mem, pm, parent, vmas)
  {
    hide Pte, VpnOf, PteFlags, Devices, Cost;
    assert Before(n, k, |vmas|, 0);
    if v in copies {
      var m: nat, q: nat :| m < |vmas| && Before(m, q, n, k) && PageIn(vmas[m], q, v);
      assert Visit(mem, parent, vmas, m, q, v) && Before(m, q, |vmas|, 0);
    }
  }

  /** The cost is at least that of some of the pages and regions. */
  lemma CostAtLeast(mem: Mem, parent: nat, vmas: seq<Vma>, child: nat, pages: set<Vpn>, nodes: nat)
    requires pages <= Mapped(mem, parent, vmas) && nodes <= |vmas|
    ensures Cost(mem, parent, vmas) >= 1 + |Spots(child, Devices(DEVICES) + pages)| + |pages| + nodes
  {
    hide Mapped, Spots, Devices;
    var all, some := Devices(DEVICES) + Mapped(mem, parent, vmas), Devices(DEVICES) + pages;
    SpotsLess(child, some, all);
    SpotsSize(child, 0, all);
    SubsetSize(Spots(child, some), Spots(child, all));
    SubsetSize(pages, Mapped(mem, parent, vmas));
  }

  /** A page for which the frames do not suffice. */
  lemma TooFew(mem: Mem, pm: Pmm, parent: nat, vmas: seq<Vma>, n: nat, k: nat, child: nat,
               mem1: Mem, pm1: Pmm, g1: Space, copies: map<Vpn, Copy>, nodes: nat, v: Vpn)
    requires Covers(mem, parent, vmas, n, k, copies) && Visit(mem, parent, vmas, n, k, v) && v !in copies
    requires Account(pm, child, mem1, pm1, g1, copies, nodes) && Home(g1, child, v) && nodes <= |vmas|
    requires 1 + |Gaps(mem1, child, v)| > pm1.free
    ensures !CanFork(mem, pm, parent, vmas)
  {
    hide Covers, Visit, HasExactly, Spots, Gaps, Mapped, Tidy, Cost, Devices;
    MappedCopies(mem, parent, vmas, n, k, copies);
    VisitMapped(mem, parent, vmas, n, k, v);
    GapsLeft(mem1, g1, child, Devices(DEVICES) + copies.Keys, v);
    assert Devices(DEVICES) + copies.Keys + {v} == Devices(DEVICES) + (copies.Keys + {v});
    CostAtLeast(mem, parent, vmas, child, copies.Keys + {v}, nodes);
    assert |copies.Keys + {v}| == |copies| + 1;
  }

  /** A region for whose node there is no frame. */
  lemma NoNode(mem: Mem, pm: Pmm, parent: nat, vmas: seq<Vma>, n: nat, child: nat,
               mem1: Mem, pm1: Pmm, g1: Space, copies: map<Vpn, Copy>)
    requires Covers(mem, parent, vmas, n, 0, copies) && n < |vmas|
    requires Account(pm, child, mem1, pm1, g1, copies, n) && pm1.free == 0
    ensures !CanFork(mem, pm, parent, vmas)
  {
    hide Covers, HasExactly, Spots, Mapped, Tidy, Cost, Devices;
    MappedCopies(mem, parent, vmas, n, 0, copies);
    CostAtLeast(mem, parent, vmas, child, copies.Keys, n + 1);
  }

  lemma NoRoot(mem: Mem, pm: Pmm, parent: nat, vmas: seq<Vma>)
    requires pm.free < 4
    ensures !CanFork(mem, pm, parent, vmas)
  {
    hide Mapped, Tidy, Spots, Devices;
    CostAtLeast(mem, parent, vmas, 0, {}, 0);
    assert Devices(DEVICES) + {} == Devices(DEVICES);
    DeviceSpots(0);
  }

  lemma EmptyRegion(mem: Mem, pm: Pmm, parent: nat, vmas: seq<Vma>, n: nat)
    requires n < |vmas| && vmas[n].start >= vmas[n].end
    ensures !CanFork(mem, pm, parent, vmas)
  {
  }

  lemma Enough(mem: Mem, pm: Pmm, parent: nat, vmas: seq<Vma>, child: nat, mem1: Mem, pm1: Pmm, g1: Space,
               copies: map<Vpn, Copy>)
    requires Covers(mem, parent, vmas, |vmas|, 0, copies) && Tidy(mem, parent, vmas, |vmas|, 0)
    requires Account(pm, child, mem1, pm1, g1, copies, |vmas|)
    ensures CanFork(mem, pm, parent, vmas)
  {
    hide Covers, HasExactly, Spots, Mapped, Tidy, Devices;
    AllMapped(mem, parent, vmas, copies);
    SpotsSize(child, 0, Devices(DEVICES) + copies.Keys);
  }

  /** The child maps v exactly when it has a copy or a device there. */
  lemma ChildMaps(mem1: Mem, g1: Space, child: nat, copies: map<Vpn, Copy>, v: Vpn)
    requires ChildView(mem1, g1, child, copies) && Home(g1, child, v)
    ensures Pte(mem1, child, v) == 0 <==> v !in copies && v !in Devices(DEVICES)
  {
    hide Pte, VpnOf;
    DeviceMaps(v);
    if v in copies {
      MadeValid(copies[v].frame * PAGE, copies[v].flags);
    }
  }

  lemma MadeValid(pa: nat, flags: nat)
    ensures MakePte(pa, flags) != 0
  {
  }

  lemma DeviceMaps(v: Vpn)
    ensures DevicePte(DEVICES, v) == 0 <==> v !in Devices(DEVICES)
  {
    MadeValid(Device(v.k), KERNEL_DATA);
    MadeValid(Device(9), KERNEL_DATA);
    hide MakePte, Device;
    if v.i == 0 && v.j == 128 && v.k <= 8 {
      assert DeviceVpn(v.k) == v;
    }
    assert DeviceVpn(9) == Vpn(0, 16, 0);
  }

  /** One page: nothing if the parent has none there, else a fresh frame with the same words. */
  method CopyPage(mem1: Mem, pm1: Pmm, parent: nat, child: nat, a: nat, flags: set<nat>,
                  ghost mem: Mem, ghost pm: Pmm, ghost g: Space, ghost g1: Space, ghost copies: map<Vpn, Copy>,
                  ghost vmas: seq<Vma>, ghost w: Vma, ghost k: nat)
    returns (mem': Mem, pm': Pmm, ok: bool, ghost g': Space, ghost copies': map<Vpn, Copy>)
    requires Forking(mem, pm, g, parent, child, mem1, pm1, g1, copies) && ParentOk(mem, pm, g, parent, vmas)
    requires w in vmas && a == w.start + k * PAGE && a < w.end
    requires HasExactly(mem1, g1, child, Devices(DEVICES) + copies.Keys)
    ensures Pte(mem, parent, VpnOf(a)) == 0 ==> ok && mem' == mem1 && pm' == pm1 && g' == g1
    ensures Pte(mem, parent, VpnOf(a)) != 0 ==>
              (ok <==> && w.start % PAGE == 0 && VpnOf(a) !in copies && VpnOf(a) !in Devices(DEVICES)
                       && 1 + |Gaps(mem1, child, VpnOf(a))| <= pm1.free)
    ensures ok && Pte(mem, parent, VpnOf(a)) != 0 ==>
              && pm'.free == pm1.free - 1 - |Gaps(mem1, child, VpnOf(a))|
              && HasExactly(mem', g', child, Devices(DEVICES) + copies'.Keys)
    ensures Unnoticed(mem, pm, g, mem', pm', g')
    ensures ok ==> Forking(mem, pm, g, parent, child, mem', pm', g', copies')
    ensures ok && Pte(mem, parent, VpnOf(a)) == 0 ==> copies' == copies
    ensures ok && Pte(mem, parent, VpnOf(a)) != 0 ==> && a % PAGE == 0 && copies'.Keys == copies.Keys + {VpnOf(a)}
                                                      && (forall v :: v in copies && v != VpnOf(a) ==>
                                                            copies'[v] == copies[v])
                                                      && copies'[VpnOf(a)].flags == PteFlags(flags)
                                                      && VpnOf(a) !in copies
  {
    hide Pte, Entry, Machine, Extends, AllCopied, ChildView, FrameTaken, SameView, Consistent, Grew, VpnOf, PteFlags,
         MakePte, HasExactly, Gaps, Adds, Blocked, Missing, Devices, Spots;
    mem', pm', g', copies', ok := mem1, pm1, g1, copies, true;
    ParentPage(mem, pm, g, parent, child, mem1, pm1, g1, copies, vmas, w, k);
    var v := VpnOf(a);
    var pa, status := VirtToPhys(mem1, parent, a);
    if status != Done {
      return;
    }
    assert pa / PAGE == Ppn(Pte(mem, parent, v));
    MachinePmm(mem1, pm1, g1);
    var f;
    pm', f := AllocFrame(pm1);
    if f == NONE {
      ok := false;
      return;
    }
    var words := mem1[pa / PAGE];
    mem' := mem1[f := words];
    CopyOnly(mem1, pm1, g1, f, words);
    TakeFrame(mem, pm, g, parent, child, mem1, pm1, g1, copies, mem', pm', f);
    ghost var mem2, pm2 := mem', pm';
    ghost var c := Copy(f, PteFlags(flags));
    ghost var had := Devices(DEVICES) + copies.Keys;
    StillHas(mem1, pm1, g1, mem', f, child, had, v);
    ChildMaps(mem', g1, child, copies, v);
    WholePages(w.start, k, f);
    assert Copied(mem, pm, parent, mem2, pm2, g1, v, c);
    mem', pm', status, g' := MapPage(mem', pm', child, a, f * PAGE, PteFlags(flags), g1);
    if status != Done {
      MachinePmm(mem', pm', g');
      ghost var pm3 := pm';
      pm' := FreeFrame(pm', f);
      StuckUnnoticed(mem, pm, g, parent, child, mem2, pm2, g1, copies, mem', pm3, g', pm', f);
      ok := false;
      return;
    }
    MapFrame(mem, pm, g, parent, child, mem2, pm2, g1, copies, mem', pm', g', v, c);
    copies' := copies[v := c];
    HasMore(mem2, mem', g1, g', child, had, v);
    assert Devices(DEVICES) + copies'.Keys == had + {v};
    NotTwice(mem, pm, g, parent, child, mem2, pm2, g1, copies, v);
  }

  /** A page's words in a fresh frame change no table. */
  lemma StillHas(mem1: Mem, pm1: Pmm, g1: Space, mem2: Mem, f: nat, child: nat, had: set<Vpn>, v: Vpn)
    requires Machine(mem1, pm1, g1) && f !in g1.owner && OnlyFrame(mem1, mem2, f) &&
               HasExactly(mem1, g1, child, had) && Home(g1, child, v)
    ensures HasExactly(mem2, g1, child, had) && Gaps(mem2, child, v) == Gaps(mem1, child, v)
    ensures !Blocked(mem2, child, v) && |Gaps(mem2, child, v)| == Missing(mem2, child, v)
  {
    assert Owned(mem1, g1) && SameTables(mem1, mem2, g1);
    hide Machine, Owned, SameTables, OnlyFrame, HasExactly, Blocked, Missing;
    SameAdds(mem1, mem2, g1);
    HasSame(mem1, mem2, g1, child, had);
    GapsLeft(mem2, g1, child, had, v);
    BlockedStuck(mem2, child, v);
    GapsMissing(mem2, child, v);
    assert Live(g1, Mid(child, v.i)) && Live(g1, Low(child, v.i, v.j));
    hide Tbl;
    assert forall key :: key in Gaps(mem2, child, v) <==> key in Gaps(mem1, child, v);
  }

  lemma WholePages(start: nat, k: nat, f: nat)
    ensures (start + k * PAGE) % PAGE == start % PAGE && f * PAGE % PAGE == 0
  {
  }

  lemma MachinePmm(mem: Mem, pm: Pmm, g: Space)
    requires Machine(mem, pm, g)
    ensures Consistent(pm)
  {
  }

  lemma CopyOnly(mem: Mem, pm: Pmm, g: Space, f: nat, words: Frame)
    requires Machine(mem, pm, g) && Managed(pm, f) && |words| == ENTRIES
    ensures OnlyFrame(mem, mem[f := words], f)
  {
  }

  /** A page the child already has a copy of is mapped, so it cannot have been mapped again. */
  lemma NotTwice(mem: Mem, pm: Pmm, g: Space, parent: nat, child: nat, mem1: Mem, pm1: Pmm, g1: Space,
                 copies: map<Vpn, Copy>, v: Vpn)
    requires Forking(mem, pm, g, parent, child, mem1, pm1, g1, copies) && Home(g1, child, v) && Pte(mem1, child, v) == 0
    ensures v !in copies
  {
    hide Pte, Machine, SameView, Extends, AllCopied, DevicePte;
  }

  // ----- copying

  /** The pages of one region. */
  method CopyRegion(mem1: Mem, pm1: Pmm, parent: nat, child: nat, w: Vma,
                    ghost mem: Mem, ghost pm: Pmm, ghost g: Space, ghost g1: Space, ghost copies: map<Vpn, Copy>,
                    ghost vmas: seq<Vma>, ghost n: nat)
    returns (mem': Mem, pm': Pmm, ok: bool, ghost g': Space, ghost copies': map<Vpn, Copy>)
    requires Forking(mem, pm, g, parent, child, mem1, pm1, g1, copies) && ParentOk(mem, pm, g, parent, vmas)
    requires n < |vmas| && w == vmas[n] && Covers(mem, parent, vmas, n, 0, copies) && w.start < w.end
    requires Tidy(mem, parent, vmas, n, 0) && Account(pm, child, mem1, pm1, g1, copies, n + 1)
    ensures ok ==> Tidy(mem, parent, vmas, n + 1, 0) && Account(pm, child, mem', pm', g', copies', n + 1)
    ensures !ok ==> !CanFork(mem, pm, parent, vmas)
    ensures Unnoticed(mem, pm, g, mem', pm', g')
    ensures ok ==> Forking(mem, pm, g, parent, child, mem', pm', g', copies')
    ensures ok ==> Covers(mem, parent, vmas, n + 1, 0, copies')
  {
    hide Pte, Machine, Extends, AllCopied, ChildView, SameView, VpnOf, PteFlags, Covers, ParentOk, Tidy, CanFork,
         HasExactly, Gaps, Spots, Devices, Account, Forking, Extends;
    mem', pm', g', copies', ok := mem1, pm1, g1, copies, true;
    var a := w.start;
    ghost var k: nat := 0;
    while a < w.end
      invariant a == w.start + k * PAGE
      invariant Forking(mem, pm, g, parent, child, mem', pm', g', copies') && Covers(mem, parent, vmas, n, k, copies')
      invariant Tidy(mem, parent, vmas, n, k) && Account(pm, child, mem', pm', g', copies', n + 1)
    {
      ghost var before := copies';
      ghost var v := VpnOf(a);
      ghost var mem2, pm2, g2 := mem', pm', g';
      ParentPage(mem, pm, g, parent, child, mem2, pm2, g2, before, vmas, w, k);
      AccountHas(pm, child, mem2, pm2, g2, before, n + 1);
      mem', pm', ok, g', copies' := CopyPage(mem', pm', parent, child, a, w.flags, mem, pm, g, g', copies', vmas, w, k);
      if !ok {
        StuckAt(mem, pm, parent, vmas, n, k, child, mem2, pm2, g2, before, v);
        return;
      }
      CoversNext(mem, parent, vmas, n, k, before, copies');
      TidyNext(mem, parent, vmas, n, k, before);
      if Pte(mem, parent, v) != 0 {
        AccountNext(pm, child, mem2, pm2, g2, before, mem', pm', g', copies', n + 1, v);
      }
      a := a + PAGE;
      k := k + 1;
    }
    CoversRegion(mem, parent, vmas, n, k, copies');
    TidyRegion(mem, parent, vmas, n, k);
    ForkingUnnoticed(mem, pm, g, parent, child, mem', pm', g', copies');
  }

  lemma ForkingUnnoticed(mem: Mem, pm: Pmm, g: Space, parent: nat, child: nat, mem': Mem, pm': Pmm, g': Space,
                         copies: map<Vpn, Copy>)
    requires Forking(mem, pm, g, parent, child, mem', pm', g', copies)
    ensures Unnoticed(mem, pm, g, mem', pm', g')
  {
  }

  lemma AccountHas(pm: Pmm, child: nat, mem1: Mem, pm1: Pmm, g1: Space, copies: map<Vpn, Copy>, nodes: nat)
    requires Account(pm, child, mem1, pm1, g1, copies, nodes)
    ensures HasExactly(mem1, g1, child, Devices(DEVICES) + copies.Keys)
  {
  }

  lemma AccountNext(pm: Pmm, child: nat, mem1: Mem, pm1: Pmm, g1: Space, copies: map<Vpn, Copy>,
                    mem2: Mem, pm2: Pmm, g2: Space, copies': map<Vpn, Copy>, nodes: nat, v: Vpn)
    requires Account(pm, child, mem1, pm1, g1, copies, nodes) && Home(g1, child, v)
    requires v !in copies && copies'.Keys == copies.Keys + {v}
    requires pm2.free == pm1.free - 1 - |Gaps(mem1, child, v)| &&
               HasExactly(mem2, g2, child, Devices(DEVICES) + copies'.Keys)
    ensures Account(pm, child, mem2, pm2, g2, copies', nodes)
  {
    hide HasExactly, Spots, Gaps, Devices;
    GapsLeft(mem1, g1, child, Devices(DEVICES) + copies.Keys, v);
    assert Devices(DEVICES) + copies.Keys + {v} == Devices(DEVICES) + copies'.Keys;
    assert |copies'| == |copies'.Keys| == |copies.Keys| + 1;
  }

  lemma StuckAt(mem: Mem, pm: Pmm, parent: nat, vmas: seq<Vma>, n: nat, k: nat, child: nat,
                mem1: Mem, pm1: Pmm, g1: Space, copies: map<Vpn, Copy>, v: Vpn)
    requires Covers(mem, parent, vmas, n, k, copies) && n < |vmas| && PageIn(vmas[n], k, v) && Pte(mem, parent, v) != 0
    requires Account(pm, child, mem1, pm1, g1, copies, n + 1) && Home(g1, child, v)
    requires vmas[n].start % PAGE != 0 || v in copies || v in Devices(DEVICES) || 1 + |Gaps(mem1, child, v)| > pm1.free
    ensures !CanFork(mem, pm, parent, vmas)
  {
    hide Pte, VpnOf, Covers, Account, CanFork, Gaps, Devices;
    assert Visit(mem, parent, vmas, n, k, v);
    if vmas[n].start % PAGE != 0 || v in copies || v in Devices(DEVICES) {
      Untidy(mem, pm, parent, vmas, n, k, copies, v);
    } else {
      TooFew(mem, pm, parent, vmas, n, k, child, mem1, pm1, g1, copies, n + 1, v);
    }
  }

  lemma ExtendsSame(mem: Mem, pm: Pmm, g: Space)
    ensures Extends(mem, pm, g, mem, pm, g)
  {
  }

  lemma ForkStart(mem: Mem, pm: Pmm, g: Space, parent: nat, child: nat, mem': Mem, pm': Pmm, g': Space)
    requires Machine(mem, pm, g) && Machine(mem', pm', g') && SameView(mem, mem', g) && Grew(mem, pm, g, mem', pm', g')
    requires g'.kernel == g.kernel
    ensures Unnoticed(mem, pm, g, mem', pm', g')
    ensures g'.users == g.users + {child} && child !in g.users && child != g.kernel
            && (forall v :: InRange(v) && v.i < FIRST_SHARED ==> Pte(mem', child, v) == DevicePte(DEVICES, v)) ==>
              Forking(mem, pm, g, parent, child, mem', pm', g', map[])
  {
    ExtendsSame(mem, pm, g);
    assert g.kernel in g.owner by { KernelRoot(mem, g); }
    assert Held(pm', g');
    hide Machine, SameView, Grew, Extends, Held, Pte, DevicePte;
    ExtendsGrew(mem, pm, g, mem, pm, g, mem', pm', g');
  }

  lemma ReversedNext(vmas: seq<Vma>, n: nat)
    requires n < |vmas|
    ensures Reversed(vmas[..n + 1]) == [vmas[n]] + Reversed(vmas[..n])
  {
  }

  /** The memory half of process_fork: page table, regions, pages. */
  method ForkMemory(mem: Mem, pm: Pmm, kernel: nat, parent: nat, vmas: seq<Vma>, ghost g: Space)
    returns (mem': Mem, pm': Pmm, child: int, childVmas: seq<Vma>, ghost g': Space, ghost copies: map<Vpn, Copy>)
    requires Machine(mem, pm, g) && kernel == g.kernel && ParentOk(mem, pm, g, parent, vmas)
    ensures Unnoticed(mem, pm, g, mem', pm', g')
    ensures child != NONE <==> CanFork(mem, pm, parent, vmas)
    ensures child != NONE ==> pm'.free == pm.free - Cost(mem, parent, vmas)
    ensures child != NONE ==> && child >= 0 && Forking(mem, pm, g, parent, child, mem', pm', g', copies)
                              && Covers(mem, parent, vmas, |vmas|, 0, copies) && childVmas == Reversed(vmas)
  {
    hide Pte, Machine, Extends, Grew, AllCopied, ChildView, SameView, VpnOf, PteFlags, ParentOk, FrameTaken, Consistent,
         Reversed, Forking, DevicePte, Tidy, CanFork, HasExactly, Spots, Devices, Cost;
    childVmas, copies := [], map[];
    mem', pm', child, g' := CreateUser(mem, pm, kernel, g);
    ForkStart(mem, pm, g, parent, if child == NONE then 0 else child, mem', pm', g');
    if child == NONE {
      NoRoot(mem, pm, parent, vmas);
      return;
    }
    assert Covers(mem, parent, vmas, 0, 0, copies);
    hide Covers;
    TidyStart(mem, parent, vmas);
    DeviceSpots(child);
    assert Devices(DEVICES) + copies.Keys == Devices(DEVICES);
    var n := 0;
    assert childVmas == Reversed(vmas[..n]) by { ReversedNone(vmas); }
    while n < |vmas|
      invariant n <= |vmas| && childVmas == Reversed(vmas[..n]) && Unnoticed(mem, pm, g, mem', pm', g')
      invariant Forking(mem, pm, g, parent, child, mem', pm', g', copies) && Covers(mem, parent, vmas, n, 0, copies)
      invariant Tidy(mem, parent, vmas, n, 0) && Account(pm, child, mem', pm', g', copies, n)
    {
      if vmas[n].start >= vmas[n].end {
        EmptyRegion(mem, pm, parent, vmas, n);
        return mem', pm', NONE, childVmas, g', copies;
      }
      ForkingMachine(mem, pm, g, parent, child, mem', pm', g', copies);
      var node;
      ghost var pm1 := pm';
      pm', node := AllocFrame(pm');
      if node == NONE {
        NoNode(mem, pm, parent, vmas, n, child, mem', pm', g', copies);
        return mem', pm', NONE, childVmas, g', copies;
      }
      TakeFrame(mem, pm, g, parent, child, mem', pm1, g', copies, mem', pm', node);
      childVmas := [vmas[n]] + childVmas;
      ReversedNext(vmas, n);
      var ok;
      mem', pm', ok, g', copies := CopyRegion(mem', pm', parent, child, vmas[n], mem, pm, g, g', copies, vmas, n);
      if !ok {
        return mem', pm', NONE, childVmas, g', copies;
      }
      n := n + 1;
    }
    assert vmas[..n] == vmas;
    Enough(mem, pm, parent, vmas, child, mem', pm', g', copies);
    Spent(mem, pm, parent, vmas, child, mem', pm', g', copies);
  }

  lemma TidyStart(mem: Mem, parent: nat, vmas: seq<Vma>)
    ensures Tidy(mem, parent, vmas, 0, 0)
  {
  }

  lemma Spent(mem: Mem, pm: Pmm, parent: nat, vmas: seq<Vma>, child: nat, mem1: Mem, pm1: Pmm, g1: Space,
              copies: map<Vpn, Copy>)
    requires Covers(mem, parent, vmas, |vmas|, 0, copies) && Account(pm, child, mem1, pm1, g1, copies, |vmas|)
    ensures pm1.free == pm.free - Cost(mem, parent, vmas)
  {
    hide Covers, HasExactly, Spots, Mapped, Devices;
    AllMapped(mem, parent, vmas, copies);
    SpotsSize(child, 0, Devices(DEVICES) + copies.Keys);
  }

  lemma ReversedNone(vmas: seq<Vma>)
    ensures Reversed(vmas[..0]) == []
  {
  }

  lemma ForkingMachine(mem: Mem, pm: Pmm, g: Space, parent: nat, child: nat, mem': Mem, pm': Pmm, g': Space,
                       copies: map<Vpn, Copy>)
    requires Forking(mem, pm, g, parent, child, mem', pm', g', copies)
    ensures Consistent(pm')
  {
  }

  // ----- what fork has done

  /** A mapped page of a region of the parent: same words, its own frame, the region's permissions. */
  lemma ForkedPage(mem: Mem, pm: Pmm, g: Space, parent: nat, child: nat, mem': Mem, pm': Pmm, g': Space,
                   copies: map<Vpn, Copy>, vmas: seq<Vma>, m: nat, q: nat, v: Vpn)
    requires Machine(mem, pm, g) && ParentOk(mem, pm, g, parent, vmas)
    requires Forking(mem, pm, g, parent, child, mem', pm', g', copies) && Covers(mem, parent, vmas, |vmas|, 0, copies)
    requires m < |vmas| && PageIn(vmas[m], q, v) && Pte(mem, parent, v) != 0
    ensures Pte(mem', parent, v) == Pte(mem, parent, v)
    ensures var p, f := Ppn(Pte(mem, parent, v)), Ppn(Pte(mem', child, v));
            && Pte(mem', child, v) == MakePte(f * PAGE, PteFlags(vmas[m].flags))
            && p in mem && p in mem' && f in mem' && mem'[f] == mem[p] == mem'[p]
            && !FrameTaken(pm, f) && FrameTaken(pm', f) && Managed(pm, f)
  {
    hide Machine, Extends, SameView, FrameTaken, Pte, MakePte, Ppn, DevicePte, Managed, ParentOk, VpnOf, PteFlags;
    assert Before(m, q, |vmas|, 0);
    ParentPage(mem, pm, g, parent, child, mem', pm', g', copies, vmas, vmas[m], q);
    var c := copies[v];
    assert Copied(mem, pm, parent, mem', pm', g', v, c);
    FrameBack(mem, pm, g, c.frame, c.flags);
  }

  lemma FrameBack(mem: Mem, pm: Pmm, g: Space, f: nat, flags: nat)
    requires Machine(mem, pm, g) && Managed(pm, f) && flags < 1024
    ensures Ppn(MakePte(f * PAGE, flags)) == f
  {
    hide Consistent, Tables, Held;
    PteRoundTrip(f * PAGE, flags);
  }

  /** No page the child got is a page of the parent, and no two are the same. */
  lemma ForkedApart(mem: Mem, pm: Pmm, g: Space, parent: nat, child: nat, mem': Mem, pm': Pmm, g': Space,
                    copies: map<Vpn, Copy>, vmas: seq<Vma>, v: Vpn, m: nat, q: nat, u: Vpn)
    requires ParentOk(mem, pm, g, parent, vmas)
    requires Forking(mem, pm, g, parent, child, mem', pm', g', copies) && v in copies
    ensures m < |vmas| && PageIn(vmas[m], q, u) && Pte(mem, parent, u) != 0 ==>
              Ppn(Pte(mem, parent, u)) != copies[v].frame
    ensures u in copies && u != v ==> copies[u].frame != copies[v].frame
  {
    hide Pte, Machine, Extends, SameView, ChildView, FrameTaken;
    assert Copied(mem, pm, parent, mem', pm', g', v, copies[v]);
    if m < |vmas| && PageIn(vmas[m], q, u) && Pte(mem, parent, u) != 0 {
      assert vmas[m] in vmas;
      assert FrameOk(mem, pm, g, Ppn(Pte(mem, parent, u)));
    }
  }
}
