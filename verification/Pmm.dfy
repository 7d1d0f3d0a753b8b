/**
 The physical page allocator (kernel/mm/pmm.c) and kmalloc on top of it
 (kernel/mm/kmalloc.c).

 One bit per 4 KiB page and a count of free pages.  `Pmm` is the value of the
 allocator's variables; the operations take it and return its next value.
 */
module Pmm {
  import opened Bytes

  const PAGE: nat := 4096

  /** memory_start, total_pages, page_bitmap, free_pages */
  datatype Pmm = Pmm(start: nat, total: nat, bitmap: seq<byte>, free: nat)

  ghost predicate Consistent(pm: Pmm) {
    && pm.start > 0 && pm.start % PAGE == 0
    && pm.total <= 8 * |pm.bitmap|
    && pm.free == ClearBits(pm.bitmap, pm.total)
  }

  /** Page number p is handed out. */
  predicate Taken(pm: Pmm, p: nat) {
    p < pm.total && Bit(pm.bitmap, p)
  }

  function Addr(pm: Pmm, p: nat): nat { pm.start + p * PAGE }

  /** pm' is pm with exactly the pages from p to p + n set to v, and the count moved with them. */
  ghost predicate Ran(pm: Pmm, pm': Pmm, p: nat, n: nat, v: bool) {
    && pm'.start == pm.start && pm'.total == pm.total && |pm'.bitmap| == |pm.bitmap|
    && (forall x: nat :: Bit(pm'.bitmap, x) == if p <= x < p + n then v else Bit(pm.bitmap, x))
    && pm'.free == if v then pm.free - n else pm.free + n
  }

  /** n clear pages from p on. */
  ghost predicate FreeRun(pm: Pmm, p: nat, n: nat) {
    p + n <= pm.total && forall x :: p <= x < p + n ==> !Bit(pm.bitmap, x)
  }

  lemma FlipValid(pm: Pmm, p: nat, v: bool)
    requires Consistent(pm) && p < pm.total && Bit(pm.bitmap, p) != v
    ensures v ==> pm.free > 0
    ensures var pm' := pm.(bitmap := SetBit(pm.bitmap, p, v), free := if v then pm.free - 1 else pm.free + 1);
            Consistent(pm') && Ran(pm, pm', p, 1, v)
  {
    ClearBitsFlip(pm.bitmap, p, v, pm.total);
    if v {
      NoClearBits(pm.bitmap, pm.total);
    }
  }

  lemma RanTwice(pm: Pmm, pm1: Pmm, pm2: Pmm, p: nat, n: nat, v: bool)
    requires Ran(pm, pm1, p, n, v) && Ran(pm1, pm2, p + n, 1, v)
    ensures Ran(pm, pm2, p, n + 1, v)
  {
  }

  /** pmm_alloc_page: the lowest free page, or 0 exactly when there is none. */
  method AllocPage(pm: Pmm) returns (pm': Pmm, addr: nat)
    requires Consistent(pm)
    ensures Consistent(pm')
    ensures addr == 0 <==> forall x: nat :: x < pm.total ==> Bit(pm.bitmap, x)
    ensures addr == 0 ==> pm' == pm
    ensures addr != 0 ==> exists p: nat :: && addr == Addr(pm, p) && FreeRun(pm, p, 1) && Ran(pm, pm', p, 1, true)
                                           && forall q: nat :: q < p ==> !FreeRun(pm, q, 1)
  {
    var p := FindClear(pm.bitmap, pm.total);
    SinglePage(pm);
    if p == pm.total {
      return pm, 0;
    }
    FlipValid(pm, p, true);
    pm' := pm.(bitmap := SetBit(pm.bitmap, p, true), free := pm.free - 1);
    addr := Addr(pm, p);
  }

  /** The inner scan: whether n pages from p on are free. */
  method AllFree(pm: Pmm, p: nat, n: nat) returns (found: bool)
    requires p + n <= pm.total <= 8 * |pm.bitmap|
    ensures found <==> FreeRun(pm, p, n)
  {
    var i := 0;
    while i < n
      invariant i <= n && forall x :: p <= x < p + i ==> !Bit(pm.bitmap, x)
    {
      if TestBit(pm.bitmap[(p + i) / 8], (p + i) % 8) {
        assert Bit(pm.bitmap, p + i);
        return false;
      }
      i := i + 1;
    }
    return true;
  }

  /** Mark a free run. */
  method TakeRun(pm: Pmm, p: nat, n: nat) returns (pm': Pmm)
    requires Consistent(pm) && FreeRun(pm, p, n)
    ensures Consistent(pm') && Ran(pm, pm', p, n, true)
  {
    pm' := pm;
    var i := 0;
    while i < n
      invariant i <= n && Consistent(pm') && Ran(pm, pm', p, i, true)
    {
      ghost var pm1 := pm';
      FlipValid(pm', p + i, true);
      pm' := pm'.(bitmap := SetBit(pm'.bitmap, p + i, true), free := pm'.free - 1);
      RanTwice(pm, pm1, pm', p, i, true);
      i := i + 1;
    }
  }

  /** pmm_alloc_pages: the lowest run of n free pages, or 0 exactly when none exists. */
  method AllocPages(pm: Pmm, n: nat) returns (pm': Pmm, addr: nat)
    requires Consistent(pm)
    ensures Consistent(pm')
    ensures addr == 0 <==> n == 0 || forall p: nat :: !FreeRun(pm, p, n)
    ensures addr == 0 ==> pm' == pm
    ensures addr != 0 ==> exists p: nat :: && addr == Addr(pm, p) && FreeRun(pm, p, n) && Ran(pm, pm', p, n, true)
                                           && forall q: nat :: q < p ==> !FreeRun(pm, q, n)
  {
    if n == 0 {
      return pm, 0;
    }
    if n == 1 {
      pm', addr := AllocPage(pm);
      SinglePage(pm);
      return;
    }
    if n > pm.total {
      return pm, 0;
    }
    var p := 0;
    while p <= pm.total - n
      invariant p <= pm.total - n + 1
      invariant forall q: nat :: q < p ==> !FreeRun(pm, q, n)
    {
      var found := AllFree(pm, p, n);
      if found {
        pm' := TakeRun(pm, p, n);
        return pm', Addr(pm, p);
      }
      p := p + 1;
    }
    return pm, 0;
  }

  lemma SinglePage(pm: Pmm)
    ensures forall p: nat :: FreeRun(pm, p, 1) <==> p < pm.total && !Bit(pm.bitmap, p)
  {
  }

  /** Page number of an address the allocator manages; total when it does not. */
  function PageOf(pm: Pmm, addr: nat): (p: nat) {
    if addr % PAGE != 0 || addr < pm.start then pm.total
    else var p := (addr - pm.start) / PAGE; if p < pm.total then p else pm.total
  }

  lemma PageOfAddr(pm: Pmm, p: nat)
    requires pm.start % PAGE == 0 && p < pm.total
    ensures PageOf(pm, Addr(pm, p)) == p
  {
  }

  /** pmm_free_page: clears the bit of a page that is handed out; every other call changes nothing. */
  method FreePage(pm: Pmm, addr: nat) returns (pm': Pmm)
    requires Consistent(pm)
    ensures Consistent(pm')
    ensures Taken(pm, PageOf(pm, addr)) ==> Ran(pm, pm', PageOf(pm, addr), 1, false)
    ensures !Taken(pm, PageOf(pm, addr)) ==> pm' == pm
  {
    pm' := pm;
    if addr % PAGE != 0 || addr < pm.start {
      return;
    }
    var p := (addr - pm.start) / PAGE;
    if p >= pm.total || !TestBit(pm.bitmap[p / 8], p % 8) {
      return;
    }
    FlipValid(pm, p, false);
    pm' := pm.(bitmap := SetBit(pm.bitmap, p, false), free := pm.free + 1);
  }

  /** Page x lies in the n pages from addr on, which is page aligned. */
  ghost predicate Covers(pm: Pmm, addr: nat, n: nat, x: nat) {
    addr % PAGE == 0 && addr <= Addr(pm, x) < addr + n * PAGE
  }

  lemma CoversNext(pm: Pmm, addr: nat, n: nat, x: nat)
    requires pm.start % PAGE == 0 && x < pm.total
    ensures Covers(pm, addr, n + 1, x) <==> Covers(pm, addr, n, x) || PageOf(pm, addr + n * PAGE) == x
  {
  }

  /** pm' is pm with the covered pages the allocator manages cleared. */
  ghost predicate Cleared(pm: Pmm, pm': Pmm, addr: nat, n: nat) {
    && pm'.start == pm.start && pm'.total == pm.total && |pm'.bitmap| == |pm.bitmap|
    && forall x: nat :: Bit(pm'.bitmap, x) == (Bit(pm.bitmap, x) && !(x < pm.total && Covers(pm, addr, n, x)))
  }

  lemma ClearedNext(pm: Pmm, pm1: Pmm, pm2: Pmm, addr: nat, n: nat)
    requires Consistent(pm) && Cleared(pm, pm1, addr, n)
    requires var p := PageOf(pm, addr + n * PAGE);
             if Taken(pm1, p) then Ran(pm1, pm2, p, 1, false) else pm2 == pm1
    ensures Cleared(pm, pm2, addr, n + 1)
  {
    hide Covers, PageOf, Consistent;
    assert pm.start % PAGE == 0 by { AlignedStart(pm); }
    forall x: nat
      ensures Bit(pm2.bitmap, x) == (Bit(pm.bitmap, x) && !(x < pm.total && Covers(pm, addr, n + 1, x)))
    {
      if x < pm.total {
        CoversNext(pm, addr, n, x);
      }
    }
  }

  lemma AlignedStart(pm: Pmm)
    requires Consistent(pm)
    ensures pm.start % PAGE == 0
  {
  }

  /** The n pages from addr on are those from page p on, all handed out. */
  ghost predicate TakenRun(pm: Pmm, addr: nat, n: nat, p: nat) {
    addr == Addr(pm, p) && p + n <= pm.total && forall x :: p <= x < p + n ==> Bit(pm.bitmap, x)
  }

  lemma RunNext(pm: Pmm, pm1: Pmm, pm2: Pmm, addr: nat, n: nat, p: nat, i: nat)
    requires Consistent(pm1) && pm1.start == pm.start && pm1.total == pm.total && i < n
    requires TakenRun(pm, addr, n, p) ==> Ran(pm, pm1, p, i, false)
    requires Taken(pm1, PageOf(pm1, addr + i * PAGE)) ==> Ran(pm1, pm2, PageOf(pm1, addr + i * PAGE), 1, false)
    ensures TakenRun(pm, addr, n, p) ==> Ran(pm, pm2, p, i + 1, false)
  {
    if TakenRun(pm, addr, n, p) {
      AlignedStart(pm1);
      hide Consistent;
      PageOfAddr(pm1, p + i);
      RanTwice(pm, pm1, pm2, p, i, false);
    }
  }

  /**
   pmm_free_pages: the managed pages among the n from addr on are free afterwards,
   and nothing else changes.  Given a run that is handed out in full, from page p
   on, the count grows by n.
   */
  method FreePages(pm: Pmm, addr: nat, n: nat, ghost p: nat) returns (pm': Pmm)
    requires Consistent(pm)
    ensures Consistent(pm') && Cleared(pm, pm', addr, n)
    ensures TakenRun(pm, addr, n, p) ==> Ran(pm, pm', p, n, false)
  {
    pm' := pm;
    var i := 0;
    while i < n
      invariant i <= n && Consistent(pm') && Cleared(pm, pm', addr, i)
      invariant TakenRun(pm, addr, n, p) ==> Ran(pm, pm', p, i, false)
    {
      hide Cleared, Consistent, Ran, TakenRun, PageOf, Taken;
      ghost var pm1 := pm';
      pm' := FreePage(pm', addr + i * PAGE);
      ClearedSame(pm, pm1, addr, i);
      ClearedNext(pm, pm1, pm', addr, i);
      RunNext(pm, pm1, pm', addr, n, p, i);
      i := i + 1;
    }
  }

  lemma ClearedSame(pm: Pmm, pm': Pmm, addr: nat, n: nat)
    requires Cleared(pm, pm', addr, n)
    ensures pm'.start == pm.start && pm'.total == pm.total
  {
  }
}
