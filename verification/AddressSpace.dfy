/**
 map_page, unmap_page, virt_to_phys, create_user_page_table and free_page_table
 (kernel/mm/paging.c), over the tables of module Paging and the page allocator.
 */
module AddressSpace {
  import opened Bytes
  import opened Pmm
  import opened Paging
  import opened TableSet

  // ----- the allocator by frame number

  function Base(pm: Pmm): nat { pm.start / PAGE }

  predicate Managed(pm: Pmm, t: nat) { Base(pm) <= t < Base(pm) + pm.total }

  predicate FrameTaken(pm: Pmm, t: nat) { Managed(pm, t) && Bit(pm.bitmap, t - Base(pm)) }

  /** pm' is pm with frame t handed out (v) or given back (!v). */
  ghost predicate Turns(pm: Pmm, pm': Pmm, t: nat, v: bool) {
    && pm'.start == pm.start && pm'.total == pm.total
    && (forall x: nat :: FrameTaken(pm', x) == if x == t then v else FrameTaken(pm, x))
    && pm'.free == if v then pm.free - 1 else pm.free + 1
  }

  lemma RanTurns(pm: Pmm, pm': Pmm, p: nat, v: bool)
    requires Ran(pm, pm', p, 1, v) && p < pm.total
    ensures Turns(pm, pm', Base(pm) + p, v)
  {
  }

  lemma AddrFrame(pm: Pmm, p: nat)
    requires Consistent(pm)
    ensures Addr(pm, p) / PAGE == Base(pm) + p && Addr(pm, p) > 0
  {
  }

  lemma FreeCount(pm: Pmm)
    requires Consistent(pm)
    ensures pm.free == 0 <==> forall x: nat :: x < pm.total ==> Bit(pm.bitmap, x)
  {
    NoClearBits(pm.bitmap, pm.total);
  }

  method AllocFrame(pm: Pmm) returns (pm': Pmm, t: int)
    requires Consistent(pm)
    ensures Consistent(pm')
    ensures t == NONE <==> pm.free == 0
    ensures t == NONE ==> pm' == pm
    ensures t != NONE ==> t >= 0 && Managed(pm, t) && !FrameTaken(pm, t) && Turns(pm, pm', t, true)
  {
    var addr;
    pm', addr := AllocPage(pm);
    FreeCount(pm);
    if addr == 0 {
      return pm', NONE;
    }
    ghost var p: nat :| addr == Addr(pm, p) && FreeRun(pm, p, 1) && Ran(pm, pm', p, 1, true);
    AddrFrame(pm, p);
    SinglePage(pm);
    RanTurns(pm, pm', p, true);
    t := addr / PAGE;
  }

  method FreeFrame(pm: Pmm, t: nat) returns (pm': Pmm)
    requires Consistent(pm)
    ensures Consistent(pm')
    ensures FrameTaken(pm, t) ==> Turns(pm, pm', t, false)
    ensures !FrameTaken(pm, t) ==> pm' == pm
  {
    pm' := FreePage(pm, t * PAGE);
    ghost var p := PageOf(pm, t * PAGE);
    assert FrameTaken(pm, t) <==> Taken(pm, p);
    if Taken(pm, p) {
      RanTurns(pm, pm', p, false);
    }
  }

  // ----- the machine state

  ghost predicate Ram(mem: Mem, pm: Pmm) {
    && Base(pm) + pm.total <= PPN_LIMIT
    && forall t: nat :: Managed(pm, t) ==> t in mem && |mem[t]| == ENTRIES
  }

  /** Every table but the kernel's root, which is part of its image, is a page handed out. */
  ghost predicate Held(pm: Pmm, g: Space) {
    && !Managed(pm, g.kernel)
    && forall t :: t in g.owner && t != g.kernel ==> FrameTaken(pm, t)
  }

  ghost predicate Machine(mem: Mem, pm: Pmm, g: Space) {
    Consistent(pm) && Ram(mem, pm) && Tables(mem, g) && Held(pm, g)
  }

  /** Every root translates every page as before. */
  ghost predicate SameView(mem: Mem, mem': Mem, g: Space) {
    && (forall r: nat, v :: Home(g, r, v) ==> Pte(mem', r, v) == Pte(mem, r, v))
    && (forall u: nat, i: nat :: u in g.users && FIRST_SHARED <= i < ENTRIES ==> Entry(mem', u, i) == Entry(mem, u, i))
  }

  /** As before, but for one page of one root. */
  ghost predicate Remaps(mem: Mem, mem': Mem, g: Space, root: nat, at: Vpn, pte: nat) {
    && (forall r: nat, v :: Home(g, r, v) ==> Pte(mem', r, v) == if r == root && v == at then pte else Pte(mem, r, v))
    && (forall u: nat, i: nat :: u in g.users && FIRST_SHARED <= i < ENTRIES ==> Entry(mem', u, i) == Entry(mem, u, i))
  }

  /** Only tables were added, in frames that were free, and only tables were written. */
  ghost predicate Grew(mem: Mem, pm: Pmm, g: Space, mem': Mem, pm': Pmm, g': Space) {
    && pm'.start == pm.start && pm'.total == pm.total
    && (forall t :: t in g.owner ==> t in g'.owner && g'.owner[t] == g.owner[t])
    && (forall t :: t in g'.owner && t !in g.owner ==> !FrameTaken(pm, t))
    && (forall t: nat :: FrameTaken(pm', t) <==> FrameTaken(pm, t) || (t in g'.owner && t !in g.owner))
    && (forall t :: t in mem && t !in g'.owner ==> t in mem' && mem'[t] == mem[t])
  }

  ghost predicate Grows(mem: Mem, pm: Pmm, g: Space, mem': Mem, pm': Pmm, g': Space) {
    g'.kernel == g.kernel && g'.users == g.users && Grew(mem, pm, g, mem', pm', g')
  }

  lemma SameViewTwice(mem: Mem, mem1: Mem, mem2: Mem, g: Space)
    requires SameView(mem, mem1, g) && SameView(mem1, mem2, g)
    ensures SameView(mem, mem2, g)
  {
    hide Pte, Entry, Home;
  }

  lemma GrewTwice(mem: Mem, pm: Pmm, g: Space, mem1: Mem, pm1: Pmm, g1: Space, mem2: Mem, pm2: Pmm, g2: Space)
    requires Grew(mem, pm, g, mem1, pm1, g1) && Grew(mem1, pm1, g1, mem2, pm2, g2)
    requires Held(pm, g)
    ensures Grew(mem, pm, g, mem2, pm2, g2)
  {
    hide FrameTaken;
  }

  // ----- what one root's change means to the others

  /** Changing a page below index 2 of a user changes no page of the kernel or of another user. */
  lemma UserIsolated(mem: Mem, mem': Mem, g: Space, root: nat, at: Vpn, pte: nat, r: nat, v: Vpn)
    requires Shared(mem, g) && Shared(mem', g) && Remaps(mem, mem', g, root, at, pte)
    requires root in g.users && at.i < FIRST_SHARED
    requires IsRoot(g, r) && InRange(v)
    ensures Pte(mem', r, v) == if r == root && v == at then pte else Pte(mem, r, v)
  {
    hide Pte, Entry;
    if !Home(g, r, v) {
      UserAbove(mem, g, r, v);
      UserAbove(mem', g, r, v);
      assert Home(g, g.kernel, v);
    }
  }

  /** A change the kernel makes shows in a user above index 2 exactly where it holds the kernel's entry. */
  lemma KernelShows(mem: Mem, mem': Mem, g: Space, at: Vpn, pte: nat, u: nat, v: Vpn)
    requires Shared(mem, g) && Shared(mem', g) && Remaps(mem, mem', g, g.kernel, at, pte)
    requires u in g.users && InRange(v)
    ensures Pte(mem', u, v) ==
            if v == at && at.i >= FIRST_SHARED && IsValid(Entry(mem, u, at.i)) then pte else Pte(mem, u, v)
  {
    hide Pte, Entry;
    if v.i < FIRST_SHARED {
      assert Home(g, u, v);
    } else {
      UserAbove(mem, g, u, v);
      UserAbove(mem', g, u, v);
      assert Home(g, g.kernel, v);
    }
  }

  // ----- new tables

  /** Nothing but frame t was written. */
  ghost predicate OnlyFrame(mem: Mem, mem': Mem, t: nat) {
    && mem'.Keys == mem.Keys
    && (t in mem ==> |mem'[t]| == |mem[t]|)
    && forall x :: x in mem && x != t ==> mem'[x] == mem[x]
  }

  lemma FreshMachine(mem: Mem, pm: Pmm, g: Space, mem': Mem, pm': Pmm, t: nat)
    requires Machine(mem, pm, g) && Managed(pm, t) && !FrameTaken(pm, t)
    requires Consistent(pm') && Turns(pm, pm', t, true) && OnlyFrame(mem, mem', t)
    ensures t < PPN_LIMIT && t !in g.owner && t in mem && |mem[t]| == ENTRIES
    ensures Machine(mem', pm', g) && SameTables(mem, mem', g) && SameView(mem, mem', g)
  {
    assert t !in g.owner && SameTables(mem, mem', g);
    SameAll(mem, mem', g);
    hide Consistent, Tables, SameTables, FrameTaken, Pte, Entry;
    SameTablesView(mem, mem', g);
  }

  lemma SameTablesView(mem: Mem, mem': Mem, g: Space)
    requires Tables(mem, g) && SameTables(mem, mem', g)
    ensures SameView(mem, mem', g)
  {
    hide Pte, Entry, SameTables, Owned, Framed, Shared, Home;
    SameAll(mem, mem', g);
    forall r: nat, v | Home(g, r, v)
      ensures Pte(mem', r, v) == Pte(mem, r, v)
    {
      SamePte(mem, mem', g, r, v);
    }
  }

  /** alloc_page_table: a frame, zeroed word by word. */
  method AllocTable(mem: Mem, pm: Pmm, ghost g: Space) returns (mem': Mem, pm': Pmm, t: int)
    requires Machine(mem, pm, g)
    ensures Machine(mem', pm', g) && SameView(mem, mem', g) && SameTables(mem, mem', g)
    ensures t == NONE <==> pm.free == 0
    ensures t == NONE ==> mem' == mem && pm' == pm
    ensures t != NONE ==> && 0 <= t < PPN_LIMIT && t !in g.owner && t != g.kernel && Zero(mem', t)
                          && !FrameTaken(pm, t) && Turns(pm, pm', t, true) && OnlyFrame(mem, mem', t)
  {
    hide Pte, Turns, Home, Owned, Shared, FrameTaken, Consistent;
    mem' := mem;
    pm', t := AllocFrame(pm);
    if t == NONE {
      return;
    }
    FreshMachine(mem, pm, g, mem', pm', t);
    var i: nat := 0;
    while i < ENTRIES
      invariant i <= ENTRIES && OnlyFrame(mem, mem', t)
      invariant forall k :: 0 <= k < i ==> mem'[t][k] == 0
    {
      hide *;
      Rewrite(mem, mem', t, i);
      mem' := WriteEntry(mem', t, i, 0);
      i := i + 1;
    }
    FreshMachine(mem, pm, g, mem', pm', t);
  }

  lemma Rewrite(mem: Mem, mem': Mem, t: nat, i: nat)
    requires OnlyFrame(mem, mem', t) && t in mem && |mem[t]| == ENTRIES && i < ENTRIES
    ensures t in mem' && i < |mem'[t]| && OnlyFrame(mem, WriteEntry(mem', t, i, 0), t)
    ensures var f := WriteEntry(mem', t, i, 0)[t];
            forall k :: 0 <= k < |f| ==> f[k] == if k == i then 0 else mem'[t][k]
  {
  }

  /** A zeroed frame that is handed out and hung in becomes a table; no page changes. */
  lemma HangMachine(mem: Mem, pm: Pmm, g: Space, key: Key, n: nat, t: nat)
    requires Machine(mem, pm, g) && Hangs(mem, g, key, n, t) && FrameTaken(pm, t)
    ensures var mem', g' := HangIn(mem, key, n, t), HangSpace(g, key, n, t);
            && Machine(mem', pm, g') && SameView(mem, mem', g)
            && Tbl(mem', Child(key, n)) == t && Zero(mem', t)
  {
    HangOwned(mem, g, key, n, t);
    HangShared(mem, g, key, n, t);
    HangBasics(mem, g, key, n, t);
    HangTbl(mem, g, key, n, t, Child(key, n));
    HangFrames(mem, pm, g, key, n, t);
    hide Pte, Entry, Owned, Shared, Framed, Zero, Live, Ram, Hangs, HangIn, FrameTaken;
    var mem' := HangIn(mem, key, n, t);
    forall r: nat, v | Home(g, r, v)
      ensures Pte(mem', r, v) == Pte(mem, r, v)
    {
      HangPte(mem, g, key, n, t, r, v);
    }
  }

  lemma HangFrames(mem: Mem, pm: Pmm, g: Space, key: Key, n: nat, t: nat)
    requires Machine(mem, pm, g) && Hangs(mem, g, key, n, t)
    ensures var mem' := HangIn(mem, key, n, t);
            && Framed(mem', HangSpace(g, key, n, t)) && Ram(mem', pm) && Zero(mem', t)
            && forall x :: x in mem && x !in g.owner ==> x in mem' && mem'[x] == mem[x]
  {
    hide Next;
    var p := Tbl(mem, key);
    assert p in g.owner && p != t;
    forall i: nat
      ensures Entry(HangIn(mem, key, n, t), t, i) == 0
    {
      EntryAfter(mem, p, n, TablePte(t), t, i);
    }
  }

  lemma HangGrows(mem: Mem, pm: Pmm, g: Space, mem1: Mem, pm1: Pmm, mem2: Mem, key: Key, n: nat, t: nat)
    requires !FrameTaken(pm, t) && Turns(pm, pm1, t, true) && OnlyFrame(mem, mem1, t) && t !in g.owner && !key.Low?
    requires forall x :: x in mem1 && x !in g.owner ==> x in mem2 && mem2[x] == mem1[x]
    ensures Grows(mem, pm, g, mem2, pm1, HangSpace(g, key, n, t))
  {
    hide FrameTaken;
  }

  /**
   One level of walk_page_table with create set: the next table, made if the entry
   is not valid.  It fails at a leaf entry, and when there is no frame left.
   */
  method Descend(mem: Mem, pm: Pmm, t: nat, n: nat, ghost key: Key, ghost g: Space)
    returns (mem': Mem, pm': Pmm, next: int, ghost g': Space)
    requires Machine(mem, pm, g) && !key.Low? && Live(g, key) && Live(g, Child(key, n)) && t == Tbl(mem, key)
    ensures Machine(mem', pm', g') && SameView(mem, mem', g) && Grows(mem, pm, g, mem', pm', g')
    ensures next != NONE ==> next >= 0 && next == Tbl(mem', Child(key, n))
    ensures next == NONE <==> if IsValid(Entry(mem, t, n)) then IsLeaf(Entry(mem, t, n)) else pm.free == 0
    ensures IsValid(Entry(mem, t, n)) || next == NONE ==> mem' == mem && pm' == pm && g' == g
    ensures !IsValid(Entry(mem, t, n)) && next != NONE ==> pm'.free == pm.free - 1 && Zero(mem', next)
    ensures next != NONE ==> Adds(mem, mem', g, if IsValid(Entry(mem, t, n)) then {} else {Child(key, n)})
  {
    mem', pm', g' := mem, pm, g;
    TableWords(mem, pm, g, key, n);
    var e := Entry(mem, t, n);
    hide Pte, Entry, Owned, Shared, Framed, Zero, Live, Ram, FrameTaken, Consistent, Held, HangIn, Hangs, Adds;
    GrowsNot(mem, pm, g);
    AddsNone(mem, g);
    if IsValid(e) {
      if IsLeaf(e) {
        next := NONE;
      } else {
        next := Ppn(e);
        ChildTable(mem, key, n);
      }
    } else {
      var mem1;
      mem1, pm', next := AllocTable(mem, pm, g);
      if next == NONE {
        return;
      }
      ReadyToHang(mem, mem1, pm, pm', g, key, n, next);
      HangMachine(mem1, pm', g, key, n, next);
      HangFrames(mem1, pm', g, key, n, next);
      HangWrite(mem1, g, key, n, next);
      mem' := WriteEntry(mem1, t, n, TablePte(next));
      g' := HangSpace(g, key, n, next);
      HangGrows(mem, pm, g, mem1, pm', mem', key, n, next);
      SameViewTwice(mem, mem1, mem', g);
      SameAdds(mem, mem1, g);
      HangAdds(mem1, g, key, n, next);
      AddsTwice(mem, mem1, mem', g, g, {}, {Child(key, n)});
      assert {} + {Child(key, n)} == {Child(key, n)};
    }
  }

  lemma TableWords(mem: Mem, pm: Pmm, g: Space, key: Key, n: nat)
    requires Machine(mem, pm, g) && Live(g, key) && Tbl(mem, key) >= 0 && n < ENTRIES
    ensures Tbl(mem, key) in g.owner && Tbl(mem, key) in mem && n < |mem[Tbl(mem, key)]|
  {
  }

  lemma ChildTable(mem: Mem, key: Key, n: nat)
    requires !key.Low?
    ensures Tbl(mem, Child(key, n)) == Next(Entry(mem, Tbl(mem, key), n))
  {
  }

  lemma GrowsNot(mem: Mem, pm: Pmm, g: Space)
    ensures Grows(mem, pm, g, mem, pm, g) && SameView(mem, mem, g)
  {
  }

  lemma ReadyToHang(mem: Mem, mem1: Mem, pm: Pmm, pm1: Pmm, g: Space, key: Key, n: nat, t: nat)
    requires Machine(mem, pm, g) && Machine(mem1, pm1, g) && SameTables(mem, mem1, g)
    requires !key.Low? && Live(g, key) && Live(g, Child(key, n)) && Tbl(mem, key) >= 0
    requires !IsValid(Entry(mem, Tbl(mem, key), n)) && t < PPN_LIMIT && t !in g.owner && Zero(mem1, t)
    requires Turns(pm, pm1, t, true)
    ensures Hangs(mem1, g, key, n, t) && FrameTaken(pm1, t) && Tbl(mem1, key) == Tbl(mem, key)
  {
    SameTbl(mem, mem1, g, key);
    SameEntries(mem, mem1, g, key, n);
    assert n < ENTRIES;
    TableWords(mem1, pm1, g, key, n);
  }

  lemma HangWrite(mem: Mem, g: Space, key: Key, n: nat, t: nat)
    requires Hangs(mem, g, key, n, t)
    ensures Tbl(mem, key) >= 0 && Tbl(mem, key) in mem && n < |mem[Tbl(mem, key)]|
    ensures HangIn(mem, key, n, t) == WriteEntry(mem, Tbl(mem, key), n, TablePte(t))
  {
  }

  // ----- map, unmap, translate

  datatype Status = Done | Invalid | NoMemory | Exists | Fault

  /** A leaf entry stands where the walk needs a table. */
  predicate Blocked(mem: Mem, root: nat, v: Vpn) {
    var e2 := Entry(mem, root, v.i);
    var e1 := Entry(mem, Ppn(e2), v.j);
    IsValid(e2) && (IsLeaf(e2) || (IsValid(e1) && IsLeaf(e1)))
  }

  /** Tables the walk has to make. */
  function Missing(mem: Mem, root: nat, v: Vpn): nat {
    var e2 := Entry(mem, root, v.i);
    if !IsValid(e2) then 2 else if IsValid(Entry(mem, Ppn(e2), v.j)) then 0 else 1
  }

  /** walk_page_table with create set. */
  method WalkCreate(mem: Mem, pm: Pmm, root: nat, v: Vpn, ghost g: Space)
    returns (mem': Mem, pm': Pmm, low: int, ghost g': Space)
    requires Machine(mem, pm, g) && Home(g, root, v)
    ensures Machine(mem', pm', g') && SameView(mem, mem', g) && Grows(mem, pm, g, mem', pm', g')
    ensures low != NONE ==> low >= 0 && low == Tbl(mem', Low(root, v.i, v.j))
    ensures low == NONE <==> Blocked(mem, root, v) || Missing(mem, root, v) > pm.free
    ensures low != NONE ==> Adds(mem, mem', g, Gaps(mem, root, v)) && pm'.free == pm.free - |Gaps(mem, root, v)|
  {
    hide Pte, Entry, Owned, Shared, Framed, Ram, FrameTaken, Consistent, Held, Grows, SameView, Next, Adds, Gaps;
    var mem1, pm1, t;
    ghost var g1;
    mem1, pm1, t, g1 := Descend(mem, pm, root, v.i, Root(root), g);
    if t == NONE {
      return mem1, pm1, NONE, g1;
    }
    GrowsSame(mem, pm, g, mem1, pm1, g1);
    mem', pm', low, g' := Descend(mem1, pm1, t, v.j, Mid(root, v.i), g1);
    assert !IsValid(Entry(mem, root, v.i)) ==> Entry(mem1, t, v.j) == 0 by {
      if !IsValid(Entry(mem, root, v.i)) {
        ZeroEntry(mem1, t, v.j);
      }
    }
    assert IsValid(Entry(mem, root, v.i)) ==> t == Ppn(Entry(mem, root, v.i)) by {
      ChildTable(mem, Root(root), v.i);
      NextStep(Entry(mem, root, v.i));
    }
    MoreViews(mem1, mem', g, g1);
    SameViewTwice(mem, mem1, mem', g);
    assert Held(pm, g);
    GrowsThen(mem, pm, g, mem1, pm1, g1, mem', pm', g');
    if low != NONE {
      WalkAdds(mem, mem1, mem', g, g1, root, v);
    }
  }

  lemma WalkAdds(mem: Mem, mem1: Mem, mem2: Mem, g: Space, g1: Space, root: nat, v: Vpn)
    requires !Blocked(mem, root, v) && g1.kernel == g.kernel && g1.users == g.users
    requires var e2 := Entry(mem, root, v.i);
             && Adds(mem, mem1, g, if IsValid(e2) then {} else {Mid(root, v.i)})
             && Adds(mem1, mem2, g1,
                     if IsValid(e2) && IsValid(Entry(mem, Ppn(e2), v.j)) then {} else {Low(root, v.i, v.j)})
    ensures Adds(mem, mem2, g, Gaps(mem, root, v)) && |Gaps(mem, root, v)| == Missing(mem, root, v)
  {
    BlockedStuck(mem, root, v);
    GapsAre(mem, root, v);
    hide Adds, Gaps, Ppn, Next, IsLeaf;
    var e2 := Entry(mem, root, v.i);
    AddsTwice(mem, mem1, mem2, g, g1, if IsValid(e2) then {} else {Mid(root, v.i)},
              if IsValid(e2) && IsValid(Entry(mem, Ppn(e2), v.j)) then {} else {Low(root, v.i, v.j)});
  }

  lemma GapsMissing(mem: Mem, root: nat, v: Vpn)
    requires !Blocked(mem, root, v)
    ensures |Gaps(mem, root, v)| == Missing(mem, root, v)
  {
    BlockedStuck(mem, root, v);
    GapsAre(mem, root, v);
    hide Gaps, Ppn, Next, IsLeaf;
  }

  lemma BlockedStuck(mem: Mem, root: nat, v: Vpn)
    ensures Blocked(mem, root, v) <==> Stuck(mem, Mid(root, v.i)) || Stuck(mem, Low(root, v.i, v.j))
  {
    hide Ppn;
  }

  lemma GrowsThen(mem: Mem, pm: Pmm, g: Space, mem1: Mem, pm1: Pmm, g1: Space, mem2: Mem, pm2: Pmm, g2: Space)
    requires Grows(mem, pm, g, mem1, pm1, g1) && Grows(mem1, pm1, g1, mem2, pm2, g2)
    requires Held(pm, g)
    ensures Grows(mem, pm, g, mem2, pm2, g2)
  {
    hide Grew, Held;
    GrewTwice(mem, pm, g, mem1, pm1, g1, mem2, pm2, g2);
  }

  lemma NextStep(e: nat)
    ensures IsValid(e) && !IsLeaf(e) ==> Next(e) == Ppn(e)
  {
  }

  lemma GrowsSame(mem: Mem, pm: Pmm, g: Space, mem': Mem, pm': Pmm, g': Space)
    requires Grows(mem, pm, g, mem', pm', g')
    ensures g'.kernel == g.kernel && g'.users == g.users && pm'.start == pm.start && pm'.total == pm.total
  {
  }

  lemma MoreViews(mem: Mem, mem': Mem, g: Space, g': Space)
    requires g'.kernel == g.kernel && g'.users == g.users
    ensures SameView(mem, mem', g') ==> SameView(mem, mem', g)
    ensures forall root: nat, at, pte :: Remaps(mem, mem', g', root, at, pte) ==> Remaps(mem, mem', g, root, at, pte)
  {
    hide Pte, Entry;
    assert forall r: nat, v :: Home(g', r, v) <==> Home(g, r, v);
  }

  /** A store into a leaf word. */
  lemma StoreMachine(mem: Mem, pm: Pmm, g: Space, low: Key, k: nat, e: nat)
    requires Machine(mem, pm, g) && Live(g, low) && low.Low? && Tbl(mem, low) >= 0 && k < ENTRIES
    ensures Tbl(mem, low) in mem && k < |mem[Tbl(mem, low)]|
    ensures var mem' := WriteEntry(mem, Tbl(mem, low), k, e);
            && Machine(mem', pm, g)
            && Remaps(mem, mem', g, low.root, Vpn(low.i, low.j, k), if IsValid(e) then e else 0)
            && Grows(mem, pm, g, mem', pm, g)
  {
    TableWords(mem, pm, g, low, k);
    var t := Tbl(mem, low);
    var mem' := WriteEntry(mem, t, k, e);
    FramedAfter(mem, g, t, k, e);
    LowStoreOwned(mem, g, low, k, e);
    StoreShared(mem, g, low, k, e);
    assert Ram(mem', pm);
    hide Pte, Entry, Owned, Shared, Framed, Live, Ram, FrameTaken, Tbl, WriteEntry;
    assert Grows(mem, pm, g, mem', pm, g) by {
      WriteOnly(mem, t, k, e);
    }
    forall r: nat, v | Home(g, r, v)
      ensures Pte(mem', r, v) == if r == low.root && v == Vpn(low.i, low.j, k) then (if IsValid(e) then e else 0)
                                 else Pte(mem, r, v)
    {
      LowStorePte(mem, g, low, k, e, r, v);
    }
  }

  lemma WriteOnly(mem: Mem, t: nat, n: nat, e: nat)
    requires t in mem && n < |mem[t]|
    ensures OnlyFrame(mem, WriteEntry(mem, t, n, e), t)
  {
  }

  /** What a page of a table shows. */
  lemma PteIs(mem: Mem, root: nat, v: Vpn)
    ensures var e := Entry(mem, Tbl(mem, Low(root, v.i, v.j)), v.k);
            Pte(mem, root, v) == if IsValid(e) then e else 0
  {
  }

  /**
   map_page: on success the page, which no entry mapped before, is mapped to pa, and
   no page of any root changes otherwise; on failure none changes at all.
   */
  method MapPage(mem: Mem, pm: Pmm, root: nat, va: nat, pa: nat, flags: nat, ghost g: Space)
    returns (mem': Mem, pm': Pmm, status: Status, ghost g': Space)
    requires Machine(mem, pm, g) && flags < 1024 && Home(g, root, VpnOf(va))
    ensures Machine(mem', pm', g') && Grows(mem, pm, g, mem', pm', g')
    ensures status == Invalid <==> va % PAGE != 0 || pa % PAGE != 0
    ensures status == NoMemory <==> && va % PAGE == 0 && pa % PAGE == 0
                                    && (Blocked(mem, root, VpnOf(va)) || Missing(mem, root, VpnOf(va)) > pm.free)
    ensures status == Exists <==> va % PAGE == 0 && pa % PAGE == 0 && Pte(mem, root, VpnOf(va)) != 0
    ensures status != Fault
    ensures status == Done ==> Remaps(mem, mem', g, root, VpnOf(va), MakePte(pa, flags))
    ensures status == Done ==>
              Adds(mem, mem', g, Gaps(mem, root, VpnOf(va))) && pm'.free == pm.free - |Gaps(mem, root, VpnOf(va))|
    ensures status != Done ==> SameView(mem, mem', g)
  {
    hide Pte, Entry, Owned, Shared, Framed, Ram, FrameTaken, Consistent, Held, Grows, SameView, Remaps, Tbl, WriteEntry,
         VpnOf, MakePte, Missing, Blocked, Adds, Gaps;
    mem', pm', g' := mem, pm, g;
    GrowsNot(mem, pm, g);
    if va % PAGE != 0 || pa % PAGE != 0 {
      status := Invalid;
      return;
    }
    var v := VpnOf(va);
    var low;
    mem', pm', low, g' := WalkCreate(mem, pm, root, v, g);
    ghost var key := Low(root, v.i, v.j);
    PteIs(mem', root, v);
    SameAt(mem, mem', g, root, v);
    if low == NONE {
      UnmappedWhenStuck(mem, pm, root, v);
      status := NoMemory;
      return;
    }
    GrowsSame(mem, pm, g, mem', pm', g');
    if IsValid(Entry(mem', low, v.k)) {
      status := Exists;
      return;
    }
    PteRoundTrip(pa, flags);
    ghost var mem1 := mem';
    StoreMachine(mem', pm', g', key, v.k, MakePte(pa, flags));
    LowStoreAdds(mem', g', key, v.k, MakePte(pa, flags));
    mem' := WriteEntry(mem', low, v.k, MakePte(pa, flags));
    AddsTwice(mem, mem1, mem', g, g', Gaps(mem, root, v), {});
    assert Gaps(mem, root, v) + {} == Gaps(mem, root, v);
    MoreViews(mem1, mem', g, g');
    RemapsAfter(mem, mem1, mem', g, root, v, MakePte(pa, flags));
    assert Held(pm, g);
    GrowsThen(mem, pm, g, mem1, pm', g', mem', pm', g');
    status := Done;
  }

  lemma SameAt(mem: Mem, mem': Mem, g: Space, root: nat, v: Vpn)
    requires SameView(mem, mem', g) && Home(g, root, v)
    ensures Pte(mem', root, v) == Pte(mem, root, v)
  {
  }

  lemma RemapsAfter(mem: Mem, mem1: Mem, mem2: Mem, g: Space, root: nat, at: Vpn, pte: nat)
    requires SameView(mem, mem1, g) && Remaps(mem1, mem2, g, root, at, pte)
    ensures Remaps(mem, mem2, g, root, at, pte)
  {
    hide Pte, Entry, Home;
  }

  /** Where the walk cannot go on no page is mapped. */
  lemma UnmappedWhenStuck(mem: Mem, pm: Pmm, root: nat, v: Vpn)
    requires Blocked(mem, root, v) || Missing(mem, root, v) > 0
    ensures Pte(mem, root, v) == 0
  {
  }

  /** unmap_page: the page is not mapped afterwards, and nothing else changes. */
  method UnmapPage(mem: Mem, pm: Pmm, root: nat, va: nat, ghost g: Space) returns (mem': Mem, status: Status)
    requires Machine(mem, pm, g) && Home(g, root, VpnOf(va))
    ensures Machine(mem', pm, g) && Grows(mem, pm, g, mem', pm, g)
    ensures status == Done <==> va % PAGE == 0 && Pte(mem, root, VpnOf(va)) != 0
    ensures status == Done ==> Remaps(mem, mem', g, root, VpnOf(va), 0)
    ensures status != Done ==> status == Invalid && mem' == mem
  {
    hide Pte, Entry, Owned, Shared, Framed, Ram, FrameTaken, Consistent, Held, Grows, SameView, Remaps, WriteEntry,
         VpnOf;
    mem' := mem;
    GrowsNot(mem, pm, g);
    if va % PAGE != 0 {
      return mem', Invalid;
    }
    var v := VpnOf(va);
    PteIs(mem, root, v);
    var low := Next(Entry(mem, Next(Entry(mem, root, v.i)), v.j));
    NoFrame(mem, v.k);
    if low == NONE || !IsValid(Entry(mem, low, v.k)) {
      return mem', Invalid;
    }
    StoreMachine(mem, pm, g, Low(root, v.i, v.j), v.k, 0);
    mem' := WriteEntry(mem, low, v.k, 0);
    status := Done;
  }

  lemma NoFrame(mem: Mem, k: nat)
    ensures Entry(mem, NONE, k) == 0
  {
  }

  /** virt_to_phys: the page's frame and the offset, exactly when the page is mapped. */
  method VirtToPhys(mem: Mem, root: nat, va: nat) returns (pa: nat, status: Status)
    ensures status == if Pte(mem, root, VpnOf(va)) != 0 then Done else Fault
    ensures status == Done ==> pa == Ppn(Pte(mem, root, VpnOf(va))) * PAGE + va % PAGE
  {
    var v := VpnOf(va);
    var e2 := Entry(mem, root, v.i);
    if !IsValid(e2) || IsLeaf(e2) {
      return 0, Fault;
    }
    var e1 := Entry(mem, Ppn(e2), v.j);
    if !IsValid(e1) || IsLeaf(e1) {
      return 0, Fault;
    }
    var e0 := Entry(mem, Ppn(e1), v.k);
    if !IsValid(e0) {
      return 0, Fault;
    }
    return Ppn(e0) * PAGE + va % PAGE, Done;
  }
}
