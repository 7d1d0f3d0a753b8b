/**
 Sv39 page tables (kernel/mm/paging.c).

 Physical memory is a map from page frame numbers to frames of 512 words.  A
 page table is a frame whose words are read as entries.  The kernel owns one
 root; every user root shares the kernel's tables from root index 2 on and has
 its own below.  `Space` says, for the proofs only, which frame is which table
 of which root.
 */
module Paging {
  import opened Pmm

  const ENTRIES: nat := 512
  const FIRST_SHARED: nat := 2
  const PPN_LIMIT: nat := 0x1000_0000_0000
  const NONE: int := -1

  type Frame = seq<nat>
  type Mem = map<nat, Frame>

  // ----- entries

  predicate IsValid(pte: nat) { pte % 2 == 1 }

  predicate IsLeaf(pte: nat) { pte / 2 % 8 != 0 }

  function Ppn(pte: nat): nat { pte / 1024 % PPN_LIMIT }

  /** PA_TO_PTE with PTE_V or-ed into the ten flag bits. */
  function MakePte(pa: nat, flags: nat): nat {
    pa / PAGE * 1024 + if flags % 2 == 1 then flags else flags + 1
  }

  /** An entry gives back its page exactly when the address fits in 56 bits. */
  lemma PteRoundTrip(pa: nat, flags: nat)
    requires pa % PAGE == 0 && flags < 1024
    ensures IsValid(MakePte(pa, flags))
    ensures Ppn(MakePte(pa, flags)) * PAGE == pa <==> pa < PPN_LIMIT * PAGE
  {
    var n := pa / PAGE;
    assert MakePte(pa, flags) / 1024 == n;
  }

  /** The table an entry points at. */
  function Next(pte: nat): int {
    if IsValid(pte) && !IsLeaf(pte) then Ppn(pte) else NONE
  }

  function TablePte(t: nat): nat { t * 1024 + 1 }

  lemma NextTable(t: nat)
    requires t < PPN_LIMIT
    ensures Next(TablePte(t)) == t && IsValid(TablePte(t))
  {
    TableValid(t);
    TableNoLeaf(t);
    TablePpn(t);
    hide IsValid, IsLeaf, Ppn, TablePte;
  }

  lemma Odd(k: nat)
    ensures (2 * k + 1) % 2 == 1 && (2 * k + 1) / 2 == k
  {
  }

  lemma TableValid(t: nat)
    ensures IsValid(TablePte(t))
  {
    var k := 512 * t;
    Odd(k);
    assert TablePte(t) == 2 * k + 1;
  }

  lemma TableNoLeaf(t: nat)
    ensures !IsLeaf(TablePte(t))
  {
    var k := 512 * t;
    Odd(k);
    assert TablePte(t) == 2 * k + 1;
    EightTimes(64 * t);
  }

  lemma EightTimes(k: nat)
    ensures 8 * k % 8 == 0
  {
  }

  lemma TablePpn(t: nat)
    requires t < PPN_LIMIT
    ensures Ppn(TablePte(t)) == t
  {
    assert TablePte(t) / 1024 == t;
  }

  lemma NextInvalid(pte: nat)
    requires !IsValid(pte)
    ensures Next(pte) == NONE
  {
  }

  // ----- walking

  /** Word i of frame t; 0 where there is no such word. */
  function Entry(mem: Mem, t: int, i: nat): nat {
    if t >= 0 && t in mem && i < |mem[t]| then mem[t][i] else 0
  }

  function WriteEntry(mem: Mem, t: nat, i: nat, e: nat): Mem
    requires t in mem && i < |mem[t]|
  {
    var f: Frame := mem[t][i := e];
    mem[t := f]
  }

  /** A virtual page number, by level. */
  datatype Vpn = Vpn(i: nat, j: nat, k: nat)

  predicate InRange(v: Vpn) { v.i < ENTRIES && v.j < ENTRIES && v.k < ENTRIES }

  function VpnOf(va: nat): (v: Vpn)
    ensures InRange(v)
  {
    Vpn(va / 0x4000_0000 % ENTRIES, va / 0x20_0000 % ENTRIES, va / PAGE % ENTRIES)
  }

  /** Pages are told apart by 27 bits; addresses that agree in those are aliases. */
  lemma VpnAlias(va: nat, wa: nat)
    ensures VpnOf(va) == VpnOf(wa) <==> va / PAGE % 0x800_0000 == wa / PAGE % 0x800_0000
  {
    hide VpnOf;
    VpnDigits(va);
    VpnDigits(wa);
    DigitsUnique(VpnOf(va), VpnOf(wa));
  }

  lemma DigitsUnique(v: Vpn, w: Vpn)
    requires InRange(v) && InRange(w)
    ensures v.i * 0x4_0000 + v.j * 0x200 + v.k == w.i * 0x4_0000 + w.j * 0x200 + w.k <==> v == w
  {
    if v.i * 0x4_0000 + v.j * 0x200 + v.k == w.i * 0x4_0000 + w.j * 0x200 + w.k {
      LastDigit(v.i * 0x200 + v.j, v.k, w.i * 0x200 + w.j, w.k);
      LastDigit(v.i, v.j, w.i, w.j);
    }
  }

  lemma LastDigit(a: nat, b: nat, c: nat, d: nat)
    requires b < 0x200 && d < 0x200 && a * 0x200 + b == c * 0x200 + d
    ensures a == c && b == d
  {
  }

  lemma VpnDigits(va: nat)
    ensures var v := VpnOf(va); va / PAGE % 0x800_0000 == v.i * 0x4_0000 + v.j * 0x200 + v.k
  {
    var p := va / PAGE;
    assert va / 0x20_0000 == p / 0x200;
    assert va / 0x4000_0000 == p / 0x4_0000;
    NineBits(p);
  }

  lemma NineBits(p: nat)
    ensures p % 0x800_0000 == p / 0x4_0000 % 0x200 * 0x4_0000 + p / 0x200 % 0x200 * 0x200 + p % 0x200
  {
    LowDigits(p);
    HighDigit(p);
  }

  lemma LowDigits(p: nat)
    ensures p % 0x4_0000 == p / 0x200 % 0x200 * 0x200 + p % 0x200
  {
    var q := p / 0x200;
    assert p == 0x4_0000 * (q / 0x200) + (q % 0x200 * 0x200 + p % 0x200);
  }

  lemma HighDigit(p: nat)
    ensures p % 0x800_0000 == p / 0x4_0000 % 0x200 * 0x4_0000 + p % 0x4_0000
  {
    var q := p / 0x4_0000;
    assert p == 0x800_0000 * (q / 0x200) + (q % 0x200 * 0x4_0000 + p % 0x4_0000);
  }

  function Table1(mem: Mem, root: int, i: nat): int { Next(Entry(mem, root, i)) }

  function Table0(mem: Mem, root: int, i: nat, j: nat): int { Next(Entry(mem, Table1(mem, root, i), j)) }

  /** The valid entry of a page, or 0: the table as a partial map of pages. */
  function Pte(mem: Mem, root: int, v: Vpn): nat {
    var e := Entry(mem, Table0(mem, root, v.i, v.j), v.k);
    if IsValid(e) then e else 0
  }

  /** The walk, word by word: the page of an address is found through word i of the root, word j of the table it
      names and word k of the table that names. */
  lemma WalkByHand(mem: Mem, root: nat, t1: nat, t0: nat, v: Vpn)
    requires root in mem && v.i < |mem[root]| && t1 in mem && v.j < |mem[t1]| && t0 in mem && v.k < |mem[t0]|
    requires t1 < PPN_LIMIT && t0 < PPN_LIMIT
    requires mem[root][v.i] == t1 * 1024 + 1 && mem[t1][v.j] == t0 * 1024 + 1
    ensures Pte(mem, root, v) == if mem[t0][v.k] % 2 == 1 then mem[t0][v.k] else 0
  {
    NextTable(t1);
    NextTable(t0);
    hide Next;
    assert Table1(mem, root, v.i) == t1;
    assert Table0(mem, root, v.i, v.j) == t0;
  }

  /** Where a word on the way is not valid, nothing is mapped. */
  lemma WalkStops(mem: Mem, root: nat, t1: nat, v: Vpn)
    requires root in mem && v.i < |mem[root]|
    ensures mem[root][v.i] % 2 == 0 ==> Pte(mem, root, v) == 0
    ensures t1 < PPN_LIMIT && mem[root][v.i] == t1 * 1024 + 1 && Entry(mem, t1, v.j) % 2 == 0 ==>
              Pte(mem, root, v) == 0
  {
    if t1 < PPN_LIMIT {
      NextTable(t1);
    }
  }

  /** The address of byte `offset` of page (i, j, k). */
  lemma VpnByNumber(i: nat, j: nat, k: nat, offset: nat)
    requires i < 512 && j < 512 && k < 512 && offset < 4096
    ensures VpnOf(i * 0x4000_0000 + j * 0x20_0000 + k * 0x1000 + offset) == Vpn(i, j, k)
  {
    LowIndex(i * 512 + j, k, offset);
    MidIndex(i, j, k * 0x1000 + offset);
    TopIndex(i, j * 0x20_0000 + k * 0x1000 + offset);
  }

  lemma LowIndex(high: nat, k: nat, rest: nat)
    requires k < 512 && rest < 0x1000
    ensures (high * 0x20_0000 + k * 0x1000 + rest) / 0x1000 % 512 == k
  {
    assert (high * 0x20_0000 + k * 0x1000 + rest) / 0x1000 == high * 512 + k;
  }

  lemma MidIndex(high: nat, j: nat, rest: nat)
    requires j < 512 && rest < 0x20_0000
    ensures (high * 0x4000_0000 + j * 0x20_0000 + rest) / 0x20_0000 % 512 == j
  {
    assert (high * 0x4000_0000 + j * 0x20_0000 + rest) / 0x20_0000 == high * 512 + j;
  }

  lemma TopIndex(i: nat, rest: nat)
    requires i < 512 && rest < 0x4000_0000
    ensures (i * 0x4000_0000 + rest) / 0x4000_0000 % 512 == i
  {
    assert (i * 0x4000_0000 + rest) / 0x4000_0000 == i;
  }

  // ----- which frame is which table

  datatype Key = Root(root: nat) | Mid(root: nat, i: nat) | Low(root: nat, i: nat, j: nat)

  datatype Space = Space(kernel: nat, users: set<nat>, owner: map<nat, Key>)

  predicate IsRoot(g: Space, r: nat) { r == g.kernel || r in g.users }

  /** A table that root r owns: the kernel's all, a user's below index 2. */
  predicate Private(g: Space, r: nat, i: nat) {
    IsRoot(g, r) && i < ENTRIES && (r == g.kernel || i < FIRST_SHARED)
  }

  predicate Live(g: Space, key: Key) {
    match key
    case Root(r) => IsRoot(g, r)
    case Mid(r, i) => Private(g, r, i)
    case Low(r, i, j) => Private(g, r, i) && j < ENTRIES
  }

  function Tbl(mem: Mem, key: Key): int {
    match key
    case Root(r) => r
    case Mid(r, i) => Table1(mem, r, i)
    case Low(r, i, j) => Table0(mem, r, i, j)
  }

  /** Each table is one frame and no frame is two tables. */
  ghost predicate Owned(mem: Mem, g: Space) {
    && (forall key :: Live(g, key) && Tbl(mem, key) != NONE ==>
          Tbl(mem, key) >= 0 && Tbl(mem, key) in g.owner && g.owner[Tbl(mem, key)] == key)
    && (forall t :: t in g.owner ==> Live(g, g.owner[t]) && Tbl(mem, g.owner[t]) == t)
  }

  ghost predicate Framed(mem: Mem, g: Space) {
    forall t :: t in g.owner ==> t in mem && |mem[t]| == ENTRIES
  }

  /** A user's upper entries are copies of the kernel's, or were not there to copy. */
  ghost predicate Shared(mem: Mem, g: Space) {
    && g.kernel !in g.users
    && forall u, i: nat :: u in g.users && FIRST_SHARED <= i < ENTRIES && IsValid(Entry(mem, u, i)) ==>
      Entry(mem, u, i) == Entry(mem, g.kernel, i)
  }

  ghost predicate Tables(mem: Mem, g: Space) {
    Owned(mem, g) && Framed(mem, g) && Shared(mem, g)
  }

  /** What a user sees above: the kernel's map, where it holds the kernel's entry. */
  lemma UserAbove(mem: Mem, g: Space, u: nat, v: Vpn)
    requires Shared(mem, g) && u in g.users && FIRST_SHARED <= v.i < ENTRIES
    ensures Pte(mem, u, v) == if IsValid(Entry(mem, u, v.i)) then Pte(mem, g.kernel, v) else 0
  {
    if !IsValid(Entry(mem, u, v.i)) {
      NextInvalid(Entry(mem, u, v.i));
    }
  }

  // ----- what one store does to every table

  /** A store into a table leaves the words of every other frame alone. */
  lemma EntryAfter(mem: Mem, t: nat, n: nat, e: nat, t': int, i: nat)
    requires t in mem && n < |mem[t]|
    ensures Entry(WriteEntry(mem, t, n, e), t', i) == if t' == t && i == n then e else Entry(mem, t', i)
  {
  }

  lemma FramedAfter(mem: Mem, g: Space, t: nat, n: nat, e: nat)
    requires Framed(mem, g) && t in g.owner && n < ENTRIES
    ensures t in mem && n < |mem[t]|
    ensures Framed(WriteEntry(mem, t, n, e), g)
  {
  }

  /** Frames of two live tables with different names differ. */
  lemma Different(mem: Mem, g: Space, a: Key, b: Key)
    requires Owned(mem, g) && Live(g, a) && Live(g, b)
    ensures Tbl(mem, a) == Tbl(mem, b) ==> a == b || Tbl(mem, a) == NONE
  {
  }

  /** Storing a leaf entry moves no table. */
  lemma LowStore(mem: Mem, g: Space, low: Key, k: nat, e: nat, key: Key)
    requires Owned(mem, g) && Live(g, low) && low.Low? && Live(g, key)
    requires Tbl(mem, low) >= 0 && Tbl(mem, low) in mem && k < |mem[Tbl(mem, low)]|
    ensures Tbl(WriteEntry(mem, Tbl(mem, low), k, e), key) == Tbl(mem, key)
  {
    hide Owned, Next;
    var t := Tbl(mem, low);
    var mem' := WriteEntry(mem, t, k, e);
    match key
    case Root(r) =>
    case Mid(r, i) =>
      Different(mem, g, Root(r), low);
      EntryAfter(mem, t, k, e, r, i);
    case Low(r, i, j) =>
      Different(mem, g, Root(r), low);
      Different(mem, g, Mid(r, i), low);
      EntryAfter(mem, t, k, e, r, i);
      EntryAfter(mem, t, k, e, Table1(mem, r, i), j);
  }

  lemma LowStoreOwned(mem: Mem, g: Space, low: Key, k: nat, e: nat)
    requires Owned(mem, g) && Live(g, low) && low.Low?
    requires Tbl(mem, low) >= 0 && Tbl(mem, low) in mem && k < |mem[Tbl(mem, low)]|
    ensures Owned(WriteEntry(mem, Tbl(mem, low), k, e), g)
  {
    hide Tbl, Live, WriteEntry;
    var mem' := WriteEntry(mem, Tbl(mem, low), k, e);
    forall key | Live(g, key)
      ensures Tbl(mem', key) == Tbl(mem, key)
    {
      LowStore(mem, g, low, k, e, key);
    }
  }

  /** Roots that see their own table at v: the kernel everywhere, a user below. */
  predicate Home(g: Space, r: nat, v: Vpn) { InRange(v) && Private(g, r, v.i) }

  /** It changes the one page it is the entry of. */
  lemma LowStorePte(mem: Mem, g: Space, low: Key, k: nat, e: nat, r: nat, v: Vpn)
    requires Owned(mem, g) && Live(g, low) && low.Low? && Home(g, r, v)
    requires Tbl(mem, low) >= 0 && Tbl(mem, low) in mem && k < |mem[Tbl(mem, low)]|
    ensures Pte(WriteEntry(mem, Tbl(mem, low), k, e), r, v) ==
            if Low(r, v.i, v.j) == low && v.k == k then (if IsValid(e) then e else 0) else Pte(mem, r, v)
  {
    hide Owned, Next;
    var t := Tbl(mem, low);
    LowStore(mem, g, low, k, e, Low(r, v.i, v.j));
    EntryAfter(mem, t, k, e, Table0(mem, r, v.i, v.j), v.k);
    if Low(r, v.i, v.j) != low {
      Different(mem, g, Low(r, v.i, v.j), low);
    }
  }

  /** A store outside the roots keeps what is shared. */
  lemma StoreShared(mem: Mem, g: Space, key: Key, n: nat, e: nat)
    requires Owned(mem, g) && Shared(mem, g) && Live(g, key) && !key.Root?
    requires Tbl(mem, key) >= 0 && Tbl(mem, key) in mem && n < |mem[Tbl(mem, key)]|
    ensures Shared(WriteEntry(mem, Tbl(mem, key), n, e), g)
    ensures forall r: nat, i: nat :: IsRoot(g, r) ==>
              Entry(WriteEntry(mem, Tbl(mem, key), n, e), r, i) == Entry(mem, r, i)
  {
    hide Owned, Next;
    forall r: nat, i: nat | IsRoot(g, r)
      ensures Entry(WriteEntry(mem, Tbl(mem, key), n, e), r, i) == Entry(mem, r, i)
    {
      Different(mem, g, Root(r), key);
      EntryAfter(mem, Tbl(mem, key), n, e, r, i);
    }
  }

  // ----- hanging in a new table

  ghost predicate Zero(mem: Mem, t: nat) {
    t in mem && |mem[t]| == ENTRIES && forall i: nat :: Entry(mem, t, i) == 0
  }

  function Child(parent: Key, n: nat): Key
    requires !parent.Low?
  {
    if parent.Root? then Mid(parent.root, n) else Low(parent.root, parent.i, n)
  }

  /** A table to hang under word n of a live one, which holds no valid entry. */
  ghost predicate Hangs(mem: Mem, g: Space, parent: Key, n: nat, t: nat) {
    && !parent.Low? && Live(g, parent) && Live(g, Child(parent, n))
    && Tbl(mem, parent) >= 0 && Tbl(mem, parent) in mem && n < |mem[Tbl(mem, parent)]|
    && !IsValid(Entry(mem, Tbl(mem, parent), n))
    && t < PPN_LIMIT && t !in g.owner && Zero(mem, t)
  }

  function HangIn(mem: Mem, parent: Key, n: nat, t: nat): Mem
    requires Tbl(mem, parent) >= 0 && Tbl(mem, parent) in mem && n < |mem[Tbl(mem, parent)]|
  {
    WriteEntry(mem, Tbl(mem, parent), n, TablePte(t))
  }

  lemma HangTbl(mem: Mem, g: Space, parent: Key, n: nat, t: nat, key: Key)
    requires Owned(mem, g) && Hangs(mem, g, parent, n, t) && Live(g, key)
    ensures Tbl(HangIn(mem, parent, n, t), key) == if key == Child(parent, n) then t else Tbl(mem, key)
  {
    var p := Tbl(mem, parent);
    var e := TablePte(t);
    assert p in g.owner && p != t;
    hide Owned, Next, WriteEntry, TablePte, Zero;
    NextTable(t);
    NextInvalid(Entry(mem, p, n));
    match key
    case Root(r) =>
    case Mid(r, i) =>
      Different(mem, g, Root(r), parent);
      EntryAfter(mem, p, n, e, r, i);
    case Low(r, i, j) =>
      Different(mem, g, Root(r), parent);
      EntryAfter(mem, p, n, e, r, i);
      if Mid(r, i) == Child(parent, n) {
        EntryAfter(mem, p, n, e, t, j);
        ZeroEntry(mem, t, j);
      } else {
        Different(mem, g, Mid(r, i), parent);
        EntryAfter(mem, p, n, e, Table1(mem, r, i), j);
      }
  }

  lemma ZeroEntry(mem: Mem, t: nat, i: nat)
    requires Zero(mem, t)
    ensures Entry(mem, t, i) == 0 && Next(0) == NONE && Next(Entry(mem, NONE, i)) == NONE
  {
  }

  function HangSpace(g: Space, parent: Key, n: nat, t: nat): Space
    requires !parent.Low?
  {
    g.(owner := g.owner[t := Child(parent, n)])
  }

  lemma HangOwned(mem: Mem, g: Space, parent: Key, n: nat, t: nat)
    requires Owned(mem, g) && Hangs(mem, g, parent, n, t)
    ensures Owned(HangIn(mem, parent, n, t), HangSpace(g, parent, n, t))
  {
    HangEmpty(mem, g, parent, n, t);
    hide Tbl, HangIn, Hangs;
    var mem', g' := HangIn(mem, parent, n, t), HangSpace(g, parent, n, t);
    assert Live(g, Child(parent, n)) && t !in g.owner && t >= 0 by { HangBasics(mem, g, parent, n, t); }
    forall key
      ensures Live(g', key) == Live(g, key)
      ensures Live(g, key) ==> Tbl(mem', key) == if key == Child(parent, n) then t else Tbl(mem, key)
    {
      if Live(g, key) {
        HangTbl(mem, g, parent, n, t, key);
      }
    }
  }

  lemma HangBasics(mem: Mem, g: Space, parent: Key, n: nat, t: nat)
    requires Hangs(mem, g, parent, n, t)
    ensures Live(g, Child(parent, n)) && t !in g.owner
  {
  }

  /** No table hung there before. */
  lemma HangEmpty(mem: Mem, g: Space, parent: Key, n: nat, t: nat)
    requires Hangs(mem, g, parent, n, t)
    ensures Tbl(mem, Child(parent, n)) == NONE
  {
  }

  /** A new table changes no page of any root. */
  lemma HangPte(mem: Mem, g: Space, parent: Key, n: nat, t: nat, r: nat, v: Vpn)
    requires Owned(mem, g) && Hangs(mem, g, parent, n, t) && Home(g, r, v)
    ensures Pte(HangIn(mem, parent, n, t), r, v) == Pte(mem, r, v)
  {
    var p := Tbl(mem, parent);
    var low := Low(r, v.i, v.j);
    assert p in g.owner && p != t;
    HangEmpty(mem, g, parent, n, t);
    hide Owned, Next, WriteEntry, TablePte, Zero;
    HangTbl(mem, g, parent, n, t, low);
    ZeroEntry(mem, t, v.k);
    Different(mem, g, low, parent);
    EntryAfter(mem, p, n, TablePte(t), Tbl(HangIn(mem, parent, n, t), low), v.k);
  }

  /** It is a user's upper entries that it leaves alone. */
  lemma HangShared(mem: Mem, g: Space, parent: Key, n: nat, t: nat)
    requires Owned(mem, g) && Shared(mem, g) && Hangs(mem, g, parent, n, t)
    ensures Shared(HangIn(mem, parent, n, t), HangSpace(g, parent, n, t))
    ensures forall u: nat, i: nat :: u in g.users && FIRST_SHARED <= i < ENTRIES ==>
                                       Entry(HangIn(mem, parent, n, t), u, i) == Entry(mem, u, i)
  {
    var mem' := HangIn(mem, parent, n, t);
    hide Owned, Next, WriteEntry, TablePte, Zero;
    forall u: nat, i: nat | IsRoot(g, u)
      ensures Entry(mem', u, i) == if Root(u) == parent && i == n then TablePte(t) else Entry(mem, u, i)
    {
      Different(mem, g, Root(u), parent);
      EntryAfter(mem, Tbl(mem, parent), n, TablePte(t), u, i);
    }
  }

  // ----- stores that touch no table

  ghost predicate SameTables(mem: Mem, mem': Mem, g: Space) {
    forall t :: t in g.owner ==> t in mem && t in mem' && mem'[t] == mem[t]
  }

  lemma SameTbl(mem: Mem, mem': Mem, g: Space, key: Key)
    requires Owned(mem, g) && SameTables(mem, mem', g) && Live(g, key)
    ensures Tbl(mem', key) == Tbl(mem, key)
  {
    match key
    case Root(r) =>
    case Mid(r, i) =>
      SameEntries(mem, mem', g, Root(r), i);
    case Low(r, i, j) =>
      SameEntries(mem, mem', g, Root(r), i);
      SameEntries(mem, mem', g, Mid(r, i), j);
  }

  lemma SameEntries(mem: Mem, mem': Mem, g: Space, key: Key, i: nat)
    requires Owned(mem, g) && SameTables(mem, mem', g) && Live(g, key)
    ensures Entry(mem', Tbl(mem, key), i) == Entry(mem, Tbl(mem, key), i)
  {
  }

  lemma SamePte(mem: Mem, mem': Mem, g: Space, r: nat, v: Vpn)
    requires Owned(mem, g) && SameTables(mem, mem', g) && Home(g, r, v)
    ensures Pte(mem', r, v) == Pte(mem, r, v)
  {
    SameTbl(mem, mem', g, Low(r, v.i, v.j));
    SameEntries(mem, mem', g, Low(r, v.i, v.j), v.k);
  }

  lemma SameAll(mem: Mem, mem': Mem, g: Space)
    requires Tables(mem, g) && SameTables(mem, mem', g)
    ensures Tables(mem', g)
    ensures forall r: nat, i: nat :: IsRoot(g, r) ==> Entry(mem', r, i) == Entry(mem, r, i)
  {
    forall r: nat, i: nat | IsRoot(g, r)
      ensures Entry(mem', r, i) == Entry(mem, r, i)
    {
      SameEntries(mem, mem', g, Root(r), i);
    }
    hide Tbl, Live;
    forall key | Live(g, key)
      ensures Tbl(mem', key) == Tbl(mem, key)
    {
      SameTbl(mem, mem', g, key);
    }
  }
}
