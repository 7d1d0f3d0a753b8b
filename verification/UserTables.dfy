/**
 create_user_page_table and free_page_table (kernel/mm/paging.c): the tables a
 process gets, and giving them back.
 */
module UserTables {
  import opened Pmm
  import opened Paging
  import opened TableSet
  import opened AddressSpace

  // ----- creating

  ghost predicate Blank(mem: Mem, g: Space, t: nat) {
    && t in mem && |mem[t]| == ENTRIES
    && (forall i: nat :: i < FIRST_SHARED ==> Entry(mem, t, i) == 0)
    && (forall i: nat :: FIRST_SHARED <= i < ENTRIES ==> Entry(mem, t, i) == Entry(mem, g.kernel, i))
  }

  function WithUser(g: Space, t: nat): Space {
    g.(users := g.users + {t}, owner := g.owner[t := Root(t)])
  }

  lemma BlankTbl(mem: Mem, g: Space, t: nat, key: Key)
    requires Owned(mem, g) && Blank(mem, g, t) && t !in g.owner && t != g.kernel && Live(WithUser(g, t), key)
    ensures key.root == t && !key.Root? ==> Tbl(mem, key) == NONE
    ensures key.root != t ==> Live(g, key)
  {
    NoFrame(mem, if key.Low? then key.j else 0);
  }

  lemma UserAdded(mem: Mem, pm: Pmm, g: Space, t: nat)
    requires Machine(mem, pm, g) && Blank(mem, g, t) && t !in g.owner && t != g.kernel && FrameTaken(pm, t)
    ensures Machine(mem, pm, WithUser(g, t))
  {
    var g' := WithUser(g, t);
    assert Framed(mem, g') && Held(pm, g') && Shared(mem, g');
    assert t !in g.users by {
      assert Live(g, Root(t)) ==> Tbl(mem, Root(t)) in g.owner;
    }
    hide Tbl, Blank, Framed, Held, Shared, FrameTaken;
    forall key | Live(g', key) && Tbl(mem, key) != NONE
      ensures Tbl(mem, key) >= 0 && Tbl(mem, key) in g'.owner && g'.owner[Tbl(mem, key)] == key
    {
      BlankTbl(mem, g, t, key);
      RootTbl(mem, key);
    }
    forall x | x in g'.owner
      ensures Live(g', g'.owner[x]) && Tbl(mem, g'.owner[x]) == x
    {
      RootTbl(mem, g'.owner[x]);
    }
  }

  lemma RootTbl(mem: Mem, key: Key)
    ensures key.Root? ==> Tbl(mem, key) == key.root
  {
  }

  /** A new user sees nothing below and the kernel's pages above. */
  lemma BlankPte(mem: Mem, g: Space, t: nat, v: Vpn)
    requires Blank(mem, g, t) && v.i < ENTRIES
    ensures Pte(mem, t, v) == if v.i < FIRST_SHARED then 0 else Pte(mem, g.kernel, v)
  {
    NoFrame(mem, v.j);
    NoFrame(mem, v.k);
  }

  /** And has no tables yet. */
  lemma BlankHas(mem: Mem, g: Space, g': Space, t: nat)
    requires Blank(mem, g, t) && g' == WithUser(g, t) && t != g.kernel
    ensures HasExactly(mem, g', t, {})
  {
    forall key | Live(g', key) && !key.Root? && key.root == t
      ensures Tbl(mem, key) == NONE && !Stuck(mem, key)
    {
      assert Entry(mem, t, key.i) == 0;
      NoFrame(mem, if key.Low? then key.j else 0);
    }
  }

  // ----- the device pages every user table maps for the kernel

  const UART0: nat := 0x1000_0000
  const VIRTIO: nat := 0x1000_1000
  const CLINT: nat := 0x200_0000
  const DEVICES: nat := 10
  const KERNEL_DATA: nat := 7

  /** The n-th page mapped: the UART, the eight VirtIO pages, the CLINT. */
  function Device(n: nat): nat {
    if n == 0 then UART0 else if n <= 8 then VIRTIO + (n - 1) * PAGE else CLINT
  }

  function DeviceVpn(n: nat): Vpn {
    if n <= 8 then Vpn(0, 128, n) else Vpn(0, 16, 0)
  }

  lemma DeviceAt(n: nat)
    requires n < DEVICES
    ensures Device(n) % PAGE == 0 && VpnOf(Device(n)) == DeviceVpn(n)
  {
  }

  /** A page below index 2 once the first n devices are mapped. */
  function DevicePte(n: nat, v: Vpn): nat {
    if v.i == 0 && v.j == 128 && v.k <= 8 && v.k < n then MakePte(Device(v.k), KERNEL_DATA)
    else if v == Vpn(0, 16, 0) && n >= DEVICES then MakePte(Device(9), KERNEL_DATA)
    else 0
  }

  lemma DeviceStep(n: nat, v: Vpn)
    requires n < DEVICES
    ensures DevicePte(n + 1, v) == if v == DeviceVpn(n) then MakePte(Device(n), KERNEL_DATA) else DevicePte(n, v)
    ensures DevicePte(n, DeviceVpn(n)) == 0
  {
    hide MakePte;
    assert n <= 8 || n == 9;
  }

  /** The UART, the VirtIO pages and the CLINT are mapped where they are, for the kernel to read and write. */
  lemma DeviceIdentity(n: nat)
    requires n < 10
    ensures var a := if n <= 8 then 0x1000_0000 + n * 0x1000 else 0x200_0000;
            && DevicePte(10, VpnOf(a)) == a / 0x1000 * 1024 + 7
            && Ppn(DevicePte(10, VpnOf(a))) * 0x1000 == a
  {
    DeviceAt(n);
    var a := if n <= 8 then 0x1000_0000 + n * 0x1000 else 0x200_0000;
    assert Device(n) == a;
    PteRoundTrip(a, KERNEL_DATA);
  }

  /** The view of user t during its creation: devices below, the kernel above; the others as before. */
  ghost predicate Started(mem: Mem, mem': Mem, g: Space, g': Space, t: nat, n: nat) {
    && (forall v :: Home(g', t, v) ==> Pte(mem', t, v) == DevicePte(n, v))
    && (forall i: nat :: FIRST_SHARED <= i < ENTRIES ==> Entry(mem', t, i) == Entry(mem, g.kernel, i))
    && SameView(mem, mem', g)
  }

  lemma StartedNext(mem: Mem, mem1: Mem, mem2: Mem, g: Space, g1: Space, t: nat, n: nat)
    requires Started(mem, mem1, g, g1, t, n) && n < DEVICES
    requires g1.kernel == g.kernel && g1.users == g.users + {t} && t !in g.users && t != g.kernel
    requires Remaps(mem1, mem2, g1, t, DeviceVpn(n), MakePte(Device(n), KERNEL_DATA))
    ensures Started(mem, mem2, g, g1, t, n + 1)
  {
    hide Pte, Entry, MakePte, DevicePte, Device;
    forall v | Home(g1, t, v)
      ensures Pte(mem2, t, v) == DevicePte(n + 1, v)
    {
      DeviceStep(n, v);
    }
    forall r: nat, v | Home(g, r, v)
      ensures Pte(mem2, r, v) == Pte(mem, r, v)
    {
      assert Home(g1, r, v);
    }
  }

  lemma StartedSame(mem: Mem, mem': Mem, g: Space, g1: Space, g2: Space, t: nat, n: nat)
    requires Started(mem, mem', g, g1, t, n) && g2.kernel == g1.kernel && g2.users == g1.users
    ensures Started(mem, mem', g, g2, t, n)
  {
    hide Pte, Entry, DevicePte, SameView;
    assert forall v :: Home(g2, t, v) ==> Home(g1, t, v);
  }

  lemma DeviceAbsent(mem: Mem, mem': Mem, g: Space, g': Space, t: nat, n: nat)
    requires Started(mem, mem', g, g', t, n) && n < DEVICES && t in g'.users
    ensures Home(g', t, DeviceVpn(n)) && Pte(mem', t, DeviceVpn(n)) == 0
  {
    hide Pte, Entry;
    DeviceStep(n, DeviceVpn(n));
    assert Home(g', t, DeviceVpn(n));
  }

  /** Every user page, below and above, once creation is over. */
  lemma NewUserView(mem: Mem, mem': Mem, g: Space, g': Space, t: nat, v: Vpn)
    requires Started(mem, mem', g, g', t, DEVICES) && Shared(mem', g') && t in g'.users && g'.kernel == g.kernel
    requires InRange(v)
    ensures Pte(mem', t, v) == if v.i < FIRST_SHARED then DevicePte(DEVICES, v) else Pte(mem, g.kernel, v)
  {
    if v.i < FIRST_SHARED {
      assert Home(g', t, v);
    } else {
      UserAbove(mem', g', t, v);
      assert Home(g, g.kernel, v);
      if !IsValid(Entry(mem, g.kernel, v.i)) {
        NoFrame(mem, v.j);
        NoFrame(mem, v.k);
      }
    }
  }

  /** The loop that copies the kernel's upper root entries. */
  method CopyRoot(mem: Mem, kernel: nat, t: nat) returns (mem': Mem)
    requires t in mem && |mem[t]| == ENTRIES && t != kernel
    requires forall i: nat :: i < FIRST_SHARED ==> Entry(mem, t, i) == 0
    ensures OnlyFrame(mem, mem', t)
    ensures forall i: nat :: i < FIRST_SHARED ==> Entry(mem', t, i) == 0
    ensures forall i: nat :: FIRST_SHARED <= i < ENTRIES ==> Entry(mem', t, i) == Entry(mem', kernel, i)
  {
    mem' := mem;
    var i: nat := FIRST_SHARED;
    while i < ENTRIES
      invariant FIRST_SHARED <= i <= ENTRIES && OnlyFrame(mem, mem', t)
      invariant forall k: nat :: Entry(mem', kernel, k) == Entry(mem, kernel, k)
      invariant forall k: nat :: k < FIRST_SHARED ==> Entry(mem', t, k) == 0
      invariant forall k: nat :: FIRST_SHARED <= k < i ==> Entry(mem', t, k) == Entry(mem, kernel, k)
    {
      forall x: nat, k: nat
        ensures Entry(WriteEntry(mem', t, i, Entry(mem', kernel, i)), x, k) ==
                if x == t && k == i then Entry(mem', kernel, i) else Entry(mem', x, k)
      {
        EntryAfter(mem', t, i, Entry(mem', kernel, i), x, k);
      }
      mem' := WriteEntry(mem', t, i, Entry(mem', kernel, i));
      i := i + 1;
    }
  }

  lemma OnlyFrameTwice(mem: Mem, mem1: Mem, mem2: Mem, t: nat)
    requires OnlyFrame(mem, mem1, t) && OnlyFrame(mem1, mem2, t)
    ensures OnlyFrame(mem, mem2, t)
  {
  }

  /** The root alone, before any device is mapped. */
  method NewRoot(mem: Mem, pm: Pmm, kernel: nat, ghost g: Space)
    returns (mem': Mem, pm': Pmm, t: int, ghost g': Space)
    requires Machine(mem, pm, g) && kernel == g.kernel
    ensures t == NONE <==> pm.free == 0
    ensures t == NONE ==> mem' == mem && pm' == pm && g' == g
    ensures t != NONE ==> && t >= 0 && t !in g.owner && t !in g.users && t != g.kernel && !FrameTaken(pm, t)
                          && g' == WithUser(g, t) && Machine(mem', pm', g') && Grew(mem, pm, g, mem', pm', g')
                          && Started(mem, mem', g, g', t, 0)
                          && HasExactly(mem', g', t, {}) && pm'.free == pm.free - 1
  {
    hide Pte, Owned, Shared, Held, FrameTaken, Consistent, Live, SameView, HasExactly;
    g' := g;
    mem', pm', t := AllocTable(mem, pm, g);
    if t == NONE {
      return;
    }
    NotUser(mem, g, t);
    ghost var mem1 := mem';
    FreshAgain(mem, pm, g, mem1, pm', t);
    mem' := CopyRoot(mem', kernel, t);
    OnlyFrameTwice(mem, mem1, mem', t);
    FreshMachine(mem, pm, g, mem', pm', t);
    TurnsTaken(pm, pm', t);
    UserAdded(mem', pm', g, t);
    g' := WithUser(g, t);
    assert Grew(mem, pm, g, mem', pm', g');
    BlankHas(mem', g, g', t);
    hide Entry;
    forall v | Home(g', t, v)
      ensures Pte(mem', t, v) == DevicePte(0, v)
    {
      BlankPte(mem', g, t, v);
    }
  }

  lemma NotUser(mem: Mem, g: Space, t: nat)
    requires Owned(mem, g) && t !in g.owner
    ensures t !in g.users
  {
    assert Live(g, Root(t)) ==> Tbl(mem, Root(t)) in g.owner;
  }

  lemma FreshAgain(mem: Mem, pm: Pmm, g: Space, mem': Mem, pm': Pmm, t: nat)
    requires Zero(mem', t) && Turns(pm, pm', t, true) && !FrameTaken(pm, t)
    ensures Managed(pm, t) && t in mem' && |mem'[t]| == ENTRIES
  {
    assert FrameTaken(pm', t);
  }

  lemma TurnsTaken(pm: Pmm, pm': Pmm, t: nat)
    requires Turns(pm, pm', t, true)
    ensures FrameTaken(pm', t)
  {
  }

  /** The pages of the first n devices. */
  ghost function Devices(n: nat): set<Vpn> { set k | 0 <= k < n :: DeviceVpn(k) }

  lemma DevicesNext(n: nat)
    ensures Devices(n + 1) == Devices(n) + {DeviceVpn(n)}
  {
    hide DeviceVpn;
  }

  lemma NoDevices()
    ensures Devices(0) == {}
  {
  }

  /** All of them together take three tables. */
  lemma DeviceSpots(t: nat)
    ensures Spots(t, Devices(DEVICES)) == {Mid(t, 0), Low(t, 0, 128), Low(t, 0, 16)}
    ensures |Spots(t, Devices(DEVICES))| == 3
  {
    var vpns := Devices(DEVICES);
    assert DeviceVpn(0) == Vpn(0, 128, 0) && DeviceVpn(9) == Vpn(0, 16, 0);
    assert Vpn(0, 128, 0) in vpns && Vpn(0, 16, 0) in vpns;
    assert forall v :: v in vpns ==> v.i == 0 && (v.j == 128 || v.j == 16);
  }

  lemma FewerDevices(t: nat, n: nat)
    requires n <= DEVICES
    ensures |Spots(t, Devices(n))| <= 3
  {
    hide DeviceVpn, Spots;
    DeviceSpots(t);
    SpotsLess(t, Devices(n), Devices(DEVICES));
    var all, some := Spots(t, Devices(DEVICES)), Spots(t, Devices(n));
    assert some + (all - some) == all;
  }

  /**
   create_user_page_table: it takes four frames, and fails exactly when there are fewer.
   The new root maps the devices below index 2 and nothing else there, and sees the
   kernel's pages above; every other root is as before.
   */
  method CreateUser(mem: Mem, pm: Pmm, kernel: nat, ghost g: Space)
    returns (mem': Mem, pm': Pmm, t: int, ghost g': Space)
    requires Machine(mem, pm, g) && kernel == g.kernel
    ensures Machine(mem', pm', g') && SameView(mem, mem', g) && Grew(mem, pm, g, mem', pm', g')
    ensures g'.kernel == g.kernel && g.users <= g'.users
    ensures t == NONE <==> pm.free < 4
    ensures t != NONE ==> t >= 0 && pm'.free == pm.free - 4 && HasExactly(mem', g', t, Devices(DEVICES))
    ensures t != NONE ==> && t >= 0 && !FrameTaken(pm, t) && t !in g.users && t != g.kernel && g'.users == g.users + {t}
                          && forall v :: InRange(v) ==>
                               Pte(mem', t, v) ==
                               if v.i < FIRST_SHARED then DevicePte(DEVICES, v) else Pte(mem, g.kernel, v)
  {
    hide Pte, Entry, Owned, Shared, Held, FrameTaken, Consistent, SameView, Started, Grew, WithUser, Device, DevicePte,
         DeviceVpn, HasExactly, Devices, Spots, Gaps, Adds, Missing, Blocked;
    mem', pm', t, g' := NewRoot(mem, pm, kernel, g);
    if t == NONE {
      GrowsNot(mem, pm, g);
      return;
    }
    assert g'.kernel == g.kernel && g'.users == g.users + {t} by { Joined(g, t); }
    var n: nat := 0;
    NoDevices();
    SpotsNone(t);
    while n < DEVICES
      invariant HasExactly(mem', g', t, Devices(n)) && pm'.free + 1 + |Spots(t, Devices(n))| == pm.free
      invariant n <= DEVICES && Machine(mem', pm', g') && Started(mem, mem', g, g', t, n)
      invariant Grew(mem, pm, g, mem', pm', g') && g'.kernel == g.kernel && g'.users == g.users + {t}
    {
      DeviceAt(n);
      DeviceAbsent(mem, mem', g, g', t, n);
      var status;
      ghost var mem1, pm1, g1 := mem', pm', g';
      DevicesNext(n);
      FewerDevices(t, n + 1);
      GapsLeft(mem', g', t, Devices(n), DeviceVpn(n));
      BlockedStuck(mem', t, DeviceVpn(n));
      GapsMissing(mem', t, DeviceVpn(n));
      mem', pm', status, g' := MapPage(mem', pm', t, Device(n), Device(n), KERNEL_DATA, g');
      GrewTwice(mem, pm, g, mem1, pm1, g1, mem', pm', g');
      GrowsSame(mem1, pm1, g1, mem', pm', g');
      if status != Done {
        StartedView(mem, mem1, g, g1, t, n);
        MoreRoots(mem1, mem', g, g1, t);
        SameViewTwice(mem, mem1, mem', g);
        return mem', pm', NONE, g';
      }
      StartedNext(mem, mem1, mem', g, g1, t, n);
      HasMore(mem1, mem', g1, g', t, Devices(n), DeviceVpn(n));
      StartedSame(mem, mem', g, g1, g', t, n + 1);
      n := n + 1;
    }
    StartedView(mem, mem', g, g', t, n);
    DeviceSpots(t);
    forall v | InRange(v)
      ensures Pte(mem', t, v) == if v.i < FIRST_SHARED then DevicePte(DEVICES, v) else Pte(mem, g.kernel, v)
    {
      NewUserView(mem, mem', g, g', t, v);
    }
  }

  lemma Joined(g: Space, t: nat)
    ensures WithUser(g, t).kernel == g.kernel && WithUser(g, t).users == g.users + {t}
  {
  }

  lemma StartedView(mem: Mem, mem': Mem, g: Space, g': Space, t: nat, n: nat)
    requires Started(mem, mem', g, g', t, n)
    ensures SameView(mem, mem', g)
  {
  }

  lemma MoreRoots(mem: Mem, mem': Mem, g: Space, g': Space, t: nat)
    requires g'.kernel == g.kernel && g'.users == g.users + {t} && SameView(mem, mem', g')
    ensures SameView(mem, mem', g)
  {
    hide Pte, Entry;
    assert forall r: nat, v :: Home(g, r, v) ==> Home(g', r, v);
  }

  // ----- giving back

  /** The tables of root r that are behind (i, j) in the order they are freed. */
  predicate Gone(r: nat, i: nat, j: nat, key: Key) {
    match key
    case Root(q) => false
    case Mid(q, a) => q == r && a < i
    case Low(q, a, b) => q == r && (a < i || (a == i && b < j))
  }

  /** pm' is pm without the frames of those tables, and with all others. */
  ghost predicate FreedTo(pm: Pmm, pm': Pmm, g: Space, r: nat, i: nat, j: nat) {
    && Consistent(pm') && pm'.start == pm.start && pm'.total == pm.total
    && forall t: nat :: FrameTaken(pm', t) <==> FrameTaken(pm, t) && !(t in g.owner && Gone(r, i, j, g.owner[t]))
  }

  /** What the free of the next table does, given that it is there and not yet gone. */
  lemma FreesNext(mem: Mem, pm: Pmm, pm1: Pmm, pm2: Pmm, g: Space, r: nat, i: nat, j: nat, i': nat, j': nat, key: Key)
    requires Owned(mem, g) && Held(pm, g) && Live(g, key) && key.root == r && r != g.kernel && Tbl(mem, key) >= 0
    requires FreedTo(pm, pm1, g, r, i, j) && Consistent(pm2) && !Gone(r, i, j, key)
    requires forall k :: Live(g, k) ==> (Gone(r, i', j', k) <==> Gone(r, i, j, k) || k == key)
    requires FrameTaken(pm1, Tbl(mem, key)) ==> Turns(pm1, pm2, Tbl(mem, key), false)
    ensures FrameTaken(pm1, Tbl(mem, key)) && FreedTo(pm, pm2, g, r, i', j')
  {
    hide FrameTaken, Gone, Live;
    var t := Tbl(mem, key);
    assert t in g.owner && g.owner[t] == key;
    assert t != g.kernel by { KernelRoot(mem, g); }
  }

  lemma KernelRoot(mem: Mem, g: Space)
    requires Owned(mem, g)
    ensures g.kernel in g.owner && g.owner[g.kernel] == Root(g.kernel)
  {
    assert Live(g, Root(g.kernel)) && Tbl(mem, Root(g.kernel)) == g.kernel;
  }

  lemma SkipsNext(mem: Mem, pm: Pmm, pm1: Pmm, g: Space, r: nat, i: nat, j: nat, i': nat, j': nat, key: Key)
    requires Owned(mem, g) && Tbl(mem, key) == NONE && FreedTo(pm, pm1, g, r, i, j)
    requires forall k :: Live(g, k) ==> (Gone(r, i', j', k) <==> Gone(r, i, j, k) || k == key)
    ensures FreedTo(pm, pm1, g, r, i', j')
  {
    hide FrameTaken, Gone, Live, Consistent;
  }

  /** The leaf tables below one middle table: each entry that leads to a table frees it. */
  method FreeLows(mem: Mem, pm: Pmm, t: nat, ghost pm0: Pmm, ghost r: nat, ghost i: nat, ghost g: Space)
    returns (pm': Pmm)
    requires Owned(mem, g) && Held(pm0, g) && r in g.users && r != g.kernel && i < FIRST_SHARED
    requires t == Tbl(mem, Mid(r, i)) && FreedTo(pm0, pm, g, r, i, 0)
    ensures FreedTo(pm0, pm', g, r, i, ENTRIES)
  {
    hide Owned, Held, FreedTo, FrameTaken;
    pm' := pm;
    var j: nat := 0;
    while j < ENTRIES
      invariant j <= ENTRIES && FreedTo(pm0, pm', g, r, i, j)
    {
      var e := Entry(mem, t, j);
      ghost var key := Low(r, i, j);
      ghost var pm1 := pm';
      ChildTable(mem, Mid(r, i), j);
      if IsValid(e) && !IsLeaf(e) {
        NextStep(e);
        pm' := Release(pm', Ppn(e), pm0, g, r, i, j);
        FreesNext(mem, pm0, pm1, pm', g, r, i, j, i, j + 1, key);
      } else {
        SkipsNext(mem, pm0, pm', g, r, i, j, i, j + 1, key);
      }
      j := j + 1;
    }
  }

  method Release(pm: Pmm, t: nat, ghost pm0: Pmm, ghost g: Space, ghost r: nat, ghost i: nat, ghost j: nat)
    returns (pm': Pmm)
    requires FreedTo(pm0, pm, g, r, i, j)
    ensures Consistent(pm')
    ensures FrameTaken(pm, t) ==> Turns(pm, pm', t, false)
    ensures !FrameTaken(pm, t) ==> pm' == pm
  {
    hide FrameTaken, Gone;
    pm' := FreeFrame(pm, t);
  }

  /** Root r and its tables are no longer part of the space. */
  function Without(g: Space, r: nat): Space {
    Space(g.kernel, g.users - {r}, map t | t in g.owner && g.owner[t].root != r :: g.owner[t])
  }

  lemma RootRemoved(mem: Mem, pm: Pmm, pm': Pmm, g: Space, r: nat)
    requires Machine(mem, pm, g) && r in g.users && r != g.kernel && Consistent(pm')
    requires pm'.start == pm.start && pm'.total == pm.total
    requires forall t: nat :: FrameTaken(pm', t) <==> FrameTaken(pm, t) && !(t in g.owner && g.owner[t].root == r)
    ensures Machine(mem, pm', Without(g, r))
  {
    hide FrameTaken, Tbl, Consistent;
    var g' := Without(g, r);
    assert forall t: nat :: Managed(pm', t) == Managed(pm, t);
    forall key | Live(g', key)
      ensures Live(g, key) && key.root != r
    {
    }
    forall t | t in g'.owner
      ensures Live(g', g'.owner[t])
    {
      assert Live(g, g.owner[t]);
    }
  }

  /** Freed to the end, root included. */
  lemma AllGone(mem: Mem, pm: Pmm, pm1: Pmm, pm2: Pmm, g: Space, r: nat)
    requires Owned(mem, g) && Held(pm, g) && r in g.users && r != g.kernel
    requires FreedTo(pm, pm1, g, r, FIRST_SHARED, 0) && Consistent(pm2)
    requires FrameTaken(pm1, r) ==> Turns(pm1, pm2, r, false)
    ensures FrameTaken(pm1, r) && pm2.start == pm.start && pm2.total == pm.total
    ensures forall t: nat :: FrameTaken(pm2, t) <==> FrameTaken(pm, t) && !(t in g.owner && g.owner[t].root == r)
  {
    hide FrameTaken, Consistent;
    assert Live(g, Root(r)) && Tbl(mem, Root(r)) == r;
    forall t | t in g.owner
      ensures g.owner[t].root == r <==> g.owner[t] == Root(r) || Gone(r, FIRST_SHARED, 0, g.owner[t])
    {
      assert Live(g, g.owner[t]);
    }
  }

  /**
   free_page_table: each table that is the user's own is given back once, while it
   is still handed out; no frame of the kernel, of another user or of a mapped page is.
   */
  method FreeTables(mem: Mem, pm: Pmm, root: int, kernel: nat, ghost g: Space) returns (pm': Pmm)
    requires Machine(mem, pm, g) && kernel == g.kernel
    requires root == NONE || (root >= 0 && IsRoot(g, root))
    ensures root == NONE || root == kernel ==> pm' == pm
    ensures root != NONE && root != kernel ==>
              && Machine(mem, pm', Without(g, root))
              && forall t: nat :: FrameTaken(pm', t) <==>
                 FrameTaken(pm, t) && !(t in g.owner && g.owner[t].root == root)
  {
    pm' := pm;
    if root == NONE || root == kernel {
      return;
    }
    assert FreedTo(pm, pm', g, root, 0, 0);
    hide Owned, Held, FreedTo, FrameTaken, Consistent, Shared, Framed, Ram, Without;
    var i: nat := 0;
    while i < FIRST_SHARED
      invariant i <= FIRST_SHARED && FreedTo(pm, pm', g, root, i, 0)
    {
      var e := Entry(mem, root, i);
      ghost var key := Mid(root, i);
      ChildTable(mem, Root(root), i);
      if IsValid(e) && !IsLeaf(e) {
        NextStep(e);
        pm' := FreeLows(mem, pm', Ppn(e), pm, root, i, g);
        ghost var pm1 := pm';
        pm' := Release(pm', Ppn(e), pm, g, root, i, ENTRIES);
        FreesNext(mem, pm, pm1, pm', g, root, i, ENTRIES, i + 1, 0, key);
      } else {
        NoLows(mem, pm, pm', g, root, i);
        SkipsNext(mem, pm, pm', g, root, i, ENTRIES, i + 1, 0, key);
      }
      i := i + 1;
    }
    ghost var pm1 := pm';
    pm' := Release(pm', root, pm, g, root, FIRST_SHARED, 0);
    AllGone(mem, pm, pm1, pm', g, root);
    RootRemoved(mem, pm, pm', g, root);
  }

  /** Without a middle table there are no leaf tables below it. */
  lemma NoLows(mem: Mem, pm: Pmm, pm': Pmm, g: Space, r: nat, i: nat)
    requires Owned(mem, g) && Tbl(mem, Mid(r, i)) == NONE && FreedTo(pm, pm', g, r, i, 0)
    ensures FreedTo(pm, pm', g, r, i, ENTRIES)
  {
    hide FrameTaken, Consistent;
    forall t | t in g.owner
      ensures !(g.owner[t].Low? && g.owner[t].root == r && g.owner[t].i == i)
    {
      if g.owner[t].Low? && g.owner[t].root == r && g.owner[t].i == i {
        NoFrame(mem, g.owner[t].j);
      }
    }
  }
}
