/**
 kmalloc and kfree (kernel/mm/kmalloc.c): page runs with a header at the front.

 The properties are those a caller relies on: blocks in use never overlap, each
 is large enough for what was asked, and freeing one, in any order, gives back
 exactly its own pages.
 */
module Kmalloc {
  import opened Bytes
  import opened Pmm

  const HEADER: nat := 24
  const MAGIC: nat := 0xDEADBEEF
  const U64: nat := 0x1_0000_0000_0000_0000

  datatype Header = Header(size: nat, pages: nat, magic: nat)

  /** Pages asked for, with size_t arithmetic. */
  function PagesNeeded(size: nat): nat {
    ((size + HEADER) % U64 + PAGE - 1) % U64 / PAGE
  }

  /** The run holds header and data exactly when the size_t sums did not wrap. */
  lemma PagesSuffice(size: nat)
    requires 0 < size < U64
    ensures size + HEADER <= PagesNeeded(size) * PAGE <==> size + HEADER + PAGE - 1 < U64
  {
    if size + HEADER < U64 {
      assert (size + HEADER) % U64 == size + HEADER;
    } else {
      assert (size + HEADER) % U64 == size + HEADER - U64;
    }
  }

  /** And then it is no page too long. */
  lemma PagesLeast(size: nat)
    requires 0 < size && size + 24 + 4095 < U64
    ensures (PagesNeeded(size) - 1) * 4096 < size + 24 <= PagesNeeded(size) * 4096
  {
    assert (size + HEADER) % U64 == size + HEADER;
  }

  /** A size that wraps: a single page is handed out for almost 2^64 bytes. */
  lemma WrappedSize()
    ensures PagesNeeded(U64 - 1) == 1
  {
  }

  /** The pages of the blocks in use; live maps a block's first page to its length. */
  ghost predicate InBlock(live: map<nat, nat>, p: nat, x: nat) {
    p in live && p <= x < p + live[p]
  }

  /** Every page handed out belongs to exactly one block, or to the rest of the kernel. */
  ghost predicate Accounts(pm: Pmm, live: map<nat, nat>, others: set<nat>) {
    && (forall p :: p in live ==> 0 < live[p] && p + live[p] <= pm.total)
    && (forall p, x :: InBlock(live, p, x) ==> Bit(pm.bitmap, x) && x !in others)
    && (forall p, q, x :: InBlock(live, p, x) && InBlock(live, q, x) ==> p == q)
    && (forall x: nat :: Taken(pm, x) ==> x in others || exists p :: InBlock(live, p, x))
    && (forall x :: x in others ==> Taken(pm, x))
  }

  /** Two blocks in use have no byte in common. */
  lemma BlocksDisjoint(pm: Pmm, live: map<nat, nat>, others: set<nat>, p: nat, q: nat)
    requires Accounts(pm, live, others) && p in live && q in live && p < q
    ensures Addr(pm, p) + live[p] * PAGE <= Addr(pm, q)
  {
    assert InBlock(live, q, q);
    assert !InBlock(live, p, q);
  }

  lemma Added(pm: Pmm, pm': Pmm, live: map<nat, nat>, others: set<nat>, p: nat, n: nat)
    requires Accounts(pm, live, others) && n > 0 && FreeRun(pm, p, n) && Ran(pm, pm', p, n, true)
    ensures p !in live && Accounts(pm', live[p := n], others)
    ensures pm'.start == pm.start
  {
    if p in live {
      assert InBlock(live, p, p);
      assert false;
    }
    var live' := live[p := n];
    forall q, x | InBlock(live', q, x)
      ensures Bit(pm'.bitmap, x) && x !in others
    {
      assert q != p ==> InBlock(live, q, x);
    }
    forall q, r, x | InBlock(live', q, x) && InBlock(live', r, x)
      ensures q == r
    {
      assert q != p ==> InBlock(live, q, x);
      assert r != p ==> InBlock(live, r, x);
    }
    forall x: nat | Taken(pm', x)
      ensures x in others || exists q :: InBlock(live', q, x)
    {
      if p <= x < p + n {
        assert InBlock(live', p, x);
      } else {
        assert Taken(pm, x);
        if x !in others {
          var q :| InBlock(live, q, x);
          assert InBlock(live', q, x);
        }
      }
    }
  }

  lemma Removed(pm: Pmm, pm': Pmm, live: map<nat, nat>, others: set<nat>, p: nat)
    requires Accounts(pm, live, others) && p in live && Ran(pm, pm', p, live[p], false)
    ensures Accounts(pm', live - {p}, others)
    ensures pm'.start == pm.start
  {
    var live' := live - {p};
    forall q, x | InBlock(live', q, x)
      ensures Bit(pm'.bitmap, x) && x !in others
    {
      assert InBlock(live, q, x);
      assert !InBlock(live, p, x);
    }
    forall q, r, x | InBlock(live', q, x) && InBlock(live', r, x)
      ensures q == r
    {
      assert InBlock(live, q, x) && InBlock(live, r, x);
    }
    forall x: nat | Taken(pm', x)
      ensures x in others || exists q :: InBlock(live', q, x)
    {
      assert Taken(pm, x) && !(p <= x < p + live[p]);
      if x !in others {
        var q :| InBlock(live, q, x);
        assert InBlock(live', q, x);
      }
    }
    forall x | x in others
      ensures Taken(pm', x)
    {
      assert Taken(pm, x);
      assert !InBlock(live, p, x);
    }
  }

  lemma BlockTaken(pm: Pmm, live: map<nat, nat>, others: set<nat>, p: nat)
    requires Accounts(pm, live, others) && p in live
    ensures p + live[p] <= pm.total
    ensures forall x :: p <= x < p + live[p] ==> Bit(pm.bitmap, x)
  {
    forall x | p <= x < p + live[p]
      ensures Bit(pm.bitmap, x)
    {
      assert InBlock(live, p, x);
    }
  }

  /** With nothing in use the pages handed out are the ones the others hold. */
  lemma AllReturned(pm: Pmm, others: set<nat>, x: nat)
    requires Accounts(pm, map[], others)
    ensures Taken(pm, x) <==> x in others
  {
    assert forall p :: !InBlock(map[], p, x);
  }

  class Heap {
    var pm: Pmm
    var headers: map<nat, Header>
    ghost var live: map<nat, nat>
    ghost var others: set<nat>

    ghost predicate Valid()
      reads this
    {
      && Consistent(pm)
      && Accounts(pm, live, others)
      && forall p :: p in live ==>
        && Addr(pm, p) in headers
        && headers[Addr(pm, p)].pages == live[p] && headers[Addr(pm, p)].magic == MAGIC
    }

    /** A heap over an allocator whose pages in use are held by others. */
    constructor (pm: Pmm)
      requires Consistent(pm)
      ensures Valid() && this.pm == pm && live == map[]
    {
      this.pm := pm;
      headers := map[];
      live := map[];
      others := set x: nat | x < pm.total && Bit(pm.bitmap, x);
    }

    /** kmalloc. */
    method Alloc(size: nat) returns (ptr: nat)
      requires Valid() && size < U64
      modifies this
      ensures Valid() && others == old(others)
      ensures ptr == 0 <==>
              size == 0 || PagesNeeded(size) == 0 || forall p: nat :: !FreeRun(old(pm), p, PagesNeeded(size))
      ensures ptr == 0 ==> pm == old(pm) && live == old(live) && headers == old(headers)
      ensures ptr != 0 ==> exists p: nat ::
                             && ptr == Addr(old(pm), p) + HEADER && p !in old(live)
                             && live == old(live)[p := PagesNeeded(size)]
                             && Ran(old(pm), pm, p, PagesNeeded(size), true)
                             && headers == old(headers)[Addr(old(pm), p) := Header(size, PagesNeeded(size), MAGIC)]
    {
      hide Accounts, Consistent, FreeRun, Ran, PagesNeeded;
      if size == 0 {
        return 0;
      }
      var n := PagesNeeded(size);
      var pm', addr := AllocPages(pm, n);
      if addr == 0 {
        return 0;
      }
      ghost var p: nat :| addr == Addr(pm, p) && FreeRun(pm, p, n) && Ran(pm, pm', p, n, true);
      Added(pm, pm', live, others, p, n);
      headers := headers[addr := Header(size, n, MAGIC)];
      live := live[p := n];
      pm := pm';
      ptr := addr + HEADER;
    }

    /** kfree of NULL or of the block that starts at page p; its header is intact. */
    method Free(ptr: nat, ghost p: nat)
      requires Valid() && (ptr == 0 || (p in live && ptr == Addr(pm, p) + HEADER))
      modifies this`pm, this`live
      ensures Valid()
      ensures ptr == 0 ==> pm == old(pm) && live == old(live)
      ensures ptr != 0 ==> live == old(live) - {p} && Ran(old(pm), pm, p, old(live)[p], false)
    {
      hide Accounts, Consistent, Ran;
      if ptr == 0 {
        return;
      }
      var addr := ptr - HEADER;
      var header := headers[addr];
      assert header.magic == MAGIC;
      BlockTaken(pm, live, others, p);
      var pm' := FreePages(pm, addr, header.pages, p);
      Removed(pm, pm', live, others, p);
      pm := pm';
      live := live - {p};
    }
  }
}
