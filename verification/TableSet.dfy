/**
 Which page tables there are (kernel/mm/paging.c:43-86), counted: the tables a walk
 has to make for a page, and what making them adds.
 */
module TableSet {
  import opened Paging

  /** The entry that points to a table, or would. */
  function Above(mem: Mem, key: Key): nat {
    match key
    case Root(_) => 0
    case Mid(r, i) => Entry(mem, r, i)
    case Low(r, i, j) => Entry(mem, Table1(mem, r, i), j)
  }

  /** A leaf entry stands where the table would hang. */
  predicate Stuck(mem: Mem, key: Key) { IsValid(Above(mem, key)) && IsLeaf(Above(mem, key)) }

  /** Exactly these tables were added, and the leaf entries in the way of tables are the same. */
  ghost predicate Adds(mem: Mem, mem': Mem, g: Space, keys: set<Key>) {
    forall key :: Live(g, key) ==>
      && (Tbl(mem', key) != NONE <==> Tbl(mem, key) != NONE || key in keys)
      && (Stuck(mem', key) <==> Stuck(mem, key))
  }

  lemma AddsNone(mem: Mem, g: Space)
    ensures Adds(mem, mem, g, {})
  {
  }

  lemma AddsTwice(mem: Mem, mem1: Mem, mem2: Mem, g: Space, g1: Space, a: set<Key>, b: set<Key>)
    requires Adds(mem, mem1, g, a) && Adds(mem1, mem2, g1, b) && g1.kernel == g.kernel && g1.users == g.users
    ensures Adds(mem, mem2, g, a + b)
  {
    hide Tbl, Stuck;
    assert forall key :: Live(g, key) <==> Live(g1, key);
  }

  /** Stores into frames that are no tables. */
  lemma SameAdds(mem: Mem, mem': Mem, g: Space)
    requires Owned(mem, g) && SameTables(mem, mem', g)
    ensures Adds(mem, mem', g, {})
  {
    hide Owned, SameTables, Live;
    forall key | Live(g, key)
      ensures Tbl(mem', key) == Tbl(mem, key) && Above(mem', key) == Above(mem, key)
    {
      SameTbl(mem, mem', g, key);
      SameAbove(mem, mem', g, key);
    }
  }

  lemma SameAbove(mem: Mem, mem': Mem, g: Space, key: Key)
    requires Owned(mem, g) && SameTables(mem, mem', g) && Live(g, key)
    ensures Above(mem', key) == Above(mem, key)
  {
    hide Owned, SameTables;
    match key
    case Root(_) =>
    case Mid(r, i) => SameEntries(mem, mem', g, Root(r), i);
    case Low(r, i, j) =>
      SameTbl(mem, mem', g, Mid(r, i));
      SameEntries(mem, mem', g, Mid(r, i), j);
  }

  /** A store into a leaf word. */
  lemma LowStoreAdds(mem: Mem, g: Space, low: Key, k: nat, e: nat)
    requires Owned(mem, g) && Live(g, low) && low.Low?
    requires Tbl(mem, low) >= 0 && Tbl(mem, low) in mem && k < |mem[Tbl(mem, low)]|
    ensures Adds(mem, WriteEntry(mem, Tbl(mem, low), k, e), g, {})
  {
    hide Owned, Live, WriteEntry, Next;
    var mem' := WriteEntry(mem, Tbl(mem, low), k, e);
    forall key | Live(g, key)
      ensures Tbl(mem', key) == Tbl(mem, key) && Above(mem', key) == Above(mem, key)
    {
      LowStore(mem, g, low, k, e, key);
      LowStoreAbove(mem, g, low, k, e, key);
    }
  }

  lemma LowStoreAbove(mem: Mem, g: Space, low: Key, k: nat, e: nat, key: Key)
    requires Owned(mem, g) && Live(g, low) && low.Low? && Live(g, key)
    requires Tbl(mem, low) >= 0 && Tbl(mem, low) in mem && k < |mem[Tbl(mem, low)]|
    ensures Above(WriteEntry(mem, Tbl(mem, low), k, e), key) == Above(mem, key)
  {
    hide Owned, Next, WriteEntry;
    var t := Tbl(mem, low);
    match key
    case Root(_) =>
    case Mid(r, i) =>
      Different(mem, g, Root(r), low);
      EntryAfter(mem, t, k, e, r, i);
    case Low(r, i, j) =>
      LowStore(mem, g, low, k, e, Mid(r, i));
      Different(mem, g, Mid(r, i), low);
      EntryAfter(mem, t, k, e, Table1(mem, r, i), j);
  }

  /** Hanging in a table. */
  lemma HangAdds(mem: Mem, g: Space, parent: Key, n: nat, t: nat)
    requires Owned(mem, g) && Hangs(mem, g, parent, n, t)
    ensures Adds(mem, HangIn(mem, parent, n, t), g, {Child(parent, n)})
  {
    hide Owned, HangIn, Live;
    var mem' := HangIn(mem, parent, n, t);
    forall key | Live(g, key)
      ensures Tbl(mem', key) == if key == Child(parent, n) then t else Tbl(mem, key)
      ensures Stuck(mem', key) <==> Stuck(mem, key)
    {
      HangTbl(mem, g, parent, n, t, key);
      HangStuck(mem, g, parent, n, t, key);
    }
    hide Hangs;
  }

  lemma HangStuck(mem: Mem, g: Space, parent: Key, n: nat, t: nat, key: Key)
    requires Owned(mem, g) && Hangs(mem, g, parent, n, t) && Live(g, key)
    ensures Stuck(HangIn(mem, parent, n, t), key) <==> Stuck(mem, key)
  {
    var p := Tbl(mem, parent);
    var e := TablePte(t);
    assert p in g.owner && p != t;
    assert IsValid(e) && !IsLeaf(e) by { NextTable(t); }
    hide Owned, Next, WriteEntry, TablePte, IsLeaf, IsValid;
    match key
    case Root(_) =>
    case Mid(r, i) =>
      Different(mem, g, Root(r), parent);
      EntryAfter(mem, p, n, e, r, i);
    case Low(r, i, j) =>
      HangTbl(mem, g, parent, n, t, Mid(r, i));
      if Mid(r, i) == Child(parent, n) {
        HangEmpty(mem, g, parent, n, t);
        EntryAfter(mem, p, n, e, t, j);
        ZeroEntry(mem, t, j);
      } else {
        Different(mem, g, Mid(r, i), parent);
        EntryAfter(mem, p, n, e, Table1(mem, r, i), j);
      }
  }

  // ----- the tables on the way to a page

  /** Those that are not there. */
  ghost function Gaps(mem: Mem, root: nat, v: Vpn): set<Key> {
    set key | key in {Mid(root, v.i), Low(root, v.i, v.j)} && Tbl(mem, key) == NONE
  }

  /** What two steps of the walk bring, one for each level. */
  lemma GapsAre(mem: Mem, root: nat, v: Vpn)
    requires !Stuck(mem, Mid(root, v.i)) && !Stuck(mem, Low(root, v.i, v.j))
    ensures var e2 := Entry(mem, root, v.i);
            Gaps(mem, root, v) ==
            (if IsValid(e2) then {} else {Mid(root, v.i)}) +
            (if IsValid(e2) && IsValid(Entry(mem, Ppn(e2), v.j)) then {} else {Low(root, v.i, v.j)})
    ensures IsValid(Entry(mem, root, v.i)) ==> Table1(mem, root, v.i) == Ppn(Entry(mem, root, v.i))
  {
    hide IsLeaf, IsValid;
    assert Entry(mem, NONE, v.j) == 0;
    assert !IsValid(0) by { ZeroInvalid(); }
    assert forall key :: key in Gaps(mem, root, v) ==> key == Mid(root, v.i) || key == Low(root, v.i, v.j);
  }

  lemma ZeroInvalid()
    ensures !IsValid(0)
  {
  }

  // ----- the tables of one root

  /** The tables that a set of pages needs below root t. */
  ghost function Spots(t: nat, vpns: set<Vpn>): set<Key> {
    (set v | v in vpns :: Mid(t, v.i)) + (set v | v in vpns :: Low(t, v.i, v.j))
  }

  /** Root t has these tables and no other, and no leaf entry in the way of one. */
  ghost predicate HasExactly(mem: Mem, g: Space, t: nat, vpns: set<Vpn>) {
    forall key :: Live(g, key) && !key.Root? && key.root == t ==>
      (Tbl(mem, key) != NONE <==> key in Spots(t, vpns)) && !Stuck(mem, key)
  }

  lemma SpotsMore(t: nat, vpns: set<Vpn>, v: Vpn)
    ensures Spots(t, vpns + {v}) == Spots(t, vpns) + {Mid(t, v.i), Low(t, v.i, v.j)}
  {
    forall key | key in Spots(t, vpns) + {Mid(t, v.i), Low(t, v.i, v.j)}
      ensures key in Spots(t, vpns + {v})
    {
      if key in Spots(t, vpns) {
        SpotsLess(t, vpns, vpns + {v});
      } else {
        assert v in vpns + {v};
      }
    }
  }

  lemma SpotsNone(t: nat)
    ensures Spots(t, {}) == {}
  {
  }

  lemma SpotsLess(t: nat, a: set<Vpn>, b: set<Vpn>)
    requires a <= b
    ensures Spots(t, a) <= Spots(t, b)
  {
  }

  /** What a page still needs. */
  lemma GapsLeft(mem: Mem, g: Space, t: nat, vpns: set<Vpn>, v: Vpn)
    requires HasExactly(mem, g, t, vpns) && Home(g, t, v)
    ensures !Stuck(mem, Mid(t, v.i)) && !Stuck(mem, Low(t, v.i, v.j))
    ensures Spots(t, vpns + {v}) == Spots(t, vpns) + Gaps(mem, t, v) && Spots(t, vpns) !! Gaps(mem, t, v)
    ensures |Spots(t, vpns + {v})| == |Spots(t, vpns)| + |Gaps(mem, t, v)|
  {
    hide Tbl, Stuck;
    SpotsMore(t, vpns, v);
    hide Spots;
    assert Live(g, Mid(t, v.i)) && Live(g, Low(t, v.i, v.j));
  }

  /** Once its gaps are closed, the root has the tables of one page more. */
  lemma HasMore(mem: Mem, mem': Mem, g: Space, g': Space, t: nat, vpns: set<Vpn>, v: Vpn)
    requires HasExactly(mem, g, t, vpns) && Home(g, t, v) && Adds(mem, mem', g, Gaps(mem, t, v))
    requires g'.kernel == g.kernel && g'.users == g.users
    ensures HasExactly(mem', g', t, vpns + {v})
  {
    hide Tbl, Stuck, Gaps, Spots;
    GapsLeft(mem, g, t, vpns, v);
    forall key | Live(g', key) && !key.Root? && key.root == t
      ensures (Tbl(mem', key) != NONE <==> key in Spots(t, vpns + {v})) && !Stuck(mem', key)
    {
      assert Live(g, key);
    }
  }

  lemma HasSame(mem: Mem, mem': Mem, g: Space, t: nat, vpns: set<Vpn>)
    requires HasExactly(mem, g, t, vpns) && Adds(mem, mem', g, {})
    ensures HasExactly(mem', g, t, vpns)
  {
    hide Tbl, Stuck, Spots;
  }

  // ----- the number of tables does not depend on the root

  function Under(u: nat, key: Key): Key {
    match key
    case Root(_) => Root(u)
    case Mid(_, i) => Mid(u, i)
    case Low(_, i, j) => Low(u, i, j)
  }

  lemma {:induction false} UnderSize(t: nat, u: nat, keys: set<Key>)
    requires forall key :: key in keys ==> key.root == t
    ensures |set key | key in keys :: Under(u, key)| == |keys|
    decreases |keys|
  {
    if keys != {} {
      var x :| x in keys;
      var rest := keys - {x};
      UnderSize(t, u, rest);
      var a, b := (set key | key in keys :: Under(u, key)), (set key | key in rest :: Under(u, key));
      assert Under(u, x) !in b;
      assert a == b + {Under(u, x)};
    } else {
      assert (set key | key in keys :: Under(u, key)) == {};
    }
  }

  lemma SpotUnder(t: nat, u: nat, vpns: set<Vpn>, key: Key)
    requires key in Spots(u, vpns)
    ensures key.root == u && Under(t, key) in Spots(t, vpns) && Under(u, Under(t, key)) == key
  {
  }

  lemma SpotsSize(t: nat, u: nat, vpns: set<Vpn>)
    ensures |Spots(t, vpns)| == |Spots(u, vpns)|
  {
    hide Spots, Under;
    forall key | key in Spots(t, vpns)
      ensures key.root == t && Under(u, key) in Spots(u, vpns)
    {
      SpotUnder(u, t, vpns, key);
    }
    forall key | key in Spots(u, vpns)
      ensures Under(t, key) in Spots(t, vpns) && Under(u, Under(t, key)) == key
    {
      SpotUnder(t, u, vpns, key);
    }
    UnderSize(t, u, Spots(t, vpns));
    assert (set key | key in Spots(t, vpns) :: Under(u, key)) == Spots(u, vpns);
  }
}
