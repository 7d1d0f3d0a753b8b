/**
 Looking a name up in bytes of any kind (kernel/fs/ext2_dir.c:79-100), and what every
 lookup gives after a removal (kernel/fs/ext2_write.c:810-890), also one that overflows
 the sixteen bits of rec_len.
 */
module DirScan {
  import opened Bytes
  import opened Ext2Dir

  /** The loop of ext2_lookup from offset o; it ends at an entry of length zero or at the end of the bytes. */
  function Scan(buf: seq<byte>, o: nat, name: Name): (ino: nat)
    decreases |buf| - o
  {
    if o + 8 > |buf| || GetU16(buf, o + 4) == 0 then 0
    else if GetU32(buf, o) != 0 && NameAt(buf, o, name) then GetU32(buf, o)
    else Scan(buf, o + GetU16(buf, o + 4), name)
  }

  predicate NameAt(buf: seq<byte>, o: nat, name: Name)
    requires o + 8 <= |buf|
  {
    buf[o + 6] as int == |name| && o + 8 + |name| <= |buf| && buf[o + 8..o + 8 + |name|] == name
  }

  /** On a chain of entries it is the lookup in their list. */
  lemma {:induction false} ScanFinds(buf: seq<byte>, o: nat, es: seq<Entry>, name: Name)
    requires Chain(buf, o, |buf|, es)
    ensures Scan(buf, o, name) == Find(Items(es), name)
    decreases |es|
  {
    if es != [] {
      ScanFinds(buf, o + es[0].recLen, es[1..], name);
      assert Items(es)[1..] == Items(es[1..]);
    }
  }

  /** Past a stretch that entries tile: found among them, or looked for behind them. */
  lemma {:induction false} ScanPast(buf: seq<byte>, o: nat, m: nat, a: seq<Entry>, name: Name)
    requires Chain(buf, o, m, a) && m <= |buf|
    ensures Scan(buf, o, name) == if Absent(Items(a), name) then Scan(buf, m, name) else Find(Items(a), name)
    decreases |a|
  {
    if a != [] {
      ChainOrder(buf, o + a[0].recLen, m, a[1..]);
      ScanPast(buf, o + a[0].recLen, m, a[1..], name);
      AbsentFirst(a, name);
      assert Items(a)[1..] == Items(a[1..]);
    }
  }

  lemma {:induction false} AbsentFirst(a: seq<Entry>, name: Name)
    requires a != []
    ensures Absent(Items(a), name) <==> a[0].name != name && Absent(Items(a[1..]), name)
  {
    assert Items(a) == [Items(a)[0]] + Items(a[1..]);
  }

  // ----- after a removal

  /** How long the entry before i would have to be. */
  function Sum(es: seq<Entry>, i: nat): nat
    requires 0 < i < |es|
  {
    es[i - 1].recLen + es[i].recLen
  }

  /** Every lookup after the removal of entry i, whatever the lengths. */
  lemma {:induction false} MergedScan(buf: seq<byte>, es: seq<Entry>, po: nat, i: nat, name: Name)
    requires Splits(buf, es, po, i)
    ensures po + 6 <= |buf|
    ensures var buf', r := Merged(buf, po, Sum(es, i)), Sum(es, i) % U16;
            Scan(buf', 0, name) ==
            if !Absent(Items(es[..i - 1]), name) then Find(Items(es[..i - 1]), name)
            else if r == 0 then 0
            else if es[i - 1].name == name then es[i - 1].ino
            else Scan(buf', po + r, name)
  {
    hide Chain, EntryAt, PutU16;
    SplitsFields(buf, es, po, i);
    var r := Sum(es, i) % U16;
    var buf' := Merged(buf, po, Sum(es, i));
    ChainOrder(buf, 0, po, es[..i - 1]);
    ChainFrame(buf, buf', 0, po, es[..i - 1]);
    ScanPast(buf', 0, po, es[..i - 1], name);
    PutRecLenLaw(buf, po, es[i - 1], r);
    ScanAt(buf', po, es[i - 1].(recLen := r), name);
  }

  lemma {:induction false} ScanAt(buf: seq<byte>, o: nat, e: Entry, name: Name)
    requires EntryAt(buf, o, e) && e.ino != 0
    ensures Scan(buf, o, name) ==
            if e.recLen == 0 then 0 else if e.name == name then e.ino else Scan(buf, o + e.recLen, name)
  {
  }

  /** The merged length fits: every lookup is that in the remaining entries. */
  lemma {:induction false} MergeKeeps(buf: seq<byte>, es: seq<Entry>, po: nat, i: nat, name: Name)
    requires Splits(buf, es, po, i) && Sum(es, i) < U16
    ensures po + 6 <= |buf|
    ensures Scan(Merged(buf, po, Sum(es, i)), 0, name) == Find(Items(es)[..i] + Items(es)[i + 1..], name)
  {
    hide Chain, EntryAt, Scan, Find;
    MergeLaw(buf, po, es, i);
    MergeItems(es, i);
    ScanFinds(Merged(buf, po, Sum(es, i)), 0, WithoutEntry(es, i), name);
  }

  /** It is 65536: the walk ends there, and only the entries before are found. */
  lemma {:induction false} MergeStops(buf: seq<byte>, es: seq<Entry>, po: nat, i: nat, name: Name)
    requires Splits(buf, es, po, i) && Sum(es, i) == U16
    ensures po + 6 <= |buf|
    ensures Scan(Merged(buf, po, Sum(es, i)), 0, name) == Find(Items(es[..i - 1]), name)
  {
    hide Scan, Chain, EntryAt, Find;
    MergedScan(buf, es, po, i, name);
    if Absent(Items(es[..i - 1]), name) {
      FindNone(Items(es[..i - 1]), name);
    }
  }

  /** The remaining entries tile the bytes exactly when it fits. */
  lemma {:induction false} MergeTiles(buf: seq<byte>, es: seq<Entry>, po: nat, i: nat)
    requires Splits(buf, es, po, i)
    ensures po + 6 <= |buf|
    ensures Chain(Merged(buf, po, Sum(es, i)), 0, |buf|, WithoutEntry(es, i)) <==> Sum(es, i) < U16
  {
    hide Chain, EntryAt;
    SplitsFields(buf, es, po, i);
    if Sum(es, i) < U16 {
      MergeLaw(buf, po, es, i);
    } else if Chain(Merged(buf, po, Sum(es, i)), 0, |buf|, WithoutEntry(es, i)) {
      ChainGood(Merged(buf, po, Sum(es, i)), 0, |buf|, WithoutEntry(es, i), i - 1);
    }
  }

  lemma {:induction false} ChainGood(buf: seq<byte>, o: nat, end: nat, es: seq<Entry>, k: nat)
    requires Chain(buf, o, end, es) && k < |es|
    ensures GoodEntry(es[k])
    decreases k
  {
    if k > 0 {
      ChainGood(buf, o + es[0].recLen, end, es[1..], k - 1);
    }
  }

  /** A removal as it should be: its own name is not found any more, and every other lookup is as before. */
  ghost predicate OnlyItsName(buf: seq<byte>, buf': seq<byte>, name: Name) {
    forall x :: Scan(buf', 0, x) == if x == name then 0 else Scan(buf, 0, x)
  }

  /** From offset o on the lookups of the names that do not come before find what is behind entry i. */
  ghost predicate LandsWell(buf: seq<byte>, o: nat, es: seq<Entry>, i: nat)
    requires i < |es|
  {
    forall x :: Absent(Items(es[..i]), x) ==> Scan(buf, o, x) == Find(Items(es[i + 1..]), x)
  }

  /** The lookups around entry i, in terms of the three parts of the list. */
  lemma {:induction false} FindParts(es: seq<Entry>, i: nat, x: Name)
    requires 0 < i < |es| && Distinct(Items(es))
    ensures Absent(Items(es[..i]), x) <==> Absent(Items(es[..i - 1]), x) && es[i - 1].name != x
    ensures Absent(Items(es[..i]), es[i].name) && Find(Items(es[i + 1..]), es[i].name) == 0
    ensures Find(Items(es), x) == if !Absent(Items(es[..i - 1]), x) then Find(Items(es[..i - 1]), x)
                                  else if es[i - 1].name == x then es[i - 1].ino
                                  else if es[i].name == x then es[i].ino
                                  else Find(Items(es[i + 1..]), x)
  {
    var items := Items(es);
    var a, b := Items(es[..i - 1]), Items(es[i + 1..]);
    assert items == a + ([items[i - 1]] + ([items[i]] + b));
    assert Items(es[..i]) == a + [items[i - 1]];
    FindJoin(a, [items[i - 1]] + ([items[i]] + b), x);
    FindFirst(items[i - 1], [items[i]] + b, x);
    FindFirst(items[i], b, x);
    assert forall j :: 0 <= j < |a| ==> a[j] == items[j];
    assert forall j :: 0 <= j < |b| ==> b[j] == items[i + 1 + j];
    FindNone(b, es[i].name);
  }

  lemma {:induction false} FindFirst(y: Item, rest: seq<Item>, x: Name)
    ensures Find([y] + rest, x) == if y.name == x then y.ino else Find(rest, x)
  {
    assert ([y] + rest)[1..] == rest;
  }

  lemma {:induction false} FindJoin(a: seq<Item>, b: seq<Item>, x: Name)
    ensures Find(a + b, x) == if Absent(a, x) then Find(b, x) else Find(a, x)
    decreases |a|
  {
    if a == [] {
      assert a + b == b;
    } else {
      assert (a + b)[1..] == a[1..] + b;
      FindJoin(a[1..], b, x);
      assert a == [a[0]] + a[1..];
    }
  }

  /**
   A removal is as it should be exactly when the merged length fits, or is more than 65536
   and what lies at its remainder, inside the entry before, leads to the rest all the same.
   */
  lemma {:induction false} RemovalExactly(buf: seq<byte>, es: seq<Entry>, po: nat, i: nat)
    requires Chain(buf, 0, |buf|, es) && Splits(buf, es, po, i) && Distinct(Items(es))
    ensures po + 6 <= |buf|
    ensures var buf', n := Merged(buf, po, Sum(es, i)), Sum(es, i);
            OnlyItsName(buf, buf', es[i].name) <==> n < U16 || (n > U16 && LandsWell(buf', po + n - U16, es, i))
  {
    hide Chain, Scan, Find, Merged;
    SplitsFields(buf, es, po, i);
    var buf', n := Merged(buf, po, Sum(es, i)), Sum(es, i);
    if n == U16 {
      StopsBadly(buf, es, po, i);
    } else {
      forall x
        ensures n < U16 ==> Scan(buf', 0, x) == if x == es[i].name then 0 else Scan(buf, 0, x)
        ensures n > U16 && !Absent(Items(es[..i]), x) ==> x != es[i].name && Scan(buf', 0, x) == Scan(buf, 0, x)
        ensures n > U16 && Absent(Items(es[..i]), x) ==> Scan(buf', 0, x) == Scan(buf', po + n - U16, x)
        ensures Absent(Items(es[..i]), x) ==>
                  (if x == es[i].name then 0 else Scan(buf, 0, x)) == Find(Items(es[i + 1..]), x)
      {
        RemovalAt(buf, es, po, i, x);
      }
    }
  }

  lemma {:induction false} RemovalAt(buf: seq<byte>, es: seq<Entry>, po: nat, i: nat, x: Name)
    requires Chain(buf, 0, |buf|, es) && Splits(buf, es, po, i) && Distinct(Items(es)) && Sum(es, i) != U16
    ensures po + 6 <= |buf|
    ensures var buf', n := Merged(buf, po, Sum(es, i)), Sum(es, i);
            && (n < U16 ==> Scan(buf', 0, x) == if x == es[i].name then 0 else Scan(buf, 0, x))
            && (n > U16 && !Absent(Items(es[..i]), x) ==> x != es[i].name && Scan(buf', 0, x) == Scan(buf, 0, x))
            && (n > U16 && Absent(Items(es[..i]), x) ==> Scan(buf', 0, x) == Scan(buf', po + n - U16, x))
            && (Absent(Items(es[..i]), x) ==>
                  (if x == es[i].name then 0 else Scan(buf, 0, x)) == Find(Items(es[i + 1..]), x))
  {
    hide Chain, Scan, Find, Merged, EntryAt;
    ScanFinds(buf, 0, es, x);
    SplitsFields(buf, es, po, i);
    EntryLength(es[i]);
    MergedScan(buf, es, po, i, x);
    FindParts(es, i, x);
    if Sum(es, i) < U16 {
      MergeKeeps(buf, es, po, i, x);
      RemoveLaw(Items(es), i, x);
    }
  }

  lemma {:induction false} StopsBadly(buf: seq<byte>, es: seq<Entry>, po: nat, i: nat)
    requires Chain(buf, 0, |buf|, es) && Splits(buf, es, po, i) && Distinct(Items(es)) && Sum(es, i) == U16
    ensures po + 6 <= |buf|
    ensures !OnlyItsName(buf, Merged(buf, po, Sum(es, i)), es[i].name)
  {
    hide Chain, Scan, Find, Merged, EntryAt;
    var x := es[i - 1].name;
    ScanFinds(buf, 0, es, x);
    MergeStops(buf, es, po, i, x);
    FindParts(es, i, x);
    FindParts(es, i, es[i].name);
    assert Absent(Items(es[..i - 1]), x);
    FindNone(Items(es[..i - 1]), x);
    assert Items(es)[i - 1].name == x && Items(es)[i].name == es[i].name;
  }

  /** Nothing behind the removed entry, and zeros where the walk lands: no lookup goes wrong. */
  lemma {:induction false} LastHarmless(buf: seq<byte>, es: seq<Entry>, po: nat)
    requires var i := |es| - 1;
             && Chain(buf, 0, |buf|, es) && Distinct(Items(es)) && i > 0 && Splits(buf, es, po, i) && Sum(es, i) > U16
    requires var o, buf' := po + Sum(es, |es| - 1) - U16, Merged(buf, po, Sum(es, |es| - 1));
             o + 8 <= |buf| && GetU16(buf', o + 4) == 0
    ensures OnlyItsName(buf, Merged(buf, po, Sum(es, |es| - 1)), es[|es| - 1].name)
  {
    hide Chain, EntryAt, Splits, Merged, Distinct;
    var i := |es| - 1;
    RemovalExactly(buf, es, po, i);
    assert es[i + 1..] == [] && Items(es[i + 1..]) == [];
  }

  /** Removing the first entry takes its inode away; the rest is found as before. */
  lemma {:induction false} FirstRemoved(buf: seq<byte>, es: seq<Entry>, name: Name)
    requires es != [] && Chain(buf, 0, |buf|, es)
    ensures |buf| >= 4 && Scan(PutU32(buf, 0, 0), 0, name) == Find(Items(es[1..]), name)
  {
    var e := es[0];
    EntryFields(buf, 0, e);
    var buf' := PutU32(buf, 0, 0);
    ChainFrame(buf, buf', e.recLen, |buf|, es[1..]);
    ScanFinds(buf', e.recLen, es[1..], name);
  }

  // ----- a directory whose removal overflows

  const A: Name := [97]
  const B: Name := [98]
  const SIZE: nat := 69632

  /** Seventeen blocks of 4096: ".." covers all that was removed before, then "a" and "b". */
  function Entries(): seq<Entry> {
    [Entry(2, 12, FT_DIR, DOT), Entry(2, 65524, FT_DIR, DOTDOT), Entry(11, 12, FT_REG, A), Entry(12, 4084, FT_REG, B)]
  }

  function Directory17(): seq<byte> {
    var es := Entries();
    PutEntry(PutEntry(PutEntry(PutEntry(Zeros(SIZE), 0, es[0]), 12, es[1]), 65536, es[2]), 65548, es[3])
  }

  lemma {:induction false} FourAt(buf: seq<byte>, a: nat, b: nat, c: nat, d: nat, ea: Entry, eb: Entry, ec: Entry,
                                  ed: Entry)
    requires GoodEntry(ea) && GoodEntry(eb) && GoodEntry(ec) && GoodEntry(ed)
    requires a + 8 + |ea.name| <= b && b + 8 + |eb.name| <= c && c + 8 + |ec.name| <= d && d + 8 + |ed.name| <= |buf|
    ensures var r := PutEntry(PutEntry(PutEntry(PutEntry(buf, a, ea), b, eb), c, ec), d, ed);
            |r| == |buf| && EntryAt(r, a, ea) && EntryAt(r, b, eb) && EntryAt(r, c, ec) && EntryAt(r, d, ed)
  {
    hide PutEntry, EntryAt;
    var b1 := PutEntry(buf, a, ea);
    var b2 := PutEntry(b1, b, eb);
    var b3 := PutEntry(b2, c, ec);
    var b4 := PutEntry(b3, d, ed);
    PutEntryLaw(buf, a, ea);
    PutEntryLaw(b1, b, eb);
    PutEntryLaw(b2, c, ec);
    PutEntryLaw(b3, d, ed);
    EntryAtFrame(b1, b4, a, ea);
    EntryAtFrame(b2, b4, b, eb);
    EntryAtFrame(b3, b4, c, ec);
  }

  lemma {:induction false} FourChain(buf: seq<byte>, es: seq<Entry>)
    requires |es| == 4 && (forall i :: 0 <= i < 4 ==> GoodEntry(es[i]))
    requires es[0].recLen == 12 && es[1].recLen == 65524 && es[2].recLen == 12 && es[3].recLen == 4084 && |buf| == SIZE
    requires EntryAt(buf, 0, es[0]) && EntryAt(buf, 12, es[1]) && EntryAt(buf, 65536, es[2]) &&
               EntryAt(buf, 65548, es[3])
    ensures Chain(buf, 0, SIZE, es)
  {
    hide EntryAt;
    assert Chain(buf, SIZE, SIZE, es[4..]);
    assert es[3..][1..] == es[4..] && es[2..][1..] == es[3..] && es[1..][1..] == es[2..];
    assert Chain(buf, 65548, SIZE, es[3..]);
    assert Chain(buf, 65536, SIZE, es[2..]);
    assert Chain(buf, 12, SIZE, es[1..]);
  }

  lemma {:induction false} Directory17Chain()
    ensures |Directory17()| == SIZE && Chain(Directory17(), 0, SIZE, Entries())
  {
    hide PutEntry, EntryAt, Chain;
    var es := Entries();
    assert forall i :: 0 <= i < 4 ==> GoodEntry(es[i]);
    FourAt(Zeros(SIZE), 0, 12, 65536, 65548, es[0], es[1], es[2], es[3]);
    FourChain(Directory17(), es);
  }

  /** Removing "a" from it makes "b" impossible to find, and ".." as well. */
  method RemovalLosesNames() returns (buf: seq<byte>, buf': seq<byte>, ok: bool)
    ensures ok && Scan(buf, 0, B) == 12 && Scan(buf, 0, DOTDOT) == 2
    ensures Scan(buf', 0, B) == 0 && Scan(buf', 0, DOTDOT) == 0
  {
    hide Scan, Chain, Find, Merged, Directory17;
    Directory17Chain();
    FoundBefore();
    buf := Directory17();
    ghost var es, i, po := Entries(), 0, 0;
    assert es[2].name == A;
    buf', ok, i, po := RemoveEntry(buf, A, es);
    assert i == 2;
    MergeStops(buf, es, po, 2, B);
    MergeStops(buf, es, po, 2, DOTDOT);
    FindNone(Items(es[..1]), B);
    FindNone(Items(es[..1]), DOTDOT);
  }

  lemma {:induction false} FoundBefore()
    ensures Scan(Directory17(), 0, B) == 12 && Scan(Directory17(), 0, DOTDOT) == 2
  {
    hide Scan, Chain;
    Directory17Chain();
    ScanFinds(Directory17(), 0, Entries(), B);
    ScanFinds(Directory17(), 0, Entries(), DOTDOT);
    FindAt(Items(Entries()), B, 3);
    FindAt(Items(Entries()), DOTDOT, 1);
  }
}
