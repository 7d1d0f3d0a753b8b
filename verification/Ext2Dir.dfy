/**
 Directories: a chain of variable-length entries linked by rec_len through the
 bytes of a file (kernel/fs/ext2_dir.c:41-105, kernel/fs/ext2_write.c:385-489 and
 810-944).

 `Chain` says that a list of entries tiles a stretch of the buffer exactly.  The
 methods work on the bytes; their contracts say what happens to the list, and
 `Names` reads the list as a map from names to inode numbers.
 */
module Ext2Dir {
  import opened Arith
  import opened Bytes

  type Name = seq<byte>

  datatype Entry = Entry(ino: nat, recLen: nat, ftype: byte, name: Name)

  const NAME_LEN: nat := 255   // EXT2_NAME_LEN

  /** Bytes an entry with a name of length n takes, rounded up to a multiple of four. */
  function Need(n: nat): (k: nat)
    ensures 8 + n <= k < 8 + n + 4 && k % 4 == 0
  {
    (8 + n + 3) / 4 * 4
  }

  /** A name a C string can carry and the entry can hold. */
  predicate GoodName(name: Name) {
    0 < |name| <= NAME_LEN && forall i :: 0 <= i < |name| ==> name[i] != 0
  }

  ghost predicate GoodEntry(e: Entry) {
    0 < e.ino < U32 && GoodName(e.name) && Need(|e.name|) <= e.recLen < U16
  }

  // ----- one entry in the buffer -----------------------------------------------------

  /** The entry whose header is at offset o is e, and it lies inside the buffer. */
  ghost predicate EntryAt(buf: seq<byte>, o: nat, e: Entry) {
    && o + 8 + |e.name| <= |buf|
    && GetU32(buf, o) == e.ino
    && GetU16(buf, o + 4) == e.recLen
    && buf[o + 6] as int == |e.name|
    && buf[o + 7] == e.ftype
    && buf[o + 8..o + 8 + |e.name|] == e.name
  }

  /** The bytes of an entry: inode number, record length, name length, type, name. */
  function EntryBytes(e: Entry): (bytes: seq<byte>)
    requires e.ino < U32 && e.recLen < U16 && |e.name| <= NAME_LEN
  {
    [e.ino % 256, e.ino / 256 % 256, e.ino / 0x1_0000 % 256, e.ino / 0x100_0000, e.recLen % 256, e.recLen / 256,
     |e.name|, e.ftype] + e.name
  }

  lemma EntryByBytes(buf: seq<byte>, o: nat, e: Entry)
    requires e.ino < U32 && e.recLen < U16 && |e.name| <= NAME_LEN
    ensures EntryAt(buf, o, e) <==> o + 8 + |e.name| <= |buf| && buf[o..o + 8 + |e.name|] == EntryBytes(e)
  {
    if o + 8 + |e.name| <= |buf| {
      WordBytes(buf, o, e.ino);
      HalfBytes(buf, o + 4, e.recLen);
      hide GetU32, GetU16;
      var n := |e.name|;
      assert buf[o..o + 8 + n] == buf[o..o + 8] + buf[o + 8..o + 8 + n];
      HeadAndName(buf[o..o + 8], buf[o + 8..o + 8 + n], EntryBytes(e)[..8], e.name);
    }
  }

  lemma HeadAndName(a: seq<byte>, b: seq<byte>, c: seq<byte>, d: seq<byte>)
    requires |a| == |c| == 8 && |b| == |d|
    ensures a + b == c + d <==> b == d && forall k :: 0 <= k < 8 ==> a[k] == c[k]
  {
    if a + b == c + d {
      assert a == (a + b)[..8] && b == (a + b)[8..];
      assert c == (c + d)[..8] && d == (c + d)[8..];
    }
  }

  /** Store a whole entry at offset o. */
  function PutEntry(buf: seq<byte>, o: nat, e: Entry): (r: seq<byte>)
    requires o + 8 + |e.name| <= |buf| && e.ino < U32 && e.recLen < U16 && |e.name| <= NAME_LEN
    ensures |r| == |buf|
  {
    var b1 := PutU16(PutU32(buf, o, e.ino), o + 4, e.recLen);
    var b2 := b1[o + 6 := |e.name|][o + 7 := e.ftype];
    b2[..o + 8] + e.name + b2[o + 8 + |e.name|..]
  }

  lemma PutEntryLaw(buf: seq<byte>, o: nat, e: Entry)
    requires o + 8 + |e.name| <= |buf| && e.ino < U32 && e.recLen < U16 && |e.name| <= NAME_LEN
    ensures EntryAt(PutEntry(buf, o, e), o, e)
    ensures forall k :: 0 <= k < |buf| && !(o <= k < o + 8 + |e.name|) ==> PutEntry(buf, o, e)[k] == buf[k]
  {
    var r := PutEntry(buf, o, e);
    var b0 := PutU32(buf, o, e.ino);
    var b1 := PutU16(b0, o + 4, e.recLen);
    var b2 := b1[o + 6 := |e.name|][o + 7 := e.ftype];
    assert forall k :: 0 <= k < o + 8 ==> r[k] == b2[k];
    assert GetU32(r, o) == GetU32(b0, o);
    assert GetU16(r, o + 4) == GetU16(b1, o + 4);
  }

  /** Rewriting rec_len alone. */
  lemma PutRecLenLaw(buf: seq<byte>, o: nat, e: Entry, n: nat)
    requires EntryAt(buf, o, e) && n < U16
    ensures EntryAt(PutU16(buf, o + 4, n), o, e.(recLen := n))
  {
    var r := PutU16(buf, o + 4, n);
    assert r[o + 8..o + 8 + |e.name|] == buf[o + 8..o + 8 + |e.name|];
  }

  lemma EntryAtFrame(buf: seq<byte>, buf': seq<byte>, o: nat, e: Entry)
    requires EntryAt(buf, o, e) && o + 8 + |e.name| <= |buf'|
    requires forall k :: o <= k < o + 8 + |e.name| ==> buf'[k] == buf[k]
    ensures EntryAt(buf', o, e)
  {
    assert buf'[o + 8..o + 8 + |e.name|] == buf[o + 8..o + 8 + |e.name|];
  }

  // ----- chains ------------------------------------------------------------------------

  /** The entries tile the bytes from o up to end. */
  ghost predicate Chain(buf: seq<byte>, o: nat, end: nat, es: seq<Entry>)
    decreases |es|
  {
    if es == [] then o == end
    else
      && EntryAt(buf, o, es[0]) && GoodEntry(es[0]) && o + es[0].recLen <= end
      && Chain(buf, o + es[0].recLen, end, es[1..])
  }

  lemma {:induction false} ChainFrame(buf: seq<byte>, buf': seq<byte>, o: nat, end: nat, es: seq<Entry>)
    requires Chain(buf, o, end, es) && end <= |buf'|
    requires forall k :: o <= k < end && k < |buf| ==> buf'[k] == buf[k]
    ensures Chain(buf', o, end, es)
    decreases |es|
  {
    if es != [] {
      EntryAtFrame(buf, buf', o, es[0]);
      ChainFrame(buf, buf', o + es[0].recLen, end, es[1..]);
    }
  }

  lemma {:induction false} ChainOrder(buf: seq<byte>, o: nat, end: nat, es: seq<Entry>)
    requires Chain(buf, o, end, es)
    ensures o <= end
    decreases |es|
  {
    if es != [] {
      ChainOrder(buf, o + es[0].recLen, end, es[1..]);
    }
  }

  lemma {:induction false} ChainJoin(buf: seq<byte>, o: nat, m: nat, end: nat, a: seq<Entry>, b: seq<Entry>)
    requires Chain(buf, o, m, a) && Chain(buf, m, end, b)
    ensures Chain(buf, o, end, a + b)
    decreases |a|
  {
    hide EntryAt;
    hide GoodEntry;
    ChainOrder(buf, m, end, b);
    if a == [] {
      assert a + b == b;
    } else {
      ChainJoin(buf, o + a[0].recLen, m, end, a[1..], b);
      assert (a + b)[1..] == a[1..] + b;
    }
  }

  /** Walking past one entry. */
  lemma ChainStep(buf: seq<byte>, o: nat, end: nat, es: seq<Entry>, i: nat)
    requires i < |es| && Chain(buf, 0, o, es[..i]) && Chain(buf, o, end, es[i..])
    ensures EntryAt(buf, o, es[i]) && GoodEntry(es[i]) && o + es[i].recLen <= end
    ensures Chain(buf, 0, o + es[i].recLen, es[..i + 1]) && Chain(buf, o + es[i].recLen, end, es[i + 1..])
  {
    hide EntryAt;
    var m := o + es[i].recLen;
    assert es[i..][0] == es[i] && es[i..][1..] == es[i + 1..];
    assert Chain(buf, o, m, [es[i]]);
    ChainJoin(buf, 0, o, m, es[..i], [es[i]]);
    assert es[..i] + [es[i]] == es[..i + 1];
  }

  // ----- the list as a lookup table ------------------------------------------------------

  datatype Item = Item(name: Name, ino: nat, ftype: byte)

  function Items(es: seq<Entry>): (r: seq<Item>)
    ensures |r| == |es| && forall i :: 0 <= i < |es| ==> r[i] == Item(es[i].name, es[i].ino, es[i].ftype)
  {
    seq(|es|, i requires 0 <= i < |es| => Item(es[i].name, es[i].ino, es[i].ftype))
  }

  ghost predicate Distinct(items: seq<Item>) {
    forall i, j :: 0 <= i < j < |items| ==> items[i].name != items[j].name
  }

  /** The inode number of the first item with the name, 0 when there is none. */
  function Find(items: seq<Item>, name: Name): (ino: nat)
  {
    if items == [] then 0 else if items[0].name == name then items[0].ino else Find(items[1..], name)
  }

  lemma {:induction false} FindAt(items: seq<Item>, name: Name, i: nat)
    requires i < |items| && items[i].name == name && forall j :: 0 <= j < i ==> items[j].name != name
    ensures Find(items, name) == items[i].ino
    decreases i
  {
    if i > 0 {
      FindAt(items[1..], name, i - 1);
    }
  }

  lemma {:induction false} FindNone(items: seq<Item>, name: Name)
    requires forall j :: 0 <= j < |items| ==> items[j].name != name
    ensures Find(items, name) == 0
    decreases |items|
  {
    if items != [] {
      FindNone(items[1..], name);
    }
  }

  lemma {:induction false} FindJoin(a: seq<Item>, b: seq<Item>, name: Name)
    ensures Find(a + b, name) == if exists j :: 0 <= j < |a| && a[j].name == name then Find(a, name) else Find(b, name)
    decreases |a|
  {
    if a == [] {
      assert a + b == b;
    } else {
      FindJoin(a[1..], b, name);
      assert (a + b)[1..] == a[1..] + b;
      if a[0].name != name && exists j :: 0 <= j < |a| && a[j].name == name {
        var j :| 0 <= j < |a| && a[j].name == name;
        assert a[1..][j - 1].name == name;
      }
    }
  }

  lemma InsertDistinct(items: seq<Item>, i: nat, x: Item)
    requires i <= |items| && Distinct(items) && forall j :: 0 <= j < |items| ==> items[j].name != x.name
    ensures Distinct(items[..i] + [x] + items[i..])
  {
    var r := items[..i] + [x] + items[i..];
    assert forall k :: 0 <= k < |r| ==> r[k] == if k < i then items[k] else if k == i then x else items[k - 1];
  }

  /** An item put in anywhere is found under its fresh name; every other lookup is as before. */
  lemma InsertLaw(items: seq<Item>, i: nat, x: Item, name: Name)
    requires i <= |items| && Distinct(items) && forall j :: 0 <= j < |items| ==> items[j].name != x.name
    ensures Distinct(items[..i] + [x] + items[i..])
    ensures Find(items[..i] + [x] + items[i..], name) == if name == x.name then x.ino else Find(items, name)
  {
    InsertDistinct(items, i, x);
    var a, b := items[..i], items[i..];
    assert a + b == items;
    FindJoin(a, b, name);
    FindJoin(a + [x], b, name);
    FindJoin(a, [x], name);
    if name == x.name {
      assert (a + [x])[i].name == name;
    } else if exists j :: 0 <= j < |a| && a[j].name == name {
      var j :| 0 <= j < |a| && a[j].name == name;
      assert (a + [x])[j].name == name;
    }
  }

  /** An item taken out is no longer found; every other lookup is as before. */
  lemma RemoveLaw(items: seq<Item>, i: nat, name: Name)
    requires i < |items| && Distinct(items)
    ensures Distinct(items[..i] + items[i + 1..])
    ensures Find(items[..i] + items[i + 1..], name) == if name == items[i].name then 0 else Find(items, name)
  {
    var a, b := items[..i], items[i + 1..];
    assert items == a + [items[i]] + b;
    if name == items[i].name {
      FindNone(a + b, name);
    } else {
      FindJoin(a, b, name);
      FindJoin(a + [items[i]], b, name);
      FindJoin(a, [items[i]], name);
      if exists j :: 0 <= j < |a| && a[j].name == name {
        var j :| 0 <= j < |a| && a[j].name == name;
        assert (a + [items[i]])[j].name == name;
      }
    }
  }

  // ----- comparing names ---------------------------------------------------------------

  /** Equal up to n characters or to a common NUL. */
  ghost predicate StrEq(s1: seq<byte>, o: nat, s2: seq<byte>, i: nat, n: nat)
    requires o + n <= |s1| && i <= n <= |s2|
    decreases n - i
  {
    i == n || (s1[o + i] == s2[i] && (s1[o + i] == 0 || StrEq(s1, o, s2, i + 1, n)))
  }

  lemma {:induction false} StrEqExact(s1: seq<byte>, o: nat, s2: seq<byte>, i: nat, n: nat)
    requires o + n <= |s1| && i <= n <= |s2|
    requires forall k :: 0 <= k < n ==> s2[k] != 0
    ensures StrEq(s1, o, s2, i, n) <==> s1[o + i..o + n] == s2[i..n]
    decreases n - i
  {
    if i < n {
      StrEqExact(s1, o, s2, i + 1, n);
      assert s1[o + i..o + n] == [s1[o + i]] + s1[o + i + 1..o + n];
      assert s2[i..n] == [s2[i]] + s2[i + 1..n];
    }
  }

  /** strncmp(s1 + o, s2, n) == 0 */
  method StrNCmp(s1: seq<byte>, o: nat, s2: seq<byte>, n: nat) returns (eq: bool)
    requires o + n <= |s1| && n <= |s2|
    ensures eq <==> StrEq(s1, o, s2, 0, n)
  {
    var i := 0;
    while i < n
      invariant i <= n && (StrEq(s1, o, s2, 0, n) <==> StrEq(s1, o, s2, i, n))
    {
      if s1[o + i] != s2[i] {
        return false;
      }
      if s1[o + i] == 0 {
        return true;
      }
      i := i + 1;
    }
    return true;
  }

  /** The entry at o carries the name. */
  method Matches(buf: seq<byte>, o: nat, name: Name, ghost e: Entry) returns (m: bool)
    requires EntryAt(buf, o, e) && GoodEntry(e)
    requires forall i :: 0 <= i < |name| ==> name[i] != 0
    ensures m <==> e.name == name
  {
    m := false;
    if GetU32(buf, o) != 0 && buf[o + 6] as int == |name| {
      m := StrNCmp(buf, o + 8, name, |name|);
      StrEqExact(buf, o + 8, name, 0, |name|);
      assert name[0..|name|] == name;
    }
  }

  // ----- the operations ------------------------------------------------------------------

  /** ext2_lookup on the bytes of a directory. */
  method Lookup(buf: seq<byte>, name: Name, ghost es: seq<Entry>) returns (ino: nat)
    requires Chain(buf, 0, |buf|, es)
    requires forall i :: 0 <= i < |name| ==> name[i] != 0
    ensures ino == Find(Items(es), name)
  {
    hide Chain;
    hide EntryAt;
    ghost var i: nat := 0;
    var offset: nat := 0;
    assert es[..0] == [] && es[0..] == es;
    ChainNil(buf, 0);
    while offset < |buf|
      invariant i <= |es|
      invariant Chain(buf, 0, offset, es[..i]) && Chain(buf, offset, |buf|, es[i..])
      invariant forall j :: 0 <= j < i ==> es[j].name != name
      decreases |es| - i
    {
      ChainMore(buf, offset, |buf|, es[i..]);
      ChainStep(buf, offset, |buf|, es, i);
      EntryFields(buf, offset, es[i]);
      var m := Matches(buf, offset, name, es[i]);
      if m {
        FindAt(Items(es), name, i);
        return GetU32(buf, offset);
      }
      offset := offset + GetU16(buf, offset + 4);
      i := i + 1;
    }
    ChainDone(buf, offset, |buf|, es[i..]);
    FindNone(Items(es), name);
    return 0;
  }

  lemma ChainNil(buf: seq<byte>, o: nat)
    ensures Chain(buf, o, o, [])
  {
  }

  /** Bytes left mean entries left, and the other way round. */
  lemma ChainMore(buf: seq<byte>, o: nat, end: nat, es: seq<Entry>)
    requires Chain(buf, o, end, es) && o < end
    ensures es != []
  {
  }

  lemma ChainDone(buf: seq<byte>, o: nat, end: nat, es: seq<Entry>)
    requires Chain(buf, o, end, es) && o >= end
    ensures es == []
  {
    ChainOrder(buf, o, end, es);
  }

  lemma EntryFields(buf: seq<byte>, o: nat, e: Entry)
    requires EntryAt(buf, o, e)
    ensures o + 8 + |e.name| <= |buf| && GetU32(buf, o) == e.ino && GetU16(buf, o + 4) == e.recLen &&
              buf[o + 6] as int == |e.name|
  {
  }

  // ----- adding an entry -------------------------------------------------------------------

  /** Replacing a stretch of a chain by another that tiles the same bytes. */
  lemma ChainPatch(buf: seq<byte>, buf': seq<byte>, o: nat, m: nat, end: nat, a: seq<Entry>, mid: seq<Entry>,
                   b: seq<Entry>)
    requires Chain(buf, 0, o, a) && Chain(buf, m, end, b) && o <= m <= end <= |buf| == |buf'|
    requires forall k :: 0 <= k < |buf| && !(o <= k < m) ==> buf'[k] == buf[k]
    requires Chain(buf', o, m, mid)
    ensures Chain(buf', 0, end, a + mid + b)
  {
    hide Chain;
    ChainFrame(buf, buf', 0, o, a);
    ChainFrame(buf, buf', m, end, b);
    ChainJoin(buf', 0, o, m, a, mid);
    ChainJoin(buf', 0, m, end, a + mid, b);
  }

  /** The bytes after entry e at o is cut down to its own size and x placed in the slack. */
  function SplitBytes(buf: seq<byte>, o: nat, e: Entry, x: Entry): (r: seq<byte>)
    requires Need(|e.name|) < U16 && o + Need(|e.name|) + 8 + |x.name| <= |buf|
    requires x.ino < U32 && x.recLen < U16 && |x.name| <= NAME_LEN
  {
    PutEntry(PutU16(buf, o + 4, Need(|e.name|)), o + Need(|e.name|), x)
  }

  lemma SplitLaw(buf: seq<byte>, o: nat, es: seq<Entry>, i: nat, x: Entry)
    requires i < |es| && Chain(buf, 0, o, es[..i]) && Chain(buf, o, |buf|, es[i..])
    requires 0 < x.ino < U32 && GoodName(x.name)
    requires es[i].recLen >= Need(|es[i].name|) + Need(|x.name|) && x.recLen == es[i].recLen - Need(|es[i].name|)
    ensures o + es[i].recLen <= |buf| && es[i].recLen < U16
    ensures Chain(SplitBytes(buf, o, es[i], x), 0, |buf|,
                  es[..i] + [es[i].(recLen := Need(|es[i].name|)), x] + es[i + 1..])
  {
    hide Chain;
    hide EntryAt;
    hide PutEntry;
    ChainStep(buf, o, |buf|, es, i);
    EntryFields(buf, o, es[i]);
    var e, n, m := es[i], Need(|es[i].name|), o + es[i].recLen;
    var e' := e.(recLen := n);
    var buf1 := PutU16(buf, o + 4, n);
    var buf2 := PutEntry(buf1, o + n, x);
    PutRecLenLaw(buf, o, e, n);
    PutEntryLaw(buf1, o + n, x);
    EntryAtFrame(buf1, buf2, o, e');
    TwoChain(buf2, o, m, e', x);
    ChainPatch(buf, buf2, o, m, |buf|, es[..i], [e', x], es[i + 1..]);
  }

  lemma OneChain(buf: seq<byte>, o: nat, m: nat, x: Entry)
    requires EntryAt(buf, o, x) && GoodEntry(x) && m == o + x.recLen
    ensures Chain(buf, o, m, [x])
  {
    assert Chain(buf, m, m, [x][1..]);
  }

  lemma TwoChain(buf: seq<byte>, o: nat, m: nat, e: Entry, x: Entry)
    requires EntryAt(buf, o, e) && EntryAt(buf, o + e.recLen, x) && GoodEntry(e) && GoodEntry(x)
    requires m == o + e.recLen + x.recLen
    ensures Chain(buf, o, m, [e, x])
  {
    hide EntryAt;
    hide GoodEntry;
    OneChain(buf, o + e.recLen, m, x);
    assert [e, x][1..] == [x];
  }

  lemma AppendLaw(buf: seq<byte>, junk: seq<byte>, es: seq<Entry>, x: Entry)
    requires Chain(buf, 0, |buf|, es) && GoodEntry(x) && x.recLen == |junk|
    ensures Chain(PutEntry(buf + junk, |buf|, x), 0, |buf| + |junk|, es + [x])
  {
    hide Chain;
    hide EntryAt;
    hide PutEntry;
    var b1 := buf + junk;
    var b2 := PutEntry(b1, |buf|, x);
    PutEntryLaw(b1, |buf|, x);
    ChainFrame(buf, b2, 0, |buf|, es);
    OneChain(b2, |buf|, |b2|, x);
    ChainJoin(b2, 0, |buf|, |b2|, es, [x]);
  }

  /** The item list with x after position i, or at the end. */
  ghost predicate Inserted(es: seq<Entry>, es': seq<Entry>, i: nat, x: Item) {
    i <= |es| && Items(es') == Items(es)[..i] + [x] + Items(es)[i..]
  }

  ghost predicate HasSlack(e: Entry, need: nat) {
    e.recLen >= Need(|e.name|) + need
  }

  /** Scan for the first entry with room for `required` more bytes. */
  method FindSlack(buf: seq<byte>, required: nat, ghost es: seq<Entry>) returns (offset: nat, found: bool, ghost i: nat)
    requires Chain(buf, 0, |buf|, es)
    ensures i <= |es| && Chain(buf, 0, offset, es[..i]) && Chain(buf, offset, |buf|, es[i..])
    ensures forall j :: 0 <= j < i ==> !HasSlack(es[j], required)
    ensures found ==> i < |es| && HasSlack(es[i], required)
    ensures !found ==> i == |es| && offset == |buf|
  {
    hide Chain;
    hide EntryAt;
    i, offset, found := 0, 0, false;
    assert es[..0] == [] && es[0..] == es;
    ChainNil(buf, 0);
    while offset < |buf|
      invariant i <= |es|
      invariant Chain(buf, 0, offset, es[..i]) && Chain(buf, offset, |buf|, es[i..])
      invariant forall j :: 0 <= j < i ==> !HasSlack(es[j], required)
      decreases |es| - i
    {
      ChainMore(buf, offset, |buf|, es[i..]);
      ChainStep(buf, offset, |buf|, es, i);
      EntryFields(buf, offset, es[i]);
      if GetU32(buf, offset) != 0 && GetU16(buf, offset + 4) >= Need(buf[offset + 6] as int) + required {
        found := true;
        return;
      }
      offset := offset + GetU16(buf, offset + 4);
      i := i + 1;
    }
    ChainDone(buf, offset, |buf|, es[i..]);
    ChainOrder(buf, offset, |buf|, es[i..]);
  }

  /** The first entry with room for the new one, number n, keeps what it needs, and the rest of its length is the new
      entry's. */
  ghost predicate SplitAt(es: seq<Entry>, es': seq<Entry>, n: nat, name: Name, ino: nat, ftype: byte)
    requires n < |es|
  {
    var kept := Need(|es[n].name|);
    && HasSlack(es[n], Need(|name|)) && (forall k :: 0 <= k < n ==> !HasSlack(es[k], Need(|name|)))
    && es' == es[..n] + [es[n].(recLen := kept), Entry(ino, es[n].recLen - kept, ftype, name)] + es[n + 1..]
  }

  lemma SplitIntro(es: seq<Entry>, n: nat, name: Name, ino: nat, ftype: byte)
    requires n < |es| && HasSlack(es[n], Need(|name|)) && forall k :: 0 <= k < n ==> !HasSlack(es[k], Need(|name|))
    ensures var kept := Need(|es[n].name|);
            SplitAt(es, es[..n] + [es[n].(recLen := kept), Entry(ino, es[n].recLen - kept, ftype, name)] + es[n + 1..],
                    n, name, ino, ftype)
  {
  }

  /** add_dir_entry on the bytes of a directory.  `junk` is what the kernel's buffer holds past the
      directory's end, which becomes the rest of an appended block. */
  method AddEntry(buf: seq<byte>, bs: nat, name: Name, ino: nat, ftype: byte, junk: seq<byte>, ghost es: seq<Entry>)
    returns (buf': seq<byte>, ok: bool, ghost es': seq<Entry>, ghost i: nat)
    requires Chain(buf, 0, |buf|, es)
    requires bs in {1024, 2048, 4096} && Rem(bs, |buf|) == 0 && |junk| == bs
    requires 0 < ino < U32 && forall k :: 0 <= k < |name| ==> name[k] != 0
    ensures ok <==> GoodName(name)
    ensures !ok ==> buf' == buf && es' == es
    ensures ok ==> Chain(buf', 0, |buf'|, es') && Inserted(es, es', i, Item(name, ino, ftype))
    ensures ok ==> i == |es| || (0 < i && HasSlack(es[i - 1], Need(|name|)))
    ensures ok ==> forall k :: 0 <= k < i && !HasSlack(es[k], Need(|name|)) ==> es'[k] == es[k]
    ensures ok ==> Rem(bs, |buf'|) == 0
    ensures ok ==> |buf'| == if exists j :: 0 <= j < |es| && HasSlack(es[j], Need(|name|)) then |buf| else |buf| + bs
    ensures ok && |buf'| > |buf| ==> i == |es| && es' == es + [Entry(ino, bs, ftype, name)]
    ensures ok && |buf'| == |buf| ==> 0 < i <= |es| && SplitAt(es, es', i - 1, name, ino, ftype)
  {
    hide Chain;
    hide EntryAt;
    hide PutEntry;
    hide SplitAt;
    buf', ok, es', i := buf, false, es, 0;
    if |name| == 0 || |name| > NAME_LEN {
      return;
    }
    ok := true;
    var required := Need(|name|);
    var offset, found := 0, false;
    offset, found, i := FindSlack(buf, required, es);
    if found {
      ChainStep(buf, offset, |buf|, es, i);
      EntryFields(buf, offset, es[i]);
      var oldRec, actual := GetU16(buf, offset + 4), Need(buf[offset + 6] as int);
      ghost var x := Entry(ino, oldRec - actual, ftype, name);
      SplitLaw(buf, offset, es, i, x);
      buf' := PutU16(buf, offset + 4, actual);
      buf' := PutEntry(buf', offset + actual, Entry(ino, oldRec - actual, ftype, name));
      es' := es[..i] + [es[i].(recLen := Need(|es[i].name|)), x] + es[i + 1..];
      SplitItems(es, i, x);
      SplitIntro(es, i, name, ino, ftype);
      i := i + 1;
    } else {
      ghost var x := Entry(ino, bs, ftype, name);
      AppendLaw(buf, junk, es, x);
      buf' := PutEntry(buf + junk, |buf|, Entry(ino, bs, ftype, name));
      es' := es + [x];
      assert Items(es') == Items(es)[..|es|] + [Item(name, ino, ftype)] + Items(es)[|es|..];
      assert Rem(bs, |buf| + bs) == Rem(bs, |buf|);
    }
  }

  lemma SplitItems(es: seq<Entry>, i: nat, x: Entry)
    requires i < |es|
    ensures Inserted(es, es[..i] + [es[i].(recLen := Need(|es[i].name|)), x] + es[i + 1..], i + 1,
                     Item(x.name, x.ino, x.ftype))
  {
    var es' := es[..i] + [es[i].(recLen := Need(|es[i].name|)), x] + es[i + 1..];
    var items := Items(es)[..i + 1] + [Item(x.name, x.ino, x.ftype)] + Items(es)[i + 1..];
    assert forall k :: 0 <= k < |es'| ==> Items(es')[k] == items[k];
  }

  // ----- removing an entry -------------------------------------------------------------------

  /** The entries once the one before i covers its bytes. */
  function WithoutEntry(es: seq<Entry>, i: nat): seq<Entry>
    requires 0 < i < |es|
  {
    es[..i - 1] + [es[i - 1].(recLen := es[i - 1].recLen + es[i].recLen)] + es[i + 1..]
  }

  /** The entry before swallows the bytes of entry i. */
  lemma {:induction false} MergeLaw(buf: seq<byte>, po: nat, es: seq<Entry>, i: nat)
    requires Splits(buf, es, po, i) && es[i - 1].recLen + es[i].recLen < U16
    ensures po + 6 <= |buf|
    ensures Chain(Merged(buf, po, es[i - 1].recLen + es[i].recLen), 0, |buf|, WithoutEntry(es, i))
  {
    hide EntryAt, Chain;
    SplitsFields(buf, es, po, i);
    var n := es[i - 1].recLen + es[i].recLen;
    var e', m := es[i - 1].(recLen := n), po + n;
    ChainTail(buf, po + es[i - 1].recLen, es, i);
    var buf' := Merged(buf, po, n);
    assert n % U16 == n;
    PutRecLenLaw(buf, po, es[i - 1], n);
    OneChain(buf', po, m, e');
    ChainPatch(buf, buf', po, m, |buf|, es[..i - 1], [e'], es[i + 1..]);
  }

  lemma ChainTail(buf: seq<byte>, o: nat, es: seq<Entry>, i: nat)
    requires i < |es| && Chain(buf, o, |buf|, es[i..])
    ensures Chain(buf, o + es[i].recLen, |buf|, es[i + 1..])
  {
    assert es[i..][0] == es[i] && es[i..][1..] == es[i + 1..];
  }

  /** rec_len has sixteen bits: the merged length is stored right exactly when it fits. */
  lemma MergeFits(buf: seq<byte>, po: nat, e: Entry, n: nat)
    requires EntryAt(buf, po, e) && n < U16
    ensures EntryAt(PutU16(buf, po + 4, (e.recLen + n) % U16), po, e.(recLen := e.recLen + n)) <==> e.recLen + n < U16
  {
    PutRecLenLaw(buf, po, e, (e.recLen + n) % U16);
  }

  const DOT: Name := [46]
  const DOTDOT: Name := [46, 46]
  const FT_REG: byte := 1
  const FT_DIR: byte := 2

  /** A directory as the kernel makes and keeps it: the chain tiles the whole file, every entry is
      live, names are distinct, "." comes first with no slack and ".." second. */
  ghost predicate Directory(buf: seq<byte>, bs: nat, es: seq<Entry>, self: nat, parent: nat) {
    && bs in {1024, 2048, 4096} && Rem(bs, |buf|) == 0 && |buf| <= U16
    && Chain(buf, 0, |buf|, es)
    && Distinct(Items(es))
    && |es| >= 2
    && es[0] == Entry(self, 12, FT_DIR, DOT)
    && es[1].name == DOTDOT && es[1].ino == parent && es[1].ftype == FT_DIR
  }

  /** The item list without position i. */
  ghost predicate Deleted(es: seq<Entry>, es': seq<Entry>, i: nat) {
    i < |es| && Items(es') == Items(es)[..i] + Items(es)[i + 1..]
  }

  /** The tiled bytes around entry i: the one before it starts at po. */
  ghost predicate Splits(buf: seq<byte>, es: seq<Entry>, po: nat, i: nat) {
    && 0 < i < |es| && Chain(buf, 0, po, es[..i - 1]) && EntryAt(buf, po, es[i - 1]) && GoodEntry(es[i - 1])
    && Chain(buf, po + es[i - 1].recLen, |buf|, es[i..])
  }

  /** Scan for the entry with the name; po is the offset of the one before it. */
  method FindEntry(buf: seq<byte>, name: Name, ghost es: seq<Entry>)
    returns (offset: nat, po: nat, found: bool, ghost i: nat)
    requires Chain(buf, 0, |buf|, es)
    requires forall k :: 0 <= k < |name| ==> name[k] != 0
    ensures found ==> i < |es| && es[i].name == name && Chain(buf, offset, |buf|, es[i..])
    ensures found ==> (i == 0 <==> offset == 0) && forall j :: 0 <= j < i ==> es[j].name != name
    ensures found && i > 0 ==> Splits(buf, es, po, i) && offset == po + es[i - 1].recLen
    ensures !found ==> forall j :: 0 <= j < |es| ==> es[j].name != name
  {
    hide Chain;
    hide EntryAt;
    hide GoodEntry;
    i, offset, po, found := 0, 0, 0, false;
    assert es[..0] == [] && es[0..] == es;
    ChainNil(buf, 0);
    while offset < |buf|
      invariant i <= |es| && (i == 0 <==> offset == 0)
      invariant Chain(buf, 0, offset, es[..i]) && Chain(buf, offset, |buf|, es[i..])
      invariant i > 0 ==> Chain(buf, 0, po, es[..i - 1]) && offset == po + es[i - 1].recLen
      invariant i > 0 ==> EntryAt(buf, po, es[i - 1]) && GoodEntry(es[i - 1])
      invariant forall j :: 0 <= j < i ==> es[j].name != name
      decreases |es| - i
    {
      ChainMore(buf, offset, |buf|, es[i..]);
      ChainStep(buf, offset, |buf|, es, i);
      EntryFields(buf, offset, es[i]);
      EntryLength(es[i]);
      var m := Matches(buf, offset, name, es[i]);
      if m {
        found := true;
        return;
      }
      po := offset;
      offset := offset + GetU16(buf, offset + 4);
      i := i + 1;
    }
    ChainDone(buf, offset, |buf|, es[i..]);
  }

  lemma EntryLength(e: Entry)
    requires GoodEntry(e)
    ensures 9 <= e.recLen < U16
  {
  }

  /** The bytes once the entry at po has n for its length, in sixteen bits. */
  function Merged(buf: seq<byte>, po: nat, n: nat): (r: seq<byte>)
    requires po + 6 <= |buf|
    ensures |r| == |buf|
  {
    PutU16(buf, po + 4, n % U16)
  }

  lemma SplitsFields(buf: seq<byte>, es: seq<Entry>, po: nat, i: nat)
    requires Splits(buf, es, po, i)
    ensures po + 9 <= |buf| && GetU16(buf, po + 4) == es[i - 1].recLen && 9 <= es[i - 1].recLen < U16
    ensures EntryAt(buf, po + es[i - 1].recLen, es[i]) && GoodEntry(es[i])
    ensures po + es[i - 1].recLen + es[i].recLen <= |buf|
  {
    ChainStep2(buf, po + es[i - 1].recLen, es, i);
  }

  /** remove_dir_entry: the first entry with the name goes into the length of the one before it, or loses its inode. */
  method RemoveEntry(buf: seq<byte>, name: Name, ghost es: seq<Entry>)
    returns (buf': seq<byte>, ok: bool, ghost i: nat, ghost po: nat)
    requires Chain(buf, 0, |buf|, es) && forall k :: 0 <= k < |name| ==> name[k] != 0
    ensures ok <==> exists j :: 0 <= j < |es| && es[j].name == name
    ensures !ok ==> buf' == buf
    ensures ok ==> i < |es| && es[i].name == name && forall j :: 0 <= j < i ==> es[j].name != name
    ensures ok && i == 0 ==> |buf| >= 4 && buf' == PutU32(buf, 0, 0)
    ensures ok && i > 0 ==> && Splits(buf, es, po, i) && po + 6 <= |buf|
                            && buf' == Merged(buf, po, es[i - 1].recLen + es[i].recLen)
  {
    hide Chain;
    hide EntryAt;
    hide GoodEntry;
    hide Splits;
    buf' := buf;
    var offset, prev;
    offset, prev, ok, i := FindEntry(buf, name, es);
    po := prev;
    if ok {
      ChainStep2(buf, offset, es, i);
      EntryFields(buf, offset, es[i]);
      if offset == 0 {
        buf' := PutU32(buf, 0, 0);
      } else {
        SplitsFields(buf, es, prev, i);
        buf' := PutU16(buf, prev + 4, (GetU16(buf, prev + 4) + GetU16(buf, offset + 4)) % U16);
      }
    }
  }

  lemma ChainStep2(buf: seq<byte>, o: nat, es: seq<Entry>, i: nat)
    requires i < |es| && Chain(buf, o, |buf|, es[i..])
    ensures EntryAt(buf, o, es[i]) && GoodEntry(es[i]) && o + es[i].recLen <= |buf|
  {
  }

  /** A chain of n entries takes at least twelve bytes if it has any. */
  lemma PrefixLength(buf: seq<byte>, o: nat, es: seq<Entry>, n: nat)
    requires n <= |es| && Chain(buf, 0, o, es[..n])
    ensures n > 0 ==> o >= 9
  {
    if n > 0 {
      ChainOrder(buf, es[..n][0].recLen, o, es[..n][1..]);
    }
  }

  lemma MergeItems(es: seq<Entry>, i: nat)
    requires 0 < i < |es|
    ensures Deleted(es, WithoutEntry(es, i), i)
  {
    var es' := WithoutEntry(es, i);
    assert forall k :: 0 <= k < |es'| ==> Items(es')[k] == (Items(es)[..i] + Items(es)[i + 1..])[k];
  }

  // ----- directories as tables ---------------------------------------------------------------

  /** The block ext2_create_dir writes: "." and "..", the rest zero. */
  function NewBytes(bs: nat, self: nat, parent: nat): (buf: seq<byte>)
    requires 24 <= bs < U16 && self < U32 && parent < U32
    ensures |buf| == bs
  {
    PutEntry(PutEntry(Zeros(bs), 0, Entry(self, 12, FT_DIR, DOT)), 12, Entry(parent, bs - 12, FT_DIR, DOTDOT))
  }

  lemma NewDirectory(bs: nat, self: nat, parent: nat)
    requires bs in {1024, 2048, 4096} && 0 < self < U32 && 0 < parent < U32
    ensures Directory(NewBytes(bs, self, parent), bs,
                      [Entry(self, 12, FT_DIR, DOT), Entry(parent, bs - 12, FT_DIR, DOTDOT)], self, parent)
  {
    hide Chain;
    hide EntryAt;
    hide PutEntry;
    var d, dd := Entry(self, 12, FT_DIR, DOT), Entry(parent, bs - 12, FT_DIR, DOTDOT);
    var b1 := PutEntry(Zeros(bs), 0, d);
    var b2 := PutEntry(b1, 12, dd);
    PutEntryLaw(Zeros(bs), 0, d);
    PutEntryLaw(b1, 12, dd);
    EntryAtFrame(b1, b2, 0, d);
    TwoChain(b2, 0, bs, d, dd);
    assert Rem(bs, bs) == 0;
    assert GoodEntry(d) && GoodEntry(dd);
  }

  /** Add a fresh name to a directory with room: one more lookup, all the others unchanged. */
  method DirAdd(buf: seq<byte>, bs: nat, name: Name, ino: nat, ftype: byte, junk: seq<byte>,
                ghost es: seq<Entry>, ghost self: nat, ghost parent: nat)
    returns (buf': seq<byte>, ghost es': seq<Entry>)
    requires Directory(buf, bs, es, self, parent) && Room(buf, bs, es, name) && |junk| == bs
    requires 0 < ino < U32 && GoodName(name) && Absent(Items(es), name)
    ensures Directory(buf', bs, es', self, parent)
    ensures forall n :: Find(Items(es'), n) == if n == name then ino else Find(Items(es), n)
    ensures forall x :: x in Items(es') <==> x in Items(es) || x == Item(name, ino, ftype)
  {
    hide Chain;
    hide GoodEntry;
    var ok;
    ghost var i;
    buf', ok, es', i := AddEntry(buf, bs, name, ino, ftype, junk, es);
    DotHasNoSlack(es, Need(|name|));
    InsertKeeps(es, es', i, Item(name, ino, ftype));
    assert Items(es')[1] == Items(es)[1];
  }

  /** Some entry has slack for the name, or the directory may still grow by a block. */
  ghost predicate Room(buf: seq<byte>, bs: nat, es: seq<Entry>, name: Name) {
    |buf| + bs <= U16 || exists j :: 0 <= j < |es| && HasSlack(es[j], Need(|name|))
  }

  ghost predicate Absent(items: seq<Item>, name: Name) {
    forall j :: 0 <= j < |items| ==> items[j].name != name
  }

  lemma DotHasNoSlack(es: seq<Entry>, need: nat)
    requires |es| >= 1 && es[0].recLen == 12 && es[0].name == DOT && need > 0
    ensures !HasSlack(es[0], need)
  {
  }

  lemma InsertKeeps(es: seq<Entry>, es': seq<Entry>, i: nat, x: Item)
    requires Inserted(es, es', i, x) && Distinct(Items(es)) && Absent(Items(es), x.name)
    ensures Distinct(Items(es'))
    ensures forall n :: Find(Items(es'), n) == if n == x.name then x.ino else Find(Items(es), n)
    ensures forall y :: y in Items(es') <==> y in Items(es) || y == x
  {
    InsertDistinct(Items(es), i, x);
    forall n
      ensures Find(Items(es'), n) == if n == x.name then x.ino else Find(Items(es), n)
    {
      InsertLaw(Items(es), i, x, n);
    }
    assert Items(es) == Items(es)[..i] + Items(es)[i..];
  }

  /** Remove a name: its lookup fails from then on, all the others are unchanged. */
  method DirRemove(buf: seq<byte>, bs: nat, name: Name, ghost es: seq<Entry>, ghost self: nat, ghost parent: nat)
    returns (buf': seq<byte>, ok: bool, ghost es': seq<Entry>)
    requires Directory(buf, bs, es, self, parent)
    requires name != DOT && name != DOTDOT && forall k :: 0 <= k < |name| ==> name[k] != 0
    ensures ok <==> !Absent(Items(es), name)
    ensures Directory(buf', bs, es', self, parent) && |buf'| == |buf|
    ensures forall n :: Find(Items(es'), n) == if n == name then 0 else Find(Items(es), n)
    ensures forall x: Item :: x in Items(es') <==> x in Items(es) && x.name != name
  {
    hide Chain;
    ghost var i, po;
    es' := es;
    buf', ok, i, po := RemoveEntry(buf, name, es);
    if ok {
      assert i >= 2;
      BelowLimit(buf, es, po, i);
      MergeLaw(buf, po, es, i);
      es' := WithoutEntry(es, i);
      MergeItems(es, i);
      assert Items(es)[i].name == name;
      DeleteKeeps(es, es', i);
    } else {
      assert Absent(Items(es), name);
      FindNone(Items(es), name);
    }
  }

  /** Below 64 KiB a merge never overflows. */
  lemma BelowLimit(buf: seq<byte>, es: seq<Entry>, po: nat, i: nat)
    requires Splits(buf, es, po, i) && i >= 2 && |buf| <= U16
    ensures es[i - 1].recLen + es[i].recLen < U16
  {
    hide Chain, EntryAt;
    SplitsFields(buf, es, po, i);
    PrefixLength(buf, po, es, i - 1);
  }

  lemma DeleteKeeps(es: seq<Entry>, es': seq<Entry>, i: nat)
    requires Deleted(es, es', i) && Distinct(Items(es))
    ensures Distinct(Items(es'))
    ensures forall n :: Find(Items(es'), n) == if n == es[i].name then 0 else Find(Items(es), n)
    ensures forall x: Item :: x in Items(es') <==> x in Items(es) && x.name != es[i].name
  {
    var items := Items(es);
    assert items == items[..i] + [items[i]] + items[i + 1..];
    forall n
      ensures Distinct(Items(es')) && Find(Items(es'), n) == if n == items[i].name then 0 else Find(items, n)
    {
      RemoveLaw(items, i, n);
    }
    assert Distinct(Items(es')) by { RemoveLaw(items, i, DOT); }
    forall x: Item
      ensures x in Items(es') <==> x in items && x.name != items[i].name
    {
      if x in items && x.name != items[i].name {
        assert x in items[..i] || x in items[i + 1..];
      }
    }
  }

  /** is_dir_empty: nothing but "." and "..". */
  method IsEmpty(buf: seq<byte>, bs: nat, ghost es: seq<Entry>, ghost self: nat, ghost parent: nat)
    returns (empty: bool)
    requires Directory(buf, bs, es, self, parent)
    ensures empty <==> |es| == 2
    ensures empty <==> forall x: Item :: x in Items(es) ==> x.name == DOT || x.name == DOTDOT
  {
    hide Chain;
    hide EntryAt;
    hide GoodEntry;
    ghost var i: nat := 0;
    var offset: nat := 0;
    var count := 0;
    assert es[..0] == [] && es[0..] == es;
    ChainNil(buf, 0);
    while offset < |buf|
      invariant i <= |es|
      invariant Chain(buf, 0, offset, es[..i]) && Chain(buf, offset, |buf|, es[i..])
      invariant count == if i <= 2 then 0 else i - 2
      decreases |es| - i
    {
      ChainMore(buf, offset, |buf|, es[i..]);
      ChainStep(buf, offset, |buf|, es, i);
      var dots := IsDots(buf, offset, es[i]);
      DotsFirst(es, i);
      if !dots {
        count := count + 1;
      }
      EntryFields(buf, offset, es[i]);
      offset := offset + GetU16(buf, offset + 4);
      i := i + 1;
    }
    ChainDone(buf, offset, |buf|, es[i..]);
    empty := count == 0;
    EmptyItems(es);
  }

  lemma DotsFirst(es: seq<Entry>, i: nat)
    requires |es| >= 2 && Distinct(Items(es)) && es[0].name == DOT && es[1].name == DOTDOT && i < |es|
    ensures (es[i].name == DOT || es[i].name == DOTDOT) <==> i < 2
  {
    assert Items(es)[i].name == es[i].name && Items(es)[0].name == DOT && Items(es)[1].name == DOTDOT;
  }

  lemma EmptyItems(es: seq<Entry>)
    requires |es| >= 2 && Distinct(Items(es)) && es[0].name == DOT && es[1].name == DOTDOT
    ensures |es| == 2 <==> forall x: Item :: x in Items(es) ==> x.name == DOT || x.name == DOTDOT
  {
    if |es| > 2 {
      DotsFirst(es, 2);
      assert Items(es)[2] in Items(es);
    }
  }

  /** The tests for "." and ".." on the raw entry. */
  method IsDots(buf: seq<byte>, o: nat, ghost e: Entry) returns (dots: bool)
    requires EntryAt(buf, o, e) && GoodEntry(e)
    ensures dots <==> e.name == DOT || e.name == DOTDOT
  {
    assert forall k :: 0 <= k < |e.name| ==> buf[o + 8 + k] == e.name[k];
    var isDot := buf[o + 6] == 1 && buf[o + 8] == 46;
    var isDotDot := buf[o + 6] == 2 && buf[o + 8] == 46 && buf[o + 9] == 46;
    assert isDot <==> e.name == DOT;
    assert isDotDot <==> e.name == DOTDOT;
    dots := isDot || isDotDot;
  }

  // ----- whole runs ------------------------------------------------------------------------

  datatype DirOp = AddName(name: Name, ino: nat, ftype: byte, junk: seq<byte>) | RemoveName(name: Name)

  type Table = map<Name, nat>

  /** What an operation does to the table of names; adding a name that exists is refused. */
  function ApplyDir(t: Table, op: DirOp): (r: Table) {
    match op
    case AddName(name, ino, _, _) => if name in t then t else t[name := ino]
    case RemoveName(name) => t - {name}
  }

  function ReplayDir(t: Table, ops: seq<DirOp>): (r: Table) {
    if ops == [] then t else ApplyDir(ReplayDir(t, ops[..|ops| - 1]), ops[|ops| - 1])
  }

  ghost predicate GoodOp(bs: nat, op: DirOp) {
    match op
    case AddName(name, ino, _, junk) => GoodName(name) && 0 < ino < U32 && |junk| == bs
    case RemoveName(name) => GoodName(name) && name != DOT && name != DOTDOT
  }

  /** A lookup in the directory is a lookup in the table. */
  ghost predicate Reads(es: seq<Entry>, t: Table) {
    && (forall n :: n in t ==> t[n] != 0)
    && (forall n :: Find(Items(es), n) == if n in t then t[n] else 0)
  }

  lemma NewReads(bs: nat, self: nat, parent: nat)
    requires bs >= 12 && self != 0 && parent != 0
    ensures Reads([Entry(self, 12, FT_DIR, DOT), Entry(parent, bs - 12, FT_DIR, DOTDOT)],
                  map[DOT := self, DOTDOT := parent])
  {
    var es := [Entry(self, 12, FT_DIR, DOT), Entry(parent, bs - 12, FT_DIR, DOTDOT)];
    forall n
      ensures Find(Items(es), n) == if n == DOT then self else if n == DOTDOT then parent else 0
    {
      if n == DOT {
        FindAt(Items(es), n, 0);
      } else if n == DOTDOT {
        FindAt(Items(es), n, 1);
      } else {
        FindNone(Items(es), n);
      }
    }
  }

  lemma {:induction false} ChainLive(buf: seq<byte>, o: nat, end: nat, es: seq<Entry>, i: nat)
    requires Chain(buf, o, end, es) && i < |es|
    ensures GoodEntry(es[i])
    decreases i
  {
    if i > 0 {
      ChainLive(buf, o + es[0].recLen, end, es[1..], i - 1);
    }
  }

  lemma {:induction false} FindSome(items: seq<Item>, name: Name)
    requires !Absent(items, name)
    ensures exists j :: 0 <= j < |items| && items[j].name == name && Find(items, name) == items[j].ino
    decreases |items|
  {
    if items[0].name != name {
      FindSome(items[1..], name);
      var j :| 0 <= j < |items[1..]| && items[1..][j].name == name && Find(items[1..], name) == items[1..][j].ino;
      assert items[j + 1].name == name;
    } else {
      assert items[0].name == name;
    }
  }

  /** Lookup returns 0 exactly for the names a directory does not have. */
  lemma NotFound(buf: seq<byte>, bs: nat, es: seq<Entry>, self: nat, parent: nat, name: Name)
    requires Directory(buf, bs, es, self, parent)
    ensures Find(Items(es), name) == 0 <==> Absent(Items(es), name)
  {
    if Absent(Items(es), name) {
      FindNone(Items(es), name);
    } else {
      FindSome(Items(es), name);
      var j :| 0 <= j < |es| && Items(es)[j].name == name && Find(Items(es), name) == Items(es)[j].ino;
      ChainLive(buf, 0, |buf|, es, j);
    }
  }

  lemma DirectoryChain(buf: seq<byte>, bs: nat, es: seq<Entry>, self: nat, parent: nat)
    requires Directory(buf, bs, es, self, parent)
    ensures Chain(buf, 0, |buf|, es)
  {
  }

  method HasRoom(buf: seq<byte>, bs: nat, name: Name, ghost es: seq<Entry>) returns (room: bool)
    requires Chain(buf, 0, |buf|, es)
    ensures room <==> Room(buf, bs, es, name)
  {
    hide Chain;
    var offset, found;
    ghost var i;
    offset, found, i := FindSlack(buf, Need(|name|), es);
    room := found || |buf| + bs <= U16;
  }

  /** One operation, with the existence check the callers of add_dir_entry make first. */
  method DirStep(buf: seq<byte>, bs: nat, op: DirOp, ghost es: seq<Entry>, ghost t: Table, ghost self: nat,
                 ghost parent: nat)
    returns (buf': seq<byte>, full: bool, ghost es': seq<Entry>)
    requires Directory(buf, bs, es, self, parent) && Reads(es, t) && GoodOp(bs, op)
    ensures Directory(buf', bs, es', self, parent)
    ensures full ==> buf' == buf && es' == es && op.AddName? && !Room(buf, bs, es, op.name)
    ensures !full ==> Reads(es', ApplyDir(t, op))
  {
    hide Directory;
    hide Room;
    buf', full, es' := buf, false, es;
    match op {
      case AddName(name, ino, ftype, junk) =>
        DirectoryChain(buf, bs, es, self, parent);
        var present := Lookup(buf, name, es);
        if present == 0 {
          var room := HasRoom(buf, bs, name, es);
          full := !room;
          if room {
            NotFound(buf, bs, es, self, parent, name);
            buf', es' := DirAdd(buf, bs, name, ino, ftype, junk, es, self, parent);
          }
        }
      case RemoveName(name) =>
        var ok;
        buf', ok, es' := DirRemove(buf, bs, name, es, self, parent);
    }
  }

  /** From the block ext2_create_dir writes, any run of adds and removes until an add finds no room:
      the bytes stay a directory and every lookup gives what the table of names gives. */
  method RunDir(bs: nat, self: nat, parent: nat, ops: seq<DirOp>)
    returns (buf: seq<byte>, done: nat, ghost es: seq<Entry>)
    requires bs in {1024, 2048, 4096} && 0 < self < U32 && 0 < parent < U32
    requires forall op :: op in ops ==> GoodOp(bs, op)
    ensures Directory(buf, bs, es, self, parent)
    ensures done <= |ops| && Reads(es, ReplayDir(map[DOT := self, DOTDOT := parent], ops[..done]))
    ensures done < |ops| ==> ops[done].AddName? && !Room(buf, bs, es, ops[done].name)
  {
    hide Directory;
    hide Reads;
    hide GoodOp;
    hide Room;
    buf := NewBytes(bs, self, parent);
    es := [Entry(self, 12, FT_DIR, DOT), Entry(parent, bs - 12, FT_DIR, DOTDOT)];
    NewDirectory(bs, self, parent);
    NewReads(bs, self, parent);
    done := 0;
    ghost var t := map[DOT := self, DOTDOT := parent];
    while done < |ops|
      invariant done <= |ops|
      invariant Directory(buf, bs, es, self, parent)
      invariant Reads(es, ReplayDir(t, ops[..done]))
    {
      assert ops[..done + 1][..done] == ops[..done];
      assert ops[done] in ops;
      var full;
      buf, full, es := DirStep(buf, bs, ops[done], es, ReplayDir(t, ops[..done]), self, parent);
      if full {
        return;
      }
      done := done + 1;
    }
  }
}
