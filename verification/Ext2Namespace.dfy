/**
 The namespace: ext2_create_file, ext2_create_dir, ext2_remove_file and
 ext2_remove_dir (kernel/fs/ext2_write.c:495-710 and 950-1133).

 A file system is the table of live inodes, each with its type, link count and
 contents, and the inode bitmaps.  Directory contents are the raw bytes of
 Ext2Dir; the operations below parse and patch those bytes.
 */
module Ext2Namespace {
  import opened Bytes
  import opened Ext2Alloc
  import opened Ext2Dir

  const ROOT: nat := 2   // EXT2_ROOT_INO

  datatype Node = Node(isDir: bool, links: nat, data: seq<byte>)

  /** Where a live inode hangs: its directory, its name there, its distance from the root, and
      for a directory the entries its bytes hold. */
  datatype Info = Info(parent: nat, name: Name, depth: nat, es: seq<Entry>)

  type Nodes = map<nat, Node>
  type Infos = map<nat, Info>

  predicate DotName(name: Name) { name == DOT || name == DOTDOT }

  function TypeOf(node: Node): byte { if node.isDir then FT_DIR else FT_REG }

  ghost predicate IsDirectory(nodes: Nodes, d: nat) { d in nodes && nodes[d].isDir }

  /** x is one of the entries. */
  ghost predicate Lists(es: seq<Entry>, x: Item) { x in Items(es) }

  /** Every directory's bytes parse to its entries. */
  ghost predicate Parsed(bs: nat, nodes: Nodes, infos: Infos) {
    forall d :: IsDirectory(nodes, d) && d in infos ==> Directory(nodes[d].data, bs, infos[d].es, d, infos[d].parent)
  }

  /** Every entry other than "." and ".." is the one place its inode hangs. */
  ghost predicate EntriesPlaced(nodes: Nodes, infos: Infos) {
    forall d, x: Item :: IsDirectory(nodes, d) && d in infos && Lists(infos[d].es, x) && !DotName(x.name) ==>
      && x.ino in nodes && x.ino != ROOT && x.ino in infos
      && infos[x.ino].parent == d && infos[x.ino].name == x.name && x.ftype == TypeOf(nodes[x.ino])
  }

  /** Inode i hangs in a live directory one step nearer the root, under an entry for it. */
  ghost predicate Hangs(nodes: Nodes, infos: Infos, i: nat) {
    i in infos && i in nodes && !DotName(infos[i].name)
    && var p := infos[i].parent;
       && IsDirectory(nodes, p) && p in infos
       && infos[i].depth == infos[p].depth + 1
       && Lists(infos[p].es, Item(infos[i].name, i, TypeOf(nodes[i])))
  }

  function SubDirs(nodes: Nodes, infos: Infos, d: nat): set<nat> {
    set i | i in nodes && i in infos && i != ROOT && nodes[i].isDir && infos[i].parent == d
  }

  /** Link counts: one for a file, two and one per subdirectory for a directory. */
  ghost predicate Linked(nodes: Nodes, infos: Infos) {
    forall i :: i in nodes ==> nodes[i].links == if nodes[i].isDir then 2 + |SubDirs(nodes, infos, i)| else 1
  }

  ghost predicate Tree(bs: nat, nodes: Nodes, infos: Infos) {
    && bs in {1024, 2048, 4096}
    && nodes.Keys == infos.Keys
    && (forall i :: i in nodes ==> 0 < i < U32)
    && IsDirectory(nodes, ROOT) && infos[ROOT].parent == ROOT && infos[ROOT].depth == 0
    && Parsed(bs, nodes, infos)
    && EntriesPlaced(nodes, infos)
    && (forall i :: i in nodes && i != ROOT ==> Hangs(nodes, infos, i))
    && Linked(nodes, infos)
  }

  // ----- adding a leaf --------------------------------------------------------------------

  function AddNodes(nodes: Nodes, d: nat, data: seq<byte>, i: nat, node: Node): Nodes
    requires d in nodes
  {
    nodes[d := nodes[d].(data := data, links := nodes[d].links + if node.isDir then 1 else 0)][i := node]
  }

  function AddInfos(infos: Infos, d: nat, es: seq<Entry>, i: nat, name: Name, esNew: seq<Entry>): Infos
    requires d in infos
  {
    infos[d := infos[d].(es := es)][i := Info(d, name, infos[d].depth + 1, esNew)]
  }

  /** The new entry list of d: one more item, for the new inode. */
  ghost predicate OneMore(es: seq<Entry>, es': seq<Entry>, x: Item) {
    forall y :: Lists(es', y) <==> Lists(es, y) || y == x
  }

  ghost predicate OnlyDots(es: seq<Entry>) {
    forall x: Item :: Lists(es, x) ==> DotName(x.name)
  }

  lemma AddLeaf(bs: nat, nodes: Nodes, infos: Infos, d: nat, data: seq<byte>, es: seq<Entry>, i: nat, node: Node,
                name: Name, esNew: seq<Entry>)
    requires Tree(bs, nodes, infos) && IsDirectory(nodes, d)
    requires i !in nodes && 0 < i < U32 && !DotName(name)
    requires Directory(data, bs, es, d, infos[d].parent) && OneMore(infos[d].es, es, Item(name, i, TypeOf(node)))
    requires node.isDir ==> Directory(node.data, bs, esNew, i, d)
    requires OnlyDots(esNew) && node.links == if node.isDir then 2 else 1
    ensures Tree(bs, AddNodes(nodes, d, data, i, node), AddInfos(infos, d, es, i, name, esNew))
  {
    hide Directory;
    hide Lists;
    hide EntriesPlaced;
    hide Linked;
    hide OneMore;
    hide OnlyDots;
    hide Hangs;
    AddPlaced(nodes, infos, d, data, es, i, node, name, esNew);
    AddHangs(nodes, infos, d, data, es, i, node, name, esNew);
    NoSubDirs(nodes, infos, i);
    AddLinked(nodes, infos, d, data, es, i, node, name, esNew);
  }

  lemma AddPlaced(nodes: Nodes, infos: Infos, d: nat, data: seq<byte>, es: seq<Entry>, i: nat, node: Node, name: Name,
                  esNew: seq<Entry>)
    requires nodes.Keys == infos.Keys && EntriesPlaced(nodes, infos) && IsDirectory(nodes, d) && i !in nodes &&
               i != ROOT
    requires OneMore(infos[d].es, es, Item(name, i, TypeOf(node))) && OnlyDots(esNew)
    ensures EntriesPlaced(AddNodes(nodes, d, data, i, node), AddInfos(infos, d, es, i, name, esNew))
  {
    hide Lists;
    var nodes', infos' := AddNodes(nodes, d, data, i, node), AddInfos(infos, d, es, i, name, esNew);
    forall e: nat, x: Item | IsDirectory(nodes', e) && e in infos' && Lists(infos'[e].es, x) && !DotName(x.name)
      ensures x.ino in nodes' && x.ino != ROOT && x.ino in infos'
              && infos'[x.ino].parent == e && infos'[x.ino].name == x.name && x.ftype == TypeOf(nodes'[x.ino])
    {
      if e != i && !(e == d && x == Item(name, i, TypeOf(node))) {
        assert Lists(infos[e].es, x);
      }
    }
  }

  lemma AddHangs(nodes: Nodes, infos: Infos, d: nat, data: seq<byte>, es: seq<Entry>, i: nat, node: Node, name: Name,
                 esNew: seq<Entry>)
    requires IsDirectory(nodes, d) && d in infos && i !in nodes && i != ROOT && !DotName(name)
    requires forall j :: j in nodes && j != ROOT ==> Hangs(nodes, infos, j)
    requires OneMore(infos[d].es, es, Item(name, i, TypeOf(node)))
    ensures var nodes', infos' := AddNodes(nodes, d, data, i, node), AddInfos(infos, d, es, i, name, esNew);
            forall j :: j in nodes' && j != ROOT ==> Hangs(nodes', infos', j)
  {
    hide Lists;
    var nodes', infos' := AddNodes(nodes, d, data, i, node), AddInfos(infos, d, es, i, name, esNew);
    forall j | j in nodes' && j != ROOT
      ensures Hangs(nodes', infos', j)
    {
      if j == i {
        assert Lists(es, Item(name, i, TypeOf(node)));
      } else {
        assert Hangs(nodes, infos, j);
      }
    }
  }

  lemma AddLinked(nodes: Nodes, infos: Infos, d: nat, data: seq<byte>, es: seq<Entry>, i: nat, node: Node, name: Name,
                  esNew: seq<Entry>)
    requires nodes.Keys == infos.Keys && Linked(nodes, infos) && IsDirectory(nodes, d) && i !in nodes && i != ROOT
    requires forall j :: j in nodes && j != ROOT ==> infos[j].parent != i
    requires node.links == if node.isDir then 2 else 1
    ensures Linked(AddNodes(nodes, d, data, i, node), AddInfos(infos, d, es, i, name, esNew))
  {
    var nodes', infos' := AddNodes(nodes, d, data, i, node), AddInfos(infos, d, es, i, name, esNew);
    forall j | j in nodes'
      ensures nodes'[j].links == if nodes'[j].isDir then 2 + |SubDirs(nodes', infos', j)| else 1
    {
      if j == i {
        assert SubDirs(nodes', infos', i) == {};
      } else if j == d && node.isDir {
        assert SubDirs(nodes', infos', d) == SubDirs(nodes, infos, d) + {i};
      } else {
        assert SubDirs(nodes', infos', j) == SubDirs(nodes, infos, j);
      }
    }
  }

  /** Nothing hangs in an inode that is not a live directory. */
  lemma NoSubDirs(nodes: Nodes, infos: Infos, i: nat)
    requires nodes.Keys == infos.Keys && !IsDirectory(nodes, i)
    requires forall j :: j in nodes && j != ROOT ==> Hangs(nodes, infos, j)
    ensures forall j :: j in nodes && j != ROOT ==> infos[j].parent != i
  {
    forall j | j in nodes && j != ROOT
      ensures infos[j].parent != i
    {
      assert Hangs(nodes, infos, j);
    }
  }

  // ----- removing a leaf -------------------------------------------------------------------

  function RemoveNodes(nodes: Nodes, d: nat, data: seq<byte>, t: nat): Nodes
    requires d in nodes && t in nodes && (nodes[t].isDir ==> nodes[d].links > 0)
  {
    (nodes - {t})[d := nodes[d].(data := data, links := nodes[d].links - if nodes[t].isDir then 1 else 0)]
  }

  function RemoveInfos(infos: Infos, d: nat, es: seq<Entry>, t: nat): Infos
    requires d in infos
  {
    (infos - {t})[d := infos[d].(es := es)]
  }

  /** The new entry list of d: the items with the name are gone. */
  ghost predicate OneLess(es: seq<Entry>, es': seq<Entry>, name: Name) {
    forall y: Item :: Lists(es', y) <==> Lists(es, y) && y.name != name
  }

  /** t is a leaf hanging in d. */
  ghost predicate LeafOf(nodes: Nodes, infos: Infos, d: nat, t: nat) {
    && t in nodes && t in infos && t != ROOT && infos[t].parent == d
    && (nodes[t].isDir ==> OnlyDots(infos[t].es))
  }

  lemma RemoveLeaf(bs: nat, nodes: Nodes, infos: Infos, d: nat, data: seq<byte>, es: seq<Entry>, t: nat)
    requires Tree(bs, nodes, infos) && IsDirectory(nodes, d) && LeafOf(nodes, infos, d, t)
    requires Directory(data, bs, es, d, infos[d].parent) && OneLess(infos[d].es, es, infos[t].name)
    ensures t != d && (nodes[t].isDir ==> nodes[d].links > 0)
    ensures Tree(bs, RemoveNodes(nodes, d, data, t), RemoveInfos(infos, d, es, t))
  {
    hide Directory;
    hide Lists;
    hide EntriesPlaced;
    hide Linked;
    hide OneLess;
    hide OnlyDots;
    hide Hangs;
    LeafApart(nodes, infos, d, t);
    RemovePlaced(nodes, infos, d, data, es, t);
    SameName(nodes[d].data, bs, infos[d].es, d, infos[d].parent);
    RemoveHangs(nodes, infos, d, data, es, t);
    RemoveLinked(nodes, infos, d, data, es, t);
  }

  lemma LeafApart(nodes: Nodes, infos: Infos, d: nat, t: nat)
    requires nodes.Keys == infos.Keys && IsDirectory(nodes, d) && LeafOf(nodes, infos, d, t)
    requires Hangs(nodes, infos, t) && Linked(nodes, infos)
    ensures t != d && nodes[d].links > 0
  {
  }

  /** One entry per name. */
  lemma SameName(data: seq<byte>, bs: nat, es: seq<Entry>, d: nat, parent: nat)
    requires Directory(data, bs, es, d, parent)
    ensures forall x: Item, y: Item :: Lists(es, x) && Lists(es, y) && x.name == y.name ==> x == y
  {
    hide Chain;
    forall x: Item, y: Item | Lists(es, x) && Lists(es, y) && x.name == y.name
      ensures x == y
    {
      var i :| 0 <= i < |es| && Items(es)[i] == x;
      var j :| 0 <= j < |es| && Items(es)[j] == y;
    }
  }

  lemma RemovePlaced(nodes: Nodes, infos: Infos, d: nat, data: seq<byte>, es: seq<Entry>, t: nat)
    requires nodes.Keys == infos.Keys && EntriesPlaced(nodes, infos) && IsDirectory(nodes, d) &&
               LeafOf(nodes, infos, d, t)
    requires t != d && nodes[d].links > 0 && OneLess(infos[d].es, es, infos[t].name)
    ensures EntriesPlaced(RemoveNodes(nodes, d, data, t), RemoveInfos(infos, d, es, t))
  {
    hide Lists;
    var nodes', infos' := RemoveNodes(nodes, d, data, t), RemoveInfos(infos, d, es, t);
    forall e: nat, x: Item | IsDirectory(nodes', e) && e in infos' && Lists(infos'[e].es, x) && !DotName(x.name)
      ensures x.ino in nodes' && x.ino != ROOT && x.ino in infos'
              && infos'[x.ino].parent == e && infos'[x.ino].name == x.name && x.ftype == TypeOf(nodes'[x.ino])
    {
      assert Lists(infos[e].es, x);
    }
  }

  lemma RemoveHangs(nodes: Nodes, infos: Infos, d: nat, data: seq<byte>, es: seq<Entry>, t: nat)
    requires nodes.Keys == infos.Keys && IsDirectory(nodes, d) && LeafOf(nodes, infos, d, t)
    requires t != d && nodes[d].links > 0 && OneLess(infos[d].es, es, infos[t].name)
    requires forall j :: j in nodes && j != ROOT ==> Hangs(nodes, infos, j)
    requires forall x: Item, y: Item :: Lists(infos[d].es, x) && Lists(infos[d].es, y) && x.name == y.name ==> x == y
    ensures var nodes', infos' := RemoveNodes(nodes, d, data, t), RemoveInfos(infos, d, es, t);
            forall j :: j in nodes' && j != ROOT ==> Hangs(nodes', infos', j)
  {
    hide Hangs;
    hide OneLess;
    hide OnlyDots;
    var nodes', infos' := RemoveNodes(nodes, d, data, t), RemoveInfos(infos, d, es, t);
    forall j | j in nodes' && j != ROOT
      ensures Hangs(nodes', infos', j)
    {
      RemoveHangsOne(nodes, infos, d, data, es, t, j);
    }
  }

  lemma RemoveHangsOne(nodes: Nodes, infos: Infos, d: nat, data: seq<byte>, es: seq<Entry>, t: nat, j: nat)
    requires nodes.Keys == infos.Keys && IsDirectory(nodes, d) && LeafOf(nodes, infos, d, t)
    requires t != d && nodes[d].links > 0 && OneLess(infos[d].es, es, infos[t].name)
    requires j in nodes && j != ROOT && j != t && Hangs(nodes, infos, j) && Hangs(nodes, infos, t)
    requires forall x: Item, y: Item :: Lists(infos[d].es, x) && Lists(infos[d].es, y) && x.name == y.name ==> x == y
    ensures Hangs(RemoveNodes(nodes, d, data, t), RemoveInfos(infos, d, es, t), j)
  {
    hide Lists;
    var p, x, y := infos[j].parent, Item(infos[j].name, j, TypeOf(nodes[j])), Item(infos[t].name, t, TypeOf(nodes[t]));
    assert Lists(infos[p].es, x);
    assert p != t;
    if p == d {
      assert Lists(infos[d].es, y);
      assert x.name != y.name;
      assert Lists(es, x);
    }
  }

  lemma RemoveLinked(nodes: Nodes, infos: Infos, d: nat, data: seq<byte>, es: seq<Entry>, t: nat)
    requires nodes.Keys == infos.Keys && Linked(nodes, infos) && IsDirectory(nodes, d) && LeafOf(nodes, infos, d, t)
    requires t != d && nodes[d].links > 0
    ensures Linked(RemoveNodes(nodes, d, data, t), RemoveInfos(infos, d, es, t))
  {
    var nodes', infos' := RemoveNodes(nodes, d, data, t), RemoveInfos(infos, d, es, t);
    forall j | j in nodes'
      ensures nodes'[j].links == if nodes'[j].isDir then 2 + |SubDirs(nodes', infos', j)| else 1
    {
      if j == d && nodes[t].isDir {
        assert SubDirs(nodes', infos', d) == SubDirs(nodes, infos, d) - {t};
      } else {
        assert SubDirs(nodes', infos', j) == SubDirs(nodes, infos, j);
      }
    }
  }

  // ----- paths -----------------------------------------------------------------------------

  /** Follow a path of names down from inode d: 0 when some step fails. */
  ghost function Resolve(nodes: Nodes, infos: Infos, d: nat, path: seq<Name>): (i: nat)
    decreases |path|
  {
    if path == [] then d
    else if !IsDirectory(nodes, d) || d !in infos then 0
    else Resolve(nodes, infos, Find(Items(infos[d].es), path[0]), path[1..])
  }

  /** The path from the root to a live inode. */
  ghost function PathOf(nodes: Nodes, infos: Infos, i: nat): (path: seq<Name>)
    requires nodes.Keys == infos.Keys && i in nodes
    requires forall j :: j in nodes && j != ROOT ==> Hangs(nodes, infos, j)
    decreases infos[i].depth
  {
    if i == ROOT then []
    else
      assert Hangs(nodes, infos, i);
      PathOf(nodes, infos, infos[i].parent) + [infos[i].name]
  }

  ghost predicate Plain(path: seq<Name>) {
    forall k :: 0 <= k < |path| ==> !DotName(path[k])
  }

  lemma {:induction false} ResolveSnoc(nodes: Nodes, infos: Infos, d: nat, path: seq<Name>, name: Name)
    requires 0 !in nodes
    ensures Resolve(nodes, infos, d, path + [name]) ==
            var p := Resolve(nodes, infos, d, path);
            if IsDirectory(nodes, p) && p in infos then Find(Items(infos[p].es), name) else 0
    decreases |path|
  {
    if path == [] {
      assert [name][1..] == [];
    } else {
      assert (path + [name])[1..] == path[1..] + [name];
      if IsDirectory(nodes, d) && d in infos {
        ResolveSnoc(nodes, infos, Find(Items(infos[d].es), path[0]), path[1..], name);
      }
    }
  }

  /** Inside a directory, a plain name finds the inode that hangs there under it, if any. */
  lemma FindHanging(bs: nat, nodes: Nodes, infos: Infos, d: nat, name: Name, i: nat)
    requires Tree(bs, nodes, infos) && IsDirectory(nodes, d) && !DotName(name)
    requires i != 0
    ensures Find(Items(infos[d].es), name) == i <==>
              i in nodes && i != ROOT && infos[i].parent == d && infos[i].name == name
  {
    hide Find, Directory, Linked;
    var items := Items(infos[d].es);
    if Find(items, name) == i {
      if Absent(items, name) {
        FindNone(items, name);
      }
      FindSome(items, name);
      var k :| 0 <= k < |items| && items[k].name == name && Find(items, name) == items[k].ino;
      assert Lists(infos[d].es, items[k]);
    }
    if i in nodes && i != ROOT && infos[i].parent == d && infos[i].name == name {
      assert Hangs(nodes, infos, i);
      var x := Item(name, i, TypeOf(nodes[i]));
      var k :| 0 <= k < |items| && items[k] == x;
      DistinctFind(nodes[d].data, bs, infos[d].es, d, infos[d].parent, k);
    }
  }

  lemma DistinctFind(data: seq<byte>, bs: nat, es: seq<Entry>, d: nat, parent: nat, k: nat)
    requires Directory(data, bs, es, d, parent) && k < |es|
    ensures Find(Items(es), Items(es)[k].name) == Items(es)[k].ino
  {
    hide Chain;
    FindAt(Items(es), Items(es)[k].name, k);
  }

  /** The live inodes form a tree: each is reached from the root by exactly one plain path. */
  lemma {:induction false} OnePath(bs: nat, nodes: Nodes, infos: Infos, i: nat, path: seq<Name>)
    requires Tree(bs, nodes, infos) && i in nodes && Plain(path)
    ensures Plain(PathOf(nodes, infos, i))
    ensures Resolve(nodes, infos, ROOT, path) == i <==> path == PathOf(nodes, infos, i)
    decreases infos[i].depth, |path|
  {
    hide Directory;
    hide EntriesPlaced;
    hide Parsed;
    if i != ROOT {
      assert Hangs(nodes, infos, i);
      OnePath(bs, nodes, infos, infos[i].parent, []);
    }
    if path == [] {
      if i != ROOT {
        assert Hangs(nodes, infos, i);
      }
    } else {
      var n := |path| - 1;
      var front, name := path[..n], path[n];
      assert path == front + [name];
      ResolveSnoc(nodes, infos, ROOT, front, name);
      var p := Resolve(nodes, infos, ROOT, front);
      if IsDirectory(nodes, p) {
        FindHanging(bs, nodes, infos, p, name, i);
      }
      if i != ROOT {
        OnePath(bs, nodes, infos, infos[i].parent, front);
      }
    }
  }

  // ----- inode numbers -----------------------------------------------------------------------

  /** Exactly the live and the reserved inodes are marked; inode i is bit i - 1. */
  ghost predicate Marked(isp: Space, nodes: Nodes, reserved: set<nat>) {
    && 1 in reserved
    && (forall i :: i in nodes && i != ROOT ==> i !in reserved)
    && (forall i :: i in nodes ==> 0 < i && InGroups(isp, i - 1))
    && (forall x: nat :: InGroups(isp, x) ==> x + 1 < U32 && (Used(isp, x) <==> x + 1 in nodes || x + 1 in reserved))
  }

  /** ext2_alloc_inode: the scan of ext2_alloc_block over the inode bitmap, numbered from 1. */
  method AllocInode(isp: Space, group: nat) returns (isp': Space, ino: nat)
    requires Sound(isp)
    ensures Sound(isp')
    ensures ino == 0 <==> FullGroup(isp, group)
    ensures ino == 0 ==> isp' == isp
    ensures ino != 0 ==> ino > 1 && LowestFree(isp, group, ino - 1) && Marks(isp, isp', ino - 1, true)
  {
    hide Sound;
    hide Marks;
    hide LowestFree;
    var b;
    isp', b := AllocBlock(isp, group);
    ino := if b == 0 then 0 else b + 1;
  }

  /** ext2_free_inode */
  method FreeInode(isp: Space, ino: nat) returns (isp': Space, ok: bool)
    requires Sound(isp) && ino != 1
    ensures ok <==> ino != 0 && InGroups(isp, ino - 1)
    ensures !ok ==> isp' == isp
    ensures ok ==> Marks(isp, isp', ino - 1, false) && (Sound(isp') <==> Used(isp, ino - 1))
  {
    isp', ok := isp, false;
    if ino == 0 {
      return;
    }
    isp', ok := FreeBlock(isp, ino - 1);
  }

  lemma MarkedAdd(isp: Space, isp': Space, nodes: Nodes, nodes': Nodes, reserved: set<nat>, ino: nat)
    requires Marked(isp, nodes, reserved) && ino > 1 && Marks(isp, isp', ino - 1, true) && !Used(isp, ino - 1)
    requires nodes'.Keys == nodes.Keys + {ino}
    ensures Marked(isp', nodes', reserved) && ino !in nodes && ino < U32
  {
    hide Bit;
    forall x: nat
      ensures InGroups(isp', x) == InGroups(isp, x)
    {
    }
  }

  lemma MarkedRemove(isp: Space, isp': Space, nodes: Nodes, nodes': Nodes, reserved: set<nat>, ino: nat)
    requires Marked(isp, nodes, reserved) && ino in nodes && ino != ROOT && Marks(isp, isp', ino - 1, false)
    requires nodes'.Keys == nodes.Keys - {ino}
    ensures Marked(isp', nodes', reserved)
  {
    hide Bit;
    forall x: nat
      ensures InGroups(isp', x) == InGroups(isp, x)
    {
    }
  }

  /** Taking a number and giving it back changes no bit. */
  lemma MarkedUndo(isp: Space, isp1: Space, isp2: Space, nodes: Nodes, reserved: set<nat>, ino: nat)
    requires Marked(isp, nodes, reserved) && ino > 1 && !Used(isp, ino - 1)
    requires Marks(isp, isp1, ino - 1, true) && Marks(isp1, isp2, ino - 1, false)
    ensures Marked(isp2, nodes, reserved)
    ensures forall x: nat :: Used(isp2, x) == Used(isp, x)
  {
    hide Bit;
    forall x: nat
      ensures InGroups(isp2, x) == InGroups(isp, x)
    {
    }
  }

  // ----- the operations ------------------------------------------------------------------------

  datatype Error = EINVAL | ENOENT | ENOTDIR | EISDIR | EEXIST | ENOTEMPTY | NOINODE

  datatype Outcome = Ok(ino: nat) | Err(error: Error)

  ghost predicate CString(name: Name) { forall k :: 0 <= k < |name| ==> name[k] != 0 }

  /** The name is a valid one that the directory does not have. */
  ghost predicate Fresh(nodes: Nodes, infos: Infos, d: nat, name: Name) {
    IsDirectory(nodes, d) && d in infos && GoodName(name) && Absent(Items(infos[d].es), name)
  }

  /** Directory d has an entry for `name`. */
  ghost predicate Has(nodes: Nodes, infos: Infos, d: nat, name: Name) {
    IsDirectory(nodes, d) && d in infos && !Absent(Items(infos[d].es), name)
  }

  lemma TreeDirectory(bs: nat, nodes: Nodes, infos: Infos, d: nat)
    requires Tree(bs, nodes, infos) && IsDirectory(nodes, d)
    ensures d in infos && Directory(nodes[d].data, bs, infos[d].es, d, infos[d].parent) &&
              Chain(nodes[d].data, 0, |nodes[d].data|, infos[d].es)
  {
  }

  /** A fresh name is not "." or "..". */
  lemma FreshNotDots(data: seq<byte>, bs: nat, es: seq<Entry>, d: nat, parent: nat, name: Name)
    requires Directory(data, bs, es, d, parent) && Absent(Items(es), name)
    ensures !DotName(name)
  {
    hide Chain;
    assert Items(es)[0].name == DOT && Items(es)[1].name == DOTDOT;
  }

  /** The part create_file and create_dir share: the parent's check and lookup. */
  method CheckParent(nodes: Nodes, d: nat, name: Name, ghost bs: nat, ghost infos: Infos) returns (r: Outcome)
    requires Tree(bs, nodes, infos) && (d == 0 || d in nodes) && CString(name)
    ensures r.Ok? ==> r.ino != 0 && Has(nodes, infos, d, name) && r.ino == Find(Items(infos[d].es), name)
    ensures r.Err? ==> r.error == if d == 0 then EINVAL else if !nodes[d].isDir then ENOTDIR else ENOENT
    ensures r == Err(ENOENT) ==> IsDirectory(nodes, d) && d in infos && Absent(Items(infos[d].es), name)
    ensures r != Err(ENOENT) ==> !Fresh(nodes, infos, d, name)
    ensures r.Err? ==> !Has(nodes, infos, d, name)
  {
    hide Directory;
    hide Chain;
    if d == 0 {
      return Err(EINVAL);
    }
    if !nodes[d].isDir {
      return Err(ENOTDIR);
    }
    TreeDirectory(bs, nodes, infos, d);
    var ino := Lookup(nodes[d].data, name, infos[d].es);
    NotFound(nodes[d].data, bs, infos[d].es, d, infos[d].parent, name);
    r := if ino == 0 then Err(ENOENT) else Ok(ino);
  }

  /** The inode record a creation writes: a directory starts with its "." and "..". */
  function NewNode(bs: nat, i: nat, d: nat, isDir: bool): (node: Node) {
    if !isDir then Node(false, 1, [])
    else Node(true, 2, if 24 <= bs < U16 && i < U32 && d < U32 then NewBytes(bs, i, d) else [])
  }

  /** The entries of a new inode. */
  function NewEntries(bs: nat, i: nat, d: nat, isDir: bool): (es: seq<Entry>) {
    if isDir && bs >= 12 then [Entry(i, 12, FT_DIR, DOT), Entry(d, bs - 12, FT_DIR, DOTDOT)] else []
  }

  lemma NewNodeLaw(bs: nat, i: nat, d: nat, isDir: bool)
    requires bs in {1024, 2048, 4096} && 0 < i < U32 && 0 < d < U32
    ensures var node, es := NewNode(bs, i, d, isDir), NewEntries(bs, i, d, isDir);
            && (node.isDir ==> Directory(node.data, bs, es, i, d))
            && OnlyDots(es) && node.links == (if node.isDir then 2 else 1) && node.isDir == isDir
  {
    hide Directory;
    if isDir {
      NewDirectory(bs, i, d);
    }
  }

  /** What a successful creation leaves. */
  ghost predicate Created(nodes: Nodes, infos: Infos, nodes': Nodes, infos': Infos, d: nat, name: Name, i: nat,
                          node: Node) {
    && i !in nodes && i !in infos && d in nodes && d in infos
    && exists data, es, esNew ::
         && nodes' == AddNodes(nodes, d, data, i, node) && infos' == AddInfos(infos, d, es, i, name, esNew)
                                 && OneMore(infos[d].es, es, Item(name, i, TypeOf(node)))
  }

  /** What a successful removal leaves. */
  ghost predicate Removed(nodes: Nodes, infos: Infos, nodes': Nodes, infos': Infos, d: nat, name: Name, t: nat) {
    && t in nodes && t in infos && d in nodes && d in infos && infos[t].parent == d && infos[t].name == name
    && (nodes[t].isDir ==> nodes[d].links > 0)
    && exists data, es :: nodes' == RemoveNodes(nodes, d, data, t) && infos' == RemoveInfos(infos, d, es, t)
                          && OneLess(infos[d].es, es, name)
  }

  lemma TakenIsFree(isp: Space, isp1: Space, nodes: Nodes, reserved: set<nat>, i: nat)
    requires Marked(isp, nodes, reserved) && i > 1 && LowestFree(isp, 0, i - 1) && Marks(isp, isp1, i - 1, true)
    ensures !Used(isp, i - 1) && i !in nodes && i < U32 && Used(isp1, i - 1) && InGroups(isp1, i - 1)
  {
  }

  /** The error path of a creation: the number just taken is freed again. */
  method GiveBack(isp: Space, isp1: Space, i: nat, ghost nodes: Nodes, ghost reserved: set<nat>) returns (isp2: Space)
    requires Sound(isp1) && Marked(isp, nodes, reserved) && i > 1 && LowestFree(isp, 0, i - 1) &&
               Marks(isp, isp1, i - 1, true)
    ensures Sound(isp2) && Marked(isp2, nodes, reserved)
    ensures forall x: nat :: Used(isp2, x) == Used(isp, x)
  {
    hide Sound;
    hide Marked;
    hide Marks;
    hide LowestFree;
    TakenIsFree(isp, isp1, nodes, reserved, i);
    var ok;
    isp2, ok := FreeInode(isp1, i);
    MarkedUndo(isp, isp1, isp2, nodes, reserved, i);
  }

  /** The new inode record and the parent's entry for it. */
  method Place(bs: nat, nodes: Nodes, ghost infos: Infos, d: nat, name: Name, i: nat, isDir: bool, junk: seq<byte>)
    returns (nodes': Nodes, ghost infos': Infos)
    requires Tree(bs, nodes, infos) && i !in nodes && 0 < i < U32
    requires Fresh(nodes, infos, d, name) && Room(nodes[d].data, bs, infos[d].es, name) && |junk| == bs
    ensures Tree(bs, nodes', infos') && nodes'.Keys == nodes.Keys + {i}
    ensures Created(nodes, infos, nodes', infos', d, name, i, NewNode(bs, i, d, isDir))
  {
    hide Tree;
    hide Directory;
    hide Room;
    hide Chain;
    hide OnlyDots;
    hide NewNode;
    hide Created;
    hide OneMore;
    hide Absent;
    TreeDirectory(bs, nodes, infos, d);
    TreeBounds(bs, nodes, infos, d);
    FreshNotDots(nodes[d].data, bs, infos[d].es, d, infos[d].parent, name);
    NewNodeLaw(bs, i, d, isDir);
    var node := NewNode(bs, i, d, isDir);
    ghost var esNew := NewEntries(bs, i, d, isDir);
    var data;
    ghost var es;
    data, es := DirAdd(nodes[d].data, bs, name, i, TypeOf(node), junk, infos[d].es, d, infos[d].parent);
    OneMoreIntro(infos[d].es, es, Item(name, i, TypeOf(node)));
    AddLeaf(bs, nodes, infos, d, data, es, i, node, name, esNew);
    nodes' := AddNodes(nodes, d, data, i, node);
    infos' := AddInfos(infos, d, es, i, name, esNew);
    CreatedIntro(nodes, infos, nodes', infos', d, data, es, i, node, name, esNew);
  }

  lemma OneMoreIntro(es: seq<Entry>, es': seq<Entry>, x: Item)
    requires forall y :: y in Items(es') <==> y in Items(es) || y == x
    ensures OneMore(es, es', x)
  {
  }

  lemma CreatedIntro(nodes: Nodes, infos: Infos, nodes': Nodes, infos': Infos, d: nat, data: seq<byte>, es: seq<Entry>,
                     i: nat, node: Node, name: Name, esNew: seq<Entry>)
    requires nodes.Keys == infos.Keys && d in nodes && i !in nodes
    requires nodes' == AddNodes(nodes, d, data, i, node) && infos' == AddInfos(infos, d, es, i, name, esNew)
    requires OneMore(infos[d].es, es, Item(name, i, TypeOf(node)))
    ensures Created(nodes, infos, nodes', infos', d, name, i, node)
    ensures nodes'.Keys == nodes.Keys + {i}
  {
    hide OneMore;
  }

  lemma NoInodeZero(bs: nat, nodes: Nodes, infos: Infos)
    requires Tree(bs, nodes, infos)
    ensures 0 !in nodes
  {
  }

  lemma TreeBounds(bs: nat, nodes: Nodes, infos: Infos, d: nat)
    requires Tree(bs, nodes, infos) && d in nodes
    ensures bs in {1024, 2048, 4096} && 0 < d < U32 && nodes.Keys == infos.Keys
  {
  }

  // ----- removal ---------------------------------------------------------------------------

  /** What a lookup in a live directory can return. */
  lemma Target(bs: nat, nodes: Nodes, infos: Infos, d: nat, name: Name, t: nat)
    requires Tree(bs, nodes, infos) && IsDirectory(nodes, d) && t == Find(Items(infos[d].es), name) != 0
    ensures t in nodes && t in infos
    ensures DotName(name) ==> nodes[t].isDir
    ensures !DotName(name) ==> t != ROOT && infos[t].parent == d && infos[t].name == name
    ensures !nodes[t].isDir ==> nodes[t].links == 1
  {
    hide EntriesPlaced;
    hide SubDirs;
    hide Chain;
    if !DotName(name) {
      FindHanging(bs, nodes, infos, d, name, t);
    } else {
      DotTargets(nodes[d].data, bs, infos[d].es, d, infos[d].parent);
      if d != ROOT {
        assert Hangs(nodes, infos, d);
      }
    }
  }

  lemma DotTargets(data: seq<byte>, bs: nat, es: seq<Entry>, d: nat, parent: nat)
    requires Directory(data, bs, es, d, parent)
    ensures Find(Items(es), DOT) == d && Find(Items(es), DOTDOT) == parent
  {
    DistinctFind(data, bs, es, d, parent, 0);
    DistinctFind(data, bs, es, d, parent, 1);
  }

  /** The parent's entry for t goes, and with it t. */
  method Unplace(bs: nat, nodes: Nodes, ghost infos: Infos, d: nat, name: Name, t: nat)
    returns (nodes': Nodes, ghost infos': Infos)
    requires Tree(bs, nodes, infos) && IsDirectory(nodes, d) && d in infos && CString(name) && !DotName(name)
    requires LeafOf(nodes, infos, d, t) && infos[t].name == name && !Absent(Items(infos[d].es), name)
    ensures Tree(bs, nodes', infos') && nodes'.Keys == nodes.Keys - {t}
    ensures Removed(nodes, infos, nodes', infos', d, name, t)
  {
    hide Tree;
    hide Directory;
    hide Chain;
    hide OnlyDots;
    hide Removed;
    hide OneLess;
    hide Absent;
    TreeDirectory(bs, nodes, infos, d);
    TreeBounds(bs, nodes, infos, d);
    var data, ok;
    ghost var es;
    data, ok, es := DirRemove(nodes[d].data, bs, name, infos[d].es, d, infos[d].parent);
    OneLessIntro(infos[d].es, es, name);
    RemoveLeaf(bs, nodes, infos, d, data, es, t);
    nodes' := RemoveNodes(nodes, d, data, t);
    infos' := RemoveInfos(infos, d, es, t);
    RemovedIntro(nodes, infos, nodes', infos', d, data, es, t, name);
  }

  lemma OneLessIntro(es: seq<Entry>, es': seq<Entry>, name: Name)
    requires forall x: Item :: x in Items(es') <==> x in Items(es) && x.name != name
    ensures OneLess(es, es', name)
  {
  }

  lemma RemovedIntro(nodes: Nodes, infos: Infos, nodes': Nodes, infos': Infos, d: nat, data: seq<byte>, es: seq<Entry>,
                     t: nat, name: Name)
    requires nodes.Keys == infos.Keys && d in nodes && t in nodes && t != d && infos[t].parent == d &&
               infos[t].name == name
    requires nodes[t].isDir ==> nodes[d].links > 0
    requires nodes' == RemoveNodes(nodes, d, data, t) && infos' == RemoveInfos(infos, d, es, t) &&
               OneLess(infos[d].es, es, name)
    ensures Removed(nodes, infos, nodes', infos', d, name, t)
    ensures nodes'.Keys == nodes.Keys - {t}
  {
    hide OneLess;
  }

  lemma LiveIsUsed(isp: Space, nodes: Nodes, reserved: set<nat>, t: nat)
    requires Marked(isp, nodes, reserved) && t in nodes
    ensures t != 1 ==> t > 0 && InGroups(isp, t - 1) && Used(isp, t - 1)
    ensures t != ROOT ==> t != 1
  {
  }

  /** Giving back the number of an inode that was live. */
  method DropInode(isp: Space, t: nat, ghost nodes: Nodes, ghost nodes': Nodes, ghost reserved: set<nat>)
    returns (isp': Space)
    requires Sound(isp) && Marked(isp, nodes, reserved) && t in nodes && t != ROOT && nodes'.Keys == nodes.Keys - {t}
    ensures Sound(isp') && Marked(isp', nodes', reserved)
  {
    hide Sound;
    hide Marked;
    hide Marks;
    LiveIsUsed(isp, nodes, reserved, t);
    var ok;
    isp', ok := FreeInode(isp, t);
    MarkedRemove(isp, isp', nodes, nodes', reserved, t);
  }

  class FileSystem {
    const bs: nat
    var nodes: Nodes
    /** Inode bitmaps with their counters, laid out like the block ones. */
    var isp: Space
    ghost const reserved: set<nat>
    ghost var infos: Infos

    /** A mounted file system in any consistent state. */
    constructor (bs: nat, nodes: Nodes, isp: Space, ghost reserved: set<nat>, ghost infos: Infos)
      requires Tree(bs, nodes, infos) && Sound(isp) && Marked(isp, nodes, reserved)
      ensures Valid() && this.bs == bs && this.nodes == nodes && this.isp == isp && this.reserved == reserved &&
                this.infos == infos
    {
      hide Tree;
      hide Sound;
      hide Marked;
      this.bs, this.nodes, this.isp := bs, nodes, isp;
      this.reserved, this.infos := reserved, infos;
    }

    ghost predicate Valid()
      reads this
    {
      Tree(bs, nodes, infos) && Sound(isp) && Marked(isp, nodes, reserved)
    }

    /** ext2_create_file and ext2_create_dir: the new inode, then the parent's entry. */
    method Create(d: nat, name: Name, isDir: bool, junk: seq<byte>) returns (r: Outcome)
      requires Valid() && (d == 0 || d in nodes) && CString(name) && |junk| == bs
      requires Fresh(nodes, infos, d, name) ==> Room(nodes[d].data, bs, infos[d].es, name)
      modifies this
      ensures Valid()
      ensures r.Ok? <==> Fresh(old(nodes), old(infos), d, name) && !FullGroup(old(isp), 0)
      ensures r.Ok? ==> Created(old(nodes), old(infos), nodes, infos, d, name, r.ino,
                                NewNode(bs, r.ino, d, isDir))
      ensures r.Err? ==> nodes == old(nodes) && infos == old(infos)
      ensures r.Err? ==> forall x: nat :: Used(isp, x) == Used(old(isp), x)
      ensures r.Err? ==> r.error == if d == 0 then EINVAL else if !old(nodes)[d].isDir then ENOTDIR
                         else if Has(old(nodes), old(infos), d, name) then EEXIST
                         else if FullGroup(old(isp), 0) then NOINODE else EINVAL
    {
      hide Tree;
      hide Sound;
      hide Marked;
      hide Marks;
      hide Directory;
      hide Room;
      hide FullGroup;
      hide LowestFree;
      hide Created;
      hide NewNode;
      NoInodeZero(bs, nodes, infos);
      var c := CheckParent(nodes, d, name, bs, infos);
      if c != Err(ENOENT) {
        return if c.Ok? then Err(EEXIST) else c;
      }
      var isp1, i := AllocInode(isp, 0);
      if i == 0 {
        return Err(NOINODE);
      }
      if !(0 < |name| <= NAME_LEN) {
        r := Err(EINVAL);
        isp := GiveBack(isp, isp1, i, nodes, reserved);
        return;
      }
      r := Ok(i);
      TakenIsFree(isp, isp1, nodes, reserved, i);
      ghost var nodes0, isp0 := nodes, isp;
      nodes, infos := Place(bs, nodes, infos, d, name, i, isDir, junk);
      isp := isp1;
      MarkedAdd(isp0, isp1, nodes0, nodes, reserved, i);
    }

    /** ext2_remove_file */
    method RemoveFile(d: nat, name: Name) returns (r: Outcome)
      requires Valid() && (d == 0 || d in nodes) && CString(name)
      modifies this
      ensures Valid()
      ensures r.Ok? <==> GoodName(name) && Has(old(nodes), old(infos), d, name)
                         && var t := Find(Items(old(infos)[d].es), name); t in old(nodes) && !old(nodes)[t].isDir
      ensures r.Ok? ==> Removed(old(nodes), old(infos), nodes, infos, d, name, r.ino) && !old(nodes)[r.ino].isDir
      ensures r.Err? ==> nodes == old(nodes) && infos == old(infos) && isp == old(isp)
      ensures r.Err? ==> r.error == if d == 0 || !(0 < |name| <= NAME_LEN) then EINVAL
                         else if !old(nodes)[d].isDir then ENOTDIR
                         else if !Has(old(nodes), old(infos), d, name) then ENOENT else EISDIR
    {
      hide Tree;
      hide Sound;
      hide Marked;
      hide Directory;
      hide Removed;
      hide Absent;
      if !(0 < |name| <= NAME_LEN) {
        return Err(EINVAL);
      }
      NoInodeZero(bs, nodes, infos);
      var c := CheckParent(nodes, d, name, bs, infos);
      if c.Err? {
        return c;
      }
      var t := c.ino;
      Target(bs, nodes, infos, d, name, t);
      if nodes[t].isDir {
        return Err(EISDIR);
      }
      r := Ok(t);
      var links := nodes[t].links - 1;
      assert links == 0;   // no other entry can name the file, so it is always freed here
      ghost var nodes0 := nodes;
      nodes, infos := Unplace(bs, nodes, infos, d, name, t);
      isp := DropInode(isp, t, nodes0, nodes, reserved);
    }

    /** ext2_remove_dir */
    method RemoveDir(d: nat, name: Name) returns (r: Outcome)
      requires Valid() && (d == 0 || d in nodes) && CString(name)
      modifies this
      ensures Valid()
      ensures r.Ok? <==> GoodName(name) && !DotName(name) && Has(old(nodes), old(infos), d, name)
                         && var t := Find(Items(old(infos)[d].es), name);
                            IsDirectory(old(nodes), t) && t in old(infos) && OnlyDots(old(infos)[t].es)
      ensures r.Ok? ==> Removed(old(nodes), old(infos), nodes, infos, d, name, r.ino) && old(nodes)[r.ino].isDir
      ensures r.Err? ==> nodes == old(nodes) && infos == old(infos) && isp == old(isp)
      ensures r.Err? ==> r.error == if d == 0 || !(0 < |name| <= NAME_LEN) || DotName(name) then EINVAL
                         else if !old(nodes)[d].isDir then ENOTDIR
                         else if !Has(old(nodes), old(infos), d, name) then ENOENT
                         else if !IsDirectory(old(nodes), Find(Items(old(infos)[d].es), name)) then ENOTDIR
                         else ENOTEMPTY
    {
      hide Tree;
      hide Sound;
      hide Marked;
      hide Directory;
      hide Removed;
      hide Absent;
      hide OnlyDots;
      if !(0 < |name| <= NAME_LEN) || DotName(name) {
        return Err(EINVAL);
      }
      NoInodeZero(bs, nodes, infos);
      var c := CheckParent(nodes, d, name, bs, infos);
      if c.Err? {
        return c;
      }
      var t := c.ino;
      Target(bs, nodes, infos, d, name, t);
      if !nodes[t].isDir {
        return Err(ENOTDIR);
      }
      TreeDirectory(bs, nodes, infos, t);
      var empty := IsEmpty(nodes[t].data, bs, infos[t].es, t, infos[t].parent);
      OnlyDotsIntro(infos[t].es, empty);
      if !empty {
        return Err(ENOTEMPTY);
      }
      r := Ok(t);
      ghost var nodes0 := nodes;
      nodes, infos := Unplace(bs, nodes, infos, d, name, t);
      isp := DropInode(isp, t, nodes0, nodes, reserved);
    }

    /** Any run of operations, successful or refused, on live directories that keep under 64 KiB. */
    method Run(ops: seq<NsOp>)
      requires Valid() && forall op :: op in ops ==> CString(op.name) && (op.Make? ==> |op.junk| == bs)
      modifies this
      ensures Valid()
      ensures forall i, path :: i in nodes && Plain(path) ==>
                (Resolve(nodes, infos, ROOT, path) == i <==> path == PathOf(nodes, infos, i))
      ensures NamedOnce(nodes, infos)
      ensures forall x: nat :: InGroups(isp, x) ==> (Used(isp, x) <==> x + 1 in nodes || x + 1 in reserved)
    {
      var k := 0;
      while k < |ops|
        invariant k <= |ops| && Valid()
      {
        assert ops[k] in ops;
        Step(ops[k]);
        k := k + 1;
      }
      forall i, path | i in nodes && Plain(path)
        ensures Resolve(nodes, infos, ROOT, path) == i <==> path == PathOf(nodes, infos, i)
      {
        OnePath(bs, nodes, infos, i, path);
      }
      TreeNamedOnce(bs, nodes, infos);
    }

    /** One operation; a creation goes ahead when its directory has room. */
    method Step(op: NsOp)
      requires Valid() && CString(op.name) && (op.Make? ==> |op.junk| == bs)
      modifies this
      ensures Valid()
    {
      hide Tree;
      hide Sound;
      hide Marked;
      hide Directory;
      hide Room;
      hide Created;
      hide Removed;
      if op.d == 0 || op.d in nodes {
        match op {
          case Make(d, name, isDir, junk) =>
            var room := true;
            NoInodeZero(bs, nodes, infos);
            if d != 0 && nodes[d].isDir {
              TreeDirectory(bs, nodes, infos, d);
              room := HasRoom(nodes[d].data, bs, name, infos[d].es);
            }
            if room {
              var r := Create(d, name, isDir, junk);
            }
          case Unlink(d, name) =>
            var r := RemoveFile(d, name);
          case Rmdir(d, name) =>
            var r := RemoveDir(d, name);
        }
      }
    }
  }

  datatype NsOp =
    | Make(d: nat, name: Name, isDir: bool, junk: seq<byte>)
    | Unlink(d: nat, name: Name)
    | Rmdir(d: nat, name: Name)

  /** Directory d has the entry x, and it is not "." or "..". */
  ghost predicate Names(nodes: Nodes, infos: Infos, d: nat, x: Item) {
    IsDirectory(nodes, d) && d in infos && Lists(infos[d].es, x) && !DotName(x.name)
  }

  /** No two entries other than "." and ".." name the same inode. */
  ghost predicate NamedOnce(nodes: Nodes, infos: Infos) {
    forall d, e, x: Item, y: Item :: Names(nodes, infos, d, x) && Names(nodes, infos, e, y) && x.ino == y.ino ==>
           d == e && x == y
  }

  lemma TreeNamedOnce(bs: nat, nodes: Nodes, infos: Infos)
    requires Tree(bs, nodes, infos)
    ensures NamedOnce(nodes, infos)
  {
    hide Directory;
    hide Lists;
    hide Hangs;
    hide Linked;
  }

  /** A freshly made file system: the root directory alone. */
  lemma RootOnly(bs: nat)
    requires bs in {1024, 2048, 4096}
    ensures Tree(bs, map[ROOT := NewNode(bs, ROOT, ROOT, true)],
                 map[ROOT := Info(ROOT, [], 0, NewEntries(bs, ROOT, ROOT, true))])
  {
    hide Directory;
    NewNodeLaw(bs, ROOT, ROOT, true);
    var nodes := map[ROOT := NewNode(bs, ROOT, ROOT, true)];
    var infos := map[ROOT := Info(ROOT, [], 0, NewEntries(bs, ROOT, ROOT, true))];
    assert SubDirs(nodes, infos, ROOT) == {};
  }

  lemma OnlyDotsIntro(es: seq<Entry>, empty: bool)
    requires empty <==> forall x: Item :: x in Items(es) ==> x.name == DOT || x.name == DOTDOT
    ensures empty <==> OnlyDots(es)
  {
  }
}
