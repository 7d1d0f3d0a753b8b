/**
 What path normalisation (kernel/fs/vfs.c:50-192) is for: the normalised path, walked
 by vfs_resolve_path, leads to the inode that following the original path leads to,
 through the directories' own "." and ".." entries.

 The stack of vfs.c holds 64 components and drops what does not fit, so this has an
 exact limit.
 */
module PathWalk {
  import opened Bytes
  import opened Ext2Dir
  import opened Ext2Namespace
  import opened Paths

  // ----- following a path without a limit

  /** A component that is pushed. */
  predicate IsName(c: Name) { c != [] && c != DOT && c != DOTDOT }

  /** One component on a stack of any depth. */
  function Step(stack: seq<Name>, c: Name): seq<Name> {
    if IsName(c) then stack + [c]
    else if c == DOTDOT && stack != [] then stack[..|stack| - 1]
    else stack
  }

  /** What the components mean as text. */
  function Meaning(cs: seq<Name>): seq<Name> {
    if cs == [] then [] else Step(Meaning(cs[..|cs| - 1]), cs[|cs| - 1])
  }

  /** The components a walk looks up: doubled slashes name nothing. */
  function Named(cs: seq<Name>): seq<Name> {
    if cs == [] then []
    else
      var n := |cs| - 1;
      if cs[n] == [] then Named(cs[..n]) else Named(cs[..n]) + [cs[n]]
  }

  /** One lookup and one component of the meaning, side by side. */
  lemma {:induction false} OneStep(bs: nat, nodes: Nodes, infos: Infos, d: nat, c: Name, i: nat)
    requires Tree(bs, nodes, infos) && IsDirectory(nodes, d) && i in nodes && Find(Items(infos[d].es), c) == i &&
               c != []
    ensures Step(PathOf(nodes, infos, d), c) == PathOf(nodes, infos, i)
  {
    hide EntriesPlaced, Linked, Ext2Namespace.Hangs, Directory;
    if c == DOT || c == DOTDOT {
      DotTargets(nodes[d].data, bs, infos[d].es, d, infos[d].parent);
      assert d != ROOT ==> Ext2Namespace.Hangs(nodes, infos, d);
    } else {
      FindHanging(bs, nodes, infos, d, c, i);
      assert Ext2Namespace.Hangs(nodes, infos, i);
    }
  }

  /** A path that leads to an inode, by names and by the dot entries on disk, means that inode's one plain path. */
  lemma {:induction false} MeansItsPath(bs: nat, nodes: Nodes, infos: Infos, cs: seq<Name>, i: nat)
    requires Tree(bs, nodes, infos) && i in nodes && Ext2Namespace.Resolve(nodes, infos, ROOT, Named(cs)) == i
    ensures Meaning(cs) == PathOf(nodes, infos, i)
    decreases |cs|
  {
    hide EntriesPlaced, Parsed, Linked, Ext2Namespace.Hangs, Directory, Step;
    OnePath(bs, nodes, infos, i, []);
    if cs != [] {
      var n := |cs| - 1;
      var init, c := cs[..n], cs[n];
      hide PathOf;
      if c == [] {
        StepNone(Meaning(init));
        MeansItsPath(bs, nodes, infos, init, i);
      } else {
        NoInodeZero(bs, nodes, infos);
        ResolveSnoc(nodes, infos, ROOT, Named(init), c);
        var d := Ext2Namespace.Resolve(nodes, infos, ROOT, Named(init));
        MeansItsPath(bs, nodes, infos, init, d);
        OneStep(bs, nodes, infos, d, c, i);
      }
    }
  }

  lemma StepNone(stack: seq<Name>)
    ensures Step(stack, []) == stack
  {
  }

  /** Every lookup of the path finds a directory to look in, by the meaning of what comes before it. */
  ghost predicate Through(nodes: Nodes, infos: Infos, cs: seq<Name>) {
    forall n :: 0 <= n < |cs| && cs[n] != [] ==>
      IsDirectory(nodes, Ext2Namespace.Resolve(nodes, infos, ROOT, Meaning(cs[..n])))
  }

  lemma ThroughLast(nodes: Nodes, infos: Infos, cs: seq<Name>)
    requires cs != []
    ensures var n := |cs| - 1;
            Through(nodes, infos, cs) <==>
            && Through(nodes, infos, cs[..n])
            && (cs[n] != [] ==> IsDirectory(nodes, Ext2Namespace.Resolve(nodes, infos, ROOT, Meaning(cs[..n]))))
  {
    hide Meaning, Ext2Namespace.Resolve, IsDirectory;
    var init := cs[..|cs| - 1];
    assert forall m :: 0 <= m < |init| ==> init[..m] == cs[..m];
    assert forall m :: 0 <= m < |init| ==> init[m] == cs[m];
  }

  lemma {:induction false} MeaningPlain(cs: seq<Name>)
    ensures Plain(Meaning(cs))
  {
    if cs != [] {
      MeaningPlain(cs[..|cs| - 1]);
    }
  }

  /** The dot entries of a directory lead to live inodes. */
  lemma {:induction false} DotsLive(bs: nat, nodes: Nodes, infos: Infos, d: nat)
    requires Tree(bs, nodes, infos) && IsDirectory(nodes, d)
    ensures Find(Items(infos[d].es), DOT) == d && Find(Items(infos[d].es), DOTDOT) == infos[d].parent
    ensures infos[d].parent in nodes
  {
    hide EntriesPlaced, Linked, Directory;
    DotTargets(nodes[d].data, bs, infos[d].es, d, infos[d].parent);
    assert d != ROOT ==> Ext2Namespace.Hangs(nodes, infos, d);
  }

  /** The lookup that a component's meaning stands for. */
  lemma {:induction false} StepBack(bs: nat, nodes: Nodes, infos: Infos, d: nat, c: Name, i: nat)
    requires Tree(bs, nodes, infos) && IsDirectory(nodes, d) && i in nodes && c != []
    requires Step(PathOf(nodes, infos, d), c) == PathOf(nodes, infos, i)
    ensures Find(Items(infos[d].es), c) == i
  {
    hide EntriesPlaced, Linked, Ext2Namespace.Hangs, Directory;
    OnePath(bs, nodes, infos, d, []);
    OnePath(bs, nodes, infos, i, []);
    OnePath(bs, nodes, infos, i, PathOf(nodes, infos, i));
    if IsName(c) {
      NoInodeZero(bs, nodes, infos);
      OnePath(bs, nodes, infos, d, PathOf(nodes, infos, d));
      ResolveSnoc(nodes, infos, ROOT, PathOf(nodes, infos, d), c);
    } else {
      DotsLive(bs, nodes, infos, d);
      var j := Find(Items(infos[d].es), c);
      OneStep(bs, nodes, infos, d, c, j);
      OnePath(bs, nodes, infos, j, PathOf(nodes, infos, j));
    }
  }

  /**
   The other way round: the path leads where its meaning leads exactly when every
   directory it passes through is there.
   */
  lemma {:induction false} RawExactly(bs: nat, nodes: Nodes, infos: Infos, cs: seq<Name>, i: nat)
    requires Tree(bs, nodes, infos) && i in nodes
    ensures Ext2Namespace.Resolve(nodes, infos, ROOT, Named(cs)) == i <==>
            Ext2Namespace.Resolve(nodes, infos, ROOT, Meaning(cs)) == i && Through(nodes, infos, cs)
    decreases |cs|
  {
    hide EntriesPlaced, Parsed, Linked, Ext2Namespace.Hangs, Directory, Step, Through;
    OnePath(bs, nodes, infos, i, []);
    MeaningPlain(cs);
    OnePath(bs, nodes, infos, i, Meaning(cs));
    if cs == [] {
      ThroughNone(nodes, infos);
    } else {
      var n := |cs| - 1;
      var init, c := cs[..n], cs[n];
      ThroughLast(nodes, infos, cs);
      hide PathOf;
      if c == [] {
        StepNone(Meaning(init));
        RawExactly(bs, nodes, infos, init, i);
      } else {
        NoInodeZero(bs, nodes, infos);
        ResolveSnoc(nodes, infos, ROOT, Named(init), c);
        var d := Ext2Namespace.Resolve(nodes, infos, ROOT, Named(init));
        if d in nodes {
          RawExactly(bs, nodes, infos, init, d);
        }
        if Ext2Namespace.Resolve(nodes, infos, ROOT, Named(cs)) == i {
          MeansItsPath(bs, nodes, infos, cs, i);
        } else if Through(nodes, infos, cs) && Ext2Namespace.Resolve(nodes, infos, ROOT, Meaning(cs)) == i {
          var e := Ext2Namespace.Resolve(nodes, infos, ROOT, Meaning(init));
          RawExactly(bs, nodes, infos, init, e);
          MeansItsPath(bs, nodes, infos, init, e);
          StepBack(bs, nodes, infos, e, c, i);
        }
      }
    }
  }

  lemma ThroughNone(nodes: Nodes, infos: Infos)
    ensures Through(nodes, infos, [])
  {
  }

  /** A missing name before "..": the meaning is the root, the walk fails. */
  lemma {:induction false} MissingForgiven(bs: nat, nodes: Nodes, infos: Infos, x: Name)
    requires Tree(bs, nodes, infos) && Regular(x) && Find(Items(infos[ROOT].es), x) == 0
    ensures Ext2Namespace.Resolve(nodes, infos, ROOT, [x, DOTDOT]) == 0
    ensures Ext2Namespace.Resolve(nodes, infos, ROOT, Fold([], [x, DOTDOT])) == ROOT
  {
    hide Fold, Parsed, EntriesPlaced, Linked, Ext2Namespace.Hangs, Find, Items;
    NoInodeZero(bs, nodes, infos);
    ResolveSnoc(nodes, infos, ROOT, [], x);
    ResolveSnoc(nodes, infos, ROOT, [x], DOTDOT);
    assert [] + [x] == [x] && [x] + [DOTDOT] == [x, DOTDOT];
    FoldBack(x);
  }

  lemma FoldBack(x: Name)
    requires Regular(x)
    ensures Fold([], [x, DOTDOT]) == []
  {
    FoldLast([], [], x);
    FoldLast([], [x], DOTDOT);
    assert [] + [x] == [x] && [x] + [DOTDOT] == [x, DOTDOT] && [x][..0] == [];
  }

  // ----- the stack of 64

  predicate Short(cs: seq<Name>) { forall k :: 0 <= k < |cs| ==> |cs[k]| < MAX_LEN }

  lemma {:induction false} FoldPlain(cs: seq<Name>)
    requires Short(cs)
    ensures Plain(Fold([], cs)) && |Fold([], cs)| <= MAX_COMPONENTS
  {
    if cs != [] {
      var n := |cs| - 1;
      assert cs == cs[..n] + [cs[n]];
      FoldLast([], cs[..n], cs[n]);
      FoldPlain(cs[..n]);
    }
  }

  /**
   The normalised path leads to the inode the original leads to exactly when the
   stack of 64 and the unlimited one agree on its text.
   */
  lemma {:induction false} SameInodeExactly(bs: nat, nodes: Nodes, infos: Infos, cs: seq<Name>, i: nat)
    requires Tree(bs, nodes, infos) && i in nodes && Ext2Namespace.Resolve(nodes, infos, ROOT, Named(cs)) == i &&
               Short(cs)
    ensures Ext2Namespace.Resolve(nodes, infos, ROOT, Fold([], cs)) == i <==> Fold([], cs) == Meaning(cs)
  {
    hide Tree, PathOf, Fold, Meaning;
    MeansItsPath(bs, nodes, infos, cs, i);
    FoldPlain(cs);
    OnePath(bs, nodes, infos, i, Fold([], cs));
  }

  /** No name comes while the stack is full. */
  predicate Fits(cs: seq<Name>) {
    forall n :: 0 <= n < |cs| && IsName(cs[n]) ==> |Fold([], cs[..n])| < MAX_COMPONENTS
  }

  lemma {:induction false} FitsAgrees(cs: seq<Name>)
    requires Fits(cs) && Short(cs)
    ensures Fold([], cs) == Meaning(cs)
  {
    if cs != [] {
      var n := |cs| - 1;
      assert cs == cs[..n] + [cs[n]];
      forall m | 0 <= m < n && IsName(cs[..n][m])
        ensures |Fold([], cs[..n][..m])| < MAX_COMPONENTS
      {
        assert cs[..n][..m] == cs[..m];
      }
      FitsAgrees(cs[..n]);
      FoldLast([], cs[..n], cs[n]);
    }
  }

  // ----- a text of a call is too short to hide a dropped name

  /** The bytes of the components, with a slash for each. */
  function Weight(cs: seq<Name>): nat {
    if cs == [] then 0 else |cs[0]| + 1 + Weight(cs[1..])
  }

  lemma {:induction false} WeightLast(cs: seq<Name>)
    requires cs != []
    ensures Weight(cs) == Weight(cs[..|cs| - 1]) + |cs[|cs| - 1]| + 1
  {
    if |cs| == 1 {
      assert cs[1..] == [] && cs[..0] == [];
    } else {
      WeightLast(cs[1..]);
      assert cs[1..][..|cs| - 2] == cs[..|cs| - 1][1..];
    }
  }

  lemma {:induction false} CompsWeight(s: seq<byte>)
    ensures Weight(Comps(s)) <= |s| + 1
    decreases |s|
  {
    if s != [] {
      CompsWeight(Rest(s));
      assert Comps(s)[1..] == Comps(Rest(s));
    }
  }

  /** Every name on the stack took two bytes. */
  lemma {:induction false} StackWeight(cs: seq<Name>)
    requires Short(cs)
    ensures Weight(cs) >= 2 * |Fold([], cs)|
  {
    if cs != [] {
      var n := |cs| - 1;
      assert cs == cs[..n] + [cs[n]];
      StackWeight(cs[..n]);
      WeightLast(cs);
      FoldLast([], cs[..n], cs[n]);
    }
  }

  lemma FitsLast(cs: seq<Name>)
    requires cs != []
    ensures Fits(cs) <==>
            Fits(cs[..|cs| - 1]) && (IsName(cs[|cs| - 1]) ==> |Fold([], cs[..|cs| - 1])| < MAX_COMPONENTS)
  {
    hide Fold, IsName;
    var init := cs[..|cs| - 1];
    assert forall m :: 0 <= m < |init| ==> init[..m] == cs[..m];
    assert forall m :: 0 <= m < |init| ==> init[m] == cs[m];
  }

  /** The stack is full of 64 names of two bytes, and a 65th is dropped; each of them that goes takes three. */
  const HIDING: nat := 322

  /** Once a name is dropped, the stack stays shorter than it should be until all 64 are gone. */
  lemma {:induction false} DroppedShows(cs: seq<Name>)
    requires Short(cs) && !Fits(cs)
    ensures Weight(cs) + 3 * |Fold([], cs)| >= HIDING
    ensures Weight(cs) < HIDING ==> |Meaning(cs)| > |Fold([], cs)|
  {
    var n := |cs| - 1;
    var init, c := cs[..n], cs[n];
    assert cs == init + [c];
    FitsLast(cs);
    WeightLast(cs);
    FoldLast([], init, c);
    if Fits(init) {
      hide Fits;
      FitsAgrees(init);
      StackWeight(init);
      FoldPlain(init);
    } else {
      hide Fits;
      DroppedShows(init);
    }
  }

  /** So for the text of a call the stack of 64 and the unlimited one agree exactly when no name comes while it is
      full. */
  lemma {:induction false} AgreesExactly(cs: seq<Name>)
    requires Short(cs) && Weight(cs) < HIDING
    ensures Fold([], cs) == Meaning(cs) <==> Fits(cs)
  {
    hide Fits, Fold, Meaning;
    if Fits(cs) {
      FitsAgrees(cs);
    } else {
      DroppedShows(cs);
    }
  }

  /** So it does whenever no name comes while the stack is full. */
  lemma {:induction false} SameInode(bs: nat, nodes: Nodes, infos: Infos, cs: seq<Name>, i: nat)
    requires Tree(bs, nodes, infos) && i in nodes && Ext2Namespace.Resolve(nodes, infos, ROOT, Named(cs)) == i
    requires Short(cs) && Fits(cs)
    ensures Fold([], cs) == PathOf(nodes, infos, i)
    ensures Ext2Namespace.Resolve(nodes, infos, ROOT, Fold([], cs)) == i
  {
    FitsAgrees(cs);
    hide Fold, Meaning, PathOf;
    MeansItsPath(bs, nodes, infos, cs, i);
    SameInodeExactly(bs, nodes, infos, cs, i);
  }

  /** Of plain names the stack keeps the first 64. */
  lemma {:induction false} FoldKeeps64(cs: seq<Name>)
    requires Short(cs) && forall k :: 0 <= k < |cs| ==> IsName(cs[k])
    ensures Fold([], cs) == if |cs| <= MAX_COMPONENTS then cs else cs[..MAX_COMPONENTS]
  {
    if cs != [] {
      var n := |cs| - 1;
      assert cs == cs[..n] + [cs[n]];
      FoldKeeps64(cs[..n]);
      FoldLast([], cs[..n], cs[n]);
    }
  }

  /** Names on disk have 1 to 255 bytes. */
  lemma {:induction false} PathNames(bs: nat, nodes: Nodes, infos: Infos, i: nat)
    requires Tree(bs, nodes, infos) && i in nodes
    ensures Short(PathOf(nodes, infos, i))
    ensures forall k :: 0 <= k < |PathOf(nodes, infos, i)| ==> IsName(PathOf(nodes, infos, i)[k])
    decreases infos[i].depth
  {
    hide EntriesPlaced, Linked, Directory, Parsed, Lists, Short;
    if i == ROOT {
      ShortNone();
    } else {
      assert Hangs(nodes, infos, i);
      PathNames(bs, nodes, infos, infos[i].parent);
      HungName(bs, nodes, infos, i);
      ShortMore(PathOf(nodes, infos, infos[i].parent), infos[i].name);
    }
  }

  lemma ShortNone()
    ensures Short([])
  {
  }

  lemma ShortMore(cs: seq<Name>, c: Name)
    requires Short(cs) && |c| < MAX_LEN
    ensures Short(cs + [c])
  {
  }

  lemma HungName(bs: nat, nodes: Nodes, infos: Infos, i: nat)
    requires Parsed(bs, nodes, infos) && Hangs(nodes, infos, i)
    ensures 0 < |infos[i].name| < MAX_LEN && IsName(infos[i].name)
  {
    hide Directory, Lists;
    var p := infos[i].parent;
    ListedName(nodes[p].data, bs, infos[p].es, p, infos[p].parent, Item(infos[i].name, i, TypeOf(nodes[i])));
  }

  lemma ListedName(data: seq<byte>, bs: nat, es: seq<Entry>, d: nat, parent: nat, x: Item)
    requires Directory(data, bs, es, d, parent) && Lists(es, x)
    ensures 0 < |x.name| < MAX_LEN
  {
    ChainNames(data, 0, |data|, es, x);
  }

  lemma {:induction false} ChainNames(data: seq<byte>, o: nat, end: nat, es: seq<Entry>, x: Item)
    requires Chain(data, o, end, es) && x in Items(es)
    ensures 0 < |x.name| < MAX_LEN
    decreases |es|
  {
    if es != [] && x != Items(es)[0] {
      assert x in Items(es[1..]);
      ChainNames(data, o + es[0].recLen, end, es[1..], x);
    }
  }

  /** An inode is reached by its own plain path, as the code walks it, exactly when it is at most 64 names deep. */
  lemma {:induction false} DepthExactly(bs: nat, nodes: Nodes, infos: Infos, i: nat)
    requires Tree(bs, nodes, infos) && i in nodes
    ensures Ext2Namespace.Resolve(nodes, infos, ROOT, Fold([], PathOf(nodes, infos, i))) == i <==>
            |PathOf(nodes, infos, i)| <= MAX_COMPONENTS
  {
    var p := PathOf(nodes, infos, i);
    PathNames(bs, nodes, infos, i);
    FoldKeeps64(p);
    FoldPlain(p);
    hide Tree, PathOf, Fold;
    OnePath(bs, nodes, infos, i, Fold([], p));
  }

  /** One name deeper the code arrives at the parent instead. */
  lemma {:induction false} OneTooDeep(bs: nat, nodes: Nodes, infos: Infos, i: nat)
    requires Tree(bs, nodes, infos) && i in nodes && |PathOf(nodes, infos, i)| == MAX_COMPONENTS + 1
    ensures i in infos && Ext2Namespace.Resolve(nodes, infos, ROOT, Fold([], PathOf(nodes, infos, i))) ==
              infos[i].parent != i
  {
    var p := PathOf(nodes, infos, i);
    PathNames(bs, nodes, infos, i);
    FoldKeeps64(p);
    FoldPlain(p);
    hide EntriesPlaced, Linked, Directory, Parsed, Fold;
    assert i != ROOT && Hangs(nodes, infos, i);
    var d := infos[i].parent;
    assert p == PathOf(nodes, infos, d) + [infos[i].name];
    assert p[..MAX_COMPONENTS] == PathOf(nodes, infos, d);
    OnePath(bs, nodes, infos, d, p[..MAX_COMPONENTS]);
  }

  /** "/a/a/.../a" with n names. */
  function Deep(n: nat): seq<Name> { seq(n, (k: nat) => [97]) }

  /** A text of 130 bytes, well inside the buffer, that loses its last name. */
  lemma SixtyFiveNames()
    ensures |Render(Deep(65))| == 130 && Normalized(Render(Deep(65)), [], MAX_PATH) == Render(Deep(64))
  {
    DeepLen(65);
    DeepLen(64);
    assert Deep(65)[..64] == Deep(64);
    hide Deep, Comps, Fold;
    var text := Render(Deep(65));
    assert Working(text, []) == text;
    assert Strip(text) == Join(Deep(65));
    DeepNames(65);
    SplitJoined(Deep(65));
    FoldKeeps64(Deep(65));
  }

  lemma DeepNames(n: nat)
    ensures |Deep(n)| == n && Short(Deep(n)) && forall k :: 0 <= k < n ==> Regular(Deep(n)[k]) && IsName(Deep(n)[k])
  {
  }

  lemma {:induction false} DeepLen(n: nat)
    requires n > 0
    ensures |Join(Deep(n))| == 2 * n - 1
  {
    if n > 1 {
      DeepLen(n - 1);
      assert Deep(n)[1..] == Deep(n - 1);
    }
  }

  // ----- from the text of the call

  lemma {:induction false} CompsShort(s: seq<byte>)
    requires |s| < MAX_LEN
    ensures Short(Comps(s))
    decreases |s|
  {
    if s != [] {
      CompsShort(Rest(s));
    }
  }

  /** What the walk looks up: the components that were left on the stack. */
  lemma NormalizedComps(path: seq<byte>, cwd: seq<byte>)
    requires cwd == [] || cwd[0] == SLASH
    ensures Short(Comps(Strip(Working(path, cwd)))) && Weight(Comps(Strip(Working(path, cwd)))) < HIDING
    ensures Comps(Strip(Normalized(path, cwd, MAX_PATH))) == Fold([], Comps(Strip(Working(path, cwd))))
  {
    hide Comps, Fold, Short, Normalized;
    var working := Working(path, cwd);
    assert |Strip(working)| < MAX_LEN;
    CompsShort(Strip(working));
    CompsWeight(Strip(working));
    Idempotent(path, cwd, [], MAX_PATH);
    StackNormal(working);
    var stack := Fold([], Comps(Strip(working)));
    assert Strip(Render(stack)) == Join(stack);
    SplitJoined(stack);
  }

  /**
   vfs_resolve_path, for any path and working directory: if the path leads to an inode,
   then walking the normalised text leads to it exactly when no name comes while the
   stack is full.
   */
  lemma {:induction false} ResolvesSame(bs: nat, nodes: Nodes, infos: Infos, path: seq<byte>, cwd: seq<byte>, i: nat)
    requires Tree(bs, nodes, infos) && i in nodes && (cwd == [] || cwd[0] == SLASH)
    requires Ext2Namespace.Resolve(nodes, infos, ROOT, Named(Comps(Strip(Working(path, cwd))))) == i
    ensures Ext2Namespace.Resolve(nodes, infos, ROOT, Comps(Strip(Normalized(path, cwd, MAX_PATH)))) == i <==>
            Fits(Comps(Strip(Working(path, cwd))))
  {
    hide Tree, Fold, Meaning, Comps, Short, Working, Normalized, Named, Fits, Ext2Namespace.Resolve;
    var cs := Comps(Strip(Working(path, cwd)));
    NormalizedComps(path, cwd);
    AgreesExactly(cs);
    SameInodeExactly(bs, nodes, infos, cs, i);
  }

  // ----- from the working directory

  lemma {:induction false} NamedJoin(a: seq<Name>, b: seq<Name>)
    ensures Named(a + b) == Named(a) + Named(b)
  {
    if b == [] {
      assert a + b == a;
    } else {
      var n := |b| - 1;
      assert (a + b)[..|a| + n] == a + b[..n];
      NamedJoin(a, b[..n]);
    }
  }

  lemma {:induction false} ResolveJoin(nodes: Nodes, infos: Infos, d: nat, a: seq<Name>, b: seq<Name>)
    requires 0 !in nodes
    ensures Ext2Namespace.Resolve(nodes, infos, d, a + b) ==
            Ext2Namespace.Resolve(nodes, infos, Ext2Namespace.Resolve(nodes, infos, d, a), b)
    decreases |a|
  {
    if a == [] {
      assert a + b == b;
    } else {
      assert (a + b)[1..] == a[1..] + b;
      if IsDirectory(nodes, d) && d in infos {
        ResolveJoin(nodes, infos, Find(Items(infos[d].es), a[0]), a[1..], b);
      }
    }
  }

  /**
   A relative path is followed from the working directory: if that leads to directory d,
   and the path's own components lead from d to i, then the normalised text leads to i
   exactly when no name comes while the stack is full.
   */
  lemma {:induction false} ResolvesFrom(bs: nat, nodes: Nodes, infos: Infos, path: seq<byte>, cwd: seq<byte>,
                                        d: nat, i: nat)
    requires Tree(bs, nodes, infos) && i in nodes
    requires Relative(path) && cwd != [] && cwd[0] == SLASH && |cwd| + 1 + |path| < MAX_PATH
    requires Ext2Namespace.Resolve(nodes, infos, ROOT, Named(Comps(Strip(cwd)))) == d
    requires Ext2Namespace.Resolve(nodes, infos, d, Named(Comps(path))) == i
    ensures Ext2Namespace.Resolve(nodes, infos, ROOT, Comps(Strip(Normalized(path, cwd, MAX_PATH)))) == i <==>
            Fits(Comps(Strip(cwd)) + Comps(path))
  {
    NoInodeZero(bs, nodes, infos);
    hide Tree, Comps, Working, Normalized, Named, Fits, Ext2Namespace.Resolve;
    RelativeComps(path, cwd);
    NamedJoin(Comps(Strip(cwd)), Comps(path));
    ResolveJoin(nodes, infos, ROOT, Named(Comps(Strip(cwd))), Named(Comps(path)));
    ResolvesSame(bs, nodes, infos, path, cwd, i);
  }
}
