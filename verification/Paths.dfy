/**
 Path normalisation (kernel/fs/vfs.c:50-192): an absolute path without empty
 components, "." or "..".

 Here are the text properties; module PathWalk says where the paths lead.
 */
module Paths {
  import opened Bytes
  import opened Ext2Dir

  const SLASH: byte := 47
  const MAX_PATH: nat := 256
  const MAX_COMPONENTS: nat := 64
  const MAX_LEN: nat := 256

  // ----- components

  function FirstSlash(s: seq<byte>): (n: nat)
    ensures n <= |s| && (n < |s| ==> s[n] == SLASH)
    ensures forall k :: 0 <= k < n ==> s[k] != SLASH
  {
    if s == [] || s[0] == SLASH then 0 else 1 + FirstSlash(s[1..])
  }

  /** What follows the component at the front and its slash. */
  function Rest(s: seq<byte>): (r: seq<byte>)
    ensures s != [] ==> |r| < |s|
  {
    var n := FirstSlash(s);
    if n < |s| then s[n + 1..] else []
  }

  /** The components between slashes, empty ones included. */
  function Comps(s: seq<byte>): seq<Name>
    decreases |s|
  {
    if s == [] then [] else [s[..FirstSlash(s)]] + Comps(Rest(s))
  }

  function Strip(s: seq<byte>): seq<byte> {
    if s != [] && s[0] == SLASH then s[1..] else s
  }

  /** One component on the stack. */
  function Apply(stack: seq<Name>, c: Name): seq<Name> {
    if c == [] || c == DOT then stack
    else if c == DOTDOT then if stack == [] then stack else stack[..|stack| - 1]
    else if |stack| >= MAX_COMPONENTS then stack
    else stack + [if |c| >= MAX_LEN then c[..MAX_LEN - 1] else c]
  }

  function Fold(stack: seq<Name>, cs: seq<Name>): seq<Name>
    decreases |cs|
  {
    if cs == [] then stack else Fold(Apply(stack, cs[0]), cs[1..])
  }

  function Join(stack: seq<Name>): seq<byte> {
    if stack == [] then []
    else if |stack| == 1 then stack[0]
    else stack[0] + [SLASH] + Join(stack[1..])
  }

  function Render(stack: seq<Name>): seq<byte> { [SLASH] + Join(stack) }

  function Clip(s: seq<byte>, n: nat): seq<byte> { if |s| > n then s[..n] else s }

  /** A component that stays as it is. */
  predicate Regular(c: Name) {
    c != [] && c != DOT && c != DOTDOT && |c| < MAX_LEN && forall k :: 0 <= k < |c| ==> c[k] != SLASH
  }

  predicate Normal(stack: seq<Name>) {
    |stack| <= MAX_COMPONENTS && forall k :: 0 <= k < |stack| ==> Regular(stack[k])
  }

  // ----- the code

  /** normalize_build_absolute. */
  method BuildAbsolute(path: seq<byte>, cwd: seq<byte>) returns (working: seq<byte>)
    ensures working == Clip(Absolute(path, cwd), MAX_PATH - 1)
    ensures !Relative(path) ==> working == Clip(path, 255)
    ensures Relative(path) && cwd == [] ==> working == Clip([SLASH] + path, 255)
    ensures Relative(path) && 0 < |cwd| < 256 && cwd[|cwd| - 1] != SLASH ==>
              working == Clip(cwd + [SLASH] + path, 255)
    ensures Relative(path) && 0 < |cwd| < 256 && cwd[|cwd| - 1] == SLASH ==> working == Clip(cwd + path, 255)
  {
    hide Clip, Base;
    working := [];
    ghost var base: seq<byte> := [];
    ClipShort([], MAX_PATH - 1);
    if path == [] || path[0] != SLASH {
      base := Base(cwd);
      working := StartFrom(cwd);
    }
    AbsoluteIs(path, cwd);
    assert Absolute(path, cwd) == base + path;
    ClipTwice(base, path, MAX_PATH - 1);
    ClipLength(base, MAX_PATH - 1);
    working := CopyClipped(working, path, MAX_PATH - 1);
  }

  lemma ClipLength(s: seq<byte>, n: nat)
    ensures |Clip(s, n)| <= n
  {
  }

  /** What a relative path starts with. */
  method StartFrom(cwd: seq<byte>) returns (working: seq<byte>)
    ensures working == Clip(Base(cwd), MAX_PATH - 1)
  {
    if cwd != [] {
      working := CopyClipped([], cwd, MAX_PATH - 1);
      assert [] + cwd == cwd;
    } else {
      working := [SLASH];
    }
    if working[|working| - 1] != SLASH && |working| < MAX_PATH - 1 {
      working := working + [SLASH];
    }
  }

  function Base(cwd: seq<byte>): (base: seq<byte>)
    ensures base != []
  {
    var base := if cwd == [] then [SLASH] else Clip(cwd, MAX_PATH - 1);
    if base[|base| - 1] != SLASH then base + [SLASH] else base
  }

  predicate Relative(path: seq<byte>) { path == [] || path[0] != SLASH }

  /** The absolute path meant, before it is cut to the buffer. */
  function Absolute(path: seq<byte>, cwd: seq<byte>): seq<byte> {
    if path != [] && path[0] == SLASH then path
    else Base(cwd) + path
  }

  lemma AbsoluteIs(path: seq<byte>, cwd: seq<byte>)
    ensures !Relative(path) ==> Absolute(path, cwd) == path
    ensures Relative(path) && cwd == [] ==> Absolute(path, cwd) == [SLASH] + path
    ensures Relative(path) && 0 < |cwd| < 256 && cwd[|cwd| - 1] != SLASH ==>
              Absolute(path, cwd) == cwd + [SLASH] + path
    ensures Relative(path) && 0 < |cwd| < 256 && cwd[|cwd| - 1] == SLASH ==> Absolute(path, cwd) == cwd + path
  {
  }

  /** A loop that appends src while there is room. */
  method CopyClipped(dst: seq<byte>, src: seq<byte>, limit: nat) returns (r: seq<byte>)
    requires |dst| <= limit
    ensures r == Clip(dst + src, limit)
  {
    r := dst;
    var i := 0;
    while i < |src| && |r| < limit
      invariant i <= |src| && r == dst + src[..i] && |r| <= limit
    {
      r := r + [src[i]];
      i := i + 1;
    }
    assert i == |src| ==> src[..i] == src;
    assert (dst + src)[..|r|] == r;
  }

  /** The end of the component that starts at start. */
  method ComponentEnd(working: seq<byte>, start: nat) returns (end: nat)
    requires start <= |working|
    ensures end == start + FirstSlash(working[start..]) <= |working|
  {
    end := start;
    while end < |working| && working[end] != SLASH
      invariant start <= end <= start + FirstSlash(working[start..]) <= |working|
    {
      assert working[start..][end - start] == working[end];
      end := end + 1;
    }
    assert end < |working| ==> working[start..][end - start] == SLASH;
  }

  /** What is done with one component. */
  method Put(stack: seq<Name>, c: Name) returns (r: seq<Name>)
    ensures r == Apply(stack, c)
  {
    r := stack;
    if |c| == 0 || (|c| == 1 && c[0] == 46) {
    } else if |c| == 2 && c[0] == 46 && c[1] == 46 {
      assert c == DOTDOT;
      if |stack| > 0 {
        r := stack[..|stack| - 1];
      }
    } else if |stack| < MAX_COMPONENTS {
      r := stack + [if |c| >= MAX_LEN then c[..MAX_LEN - 1] else c];
    }
  }

  lemma FoldFirst(stack: seq<Name>, s: seq<byte>)
    requires s != []
    ensures Fold(stack, Comps(s)) == Fold(Apply(stack, s[..FirstSlash(s)]), Comps(Rest(s)))
  {
    assert Comps(s)[1..] == Comps(Rest(s));
  }

  /** The first loop of normalize_resolve_components: the stack of components. */
  method ResolveComponents(working: seq<byte>) returns (stack: seq<Name>)
    ensures stack == Fold([], Comps(Strip(working)))
  {
    hide Fold, Comps, FirstSlash, Apply;
    stack := [];
    var cursor := 0;
    if cursor < |working| && working[cursor] == SLASH {
      cursor := cursor + 1;
    }
    assert working[cursor..] == Strip(working);
    while cursor < |working|
      invariant cursor <= |working|
      invariant Fold(stack, Comps(working[cursor..])) == Fold([], Comps(Strip(working)))
    {
      ghost var s := working[cursor..];
      FoldFirst(stack, s);
      var end := ComponentEnd(working, cursor);
      assert working[cursor..end] == s[..FirstSlash(s)];
      stack := Put(stack, working[cursor..end]);
      cursor := end;
      if cursor < |working| && working[cursor] == SLASH {
        cursor := cursor + 1;
      }
      assert working[cursor..] == Rest(s);
    }
    assert working[cursor..] == [];
    FoldNone(stack);
  }

  lemma FoldNone(stack: seq<Name>)
    ensures Fold(stack, Comps([])) == stack
  {
  }

  /** One component and, but for the last, a slash. */
  method WriteComponent(before: seq<byte>, c: Name, last: bool, limit: nat, ghost text: seq<byte>)
    returns (out: seq<byte>)
    requires before == Clip(text, limit)
    ensures out == Clip(text + c + if last then [] else [SLASH], limit)
  {
    ClipTwice(text, c, limit);
    out := CopyClipped(before, c, limit);
    if !last && |out| < limit {
      out := out + [SLASH];
    }
  }

  /** How many bytes go into a buffer of the given size before the closing NUL; the first slash is not checked. */
  function Limit(size: nat): nat { if size <= 1 then 1 else size - 1 }

  /** The second loop: the stack written out, as far as the buffer goes. */
  method WriteOut(stack: seq<Name>, size: nat) returns (out: seq<byte>)
    requires size >= 1
    ensures out == Clip(Render(stack), Limit(size))
  {
    hide Clip, Join;
    out := [SLASH];
    ghost var text := [SLASH];
    assert stack[0..] == stack;
    assert out == Clip(text, Limit(size)) by { ClipShort(text, Limit(size)); }
    var i := 0;
    while i < |stack|
      invariant i <= |stack| && text + Join(stack[i..]) == Render(stack) && out == Clip(text, Limit(size))
    {
      JoinStep(stack, i);
      out := WriteComponent(out, stack[i], i == |stack| - 1, Limit(size), text);
      ghost var sep := if i == |stack| - 1 then [] else [SLASH];
      assert text + stack[i] + sep + Join(stack[i + 1..]) == text + Join(stack[i..]);
      text := text + stack[i] + sep;
      i := i + 1;
    }
    assert stack[i..] == [];
    JoinNone();
    assert text + [] == text;
  }

  lemma JoinNone()
    ensures Join([]) == []
  {
  }

  lemma ClipShort(s: seq<byte>, n: nat)
    requires |s| <= n
    ensures Clip(s, n) == s
  {
  }

  lemma JoinStep(stack: seq<Name>, i: nat)
    requires i < |stack|
    ensures Join(stack[i..]) == stack[i] + (if i == |stack| - 1 then [] else [SLASH]) + Join(stack[i + 1..])
  {
    assert stack[i..][1..] == stack[i + 1..];
  }

  lemma ClipTwice(a: seq<byte>, b: seq<byte>, n: nat)
    ensures Clip(Clip(a, n) + b, n) == Clip(a + b, n)
  {
  }

  /** vfs_normalize_path; ok unless the buffer has no room at all. */
  method Normalize(path: seq<byte>, cwd: seq<byte>, size: nat) returns (ok: bool, out: seq<byte>)
    ensures ok <==> size > 0
    ensures ok ==> out == Normalized(path, cwd, size) && (|out| < size <==> size >= 2)
  {
    if size == 0 {
      return false, [];
    }
    ok := true;
    var working := BuildAbsolute(path, cwd);
    var stack := ResolveComponents(working);
    out := WriteOut(stack, size);
  }

  function Working(path: seq<byte>, cwd: seq<byte>): seq<byte> { Clip(Absolute(path, cwd), MAX_PATH - 1) }

  function Normalized(path: seq<byte>, cwd: seq<byte>, size: nat): seq<byte>
    requires size >= 1
  {
    Clip(Render(Fold([], Comps(Strip(Working(path, cwd))))), Limit(size))
  }

  // ----- the working directory

  /** A relative path stands for the working directory, a slash if there is none yet, and the path; what the working
      directory is then does not matter any more, nor does it for an absolute path. */
  lemma RelativeIsJoined(path: seq<byte>, cwd: seq<byte>, cwd': seq<byte>, size: nat)
    requires size >= 1 && |cwd| < MAX_PATH && (cwd == [] || cwd[0] == SLASH)
    ensures Relative(path) && cwd == [] ==> Normalized(path, cwd, size) == Normalized([SLASH] + path, cwd', size)
    ensures Relative(path) && cwd != [] && cwd[|cwd| - 1] != SLASH ==>
              Normalized(path, cwd, size) == Normalized(cwd + [SLASH] + path, cwd', size)
    ensures Relative(path) && cwd != [] && cwd[|cwd| - 1] == SLASH ==>
              Normalized(path, cwd, size) == Normalized(cwd + path, cwd', size)
    ensures !Relative(path) ==> Normalized(path, cwd, size) == Normalized(path, cwd', size)
  {
    hide Fold, Comps, Render;
    assert Clip(cwd, MAX_PATH - 1) == cwd;
  }

  // ----- normal form

  lemma {:induction false} CompsPlain(s: seq<byte>)
    ensures forall k, i :: 0 <= k < |Comps(s)| && 0 <= i < |Comps(s)[k]| ==> Comps(s)[k][i] != SLASH
    decreases |s|
  {
    if s != [] {
      CompsPlain(Rest(s));
    }
  }

  lemma {:induction false} FoldNormal(stack: seq<Name>, cs: seq<Name>)
    requires Normal(stack) && forall k, i :: 0 <= k < |cs| && 0 <= i < |cs[k]| ==> cs[k][i] != SLASH
    ensures Normal(Fold(stack, cs))
    decreases |cs|
  {
    if cs != [] {
      if Regular(cs[0]) || |cs[0]| < MAX_LEN {
        assert Normal(Apply(stack, cs[0]));
      } else {
        LongStaysRegular(cs[0]);
      }
      FoldNormal(Apply(stack, cs[0]), cs[1..]);
    }
  }

  lemma LongStaysRegular(c: Name)
    requires |c| >= MAX_LEN && forall i :: 0 <= i < |c| ==> c[i] != SLASH
    ensures Regular(c[..MAX_LEN - 1])
  {
    assert |c[..MAX_LEN - 1]| != |DOT| && |c[..MAX_LEN - 1]| != |DOTDOT|;
  }

  /** The stack that is written out holds proper names only. */
  lemma StackNormal(working: seq<byte>)
    ensures Normal(Fold([], Comps(Strip(working))))
  {
    CompsPlain(Strip(working));
    FoldNormal([], Comps(Strip(working)));
  }

  // ----- the output is not longer than the input

  function Len(cs: seq<Name>): nat { if cs == [] then 0 else |cs[0]| + 1 + Len(cs[1..]) }

  lemma {:induction false} LenAdd(cs: seq<Name>, c: Name)
    ensures Len(cs + [c]) == Len(cs) + |c| + 1
  {
    if cs == [] {
      assert [] + [c] == [c];
    } else {
      assert (cs + [c])[1..] == cs[1..] + [c];
      LenAdd(cs[1..], c);
    }
  }

  lemma ApplyLen(stack: seq<Name>, c: Name)
    ensures Len(Apply(stack, c)) <= Len(stack) + |c| + 1
  {
    if c == DOTDOT && stack != [] {
      LenAdd(stack[..|stack| - 1], stack[|stack| - 1]);
      assert stack == stack[..|stack| - 1] + [stack[|stack| - 1]];
    } else {
      LenAdd(stack, if |c| >= MAX_LEN then c[..MAX_LEN - 1] else c);
    }
  }

  lemma {:induction false} FoldLen(stack: seq<Name>, cs: seq<Name>)
    ensures Len(Fold(stack, cs)) <= Len(stack) + Len(cs)
    decreases |cs|
  {
    if cs != [] {
      ApplyLen(stack, cs[0]);
      FoldLen(Apply(stack, cs[0]), cs[1..]);
    }
  }

  lemma {:induction false} CompsLen(s: seq<byte>)
    ensures Len(Comps(s)) <= |s| + 1 && (s == [] ==> Len(Comps(s)) == 0)
    decreases |s|
  {
    if s != [] {
      CompsLen(Rest(s));
      assert Comps(s)[1..] == Comps(Rest(s));
    }
  }

  lemma {:induction false} JoinLen(stack: seq<Name>)
    ensures |Join(stack)| == if stack == [] then 0 else Len(stack) - 1
  {
    if |stack| == 1 {
      assert stack[1..] == [];
    } else if stack != [] {
      JoinLen(stack[1..]);
    }
  }

  lemma RenderFits(working: seq<byte>)
    requires working != [] && working[0] == SLASH
    ensures |Render(Fold([], Comps(Strip(working))))| <= |working|
  {
    var s := Strip(working);
    CompsLen(s);
    FoldLen([], Comps(s));
    JoinLen(Fold([], Comps(s)));
  }

  // ----- normalising again

  /** The components of a text whose first one is c. */
  lemma {:induction false} CompsStart(c: Name, tail: seq<byte>)
    requires Regular(c)
    ensures Comps(c) == [c] && Comps(c + [SLASH] + tail) == [c] + Comps(tail)
  {
    var s := c + [SLASH] + tail;
    SlashAt(c, |c|);
    SlashAt(s, |c|);
    assert Rest(c) == [] && Comps(Rest(c)) == [];
    assert Rest(s) == tail && s[..|c|] == c && c[..|c|] == c;
  }

  /** Splitting what was joined gives the components back. */
  lemma {:induction false} SplitJoined(stack: seq<Name>)
    requires forall k :: 0 <= k < |stack| ==> Regular(stack[k])
    ensures Comps(Join(stack)) == stack
  {
    hide Comps, Regular;
    if stack == [] {
      CompsNone();
    } else {
      var rest := stack[1..];
      assert forall k :: 0 <= k < |rest| ==> rest[k] == stack[k + 1];
      SplitJoined(rest);
      CompsStart(stack[0], Join(rest));
      assert stack == [stack[0]] + rest;
    }
  }

  /** Splitting goes through at a slash. */
  lemma {:induction false} CompsJoin(a: seq<byte>, b: seq<byte>)
    requires a != [] && a[|a| - 1] != SLASH
    ensures Comps(a + [SLASH] + b) == Comps(a) + Comps(b)
    decreases |a|
  {
    hide Comps;
    var n, s := FirstSlash(a), a + [SLASH] + b;
    SlashAt(s, n);
    CompsFirst(a);
    CompsFirst(s);
    assert s[..n] == a[..n];
    if n == |a| {
      assert Rest(s) == b && Rest(a) == [];
      CompsNone();
    } else {
      assert Rest(s) == Rest(a) + [SLASH] + b;
      CompsJoin(Rest(a), b);
    }
  }

  /** And after a slash. */
  lemma {:induction false} CompsJoinSlash(a: seq<byte>, b: seq<byte>)
    requires a != [] ==> a[|a| - 1] == SLASH
    ensures Comps(a + b) == Comps(a) + Comps(b)
    decreases |a|
  {
    hide Comps;
    if a == [] {
      CompsNone();
      assert a + b == b;
    } else {
      var n := FirstSlash(a);
      SlashAt(a + b, n);
      CompsFirst(a);
      CompsFirst(a + b);
      assert (a + b)[..n] == a[..n] && Rest(a + b) == Rest(a) + b;
      CompsJoinSlash(Rest(a), b);
    }
  }

  lemma CompsFirst(s: seq<byte>)
    requires s != []
    ensures Comps(s) == [s[..FirstSlash(s)]] + Comps(Rest(s))
  {
  }

  /** A relative path in range has the components of the working directory, then its own. */
  lemma {:induction false} RelativeComps(path: seq<byte>, cwd: seq<byte>)
    requires Relative(path) && cwd != [] && cwd[0] == SLASH && |cwd| + 1 + |path| < MAX_PATH
    ensures Comps(Strip(Working(path, cwd))) == Comps(Strip(cwd)) + Comps(path)
  {
    hide Comps;
    var dir := Strip(cwd);
    if cwd[|cwd| - 1] == SLASH {
      CompsJoinSlash(dir, path);
      assert Strip(cwd + path) == dir + path;
    } else {
      CompsJoin(dir, path);
      assert Strip(cwd + [SLASH] + path) == dir + [SLASH] + path;
    }
  }

  lemma CompsNone()
    ensures Comps([]) == []
  {
  }

  lemma {:induction false} SlashAt(s: seq<byte>, n: nat)
    requires n <= |s| && (n < |s| ==> s[n] == SLASH) && forall k :: 0 <= k < n ==> s[k] != SLASH
    ensures FirstSlash(s) == n
  {
  }

  lemma {:induction false} FoldFixed(done: seq<Name>, cs: seq<Name>)
    requires Normal(done + cs)
    ensures Fold(done, cs) == done + cs
    decreases |cs|
  {
    if cs == [] {
      assert done + cs == done;
    } else {
      assert (done + cs)[|done|] == cs[0];
      assert (done + [cs[0]]) + cs[1..] == done + cs;
      FoldFixed(done + [cs[0]], cs[1..]);
    }
  }

  lemma RenderAgain(stack: seq<Name>)
    requires Normal(stack)
    ensures Fold([], Comps(Strip(Render(stack)))) == stack
  {
    assert Strip(Render(stack)) == Join(stack);
    SplitJoined(stack);
    assert [] + stack == stack;
    FoldFixed([], stack);
  }

  /** With a buffer of VFS_MAX_PATH, normalising a normalised path changes nothing, from any working directory. */
  lemma Idempotent(path: seq<byte>, cwd: seq<byte>, cwd': seq<byte>, size: nat)
    requires size >= MAX_PATH && (cwd == [] || cwd[0] == SLASH)
    ensures var once := Normalized(path, cwd, size);
            && once == Render(Fold([], Comps(Strip(Working(path, cwd)))))
            && Normalized(once, cwd', size) == once
  {
    var working := Working(path, cwd);
    assert working != [] && working[0] == SLASH && |working| < MAX_PATH;
    var stack := Fold([], Comps(Strip(working)));
    RenderFits(working);
    StackNormal(working);
    RenderAgain(stack);
  }

  /** An absolute path in range is its own normal form exactly when its components are proper names, at most 64, and
      it does not end in a slash. */
  lemma FixedExactly(path: seq<byte>, cwd: seq<byte>, size: nat)
    requires path != [] && path[0] == SLASH && |path| < MAX_PATH && |path| < size
    ensures Normalized(path, cwd, size) == path <==>
            Normal(Comps(Strip(path))) && path == Render(Comps(Strip(path)))
  {
    var cs := Comps(Strip(path));
    var stack := Fold([], cs);
    assert Working(path, cwd) == path;
    RenderFits(path);
    StackNormal(path);
    if Normal(cs) && path == Render(cs) {
      assert [] + cs == cs;
      FoldFixed([], cs);
    }
    if Render(stack) == path {
      assert Strip(path) == Join(stack);
      SplitJoined(stack);
    }
  }

  /** A buffer shorter than the path, which no caller passes, can cut a name to "..": what comes out is not its own
      normal form. */
  lemma CutIsNotNormal()
    ensures var x := [SLASH, 46, 46, 120];
            Normalized(x, [], 4) == [SLASH, 46, 46] && Normalized([SLASH, 46, 46], [], 4) == [SLASH]
  {
    var x := [SLASH, 46, 46, 120];
    var c: Name := [46, 46, 120];
    assert Working(x, []) == x && Strip(x) == c;
    SlashAt(c, 3);
    assert c[..3] == c && Comps(c) == [c];
    assert Fold([], [c]) == [c] by { FoldFixed([], [c]); }
    assert Render([c]) == x;
    var y := [SLASH, 46, 46];
    assert Working(y, []) == y && Strip(y) == DOTDOT;
    SlashAt(DOTDOT, 2);
    assert DOTDOT[..2] == DOTDOT && Comps(DOTDOT) == [DOTDOT];
    assert [DOTDOT][1..] == [];
    assert Fold([], [DOTDOT]) == [];
  }

  lemma {:induction false} FoldLast(stack: seq<Name>, cs: seq<Name>, c: Name)
    ensures Fold(stack, cs + [c]) == Apply(Fold(stack, cs), c)
    decreases |cs|
  {
    if cs == [] {
      assert [] + [c] == [c] && [c][1..] == [];
    } else {
      assert (cs + [c])[1..] == cs[1..] + [c];
      FoldLast(Apply(stack, cs[0]), cs[1..], c);
    }
  }
}
