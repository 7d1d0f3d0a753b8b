/**
 Pipes (kernel/core/pipe.c): a byte stream through a ring of 4096 bytes, and the
 state machine of its two ends.

 `Ends` is what a pipe means: the bytes in it, its state and the reference counts.
 The ring that holds the bytes is in module PipeRing.
 A call that has to sleep starts over when it is woken, so it is modelled as a
 call that reports `Blocks` and changes nothing.
 */
module Pipe {
  import opened Bytes

  const SIZE: nat := 4096

  datatype State = Open | ReadClosed | WriteClosed | Closed

  datatype Ends = Ends(contents: seq<byte>, state: State, readers: nat, writers: nat)

  datatype Outcome = Data(bytes: seq<byte>) | Eof | Wrote(n: nat) | Blocks | Broken | Ok

  predicate ReadBroken(p: Ends) { p.state == ReadClosed || p.state == Closed }

  predicate WriteBroken(p: Ends) {
    p.state == WriteClosed || p.state == Closed || p.state == ReadClosed || p.readers == 0
  }

  function Least(a: nat, b: nat): nat { if a > b then b else a }

  /** pipe_read. */
  function Read(p: Ends, count: nat): (Ends, Outcome) {
    if ReadBroken(p) then (p, Broken)
    else if p.contents == [] then (p, if p.state == WriteClosed || p.writers == 0 then Eof else Blocks)
    else
      var n := Least(count, |p.contents|);
      (p.(contents := p.contents[n..]), Data(p.contents[..n]))
  }

  /** pipe_write. */
  function Write(p: Ends, src: seq<byte>): (Ends, Outcome) {
    if WriteBroken(p) then (p, Broken)
    else if |p.contents| >= SIZE then (p, Blocks)
    else
      var n := Least(|src|, SIZE - |p.contents|);
      (p.(contents := p.contents + src[..n]), Wrote(n))
  }

  /** pipe_close_read and pipe_close_write. */
  function CloseRead(p: Ends): Ends {
    var readers := if p.readers > 0 then p.readers - 1 else 0;
    p.(readers := readers,
       state := if readers > 0 then p.state else if p.state == WriteClosed then Closed else ReadClosed)
  }

  function CloseWrite(p: Ends): Ends {
    var writers := if p.writers > 0 then p.writers - 1 else 0;
    p.(writers := writers,
       state := if writers > 0 then p.state else if p.state == ReadClosed then Closed else WriteClosed)
  }

  // ----- the ends

  /** The state the two counts call for. */
  function StateFor(readers: nat, writers: nat): State {
    if readers > 0 then if writers > 0 then Open else WriteClosed
    else if writers > 0 then ReadClosed else Closed
  }

  predicate Matches(p: Ends) { p.state == StateFor(p.readers, p.writers) }

  /** Closing keeps state and counts in step exactly when some end is still open. */
  lemma CloseReadMatches(p: Ends)
    requires Matches(p)
    ensures Matches(CloseRead(p)) <==> p.readers > 0 || p.writers > 0
  {
  }

  lemma CloseWriteMatches(p: Ends)
    requires Matches(p)
    ensures Matches(CloseWrite(p)) <==> p.readers > 0 || p.writers > 0
  {
  }

  /** One close too many takes a closed pipe back to half closed. */
  lemma CloseTwiceReopens()
    ensures CloseRead(Ends([], Closed, 0, 0)).state == ReadClosed
  {
  }

  // ----- how much one call moves

  /** A read, from the two counts: broken without a reader, at the end without bytes and writers, asleep without
      bytes only; and otherwise the smaller of what is asked for and what is there, from the front. */
  lemma ReadGives(p: Ends, count: nat)
    requires Matches(p)
    ensures var (p', o) := Read(p, count);
            && (o == Broken <==> p.readers == 0)
            && (o == Eof <==> p.readers > 0 && p.contents == [] && p.writers == 0)
            && (o == Blocks <==> p.readers > 0 && p.contents == [] && p.writers > 0)
            && (o.Data? <==> p.readers > 0 && p.contents != [])
            && (o.Data? && count < |p.contents| ==> |o.bytes| == count)
            && (o.Data? && count >= |p.contents| ==> |o.bytes| == |p.contents|)
            && p.contents == (if o.Data? then o.bytes else []) + p'.contents
            && p' == p.(contents := p'.contents)
  {
  }

  /** A write: broken when either end is gone, asleep when 4096 bytes are there; and otherwise the smaller of what
      is offered and what fits, at the back. */
  lemma WriteTakes(p: Ends, src: seq<byte>)
    requires Matches(p) && |p.contents| <= 4096
    ensures var (p', o) := Write(p, src);
            && (o == Broken <==> p.readers == 0 || p.writers == 0)
            && (o == Blocks <==> p.readers > 0 && p.writers > 0 && |p.contents| == 4096)
            && (o.Wrote? <==> p.readers > 0 && p.writers > 0 && |p.contents| < 4096)
            && (o.Wrote? && |p.contents| + |src| <= 4096 ==> o.n == |src|)
            && (o.Wrote? && |p.contents| + |src| > 4096 ==> |p.contents| + o.n == 4096)
            && (o.Wrote? ==> o.n <= |src|)
            && p'.contents == p.contents + (if o.Wrote? then src[..o.n] else [])
            && p' == p.(contents := p'.contents)
  {
  }

  /** So what one write took, one read gives back: a write of n bytes into an empty pipe, n at most 4096, and a
      read of at least n. */
  lemma ThereAndBack(p: Ends, src: seq<byte>, count: nat)
    requires Matches(p) && p.readers > 0 && p.writers > 0 && p.contents == []
    requires 0 < |src| <= 4096 && count >= |src|
    ensures Write(p, src).1 == Wrote(|src|) && Read(Write(p, src).0, count) == (p, Data(src))
  {
    var p' := Write(p, src).0;
    assert p'.contents == src;
    assert p'.contents[..|src|] == src && p'.contents[|src|..] == p.contents;
  }

  // ----- runs

  datatype Op = ReadOp(count: nat) | WriteOp(src: seq<byte>) | CloseReadOp | CloseWriteOp | DupRead | DupWrite

  /** Closes are balanced: an end is closed, or duplicated, by someone who has it open. */
  predicate Enabled(p: Ends, op: Op) {
    match op
    case CloseReadOp => p.readers > 0
    case DupRead => p.readers > 0
    case CloseWriteOp => p.writers > 0
    case DupWrite => p.writers > 0
    case _ => true
  }

  function Step(p: Ends, op: Op): (Ends, Outcome) {
    match op
    case ReadOp(count) => Read(p, count)
    case WriteOp(src) => Write(p, src)
    case CloseReadOp => (CloseRead(p), Ok)
    case CloseWriteOp => (CloseWrite(p), Ok)
    case DupRead => (p.(readers := p.readers + 1), Ok)
    case DupWrite => (p.(writers := p.writers + 1), Ok)
  }

  ghost predicate Legal(p: Ends, ops: seq<Op>)
    decreases |ops|
  {
    ops == [] || (Enabled(p, ops[0]) && Legal(Step(p, ops[0]).0, ops[1..]))
  }

  ghost function After(p: Ends, ops: seq<Op>): Ends
    decreases |ops|
  {
    if ops == [] then p else After(Step(p, ops[0]).0, ops[1..])
  }

  /** The bytes one step took in, and the bytes it gave out. */
  function Took(p: Ends, op: Op): seq<byte> {
    var o := Step(p, op).1;
    if op.WriteOp? && o.Wrote? && o.n <= |op.src| then op.src[..o.n] else []
  }

  function Gave(p: Ends, op: Op): seq<byte> {
    var o := Step(p, op).1;
    if o.Data? then o.bytes else []
  }

  /** All bytes the writes of a run took, and all bytes its reads gave, in order. */
  ghost function Accepted(p: Ends, ops: seq<Op>): seq<byte>
    decreases |ops|
  {
    if ops == [] then [] else Took(p, ops[0]) + Accepted(Step(p, ops[0]).0, ops[1..])
  }

  ghost function Delivered(p: Ends, ops: seq<Op>): seq<byte>
    decreases |ops|
  {
    if ops == [] then [] else Gave(p, ops[0]) + Delivered(Step(p, ops[0]).0, ops[1..])
  }

  lemma StepConserves(p: Ends, op: Op)
    ensures Gave(p, op) + Step(p, op).0.contents == p.contents + Took(p, op)
  {
  }

  /** Nothing is lost, doubled or reordered: what was in the pipe and went in is what came out and is still there. */
  lemma {:induction false} Conserved(p: Ends, ops: seq<Op>)
    ensures Delivered(p, ops) + After(p, ops).contents == p.contents + Accepted(p, ops)
    decreases |ops|
  {
    hide Step, Took, Gave;
    if ops != [] {
      var op, rest := ops[0], ops[1..];
      var p' := Step(p, op).0;
      Conserved(p', rest);
      StepConserves(p, op);
      Regroup(Gave(p, op), p'.contents, p.contents, Took(p, op), Delivered(p', rest), After(p', rest).contents,
              Accepted(p', rest));
    }
  }

  lemma Regroup(gave: seq<byte>, mid: seq<byte>, was: seq<byte>, took: seq<byte>, out: seq<byte>, left: seq<byte>,
                more: seq<byte>)
    requires gave + mid == was + took && out + left == mid + more
    ensures (gave + out) + left == was + (took + more)
  {
    assert (gave + out) + left == gave + (out + left);
    assert gave + (mid + more) == (gave + mid) + more;
    assert (was + took) + more == was + (took + more);
  }

  lemma {:induction false} RunMatches(p: Ends, ops: seq<Op>)
    requires Matches(p) && |p.contents| <= SIZE && Legal(p, ops)
    ensures Matches(After(p, ops)) && |After(p, ops).contents| <= SIZE
    decreases |ops|
  {
    if ops != [] {
      RunMatches(Step(p, ops[0]).0, ops[1..]);
    }
  }

  /** From a new pipe: delivered, then contents, is accepted; and the state follows the counts. */
  lemma {:induction false} RunConserves(ops: seq<Op>)
    requires Legal(Fresh(), ops)
    ensures Delivered(Fresh(), ops) + After(Fresh(), ops).contents == Accepted(Fresh(), ops)
    ensures Matches(After(Fresh(), ops)) && |After(Fresh(), ops).contents| <= SIZE
  {
    Conserved(Fresh(), ops);
    RunMatches(Fresh(), ops);
  }

  function Fresh(): Ends { Ends([], Open, 1, 1) }

  /** A read of at least one byte returns none only at the end: writers gone, everything written delivered. */
  lemma {:induction false} EndOfFile(ops: seq<Op>, count: nat)
    requires Legal(Fresh(), ops) && count > 0
    requires var o := Read(After(Fresh(), ops), count).1; o == Eof || o == Data([])
    ensures After(Fresh(), ops).writers == 0 && Delivered(Fresh(), ops) == Accepted(Fresh(), ops)
  {
    RunConserves(ops);
  }

  /** And it is final: no write is accepted any more, and no read returns a byte. */
  lemma {:induction false} EndIsFinal(p: Ends, ops: seq<Op>)
    requires Matches(p) && p.writers == 0 && p.contents == [] && Legal(p, ops)
    ensures Accepted(p, ops) == [] && Delivered(p, ops) == []
    decreases |ops|
  {
    if ops != [] {
      EndIsFinal(Step(p, ops[0]).0, ops[1..]);
    }
  }
}
