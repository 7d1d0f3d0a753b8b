/**
 The ring of a pipe as it is written (kernel/core/pipe.c): a byte array with a read
 and a write position, filled and emptied in chunks that stop at its end.
 */
module PipeRing {
  import opened Bytes
  import opened Circular
  import opened Pipe

  function Wrap(x: nat): nat { x % SIZE }

  lemma WrapEnd(pos: nat, n: nat)
    requires pos < SIZE && pos + n <= SIZE
    ensures Wrap(pos + n) == Slot(SIZE, pos, n)
  {
  }

  class Ring {
    const buffer: array<byte>
    var readPos: nat
    var writePos: nat
    var dataSize: nat
    var state: State
    var readers: nat
    var writers: nat

    ghost predicate Valid()
      reads this
    {
      && buffer.Length == SIZE && readPos < SIZE && dataSize <= SIZE
      && writePos == Slot(SIZE, readPos, dataSize)
    }

    ghost function View(): (p: Ends)
      requires Valid()
      reads this, buffer
    {
      Ends(Window(buffer[..], readPos, dataSize), state, readers, writers)
    }

    /** pipe_create. */
    constructor ()
      ensures Valid() && fresh(buffer) && View() == Fresh()
    {
      buffer := new byte[SIZE](i => 0);
      readPos, writePos, dataSize := 0, 0, 0;
      state, readers, writers := Open, 1, 1;
    }

    /** The copying loop of pipe_read: at most two chunks. */
    method CopyOut(n: nat) returns (out: seq<byte>)
      requires Valid() && n <= dataSize
      modifies this`readPos
      ensures readPos < SIZE && readPos == Slot(SIZE, old(readPos), n)
      ensures out == Window(buffer[..], old(readPos), dataSize)[..n]
    {
      hide Window, Wrap;
      out := [];
      ghost var w := Window(buffer[..], readPos, dataSize);
      while |out| < n
        invariant |out| <= n && readPos == Slot(SIZE, old(readPos), |out|) && out == w[..|out|]
      {
        var chunk := Least(n - |out|, SIZE - readPos);
        Drop(buffer[..], old(readPos), dataSize, |out|);
        Chunk(buffer[..], readPos, dataSize - |out|, chunk);
        assert w[|out|..][..chunk] == w[|out|..|out| + chunk];
        WrapEnd(readPos, chunk);
        SlotPlus(SIZE, old(readPos), |out|, chunk);
        out := out + buffer[readPos..readPos + chunk];
        readPos := Wrap(readPos + chunk);
      }
    }

    /** pipe_read. */
    method Read(count: nat) returns (o: Outcome)
      requires Valid()
      modifies this`readPos, this`dataSize
      ensures Valid() && (View(), o) == Pipe.Read(old(View()), count)
      ensures o.Data? <==> old(state) in {Open, WriteClosed} && old(dataSize) > 0
      ensures o.Data? ==> |o.bytes| + dataSize == old(dataSize) && (|o.bytes| == count || dataSize == 0)
    {
      hide Window;
      if state == ReadClosed || state == Closed {
        return Broken;
      }
      if dataSize == 0 {
        return if state == WriteClosed || writers == 0 then Eof else Blocks;
      }
      var n := Least(count, dataSize);
      Drop(buffer[..], readPos, dataSize, n);
      SlotPlus(SIZE, readPos, n, dataSize - n);
      var out := CopyOut(n);
      dataSize := dataSize - n;
      return Data(out);
    }

    /** One chunk of pipe_write's copying loop, behind the count bytes that are there. */
    method Store(src: seq<byte>, ghost count: nat)
      requires readPos < SIZE == buffer.Length && count < SIZE && count + |src| <= SIZE
      requires writePos == Slot(SIZE, readPos, count) && writePos + |src| <= SIZE
      modifies buffer, this`writePos
      ensures writePos == Slot(SIZE, readPos, count + |src|)
      ensures Window(buffer[..], readPos, count + |src|) == old(Window(buffer[..], readPos, count)) + src
    {
      hide Window, Wrap;
      WrapEnd(writePos, |src|);
      SlotPlus(SIZE, readPos, count, |src|);
      ghost var before := buffer[..];
      forall k | 0 <= k < |src| {
        buffer[writePos + k] := src[k];
      }
      assert buffer[..] == before[..writePos] + src + before[writePos + |src|..];
      PushChunk(before, buffer[..], readPos, count, src);
      writePos := Wrap(writePos + |src|);
    }

    /** The copying loop of pipe_write. */
    method CopyIn(src: seq<byte>)
      requires Valid() && dataSize + |src| <= SIZE && dataSize < SIZE
      modifies buffer, this`writePos
      ensures writePos == Slot(SIZE, readPos, dataSize + |src|)
      ensures Window(buffer[..], readPos, dataSize + |src|) == old(Window(buffer[..], readPos, dataSize)) + src
    {
      hide Window, Slot;
      ghost var w := Window(buffer[..], readPos, dataSize);
      var done := 0;
      while done < |src|
        invariant done <= |src| && writePos < SIZE && writePos == Slot(SIZE, readPos, dataSize + done)
        invariant Window(buffer[..], readPos, dataSize + done) == w + src[..done]
      {
        var chunk := Least(|src| - done, SIZE - writePos);
        Store(src[done..done + chunk], dataSize + done);
        assert w + src[..done + chunk] == w + src[..done] + src[done..done + chunk];
        done := done + chunk;
      }
      assert src[..done] == src;
    }

    /** pipe_write. */
    method Write(src: seq<byte>) returns (o: Outcome)
      requires Valid()
      modifies this`writePos, this`dataSize, buffer
      ensures Valid() && (View(), o) == Pipe.Write(old(View()), src)
      ensures o.Wrote? <==> old(state) == Open && readers > 0 && old(dataSize) < SIZE
      ensures o.Wrote? ==> dataSize == old(dataSize) + o.n && (o.n == |src| || dataSize == SIZE)
    {
      hide Window;
      if state == WriteClosed || state == Closed {
        return Broken;
      }
      if state == ReadClosed || readers == 0 {
        return Broken;
      }
      if dataSize >= SIZE {
        return Blocks;
      }
      var n := Least(|src|, SIZE - dataSize);
      CopyIn(src[..n]);
      dataSize := dataSize + n;
      return Wrote(n);
    }

    /** pipe_close_read. */
    method CloseRead()
      requires Valid()
      modifies this`readers, this`state
      ensures Valid() && View() == Pipe.CloseRead(old(View()))
    {
      if readers > 0 {
        readers := readers - 1;
      }
      if readers == 0 {
        state := if state == WriteClosed then Closed else ReadClosed;
      }
    }

    /** pipe_close_write. */
    method CloseWrite()
      requires Valid()
      modifies this`writers, this`state
      ensures Valid() && View() == Pipe.CloseWrite(old(View()))
    {
      if writers > 0 {
        writers := writers - 1;
      }
      if writers == 0 {
        state := if state == ReadClosed then Closed else WriteClosed;
      }
    }
  }
}
