/** `BufferStream`: a buffer written at its end and read from an offset. */
module BufferStreams {
  import opened Bytes
  import opened Buffers
  import opened Pipes
  import SystemCalls

  class BufferStream {
    const data: Buffer
    var readOffset: nat
    /** How many writes to a descriptor the kernel has failed. */
    ghost var errors: nat

    ghost predicate Valid()
      reads this, data
    {
      data.Valid() && readOffset <= data.size
    }

    /** The unread window. */
    ghost function Unread(): seq<Byte>
      requires Valid()
      reads this, data
    {
      data.mem[readOffset..data.size]
    }

    /** The part of the block that has been read. */
    ghost function Consumed(): (r: seq<Byte>)
      requires Valid()
      reads this, data
      ensures |r| == readOffset
    {
      data.mem[..readOffset]
    }

    function Size(): (r: nat)
      requires Valid()
      reads this, data
      ensures r == |Unread()|
    {
      data.size - readOffset
    }

    function Capacity(): nat
      reads data
    {
      data.Capacity()
    }

    constructor (capacity: nat)
      ensures Valid() && Unread() == [] && Consumed() == [] && errors == 0
      ensures fresh(data) && data.Usable() && Capacity() == if data.refusals == 0 then capacity else 0
    {
      data := new Buffer.WithCapacity(capacity);
      readOffset, errors := 0, 0;
    }

    /** Drops `n` bytes from the front; when nothing is left the whole buffer is reused from its start. */
    method Shift(n: nat)
      requires Valid()
      modifies this, data
      ensures Valid() && data.mem == old(data.mem) && data.dangling == old(data.dangling)
      ensures data.refusals == old(data.refusals) && errors == old(errors)
      ensures Unread() == old(Unread()[Min(n, |Unread()|)..])
      ensures Consumed() == if n < old(|Unread()|) then old(Consumed() + Unread()[..n]) else []
    {
      if readOffset + n < data.size {
        readOffset := readOffset + n;
      } else {
        readOffset := 0;
        data.Clear();
      }
    }

    /** Stores all of `bytes`, or none when the allocator refuses. */
    method WriteBytes(bytes: seq<Byte>) returns (n: int)
      requires Valid() && data.Usable()
      modifies this, data
      ensures Valid() && data.Usable() && errors == old(errors)
      ensures n == |bytes| || n == 0
      ensures Consumed() == old(Consumed()) && Unread() == old(Unread()) + bytes[..n]
      ensures n == 0 ==> data.mem == old(data.mem)
      ensures n == 0 ==> bytes == [] || old(|Consumed()| + |Unread()|) + |bytes| > old(data.Capacity())
      ensures data.refusals == old(data.refusals) + if n == 0 && bytes != [] then 1 else 0
    {
      var before := data.size;
      ghost var read, unread := Split();
      ghost var _ := data.Append(bytes);
      n := data.size - before;
      Grown(read, unread, bytes[..n]);
    }

    /**
     * Takes up to `n` bytes out of the pipe, whatever the mode. With nothing stored and nothing
     * asked for it frees the block, and the stream must not be written again.
     */
    method WritePipe(pipe: Pipe, n: nat) returns (rv: int, ghost moved: seq<Byte>)
      requires Valid() && data.Usable() && pipe.Valid()
      modifies this, data, pipe
      ensures Valid() && errors == old(errors) && data.refusals >= old(data.refusals)
      ensures data.Usable() <==> old(data.size) + n > 0 || old(data.Capacity()) == 0
      ensures pipe.Valid() && pipe.Lag() == old(pipe.Lag())
      ensures old(pipe.kernel) == moved + pipe.kernel
      ensures Consumed() == old(Consumed()) && Unread() == old(Unread()) + moved
      ensures |moved| <= n && (if moved != [] then rv == |moved| else -1 <= rv <= 0)
      ensures rv == 0 ==> n == 0 || old(pipe.kernel) == [] || data.refusals > old(data.refusals)
      ensures pipe.errors == old(pipe.errors) + if rv == -1 then 1 else 0
    {
      ghost var read, unread := Split();
      MakeRoom(n);
      rv, moved := Receive(pipe, Min(data.Capacity() - data.size, n));
      Grown(read, unread, moved);
    }

    /** The contents of the block are what has been read and what has not. */
    lemma Split() returns (read: seq<Byte>, unread: seq<Byte>)
      requires Valid()
      ensures read == Consumed() && unread == Unread() && data.Contents() == read + unread
    {
      read, unread := Consumed(), Unread();
    }

    /** What is put at the end of the block is unread. */
    lemma Grown(read: seq<Byte>, unread: seq<Byte>, more: seq<Byte>)
      requires Valid() && |read| == readOffset && data.Contents() == (read + unread) + more
      ensures Consumed() == read && Unread() == unread + more
    {
      var r, u := Split();
      Associative(read, unread, more);
      SameFront(r, u, read, unread + more);
    }

    /** Asks for room for `n` more bytes; whether it was granted shows in the capacity. */
    method MakeRoom(n: nat)
      requires Valid() && data.Usable()
      modifies data
      ensures Valid() && data.Contents() == old(data.Contents()) && data.refusals >= old(data.refusals)
      ensures data.Usable() <==> old(data.size) + n > 0 || old(data.Capacity()) == 0
      ensures n <= data.Capacity() - data.size || data.refusals > old(data.refusals)
    {
      var _ := data.Reserve(data.size + n);
    }

    /** Reads `n` bytes from the pipe into the free room of the block, where there is room for them. */
    method Receive(pipe: Pipe, n: nat) returns (rv: int, ghost moved: seq<Byte>)
      requires data.Valid() && data.size + n <= data.Capacity() && pipe.Valid()
      modifies data, pipe
      ensures data.Valid() && data.dangling == old(data.dangling) && data.refusals == old(data.refusals)
      ensures rv == 0 ==> n == 0 || old(pipe.kernel) == []
      ensures pipe.errors == old(pipe.errors) + if rv == -1 then 1 else 0
      ensures pipe.Valid() && pipe.Lag() == old(pipe.Lag())
      ensures old(pipe.kernel) == moved + pipe.kernel && data.Contents() == old(data.Contents()) + moved
      ensures |moved| <= n && (if moved != [] then rv == |moved| else -1 <= rv <= 0)
    {
      var room := new Byte[n];
      rv, moved := pipe.ReadChars(room, 0, n);
      if rv > 0 {
        assert room[..rv] == moved;
        data.Extend(room[..rv]);
      }
    }

    /**
     * `read(Buffer&)`. The bytes leave the stream in any case; they arrive unless the allocator
     * refuses. Reading nothing into an empty buffer that has a block frees that block.
     */
    method ReadBuffer(result: Buffer, n: nat) returns (k: int, ghost got: seq<Byte>)
      requires Valid() && result != data && result.Usable()
      modifies this, data, result
      ensures Valid() && data.mem == old(data.mem) && data.dangling == old(data.dangling)
      ensures data.refusals == old(data.refusals) && errors == old(errors)
      ensures k == |got| == Min(n, old(|Unread()|)) && old(Unread()) == got + Unread()
      ensures Consumed() == if k < old(|Unread()|) then old(Consumed()) + got else []
      ensures result.Valid() && result.refusals >= old(result.refusals)
      ensures result.Contents() == old(result.Contents()) + if result.size > old(result.size) then got else []
      ensures result.Usable() <==> old(result.size) + k > 0 || old(result.Capacity()) == 0
      ensures result.size == old(result.size) && got != [] ==> result.refusals > old(result.refusals)
    {
      k := Min(n, Size());
      got := Unread()[..k];
      HandTo(result, data.mem[readOffset..readOffset + k]);
      Shift(k);
    }

    /** Makes room for the bytes and appends them, each unless the allocator refuses. */
    static method HandTo(result: Buffer, bytes: seq<Byte>)
      requires result.Usable()
      modifies result
      ensures result.Valid() && result.refusals >= old(result.refusals)
      ensures result.Contents() == old(result.Contents()) + if result.size > old(result.size) then bytes else []
      ensures result.Usable() <==> old(result.size) + |bytes| > 0 || old(result.Capacity()) == 0
      ensures result.size == old(result.size) && bytes != [] ==> result.refusals > old(result.refusals)
    {
      ghost var was := result.Contents();
      var _ := result.Reserve(result.size + |bytes|);
      assert result.Contents() == was;
      if |bytes| > 0 {
        ghost var _ := result.Append(bytes);
      }
    }

    method ReadChars(dst: array<Byte>, at: nat, n: nat) returns (k: int, ghost got: seq<Byte>)
      requires Valid() && at + Min(n, Size()) <= dst.Length
      modifies this, data, dst
      ensures Valid() && data.mem == old(data.mem) && data.dangling == old(data.dangling)
      ensures data.refusals == old(data.refusals) && errors == old(errors)
      ensures k == |got| == Min(n, old(|Unread()|)) && old(Unread()) == got + Unread()
      ensures Consumed() == if k < old(|Unread()|) then old(Consumed()) + got else []
      ensures dst[..] == Patched(old(dst[..]), at, got)
    {
      k := Min(n, Size());
      got := Unread()[..k];
      CopyOut(dst, at, k);
      Shift(k);
    }

    /** Copies the first `k` unread bytes to `dst` from index `at` on. */
    method CopyOut(dst: array<Byte>, at: nat, k: nat)
      requires Valid() && k <= Size() && at + k <= dst.Length
      modifies dst
      ensures dst[..] == Patched(old(dst[..]), at, Unread()[..k])
    {
      forall i | 0 <= i < k {
        dst[at + i] := data.mem[readOffset + i];
      }
    }

    /** Moves the read offset over `k` bytes, for which the first `k` bytes of the block were sent. */
    method Advance(k: nat) returns (ghost got: seq<Byte>, ghost sent: seq<Byte>)
      requires Valid() && k <= Size()
      modifies this`readOffset
      ensures Valid() && |got| == k && old(Unread()) == got + Unread() && Consumed() == old(Consumed()) + got
      ensures sent == data.mem[..k] == old(Consumed() + Unread())[..k]
      ensures old(readOffset) == 0 ==> sent == got
    {
      ghost var read, unread := Split();
      got, sent := unread[..k], data.mem[..k];
      assert sent == data.Contents()[..k];
      readOffset := readOffset + k;
      ghost var read', unread' := Split();
      Associative(read, got, unread[k..]);
      assert unread == got + unread[k..];
      SameFront(read + got, unread[k..], read', unread');
    }

    /** `read(Pipe*)`: counts from the read offset but sends from the start of the block. */
    method ReadPipe(pipe: Pipe, n: nat) returns (rv: int, ghost got: seq<Byte>, ghost sent: seq<Byte>)
      requires Valid() && pipe.Valid()
      modifies this, pipe
      ensures Valid() && pipe.Valid() && pipe.Lag() == old(pipe.Lag())
      ensures |got| <= n && old(Unread()) == got + Unread() && Consumed() == old(Consumed()) + got
      ensures rv == -1 || rv == |got|
      ensures rv == -1 ==> got == []
      ensures rv == 0 ==> n == 0 || old(Unread()) == []
      ensures pipe.kernel == old(pipe.kernel) + sent && sent == old(Consumed() + Unread())[..|got|]
      ensures old(readOffset) == 0 ==> sent == got
      ensures errors == old(errors) && pipe.errors == old(pipe.errors) + if rv == -1 then 1 else 0
    {
      rv := pipe.WriteBytes(data.mem[..Min(Size(), n)]);
      got, sent := [], [];
      if rv > 0 {
        got, sent := Advance(rv);
      }
    }

    /** `read(int)`: as `read(Pipe*)`, to a file descriptor. */
    method ReadFd(output: seq<Byte>, n: nat)
      returns (rv: int, output': seq<Byte>, ghost got: seq<Byte>, ghost sent: seq<Byte>)
      requires Valid()
      modifies this
      ensures Valid()
      ensures |got| <= n && old(Unread()) == got + Unread() && Consumed() == old(Consumed()) + got
      ensures rv == -1 || rv == |got|
      ensures rv == -1 ==> got == []
      ensures rv == 0 ==> n == 0 || old(Unread()) == []
      ensures output' == output + sent && sent == old(Consumed() + Unread())[..|got|]
      ensures old(readOffset) == 0 ==> sent == got
      ensures errors == old(errors) + if rv == -1 then 1 else 0
    {
      rv, output' := SystemCalls.Write(output, data.mem[..Min(Size(), n)]);
      got, sent := [], [];
      if rv > 0 {
        got, sent := Advance(rv);
      }
      errors := errors + if rv == -1 then 1 else 0;
    }

    /** `read()`: the next byte as a signed number, or -1 if there is none. */
    method ReadByte() returns (ch: int, ghost got: seq<Byte>)
      requires Valid()
      modifies this
      ensures Valid() && errors == old(errors)
      ensures old(Unread()) == got + Unread() && |got| == Min(1, old(|Unread()|))
      ensures Consumed() == old(Consumed()) + got
      ensures ch == if got == [] then -1 else Signed(got[0])
    {
      if readOffset != data.size {
        got := [data.mem[readOffset]];
        ch := Signed(data.mem[readOffset]);
        readOffset := readOffset + 1;
      } else {
        ch, got := -1, [];
      }
    }
  }

  /**
   * Sending from the start of the block delivers the unread bytes for every content of the block
   * exactly when nothing had been read before (or nothing is sent).
   */
  lemma SendsUnreadIffUntouched(offset: nat, n: nat)
    ensures (forall mem: seq<Byte> :: |mem| >= offset + n ==> mem[..n] == mem[offset..offset + n])
            <==> offset == 0 || n == 0
  {
    if offset != 0 && n != 0 {
      var mem: seq<Byte> := seq(offset + n, i => if i < offset then 'a' else 'b');
      assert mem[..n][0] == 'a' && mem[offset..offset + n][0] == 'b';
    }
  }
}
