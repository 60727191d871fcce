/** `ChunkedStream`: a queue of chunks that behaves as one queue of bytes. */
module ChunkedStreams {
  import opened Bytes
  import opened Buffers
  import opened Pipes
  import opened BufferStreams
  import opened ChunkFacts
  import opened Delivery
  import opened Draining
  import opened Chunks

  class ChunkedStream {
    var chunks: seq<Chunk>

    ghost var Repr: set<object>

    ghost predicate Valid()
      reads this, Repr
    {
      && this in Repr && this !in Footprint(chunks) && Footprint(chunks) <= Repr
      && AllSound(chunks) && RestUntouched(Survey(chunks))
    }

    /** The chunks as a value. */
    ghost function Now(): (fs: seq<Facts>)
      requires Valid()
      reads this, Repr
      ensures |fs| == |chunks|
    {
      Survey(chunks)
    }

    /** The byte sequence this stream stands for. */
    ghost function Contents(): seq<Byte>
      requires Valid()
      reads this, Repr
    {
      Held(Now())
    }

    constructor ()
      ensures Valid() && fresh(Repr) && chunks == [] && Now() == []
    {
      chunks, Repr := [], {this};
    }

    /** Looks at the front chunk only. */
    predicate Empty(): (r: bool)
      requires Valid()
      reads this, Repr
      ensures r <==> Front(Now()) == []
      ensures Contents() == [] ==> r
      ensures NoneEmpty(Now()) ==> (r <==> Contents() == [])
    {
      EmptyIffFrontEmpty(Now());
      chunks == [] || ChunkSize(chunks[0]) == 0
    }

    /** Sums over all chunks. */
    method Size() returns (n: nat)
      requires Valid()
      ensures n == |Contents()|
    {
      n := 0;
      var k := 0;
      while k < |chunks|
        invariant 0 <= k <= |chunks| && AllSound(chunks[k..])
        invariant n + |Held(Survey(chunks[k..]))| == |Contents()|
      {
        assert chunks[k..][0] == chunks[k] && chunks[k..][1..] == chunks[k + 1..];
        HeldCons(FactsOf(chunks[k]), Survey(chunks[k + 1..]));
        n := n + ChunkSize(chunks[k]);
        k := k + 1;
      }
      assert chunks[|chunks|..] == [];
    }

    // -------------------------------------------------------------- writing

    /** Puts a new chunk at the end. */
    method PushBack(c: Chunk)
      requires Valid() && Sound(c) && Foot(c) !! Repr && FactsOf(c).read == []
      modifies this
      ensures Valid() && chunks == old(chunks) + [c] && Repr == old(Repr) + Foot(c)
      ensures Sound(c) && Now() == old(Now()) + [FactsOf(c)]
    {
      SnocFootprint(chunks, c);
      SnocSound(chunks, c);
      chunks, Repr := chunks + [c], Repr + Foot(c);
    }

    /** The tail is a buffer chunk with fewer unread bytes than capacity. */
    predicate Roomy(): (r: bool)
      requires Valid()
      reads this, Repr
      ensures r == HasRoom(Now())
    {
      chunks != [] &&
      var last := chunks[|chunks| - 1];
      LastSound(chunks);
      last.BufferChunk? && last.buffer.Size() < last.buffer.Capacity()
    }

    /** `buffer(size)`: the tail if it is a buffer with room, else a new buffer chunk. */
    method TailBuffer(n: nat) returns (tail: BufferStream)
      requires Valid()
      modifies this
      ensures Valid() && fresh(Repr - old(Repr))
      ensures chunks != [] && chunks[|chunks| - 1] == BufferChunk(tail) && {tail, tail.data} <= Repr
      ensures tail.Valid() && tail.data.Usable()
      ensures Roomed(old(Now()), n, Now())
    {
      if Roomy() {
        LastSound(chunks);
        return chunks[|chunks| - 1].buffer;
      }
      ghost var fs := Now();
      tail := new BufferStream(n);
      PushBack(BufferChunk(tail));
      RoomedByNew(fs, n, FactsOf(BufferChunk(tail)));
    }

    /** `pipe(size)`: the tail if it is a pipe, else a new pipe chunk. */
    method TailPipe() returns (tail: Pipe)
      requires Valid()
      modifies this
      ensures Valid() && fresh(Repr - old(Repr))
      ensures chunks != [] && chunks[|chunks| - 1] == PipeChunk(tail) && tail in Repr && tail.Exact()
      ensures Now() == if old(EndsInPipe(Now())) then old(Now()) else old(Now()) + [Fresh(true)]
    {
      if chunks != [] {
        LastSound(chunks);
        var last := chunks[|chunks| - 1];
        if last.PipeChunk? {
          return last.pipe;
        }
      }
      tail := new Pipe();
      PushBack(PipeChunk(tail));
    }

    /** The stream consists of `init` and the separate tail `c`. */
    ghost predicate Rear(init: seq<Chunk>, c: Chunk)
      reads this
    {
      && this in Repr && this !in Footprint(chunks) && Footprint(chunks) <= Repr
      && chunks == init + [c] && Footprint(chunks) == Footprint(init) + Foot(c) && Foot(c) !! Footprint(init)
    }

    lemma OpenTail() returns (init: seq<Chunk>, fs: seq<Facts>)
      requires Valid() && chunks != []
      ensures var c := chunks[|chunks| - 1];
              Rear(init, c) && Kept(init, fs) && Sound(c) && Now() == fs + [FactsOf(c)]
    {
      LastSound(chunks);
      init := chunks[..|chunks| - 1];
      fs := Survey(init);
    }

    lemma CloseTail(init: seq<Chunk>, c: Chunk, fs: seq<Facts>, f: Facts)
      requires Rear(init, c) && Kept(init, fs) && Sound(c)
      requires RestUntouched(fs + [f]) && FactsOf(c).read == f.read
      ensures Valid() && Now() == fs + [FactsOf(c)]
    {
      SnocSound(init, c);
      var all := fs + [FactsOf(c)];
      forall i | 0 < i < |all|
        ensures all[i].read == []
      {
        assert all[i].read == (fs + [f])[i].read;
      }
    }

    /** `write(const char*)`: all of `bytes` at the end, or nothing when the allocator refuses. */
    method WriteBytes(bytes: seq<Byte>) returns (n: int)
      requires Valid()
      modifies Repr
      ensures Valid() && fresh(Repr - old(Repr))
      ensures Stores(bytes, n, old(Now()), Now())
      ensures Extends(old(Now()), bytes[..n], Now())
    {
      ghost var fs := Now();
      var tail := TailBuffer(|bytes|);
      ghost var fs1 := Now();
      n := WriteTail(tail, bytes);
      StoresBehind(bytes, n, fs, fs1, Now());
    }

    method WriteTail(tail: BufferStream, bytes: seq<Byte>) returns (n: int)
      requires Valid() && chunks != [] && chunks[|chunks| - 1] == BufferChunk(tail) && tail.data.Usable()
      modifies tail, tail.data
      ensures Valid() && (n == |bytes| || n == 0)
      ensures var fs, fs' := old(Now()), Now();
              && Appended(fs, true, false, bytes[..n], fs') && FailedTail(fs, true, fs', 0)
              && (n < |bytes| ==> Refused(fs, true, fs') && !Fits(fs, |bytes|))
              && (bytes == [] ==> fs'[|fs'| - 1].capacity == fs[|fs| - 1].capacity)
    {
      ghost var init, fs := OpenTail();
      ghost var f := FactsOf(BufferChunk(tail));
      n := tail.WriteBytes(bytes);
      CloseTail(init, BufferChunk(tail), fs, f);
      TailStored(fs, f, bytes, n, FactsOf(BufferChunk(tail)));
    }

    /**
     * `write(Pipe*)`: a prefix of the pipe's bytes moves to the end of the stream. It leaves the
     * pipe in COPY mode as well, and in MOVE mode it may be longer than `size`.
     */
    method WritePipe(source: Pipe, size: nat, mode: Mode) returns (n: int, ghost moved: seq<Byte>)
      requires Valid() && source !in Repr && source.Valid()
      modifies Repr, source
      ensures Valid() && fresh(Repr - old(Repr)) && source !in Repr
      ensures source.Valid() && source.Lag() == old(source.Lag()) && old(source.kernel) == moved + source.kernel
      ensures mode == MOVE ==> Splices(|old(source.kernel)|, |old(source.kernel)|, n, moved, old(Now()), Now())
      ensures mode == COPY ==> Receives(size, |old(source.kernel)|, n, moved, old(Now()), Now())
      ensures source.errors == old(source.errors) + if n == -1 && mode == COPY then 1 else 0
      ensures Extends(old(Now()), moved, Now())
    {
      if mode == MOVE {
        n, moved := MovePipe(source, size);
      } else {
        n, moved := CopyPipe(source, size);
      }
    }

    method MovePipe(source: Pipe, size: nat) returns (n: int, ghost moved: seq<Byte>)
      requires Valid() && source !in Repr && source.Valid()
      modifies Repr, source
      ensures Valid() && fresh(Repr - old(Repr)) && source !in Repr && source.errors == old(source.errors)
      ensures source.Valid() && source.Lag() == old(source.Lag()) && old(source.kernel) == moved + source.kernel
      ensures Splices(|old(source.kernel)|, |old(source.kernel)|, n, moved, old(Now()), Now())
      ensures Extends(old(Now()), moved, Now())
    {
      ghost var fs, available := Now(), |source.kernel|;
      var tail := TailPipe();
      ghost var fs1 := Now();
      n, moved := MoveToTail(tail, source, size);
      SplicesBehind(available, available, n, moved, fs, fs1, Now());
    }

    method CopyPipe(source: Pipe, size: nat) returns (n: int, ghost moved: seq<Byte>)
      requires Valid() && source !in Repr && source.Valid()
      modifies Repr, source
      ensures Valid() && fresh(Repr - old(Repr)) && source !in Repr
      ensures source.errors == old(source.errors) + if n == -1 then 1 else 0
      ensures source.Valid() && source.Lag() == old(source.Lag()) && old(source.kernel) == moved + source.kernel
      ensures Receives(size, |old(source.kernel)|, n, moved, old(Now()), Now())
      ensures Extends(old(Now()), moved, Now())
    {
      ghost var fs, available := Now(), |source.kernel|;
      var tail := TailBuffer(size);
      ghost var fs1 := Now();
      n, moved := ReadToTail(tail, source, size);
      ReceivesBehind(size, available, n, moved, fs, fs1, Now());
    }

    method MoveToTail(tail: Pipe, source: Pipe, size: nat) returns (n: int, ghost moved: seq<Byte>)
      requires Valid() && chunks != [] && chunks[|chunks| - 1] == PipeChunk(tail)
      requires source !in Repr && source.Valid()
      modifies tail, source
      ensures Valid() && source.Valid() && source.Lag() == old(source.Lag()) && source.errors == old(source.errors)
      ensures old(source.kernel) == moved + source.kernel
      ensures Splices(|old(source.kernel)|, |old(source.kernel)|, n, moved, old(Now()), Now())
    {
      ghost var init, fs := OpenTail();
      ghost var f := FactsOf(PipeChunk(tail));
      n, moved := tail.WritePipe(source, size, MOVE);
      CloseTail(init, PipeChunk(tail), fs, f);
      TailGained(fs, f, true, moved, FactsOf(PipeChunk(tail)));
    }

    method ReadToTail(tail: BufferStream, source: Pipe, size: nat) returns (n: int, ghost moved: seq<Byte>)
      requires Valid() && chunks != [] && chunks[|chunks| - 1] == BufferChunk(tail) && tail.data.Usable()
      requires source !in Repr && source.Valid()
      modifies tail, tail.data, source
      ensures Valid() && source.Valid() && source.Lag() == old(source.Lag())
      ensures old(source.kernel) == moved + source.kernel
      ensures source.errors == old(source.errors) + if n == -1 then 1 else 0
      ensures var fs, fs' := old(Now()), Now();
              && Appended(fs, true, false, moved, fs') && FailedTail(fs, true, fs', 0)
              && |moved| <= size && (if moved != [] then n == |moved| else -1 <= n <= 0)
              && (n == 0 ==> size == 0 || old(source.kernel) == [] || Refused(fs, true, fs'))
    {
      ghost var init, fs := OpenTail();
      ghost var f := FactsOf(BufferChunk(tail));
      n, moved := tail.WritePipe(source, size);
      CloseTail(init, BufferChunk(tail), fs, f);
      TailGained(fs, f, false, moved, FactsOf(BufferChunk(tail)));
    }

    /** `write(int)`: splices from a file descriptor; `input` is what can be read there. */
    method WriteFd(input: seq<Byte>, size: nat) returns (n: int, input': seq<Byte>, ghost moved: seq<Byte>)
      requires Valid()
      modifies Repr
      ensures Valid() && fresh(Repr - old(Repr))
      ensures input == moved + input' && Splices(size, |input|, n, moved, old(Now()), Now())
      ensures Extends(old(Now()), moved, Now())
    {
      ghost var fs := Now();
      var tail := TailPipe();
      ghost var fs1 := Now();
      n, input', moved := SpliceToTail(tail, input, size);
      SplicesBehind(size, |input|, n, moved, fs, fs1, Now());
    }

    method SpliceToTail(tail: Pipe, input: seq<Byte>, size: nat)
      returns (n: int, input': seq<Byte>, ghost moved: seq<Byte>)
      requires Valid() && chunks != [] && chunks[|chunks| - 1] == PipeChunk(tail)
      modifies tail
      ensures Valid() && input == moved + input' && Splices(size, |input|, n, moved, old(Now()), Now())
    {
      ghost var init, fs := OpenTail();
      ghost var f := FactsOf(PipeChunk(tail));
      n, input', moved := tail.WriteFd(input, size);
      CloseTail(init, PipeChunk(tail), fs, f);
      TailGained(fs, f, true, moved, FactsOf(PipeChunk(tail)));
    }

    // -------------------------------------------------------------- reading

    /** Removes and disposes of the front chunk if it has been read to its end; `k` bytes of `fs` had been read. */
    method PopIfDrained(ghost fs: seq<Facts>, ghost k: nat)
      requires Valid() && fs != [] && chunks != [] && |fs| == |chunks|
      requires k <= |fs[0].view| && Took(fs[0], k, Now()[0]) && Now()[1..] == fs[1..]
      modifies this
      ensures Valid() && Repr == old(Repr) && Now() == Consume(fs, k)
    {
      if ChunkSize(chunks[0]) == 0 {
        chunks := chunks[1..];
      }
    }

    /** `chunk->read(buf, size)` on the front chunk, which stays in place. */
    method FrontChars(dst: array<Byte>, at: nat, n: nat) returns (rv: int)
      requires Valid() && !Empty() && n > 0 && dst !in Repr && at + n <= dst.Length
      modifies Foot(chunks[0]), dst
      ensures Valid()
      ensures var fs, fs' := old(Now()), Now();
              if rv == -1 then fs[0].pipe && fs' == Failed(fs) && dst[..] == old(dst[..])
              else
                && 0 < rv <= Min(n, |fs[0].view|) && (!fs[0].pipe ==> rv == Min(n, |fs[0].view|))
                && Took(fs[0], rv, fs'[0]) && fs'[1..] == fs[1..]
                && dst[..] == Patched(old(dst[..]), at, fs[0].view[..rv])
    {
      rv := Chunks.ReadChars(chunks[0], dst, at, n);
    }

    /** One turn of the loop in `read(char*)`. */
    method TakeChars(dst: array<Byte>, at: nat, n: nat) returns (rv: int)
      requires Valid() && !Empty() && n > 0 && dst !in Repr && at + n <= dst.Length
      modifies Repr, dst
      ensures Valid() && Repr == old(Repr) && Turn(old(Now()), n, rv, Now())
      ensures var fs := old(Now());
              if rv == -1 then fs[0].pipe && dst[..] == old(dst[..])
              else CharLength(fs, n, rv) && dst[..] == Patched(old(dst[..]), at, Front(fs)[..rv])
    {
      ghost var fs := Now();
      rv := FrontChars(dst, at, n);
      if rv >= 0 {
        PopIfDrained(fs, rv);
      }
    }

    /** One turn of the loop in `read(char*)` with the state of the loop carried along. */
    method CopyTurn(dst: array<Byte>, at: nat, size: nat, ghost fs: seq<Facts>, ghost lens: seq<nat>, n: nat,
                    ghost block: seq<Byte>)
      returns (rv: int)
      requires Valid() && !Empty() && n < size && dst !in Repr && at + size <= dst.Length == |block|
      requires Copying(fs, size, lens, Now(), n, block, at, dst[..])
      modifies Repr, dst
      ensures Valid() && Repr == old(Repr)
      ensures rv == -1 || 0 < rv <= size - n
      ensures rv > 0 ==> Copying(fs, size, lens + [rv], Now(), n + rv, block, at, dst[..])
      ensures rv == -1 ==>
                && Copied(fs, lens, block, at, dst[..])
                && CharsRead(fs, size, if n == 0 then -1 else n, lens, Now())
    {
      ghost var was, now := dst[..], Now();
      rv := TakeChars(dst, at, size - n);
      if rv > 0 {
        CopyingStep(fs, size, lens, now, n, block, at, was, rv);
      } else {
        CopyingFails(fs, size, lens, now, n, block, at, was);
      }
    }

    /**
     * `read(char*)`. The bytes leave the stream in order, turn by turn, but every turn reads to the
     * same address: `dst` ends up holding the pieces one over the other.
     */
    method ReadChars(dst: array<Byte>, at: nat, size: nat) returns (n: int, ghost lens: seq<nat>)
      requires Valid() && dst !in Repr && at + size <= dst.Length
      modifies Repr, dst
      ensures Valid() && Repr == old(Repr) && CharsRead(old(Now()), size, n, lens, Now())
      ensures Copied(old(Now()), lens, old(dst[..]), at, dst[..])
    {
      n, lens := 0, [];
      var remaining: nat := size;
      ghost var fs, block := Now(), dst[..];
      while !Empty() && remaining > 0
        invariant Valid() && Repr == old(Repr) && n >= 0 && n + remaining == size
        invariant Copying(fs, size, lens, Now(), n, block, at, dst[..])
        decreases remaining
      {
        var rv := CopyTurn(dst, at, size, fs, lens, n, block);
        if rv < 0 {
          n := if n != 0 then n else -1;
          return;
        }
        remaining, n, lens := remaining - rv, n + rv, lens + [rv];
      }
      CopyingEnds(fs, size, lens, Now(), n, block, at, dst[..]);
    }

    /** `read(result.end(), size)`: what is found past the end of a buffer afterwards. */
    method ReadPastEnd(size: nat) returns (n: int, bytes: seq<Byte>, ghost lens: seq<nat>, ghost before: seq<Byte>)
      requires Valid()
      modifies Repr
      ensures Valid() && Repr == old(Repr) && Poured(old(Now()), size, n, lens, Now(), before, bytes)
      ensures |bytes| == Max(n, 0) <= size
    {
      var end := new Byte[size];
      before := end[..];
      ghost var fs := Now();
      n, lens := ReadChars(end, 0, size);
      CopiedIsPoured(fs, size, n, lens, Now(), before, end[..]);
      bytes := end[..][..Max(n, 0)];
    }

    /**
     * `read(Buffer&)`: reads past the end of the result and raises its size. What arrives is right
     * when one turn served the request; `end` is what was in memory there. When the reservation is
     * refused the source goes on to write past the block; the model stops.
     */
    method ReadBuffer(result: Buffer, size: nat)
      returns (n: int, refused: bool, ghost lens: seq<nat>, ghost end: seq<Byte>, ghost arrived: seq<Byte>)
      requires Valid() && result !in Repr && result.Usable()
      modifies Repr, result
      ensures Valid() && Repr == old(Repr) && result.Valid()
      ensures result.refusals == old(result.refusals) + if refused then 1 else 0
      ensures result.Contents() == old(result.Contents()) + arrived
      ensures refused ==> n == 0 && Now() == old(Now()) && arrived == []
      ensures !refused ==> Poured(old(Now()), size, n, lens, Now(), end, arrived)
      ensures result.Usable() <==> old(result.size) + size > 0 || old(result.Capacity()) == 0
    {
      ghost var before := result.Contents();
      var ok := result.Reserve(result.size + size);
      refused := !ok;
      if refused {
        return 0, refused, [], [], [];
      }
      assert result.Contents() == before;
      n, lens, end, arrived := PourInto(result, size);
    }

    /** Reads into the room past the end of the result and raises its size. */
    method PourInto(result: Buffer, size: nat)
      returns (n: int, ghost lens: seq<nat>, ghost end: seq<Byte>, ghost arrived: seq<Byte>)
      requires Valid() && result !in Repr && result.Valid() && result.size + size <= result.Capacity()
      modifies Repr, result
      ensures Valid() && Repr == old(Repr) && result.Valid() && result.dangling == old(result.dangling)
      ensures result.refusals == old(result.refusals) && result.Contents() == old(result.Contents()) + arrived
      ensures Poured(old(Now()), size, n, lens, Now(), end, arrived)
    {
      var bytes;
      n, bytes, lens, end := ReadPastEnd(size);
      arrived := bytes;
      if n > 0 {
        result.Extend(bytes);
      }
    }

    /** `chunk->read(fd, size)` on the front chunk, which stays in place. */
    method FrontFd(output: seq<Byte>, n: nat) returns (rv: int, output': seq<Byte>)
      requires Valid() && !Empty() && n > 0
      modifies Foot(chunks[0])
      ensures Valid()
      ensures var fs, fs' := old(Now()), Now();
              if rv == -1 then fs' == Failed(fs) && output' == output
              else
                && 0 < rv <= Min(n, |fs[0].view|) && Took(fs[0], rv, fs'[0]) && fs'[1..] == fs[1..]
                && output' == output + SentBy(fs[0], rv)
    {
      rv, output' := Chunks.ReadFd(chunks[0], output, n);
    }

    /** One turn of the loop in `read(int)`. */
    method TakeFd(output: seq<Byte>, n: nat) returns (rv: int, output': seq<Byte>)
      requires Valid() && !Empty() && n > 0
      modifies Repr
      ensures Valid() && Repr == old(Repr) && Turn(old(Now()), n, rv, Now())
      ensures output' == output + if rv == -1 then [] else SentBy(old(Now())[0], rv)
    {
      ghost var fs := Now();
      rv, output' := FrontFd(output, n);
      if rv >= 0 {
        PopIfDrained(fs, rv);
      }
    }

    /** One turn of the loop in `read(int)` with the state of the loop carried along. */
    method ForwardTurn(output: seq<Byte>, size: nat, ghost fs: seq<Facts>, ghost lens: seq<nat>, n: nat,
                       ghost before: seq<Byte>)
      returns (rv: int, output': seq<Byte>)
      requires Valid() && !Empty() && n < size && Forwarding(fs, size, lens, Now(), n, before, output)
      modifies Repr
      ensures Valid() && Repr == old(Repr) && (rv == -1 || 0 < rv <= size - n)
      ensures rv > 0 ==> Forwarding(fs, size, lens + [rv], Now(), n + rv, before, output')
      ensures rv == -1 ==>
                Forwarded(fs, lens, before, output') && Reads(fs, size, if n == 0 then -1 else n, lens, Now())
    {
      ghost var now := Now();
      rv, output' := TakeFd(output, size - n);
      if rv > 0 {
        ForwardingStep(fs, size, lens, now, n, before, output, rv);
      } else {
        ForwardingFails(fs, size, lens, now, n, before, output);
      }
    }

    /**
     * `read(int)`: to a file descriptor, which gets `Sent`; `SendsRightIff` says when that is what
     * leaves the stream.
     */
    method ReadFd(output: seq<Byte>, size: nat) returns (n: int, output': seq<Byte>, ghost lens: seq<nat>)
      requires Valid()
      modifies Repr
      ensures Valid() && Repr == old(Repr) && Reads(old(Now()), size, n, lens, Now())
      ensures output' == output + Joined(Sent(old(Now()), lens)) && Yields(old(Now()), size, n, lens, Now())
    {
      ghost var fs := Now();
      n, output', lens := ForwardLoop(output, size);
      ReadsYields(fs, size, n, lens, Now());
    }

    method ForwardLoop(output: seq<Byte>, size: nat) returns (n: int, output': seq<Byte>, ghost lens: seq<nat>)
      requires Valid()
      modifies Repr
      ensures Valid() && Repr == old(Repr) && Reads(old(Now()), size, n, lens, Now())
      ensures Forwarded(old(Now()), lens, output, output')
    {
      n, output', lens := 0, output, [];
      var remaining: nat := size;
      ghost var fs := Now();
      while !Empty() && remaining > 0
        invariant Valid() && Repr == old(Repr) && n >= 0 && n + remaining == size
        invariant Forwarding(fs, size, lens, Now(), n, output, output')
        decreases remaining
      {
        var rv;
        rv, output' := ForwardTurn(output', size, fs, lens, n, output);
        if rv < 0 {
          n := if n != 0 then n else -1;
          return;
        }
        remaining, n, lens := remaining - rv, n + rv, lens + [rv];
      }
      ForwardingEnds(fs, size, lens, Now(), n, output, output');
    }

    /** `chunk->read(pipe, size)` on the front chunk, which stays in place. */
    method FrontPipe(target: Pipe, n: nat) returns (rv: int)
      requires Valid() && !Empty() && n > 0 && target !in Repr && target.Valid()
      modifies Foot(chunks[0]), target
      ensures Valid() && target.Valid() && target.Lag() == old(target.Lag())
      ensures target.errors == old(target.errors) + if rv == -1 then 1 else 0
      ensures var fs, fs' := old(Now()), Now();
              if fs[0].pipe || rv == -1 then
                fs' == fs && target.kernel == old(target.kernel) && (fs[0].pipe ==> rv == 0)
              else
                && 0 < rv <= Min(n, |fs[0].view|) && Took(fs[0], rv, fs'[0]) && fs'[1..] == fs[1..]
                && target.kernel == old(target.kernel) + SentBy(fs[0], rv)
    {
      rv := Chunks.ReadPipe(chunks[0], target, n);
    }

    /**
     * One turn of the loop in `read(Pipe*)`. A turn that does not fail leaves the request drainable or
     * leaves it not so; at one that is not, the guard of the loop stays true.
     */
    method TakePipe(target: Pipe, n: nat) returns (rv: int)
      requires Valid() && !Empty() && n > 0 && target !in Repr && target.Valid()
      modifies Repr, target
      ensures Valid() && Repr == old(Repr) && target.Valid() && target.Lag() == old(target.Lag())
      ensures target.errors == old(target.errors) + if rv == -1 then 1 else 0
      ensures PipeTurn(old(Now()), n, rv, Now())
      ensures target.kernel == old(target.kernel) + if rv <= 0 then [] else SentBy(old(Now())[0], rv)
      ensures rv >= 0 ==> (Drainable(Now(), n - rv) <==> old(Drainable(Now(), n)))
      ensures rv >= 0 && old(!Drainable(Now(), n)) ==> n - rv > 0 && !Empty()
      ensures rv == 0 ==> old(!Drainable(Now(), n))
    {
      ghost var fs := Now();
      rv := FrontPipe(target, n);
      if rv >= 0 {
        assert rv == 0 ==> Used(fs[0], 0) == fs[0];
        PopIfDrained(fs, rv);
        PipeTurnKeeps(fs, n, rv, Now());
      }
    }

    /** One turn of the loop in `read(Pipe*)` with the state of the loop carried along. */
    method DrainTurn(target: Pipe, size: nat, ghost fs: seq<Facts>, ghost lens: seq<nat>, n: nat,
                     ghost before: seq<Byte>, ghost lag: int, ghost errors: nat)
      returns (rv: int)
      requires Valid() && !Empty() && n < size && target !in Repr && Drainable(fs, size)
      requires Forwarding(fs, size, lens, Now(), n, before, target.kernel) && target.Steady(lag, errors)
      modifies Repr, target
      ensures Valid() && Repr == old(Repr) && target.Steady(lag, if rv == -1 then errors + 1 else errors)
      ensures rv == -1 || 0 < rv <= size - n
      ensures rv > 0 ==> Forwarding(fs, size, lens + [rv], Now(), n + rv, before, target.kernel)
      ensures rv == -1 ==>
                && Forwarded(fs, lens, before, target.kernel)
                && Drains(fs, size, if n == 0 then -1 else n, lens, Now(), true)
    {
      ghost var now, kernel := Now(), target.kernel;
      DrainableAfter(fs, size, lens);
      rv := TakePipe(target, size - n);
      if rv > 0 {
        ForwardingStep(fs, size, lens, now, n, before, kernel, rv);
      } else {
        ForwardingFails(fs, size, lens, now, n, before, kernel);
      }
    }

    /** `read(Pipe*)`: to a pipe, as `read(int)`. It ends only if no pipe chunk is met on the way. */
    method ReadPipe(target: Pipe, size: nat) returns (n: int, ghost lens: seq<nat>)
      requires Valid() && target !in Repr && target.Valid() && Drainable(Now(), size)
      modifies Repr, target
      ensures Valid() && Repr == old(Repr) && target.Valid() && target.Lag() == old(target.Lag())
      ensures old(target.errors) <= target.errors <= old(target.errors) + 1
      ensures Drains(old(Now()), size, n, lens, Now(), target.errors > old(target.errors))
      ensures target.kernel == old(target.kernel) + Joined(Sent(old(Now()), lens))
      ensures Yields(old(Now()), size, n, lens, Now())
    {
      ghost var fs, failed := Now(), false;
      n, lens, failed := DrainLoop(target, size, fs, target.kernel, target.Lag(), target.errors);
      DrainsYields(fs, size, n, lens, Now(), failed);
    }

    /** The loop, from chunks `fs` and a target that holds `before`. */
    method DrainLoop(target: Pipe, size: nat, ghost fs: seq<Facts>, ghost before: seq<Byte>, ghost lag: int,
                     ghost errors: nat)
      returns (n: int, ghost lens: seq<nat>, ghost failed: bool)
      requires Valid() && target !in Repr && Drainable(fs, size)
      requires Now() == fs && target.kernel == before && target.Steady(lag, errors)
      modifies Repr, target
      ensures Valid() && Repr == old(Repr) && target.Steady(lag, if failed then errors + 1 else errors)
      ensures Drains(fs, size, n, lens, Now(), failed) && Forwarded(fs, lens, before, target.kernel)
    {
      n, lens, failed := 0, [], false;
      var remaining: nat := size;
      ForwardingStarts(fs, size, before);
      while !Empty() && remaining > 0
        invariant Valid() && Repr == old(Repr) && n >= 0 && n + remaining == size
        invariant target.Steady(lag, errors) && Forwarding(fs, size, lens, Now(), n, before, target.kernel)
        decreases remaining
      {
        var rv := DrainTurn(target, size, fs, lens, n, before, lag, errors);
        if rv < 0 {
          n, failed := if n != 0 then n else -1, true;
          return;
        }
        remaining, n, lens := remaining - rv, n + rv, lens + [rv];
      }
      ForwardingEnds(fs, size, lens, Now(), n, before, target.kernel);
    }

    /** `chunk->read()` on the front chunk, which stays in place. */
    method FrontByte() returns (ch: int, ghost k: nat)
      requires Valid() && !Empty()
      modifies Foot(chunks[0])
      ensures Valid() && k <= 1
      ensures var fs, fs' := old(Now()), Now();
              if k == 1 then ch == Signed(fs[0].view[0]) && Took(fs[0], 1, fs'[0]) && fs'[1..] == fs[1..]
              else fs[0].pipe && ch == -1 && fs' == Failed(fs)
    {
      ghost var f := FactsOf(chunks[0]);
      ch := Chunks.ReadByte(chunks[0]);
      k := if FactsOf(chunks[0]).view == f.view then 0 else 1;
    }

    /** `read()`: the next byte as a signed number, or -1. */
    method ReadByte() returns (ch: int)
      requires Valid()
      modifies Repr
      ensures Valid() && Repr == old(Repr) && ReadsByte(old(Now()), ch, Now())
    {
      if !Empty() {
        ghost var fs, k := Now(), 0;
        ch, k := FrontByte();
        if ChunkSize(chunks[0]) == 0 {
          PopFront();
        }
        if ch != -1 {
          return;
        }
      }
      return -1;
    }

    /** `pop_front()` disposes of the front chunk with everything in it. */
    method PopFront()
      requires Valid() && chunks != []
      modifies this
      ensures Valid() && Repr == old(Repr) && Now() == old(Now())[1..]
    {
      ghost var fs := Now();
      assert RestUntouched(fs[1..]);
      chunks := chunks[1..];
      assert Survey(chunks) == fs[1..];
    }
  }
}
