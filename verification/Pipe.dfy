/** `Pipe`: a kernel pipe with a user-space count of the bytes in it. */
module Pipes {
  import opened Bytes
  import opened Buffers
  import Fill
  import SystemCalls

  datatype Mode = COPY | MOVE

  class Pipe {
    var isOpen: bool
    var size: nat
    /** The bytes the kernel holds for this pipe. */
    var kernel: seq<Byte>
    /** How many operations on this pipe the kernel has failed, or met with no byte where one was due. */
    ghost var errors: nat

    /** The counter never runs below the kernel's count, so it can never wrap around. */
    ghost predicate Valid()
      reads this
    {
      |kernel| <= size && (!isOpen ==> size == 0)
    }

    /** How far the counter has run ahead of the kernel. */
    ghost function Lag(): int
      reads this
    {
      size - |kernel|
    }

    /** The counter is right. */
    ghost predicate Exact()
      reads this
    {
      Valid() && Lag() == 0
    }

    /** The counter is `lag` ahead, and the kernel has failed the pipe `errors` times. */
    ghost predicate Steady(lag: int, errors: nat)
      reads this
    {
      Valid() && Lag() == lag && this.errors == errors
    }

    constructor ()
      ensures Exact() && kernel == [] && errors == 0
    {
      isOpen := *;
      size, kernel, errors := 0, [], 0;
    }

    /**
     * Discards everything. The loop retries failed reads, so it ends as long as the kernel fails
     * only finitely often; with a counter that ran ahead it would retry for ever
     * (the last clause of ClearStep).
     */
    method Clear(faults: nat)
      requires Exact()
      modifies this
      ensures Exact() && size == 0 && kernel == [] && isOpen == old(isOpen) && errors == old(errors)
    {
      var left := faults;
      while size > 0
        invariant Exact() && isOpen == old(isOpen) && errors == old(errors)
        decreases size, left
      {
        left := ClearStep(left);
      }
    }

    /** One turn of the loop in `clear`. */
    method ClearStep(faults: nat) returns (left: nat)
      requires Valid() && size > 0
      modifies this
      ensures Valid() && Lag() == old(Lag()) && isOpen == old(isOpen) && errors == old(errors)
      ensures size < old(size) || (size == old(size) && kernel == old(kernel))
      ensures kernel != [] && size == old(size) ==> left < faults
      ensures kernel == old(kernel)[|old(kernel)| - |kernel|..]
      // a turn with nothing left in the kernel changes nothing
      ensures old(kernel) == [] ==> size == old(size) && kernel == []
      // with a counter ahead of the kernel the guard stays true, whatever the kernel answers
      ensures old(Lag()) > 0 ==> size > 0
    {
      var rv, _, rest, left' := SystemCalls.Read(kernel, Min(size, 4096), faults);
      left := left';
      if rv > 0 {
        size := size - rv;
      }
      kernel := rest;
    }

    method WriteBytes(bytes: seq<Byte>) returns (rv: int)
      requires Valid()
      modifies this
      ensures Valid() && Lag() == old(Lag()) && isOpen == old(isOpen)
      ensures -1 <= rv <= |bytes| && (!isOpen ==> rv == -1)
      ensures kernel == old(kernel) + if rv > 0 then bytes[..rv] else []
      ensures rv == 0 ==> bytes == []
      ensures errors == old(errors) + if rv == -1 then 1 else 0
    {
      if !isOpen {
        errors := errors + 1;
        return -1;
      }
      rv, kernel := SystemCalls.Write(kernel, bytes);
      if rv > 0 {
        size := size + rv;
      }
      errors := errors + if rv == -1 then 1 else 0;
    }

    /** From a socket or a file descriptor; `input` is what can be read there. */
    method WriteFd(input: seq<Byte>, n: nat) returns (rv: int, input': seq<Byte>, ghost moved: seq<Byte>)
      requires Valid()
      modifies this
      ensures Valid() && Lag() == old(Lag()) && isOpen == old(isOpen)
      ensures input == moved + input' && kernel == old(kernel) + moved
      ensures |moved| <= n && (if moved != [] then rv == |moved| else -1 <= rv <= 0)
      ensures rv == 0 ==> n == 0 || input == []
      ensures !isOpen ==> rv == -1
      ensures errors == old(errors) + if rv == -1 then 1 else 0
    {
      if !isOpen {
        errors := errors + 1;
        return -1, input, [];
      }
      rv, input', kernel, moved := SystemCalls.Splice(input, kernel, n);
      if rv > 0 {
        size := size + rv;
      }
      errors := errors + if rv == -1 then 1 else 0;
    }

    /**
     * MOVE transfers a prefix of the source, bounded by the source's own counter and not by `n`;
     * COPY duplicates a prefix of at most `n` bytes. A pipe cannot be written to itself.
     */
    method WritePipe(source: Pipe, n: nat, mode: Mode) returns (rv: int, ghost moved: seq<Byte>)
      requires Valid() && source.Valid()
      modifies this, source
      ensures Valid() && source.Valid() && isOpen == old(isOpen) && source.isOpen == old(source.isOpen)
      ensures Lag() == old(Lag()) && source.Lag() == old(source.Lag())
      ensures if moved != [] then rv == |moved| else -1 <= rv <= 0
      ensures this != source ==> kernel == old(kernel) + moved
      ensures this != source && mode == MOVE ==> old(source.kernel) == moved + source.kernel
      ensures mode == COPY && this != source ==>
                source.kernel == old(source.kernel) && moved <= source.kernel && |moved| <= n
      ensures this == source ==> rv == -1 && moved == [] && kernel == old(kernel)
      ensures !isOpen || !source.isOpen ==> rv == -1
      ensures rv == 0 ==> old(source.kernel) == [] || (mode == COPY && n == 0)
      ensures errors == old(errors) + if rv == -1 then 1 else 0
      ensures this != source ==> source.errors == old(source.errors)
    {
      if !isOpen || !source.isOpen || this == source {
        errors := errors + 1;
        return -1, [];
      }
      if mode == MOVE {
        var from, to;
        rv, from, to, moved := SystemCalls.Splice(source.kernel, kernel, source.size);
        source.kernel, kernel := from, to;
        if rv > 0 {
          source.size := source.size - rv;
          size := size + rv;
        }
      } else {
        rv, kernel := SystemCalls.Tee(source.kernel, kernel, n);
        moved := if rv > 0 then source.kernel[..rv] else [];
        if rv > 0 {
          size := size + rv;
        }
      }
      errors := errors + if rv == -1 then 1 else 0;
    }

    /** `read(Buffer&)`: the bytes leave the kernel but stay in the counter. */
    method ReadBuffer(result: Buffer, n: nat) returns (rv: int, ghost got: seq<Byte>)
      requires Valid() && result.Usable()
      modifies this, result
      ensures Valid() && isOpen == old(isOpen) && result.Usable()
      ensures old(kernel) == got + kernel && result.Contents() == old(result.Contents()) + got
      ensures |got| <= n && (if got != [] then rv == |got| else -1 <= rv <= 0)
      ensures size == old(size) && Lag() == old(Lag()) + |got|
      ensures rv == 0 ==> n == 0 || old(kernel) == []
      ensures errors >= old(errors) && result.refusals >= old(result.refusals)
      ensures rv == -1 ==> errors > old(errors) || result.refusals > old(result.refusals)
    {
      ghost var issues;
      rv, kernel, issues := Fill.FillFrom(result, kernel, n);
      got := Fill.Received(issues);
      errors := errors + if issues != [] && issues[|issues| - 1].rv == -1 then 1 else 0;
    }

    /** `Socket::write(Pipe*)`: a splice out of this pipe that bypasses the counter as well. */
    method SpliceToSocket(output: seq<Byte>, n: nat) returns (rv: int, output': seq<Byte>, ghost got: seq<Byte>)
      requires Valid()
      modifies this
      ensures Valid() && isOpen == old(isOpen)
      ensures old(kernel) == got + kernel && output' == output + got
      ensures |got| <= n && (if got != [] then rv == |got| else -1 <= rv <= 0)
      ensures size == old(size) && Lag() == old(Lag()) + |got|
      ensures rv == 0 ==> n == 0 || old(kernel) == []
      ensures errors == old(errors) + if rv == -1 then 1 else 0
    {
      rv, kernel, output', got := SystemCalls.Splice(kernel, output, n);
      errors := errors + if rv == -1 then 1 else 0;
    }

    /** `read(char*)`: copies to `dst` from index `at` on. */
    method ReadChars(dst: array<Byte>, at: nat, n: nat) returns (rv: int, ghost got: seq<Byte>)
      requires Valid() && at + n <= dst.Length
      modifies this, dst
      ensures Valid() && Lag() == old(Lag()) && isOpen == old(isOpen)
      ensures old(kernel) == got + kernel && |got| <= n
      ensures rv == -1 || rv == |got|
      ensures rv == -1 ==> got == []
      ensures rv == 0 ==> n == 0 || old(kernel) == []
      ensures dst[..] == Patched(old(dst[..]), at, got)
      ensures errors == old(errors) + if rv == -1 then 1 else 0
    {
      var k, bytes, rest, _ := SystemCalls.Read(kernel, n);
      rv, kernel, got := k, rest, bytes;
      forall i | 0 <= i < |bytes| {
        dst[at + i] := bytes[i];
      }
      if rv > 0 {
        size := size - rv;
      }
      errors := errors + if rv == -1 then 1 else 0;
    }

    /** `read(Pipe*)` is a stub in the source: it transfers nothing. */
    method ReadPipe(target: Pipe, n: nat) returns (rv: int)
      ensures rv == 0
    {
      return 0;
    }

    /** `read(int)`: splices a prefix out to a file descriptor. */
    method ReadFd(output: seq<Byte>, n: nat) returns (rv: int, output': seq<Byte>, ghost got: seq<Byte>)
      requires Valid()
      modifies this
      ensures Valid() && Lag() == old(Lag()) && isOpen == old(isOpen)
      ensures old(kernel) == got + kernel && output' == output + got && |got| <= n
      ensures rv == -1 || rv == |got|
      ensures rv == -1 ==> got == []
      ensures rv == 0 ==> n == 0 || old(kernel) == []
      ensures errors == old(errors) + if rv == -1 then 1 else 0
    {
      rv, kernel, output', got := SystemCalls.Splice(kernel, output, n);
      if rv > 0 {
        size := size - rv;
      }
      errors := errors + if rv == -1 then 1 else 0;
    }

    /** `read()`: one byte as a signed number, or -1. A byte of 255 comes out as -1 too, but is gone. */
    method ReadByte() returns (ch: int, ghost got: seq<Byte>)
      requires Valid()
      modifies this
      ensures Valid() && Lag() == old(Lag()) && isOpen == old(isOpen)
      ensures old(kernel) == got + kernel && |got| <= 1
      ensures ch == if got == [] then -1 else Signed(got[0])
      ensures errors == old(errors) + if got == [] && old(size) > 0 then 1 else 0
    {
      if size != 0 {
        var cell := new Byte[1];
        var rv;
        rv, got := ReadChars(cell, 0, 1);
        if rv == 1 {
          return Signed(cell[0]), got;
        }
        errors := errors + if rv == 0 then 1 else 0;
        return -1, got;
      }
      return -1, [];
    }
  }
}
