/** Whole runs of a `Pipe` next to another pipe, an input, an output and a buffer. */
module PipeRuns {
  import opened Bytes
  import opened Buffers
  import opened Pipes
  import opened Runs

  /** Everything that can be done to a pipe `p` next to another pipe `q`. */
  datatype Op =
    | PutBytes(bytes: seq<Byte>)
    | PutFd(n: nat)
    | PutPipe(n: nat, mode: Mode)
    | GiveToPipe(n: nat, mode: Mode)
    | TakeChars(n: nat)
    | TakeFd(n: nat)
    | TakeByte
    | TakeIntoBuffer(n: nat)
    | TakeToSocket(n: nat)
    | Discard(faults: nat)

  /**
   * What can be observed between two operations: the pipe, the other pipe, what can still be read
   * from `input`, what the readers of `p` have been handed, and the contents of the buffer.
   */
  datatype State = State(kernel: seq<Byte>, size: nat, errors: nat, other: seq<Byte>, otherSize: nat,
                         otherErrors: nat, input: seq<Byte>, output: seq<Byte>, sink: Side)

  ghost function Now(p: Pipe, q: Pipe, sink: Buffer, input: seq<Byte>, output: seq<Byte>): State
    requires sink.Valid()
    reads p, q, sink
  {
    State(p.kernel, p.size, p.errors, q.kernel, q.size, q.errors, input, output, Side(sink.Contents(), sink.refusals))
  }

  // ---------------------------------------------------------------- one operation

  /** One operation that answered `n` took the state from `a` to `b`. A failure is counted where it happened. */
  ghost predicate Does(op: Op, n: int, a: State, b: State) {
    match op
    case PutBytes(bytes) =>
      if n == -1 then b == a.(errors := a.errors + 1)
      else Served(n, |bytes|, |bytes|) && b == a.(kernel := a.kernel + bytes[..n], size := a.size + n)
    case PutFd(wanted) =>
      if n == -1 then b == a.(errors := a.errors + 1)
      else
        && Served(n, |a.input|, wanted)
        && b == a.(kernel := a.kernel + a.input[..n], size := a.size + n, input := a.input[n..])
    case PutPipe(wanted, mode) =>
      if n == -1 then b == a.(errors := a.errors + 1)
      else if mode == COPY then
        Served(n, |a.other|, wanted) && b == a.(kernel := a.kernel + a.other[..n], size := a.size + n)
      else
        && Served(n, |a.other|, |a.other|) && n <= a.otherSize
        && b == a.(kernel := a.kernel + a.other[..n], size := a.size + n,
                   other := a.other[n..], otherSize := a.otherSize - n)
    case GiveToPipe(wanted, mode) =>
      if n == -1 then b == a.(otherErrors := a.otherErrors + 1)
      else if mode == COPY then
        && Served(n, |a.kernel|, wanted)
        && b == a.(other := a.other + a.kernel[..n], otherSize := a.otherSize + n)
      else
        && Served(n, |a.kernel|, |a.kernel|) && n <= a.size
        && b == a.(other := a.other + a.kernel[..n], otherSize := a.otherSize + n,
                   kernel := a.kernel[n..], size := a.size - n)
    case TakeChars(wanted) => Hands(n, wanted, a, b, true)
    case TakeFd(wanted) => Hands(n, wanted, a, b, true)
    case TakeToSocket(wanted) => Hands(n, wanted, a, b, false)
    case TakeByte =>
      if a.size == 0 then n == -1 && b == a
      else if b.errors > a.errors then n == -1 && b == a.(errors := a.errors + 1)
      else a.kernel != [] && n == Signed(a.kernel[0]) && b == a.(kernel := a.kernel[1..], size := a.size - 1)
    case TakeIntoBuffer(wanted) =>
      && -1 <= n <= Min(wanted, |a.kernel|) && (n == 0 ==> a.kernel == [] || wanted == 0)
      && (n == -1 ==> b.errors > a.errors || b.sink.failures > a.sink.failures)
      && b.errors >= a.errors && b.sink.failures >= a.sink.failures
      && b == a.(kernel := a.kernel[Max(n, 0)..], errors := b.errors,
                 sink := Side(a.sink.bytes + a.kernel[..Max(n, 0)], b.sink.failures))
    case Discard(_) => a.size == |a.kernel| && n == 0 && b == a.(kernel := [], size := 0)
  }

  /** `n` bytes went to the output; `counted` says whether the counter follows. */
  ghost predicate Hands(n: int, wanted: nat, a: State, b: State, counted: bool) {
    if n == -1 then b == a.(errors := a.errors + 1)
    else
      && Served(n, |a.kernel|, wanted) && n <= a.size
      && b == a.(kernel := a.kernel[n..], output := a.output + a.kernel[..n],
                 size := if counted then a.size - n else a.size)
  }

  predicate Puts(op: Op) {
    op.PutBytes? || op.PutFd? || op.PutPipe?
  }

  predicate ToOutput(op: Op) {
    op.TakeChars? || op.TakeFd? || op.TakeToSocket?
  }

  /** The operations that bypass the counter. */
  predicate Bypasses(op: Op) {
    op.TakeIntoBuffer? || op.TakeToSocket?
  }

  /** What the operation put into the pipe. */
  function Entered(op: Op, n: int, a: State, b: State): seq<Byte> {
    match op
    case PutBytes(bytes) => Prefix(bytes, n)
    case PutFd(_) => Prefix(a.input, n)
    case PutPipe(_, _) => Prefix(a.other, n)
    case _ => []
  }

  /** What the operation took out of the pipe. */
  function Left(op: Op, n: int, a: State, b: State): seq<Byte> {
    match op
    case GiveToPipe(_, mode) => if mode == MOVE then Prefix(a.kernel, n) else []
    case TakeByte => if b.kernel == a.kernel then [] else Prefix(a.kernel, 1)
    case Discard(_) => a.kernel
    case _ => if Puts(op) then [] else Prefix(a.kernel, n)
  }

  /** What the operation put into the other pipe. */
  function EnteredOther(op: Op, n: int, a: State, b: State): seq<Byte> {
    if op.GiveToPipe? then Prefix(a.kernel, n) else []
  }

  /** What the operation took out of the other pipe. */
  function LeftOther(op: Op, n: int, a: State, b: State): seq<Byte> {
    if op.PutPipe? && op.mode == MOVE then Prefix(a.other, n) else []
  }

  /** What the operation drew from the input. */
  function Drawn(op: Op, n: int, a: State, b: State): seq<Byte> {
    if op.PutFd? then Prefix(a.input, n) else []
  }

  /** What the operation put out. */
  function PutOut(op: Op, n: int, a: State, b: State): seq<Byte> {
    if ToOutput(op) then Left(op, n, a, b) else []
  }

  /** What the operation put into the buffer. */
  function Poured(op: Op, n: int, a: State, b: State): seq<Byte> {
    if op.TakeIntoBuffer? then Left(op, n, a, b) else []
  }

  /** Every operation moves the front of the pipe out, or new bytes in behind. */
  lemma DoesQueue(op: Op, n: int, a: State, b: State)
    requires Does(op, n, a, b)
    ensures a.kernel + Entered(op, n, a, b) == Left(op, n, a, b) + b.kernel
  {
    if Puts(op) {
      assert b.kernel == a.kernel + Entered(op, n, a, b);
      GrownAtEnd(a.kernel, Entered(op, n, a, b), b.kernel);
    } else {
      assert a.kernel == Left(op, n, a, b) + b.kernel;
      CutAtFront(a.kernel, Left(op, n, a, b), b.kernel);
    }
  }

  /** The counter falls behind by what bypasses it. */
  lemma DoesCounts(op: Op, n: int, a: State, b: State)
    requires Does(op, n, a, b)
    ensures b.size - |b.kernel| == a.size - |a.kernel| + if Bypasses(op) then |Left(op, n, a, b)| else 0
  {
  }

  lemma DoesQueueOther(op: Op, n: int, a: State, b: State)
    requires Does(op, n, a, b)
    ensures a.other + EnteredOther(op, n, a, b) == LeftOther(op, n, a, b) + b.other
  {
  }

  lemma DoesDraw(op: Op, n: int, a: State, b: State)
    requires Does(op, n, a, b)
    ensures a.input == Drawn(op, n, a, b) + b.input
  {
  }

  lemma DoesPutOut(op: Op, n: int, a: State, b: State)
    requires Does(op, n, a, b)
    ensures b.output == a.output + PutOut(op, n, a, b)
    ensures b.sink.bytes == a.sink.bytes + Poured(op, n, a, b)
  {
  }

  /** A MOVE keeps to the count it is given, whatever the kernel answers, exactly where no more is there. */
  lemma MoveBoundedIff(a: State, size: nat)
    requires |a.other| <= a.otherSize
    ensures (forall n, b :: Does(PutPipe(size, MOVE), n, a, b) ==> n <= size) <==> |a.other| <= size
  {
    var n := |a.other|;
    var b := a.(kernel := a.kernel + a.other[..n], size := a.size + n, other := a.other[n..],
                otherSize := a.otherSize - n);
    assert Does(PutPipe(size, MOVE), n, a, b);
  }

  // ---------------------------------------------------------------- whole runs

  /** A run of a pipe is a run of a first-in first-out queue, and so is what it does to the other pipe. */
  lemma FifoOfRun(ops: seq<Op>, answers: seq<int>, states: seq<State>)
    requires Follows(Does, ops, answers, states)
    ensures states[0].kernel + Joined(Log(Entered, ops, answers, states)) ==
            Joined(Log(Left, ops, answers, states)) + states[|ops|].kernel
    ensures states[0].other + Joined(Log(EnteredOther, ops, answers, states)) ==
            Joined(Log(LeftOther, ops, answers, states)) + states[|ops|].other
  {
    forall o, n, a, b | Does(o, n, a, b)
      ensures a.kernel + Entered(o, n, a, b) == Left(o, n, a, b) + b.kernel
      ensures a.other + EnteredOther(o, n, a, b) == LeftOther(o, n, a, b) + b.other
    {
      DoesQueue(o, n, a, b);
      DoesQueueOther(o, n, a, b);
    }
    QueueOfRun(Does, (s: State) => s.kernel, Entered, Left, ops, answers, states);
    QueueOfRun(Does, (s: State) => s.other, EnteredOther, LeftOther, ops, answers, states);
  }

  /** What the operations drew from the input was, in order, at its front. */
  lemma InputOfRun(ops: seq<Op>, answers: seq<int>, states: seq<State>)
    requires Follows(Does, ops, answers, states)
    ensures states[0].input == Joined(Log(Drawn, ops, answers, states)) + states[|ops|].input
  {
    forall o, n, a, b | Does(o, n, a, b)
      ensures a.input == Drawn(o, n, a, b) + b.input
    {
      DoesDraw(o, n, a, b);
    }
    SupplyOfRun(Does, (s: State) => s.input, Drawn, ops, answers, states);
  }

  /** What left the pipe for the output and for the buffer arrived there, in order. */
  lemma OutputOfRun(ops: seq<Op>, answers: seq<int>, states: seq<State>)
    requires Follows(Does, ops, answers, states)
    ensures states[|ops|].output == states[0].output + Joined(Log(PutOut, ops, answers, states))
    ensures states[|ops|].sink.bytes == states[0].sink.bytes + Joined(Log(Poured, ops, answers, states))
  {
    forall o, n, a, b | Does(o, n, a, b)
      ensures b.output == a.output + PutOut(o, n, a, b) && b.sink.bytes == a.sink.bytes + Poured(o, n, a, b)
    {
      DoesPutOut(o, n, a, b);
    }
    GrowthOfRun(Does, (s: State) => s.output, PutOut, ops, answers, states);
    GrowthOfRun(Does, (s: State) => s.sink.bytes, Poured, ops, answers, states);
  }

  /** The bytes that left through operations that bypass the counter. */
  function Uncounted(ops: seq<Op>, left: seq<seq<Byte>>): nat
    requires |ops| == |left|
  {
    if ops == [] then 0
    else
      var k := |ops| - 1;
      Uncounted(ops[..k], left[..k]) + if Bypasses(ops[k]) then |left[k]| else 0
  }

  /** The counter of a run exceeds the kernel's count by exactly the bytes that bypassed it. */
  lemma {:induction false} LagOfRun(ops: seq<Op>, answers: seq<int>, states: seq<State>)
    requires Follows(Does, ops, answers, states) && states[0].size == |states[0].kernel|
    ensures states[|ops|].size == |states[|ops|].kernel| + Uncounted(ops, Log(Left, ops, answers, states))
    decreases |ops|
  {
    if ops != [] {
      var k := |ops| - 1;
      FollowsPrefix(Does, ops, answers, states, k);
      LagOfRun(ops[..k], answers[..k], states[..k + 1]);
      LogPrefix(Left, ops, answers, states, k);
      assert StepAt(Does, ops, answers, states, k);
      DoesCounts(ops[k], answers[k], states[k], states[k + 1]);
    }
  }

  // ---------------------------------------------------------------- runs on the pipe itself

  method ApplyPut(p: Pipe, q: Pipe, ghost sink: Buffer, op: Op, input: seq<Byte>, ghost output: seq<Byte>)
    returns (n: int, input': seq<Byte>)
    requires p != q && p.Valid() && q.Valid() && sink.Usable() && Puts(op)
    modifies p, q
    ensures p.Valid() && q.Valid()
    ensures Does(op, n, old(Now(p, q, sink, input, output)), Now(p, q, sink, input', output))
  {
    ghost var moved;
    input' := input;
    match op
    case PutBytes(bytes) =>
      n := p.WriteBytes(bytes);
    case PutFd(wanted) =>
      n, input', moved := p.WriteFd(input, wanted);
    case PutPipe(wanted, mode) =>
      n, moved := p.WritePipe(q, wanted, mode);
  }

  method ApplyChars(p: Pipe, ghost q: Pipe, ghost sink: Buffer, wanted: nat, ghost input: seq<Byte>,
                    output: seq<Byte>)
    returns (n: int, output': seq<Byte>)
    requires p != q && p.Valid() && q.Valid() && sink.Usable()
    modifies p
    ensures p.Valid()
    ensures Does(TakeChars(wanted), n, old(Now(p, q, sink, input, output)), Now(p, q, sink, input, output'))
  {
    var dst := new Byte[wanted];
    ghost var got;
    n, got := p.ReadChars(dst, 0, wanted);
    output' := output + if n > 0 then dst[..n] else [];
  }

  method ApplyHand(p: Pipe, ghost q: Pipe, ghost sink: Buffer, op: Op, ghost input: seq<Byte>, output: seq<Byte>)
    returns (n: int, output': seq<Byte>)
    requires p != q && p.Valid() && q.Valid() && sink.Usable() && (op.TakeFd? || op.TakeToSocket?)
    modifies p
    ensures p.Valid()
    ensures Does(op, n, old(Now(p, q, sink, input, output)), Now(p, q, sink, input, output'))
  {
    ghost var got;
    match op
    case TakeFd(wanted) =>
      n, output', got := p.ReadFd(output, wanted);
    case TakeToSocket(wanted) =>
      n, output', got := p.SpliceToSocket(output, wanted);
  }

  method ApplyPour(p: Pipe, ghost q: Pipe, sink: Buffer, wanted: nat, ghost input: seq<Byte>,
                   ghost output: seq<Byte>)
    returns (n: int)
    requires p != q && p.Valid() && q.Valid() && sink.Usable()
    modifies p, sink
    ensures p.Valid() && sink.Usable()
    ensures Does(TakeIntoBuffer(wanted), n, old(Now(p, q, sink, input, output)), Now(p, q, sink, input, output))
  {
    ghost var got;
    n, got := p.ReadBuffer(sink, wanted);
  }

  method ApplyTake(p: Pipe, q: Pipe, ghost sink: Buffer, op: Op, ghost input: seq<Byte>, ghost output: seq<Byte>)
    returns (n: int)
    requires p != q && p.Valid() && q.Valid() && sink.Usable() && (op.GiveToPipe? || op.TakeByte? || op.Discard?)
    requires op.Discard? ==> p.Exact()
    modifies p, q
    ensures p.Valid() && q.Valid()
    ensures Does(op, n, old(Now(p, q, sink, input, output)), Now(p, q, sink, input, output))
  {
    ghost var got;
    match op
    case GiveToPipe(wanted, mode) =>
      n, got := q.WritePipe(p, wanted, mode);
    case TakeByte =>
      n, got := p.ReadByte();
    case Discard(faults) =>
      p.Clear(faults);
      n := 0;
  }

  method Apply(p: Pipe, q: Pipe, sink: Buffer, op: Op, input: seq<Byte>, output: seq<Byte>)
    returns (n: int, input': seq<Byte>, output': seq<Byte>)
    requires p != q && p.Valid() && q.Valid() && sink.Usable() && (op.Discard? ==> p.Exact())
    modifies p, q, sink
    ensures p.Valid() && q.Valid() && sink.Usable()
    ensures Does(op, n, old(Now(p, q, sink, input, output)), Now(p, q, sink, input', output'))
  {
    input', output' := input, output;
    if Puts(op) {
      n, input' := ApplyPut(p, q, sink, op, input, output);
    } else if op.TakeChars? {
      n, output' := ApplyChars(p, q, sink, op.n, input, output);
    } else if ToOutput(op) {
      n, output' := ApplyHand(p, q, sink, op, input, output);
    } else if op.TakeIntoBuffer? {
      n := ApplyPour(p, q, sink, op.n, input, output);
    } else {
      n := ApplyTake(p, q, sink, op, input, output);
    }
  }

  /**
   * Every run on a fresh pipe: each operation does what `Does` says, so the pipe is a first-in
   * first-out queue of bytes, what its readers took they have, and its counter exceeds the kernel's
   * count by exactly the bytes taken through `read(Buffer&)` and `Socket::write(Pipe*)`. A run ends
   * early where `clear` would not return.
   */
  method Run(q: Pipe, sink: Buffer, ops: seq<Op>, input: seq<Byte>)
    returns (p: Pipe, done: nat, answers: seq<int>, input': seq<Byte>, output: seq<Byte>, ghost states: seq<State>)
    requires q.Valid() && sink.Usable()
    modifies q, sink
    ensures fresh(p) && p.Valid() && sink.Usable() && done <= |ops| && Follows(Does, ops[..done], answers, states)
    ensures states[0] == State([], 0, 0, old(q.kernel), old(q.size), old(q.errors), input, [],
                               Side(old(sink.Contents()), old(sink.refusals)))
    ensures states[done] == Now(p, q, sink, input', output)
    ensures Joined(Log(Entered, ops[..done], answers, states)) ==
            Joined(Log(Left, ops[..done], answers, states)) + p.kernel
    ensures p.size == |p.kernel| + Uncounted(ops[..done], Log(Left, ops[..done], answers, states))
    ensures input == Joined(Log(Drawn, ops[..done], answers, states)) + input'
    ensures output == Joined(Log(PutOut, ops[..done], answers, states))
    ensures sink.Contents() == old(sink.Contents()) + Joined(Log(Poured, ops[..done], answers, states))
    ensures done < |ops| ==> ops[done].Discard? && !p.Exact()
  {
    p := new Pipe();
    ghost var first := Now(p, q, sink, input, []);
    done, answers, input', output, states := 0, [], input, [], [first];
    while done < |ops|
      invariant done <= |ops| && fresh(p) && p != q && p.Valid() && q.Valid() && sink.Usable()
      invariant Follows(Does, ops[..done], answers, states) && states[0] == first
      invariant states[done] == Now(p, q, sink, input', output)
    {
      if ops[done].Discard? && p.size != |p.kernel| {
        break;
      }
      var n;
      n, input', output := Apply(p, q, sink, ops[done], input', output);
      ghost var next := Now(p, q, sink, input', output);
      FollowsStep(Does, ops[..done], answers, states, ops[done], n, next);
      assert ops[..done + 1] == ops[..done] + [ops[done]];
      answers, states, done := answers + [n], states + [next], done + 1;
    }
    FifoOfRun(ops[..done], answers, states);
    LagOfRun(ops[..done], answers, states);
    InputOfRun(ops[..done], answers, states);
    OutputOfRun(ops[..done], answers, states);
  }
}
