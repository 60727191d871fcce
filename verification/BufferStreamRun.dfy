/** Whole runs of a `BufferStream` next to two pipes, a descriptor, a buffer and `char*` readers. */
module BufferStreamRuns {
  import opened Bytes
  import opened Buffers
  import opened BufferStreams
  import opened Pipes
  import opened Runs

  datatype Op =
    | Put(bytes: seq<Byte>)
    | PutPipe(n: nat)
    | TakeChars(n: nat)
    | TakeBuffer(n: nat)
    | TakeByte
    | GivePipe(n: nat)
    | GiveFd(n: nat)

  /**
   * What can be observed between two operations: the part of the block that has been read and the
   * window, the allocator's refusals, the parties of the stream, and what `char*` readers have.
   */
  datatype State = State(read: seq<Byte>, window: seq<Byte>, refusals: nat, source: Side, target: Side, sink: Side,
                         output: Side, hands: seq<Byte>)
  {
    /** The state after `shift(n)`. */
    function Shifted(n: nat): State {
      if n < |window| then this.(read := read + window[..n], window := window[n..])
      else this.(read := [], window := [])
    }

    /** The state after `n` bytes were sent from the start of the block. */
    function Advanced(n: nat): State
      requires n <= |window|
    {
      this.(read := read + window[..n], window := window[n..])
    }
  }

  ghost function Now(s: BufferStream, source: Pipe, target: Pipe, sink: Buffer, output: seq<Byte>, hands: seq<Byte>)
    : State
    requires s.Valid() && sink.Valid()
    reads s, s.data, source, target, sink
  {
    State(s.Consumed(), s.Unread(), s.data.refusals, Side(source.kernel, source.errors),
          Side(target.kernel, target.errors), Side(sink.Contents(), sink.refusals), Side(output, s.errors), hands)
  }

  // ---------------------------------------------------------------- one operation

  /** One operation that answered `n` took the state from `a` to `b`. A failure is counted where it happened. */
  ghost predicate Does(op: Op, n: int, a: State, b: State) {
    match op
    case Put(bytes) =>
      if n == |bytes| then b == a.(window := a.window + bytes)
      else n == 0 && b == a.(refusals := a.refusals + 1)
    case PutPipe(wanted) =>
      && -1 <= n <= Min(wanted, |a.source.bytes|) && b.refusals >= a.refusals
      && (n == 0 ==> wanted == 0 || a.source.bytes == [] || b.refusals > a.refusals)
      && b == a.(window := a.window + a.source.bytes[..Max(n, 0)], refusals := b.refusals,
                 source := Side(a.source.bytes[Max(n, 0)..], a.source.failures + if n == -1 then 1 else 0))
    case TakeChars(wanted) =>
      && n == Min(wanted, |a.window|)
      && b == a.Shifted(n).(hands := a.hands + a.window[..n])
    case TakeBuffer(wanted) =>
      && n == Min(wanted, |a.window|) && b.sink.failures >= a.sink.failures
      && b == a.Shifted(n).(sink := Side(a.sink.bytes + Poured(op, n, a, b), b.sink.failures))
      && (Poured(op, n, a, b) == a.window[..n] || b.sink.failures > a.sink.failures)
    case TakeByte =>
      if a.window == [] then n == -1 && b == a
      else n == Signed(a.window[0]) && b == a.Advanced(1)
    case GivePipe(wanted) =>
      if n == -1 then b == a.(target := a.target.(failures := a.target.failures + 1))
      else
        && Served(n, |a.window|, wanted)
        && b == a.Advanced(n).(target := a.target.(bytes := a.target.bytes + (a.read + a.window)[..n]))
    case GiveFd(wanted) =>
      if n == -1 then b == a.(output := a.output.(failures := a.output.failures + 1))
      else
        && Served(n, |a.window|, wanted)
        && b == a.Advanced(n).(output := a.output.(bytes := a.output.bytes + (a.read + a.window)[..n]))
  }

  /** What the operation put into the stream. */
  function Entered(op: Op, n: int, a: State, b: State): seq<Byte> {
    match op
    case Put(bytes) => Prefix(bytes, n)
    case PutPipe(_) => Prefix(a.source.bytes, n)
    case _ => []
  }

  /** What the operation took off the window. */
  function Left(op: Op, n: int, a: State, b: State): seq<Byte> {
    match op
    case TakeByte => Prefix(a.window, 1)
    case _ => if Puts(op) then [] else Prefix(a.window, n)
  }

  /** What the operation drew from the source pipe. */
  function Drawn(op: Op, n: int, a: State, b: State): seq<Byte> {
    if op.PutPipe? then Prefix(a.source.bytes, n) else []
  }

  /** What the operation handed to a `char*` reader. */
  function Handed(op: Op, n: int, a: State, b: State): seq<Byte> {
    if op.TakeChars? then Left(op, n, a, b) else []
  }

  /** What the operation put into the buffer: what left, unless nothing arrived. */
  function Poured(op: Op, n: int, a: State, b: State): seq<Byte> {
    if op.TakeBuffer? && |b.sink.bytes| > |a.sink.bytes| then Left(op, n, a, b) else []
  }

  /** What the operation sent to the target pipe: bytes from the start of the block. */
  function SentToPipe(op: Op, n: int, a: State, b: State): seq<Byte> {
    if op.GivePipe? then Prefix(a.read + a.window, n) else []
  }

  /** What the operation sent to the descriptor. */
  function SentToFd(op: Op, n: int, a: State, b: State): seq<Byte> {
    if op.GiveFd? then Prefix(a.read + a.window, n) else []
  }

  predicate Puts(op: Op) {
    op.Put? || op.PutPipe?
  }

  /** Every operation takes off the front of the window or puts in behind. */
  lemma DoesQueue(op: Op, n: int, a: State, b: State)
    requires Does(op, n, a, b)
    ensures a.window + Entered(op, n, a, b) == Left(op, n, a, b) + b.window
  {
    if Puts(op) {
      assert b.window == a.window + Entered(op, n, a, b);
      GrownAtEnd(a.window, Entered(op, n, a, b), b.window);
    } else {
      assert a.window == Left(op, n, a, b) + b.window;
      CutAtFront(a.window, Left(op, n, a, b), b.window);
    }
  }

  lemma DoesDraw(op: Op, n: int, a: State, b: State)
    requires Does(op, n, a, b)
    ensures a.source.bytes == Drawn(op, n, a, b) + b.source.bytes
  {
  }

  lemma DoesHand(op: Op, n: int, a: State, b: State)
    requires Does(op, n, a, b)
    ensures b.hands == a.hands + Handed(op, n, a, b) && b.sink.bytes == a.sink.bytes + Poured(op, n, a, b)
  {
  }

  lemma DoesSend(op: Op, n: int, a: State, b: State)
    requires Does(op, n, a, b)
    ensures b.target.bytes == a.target.bytes + SentToPipe(op, n, a, b)
    ensures b.output.bytes == a.output.bytes + SentToFd(op, n, a, b)
  {
  }

  // ---------------------------------------------------------------- whole runs

  /** A run of a stream is a run of a first-in first-out queue. */
  lemma FifoOfRun(ops: seq<Op>, answers: seq<int>, states: seq<State>)
    requires Follows(Does, ops, answers, states)
    ensures states[0].window + Joined(Log(Entered, ops, answers, states)) ==
            Joined(Log(Left, ops, answers, states)) + states[|ops|].window
  {
    forall o, n, a, b | Does(o, n, a, b)
      ensures a.window + Entered(o, n, a, b) == Left(o, n, a, b) + b.window
    {
      DoesQueue(o, n, a, b);
    }
    QueueOfRun(Does, (s: State) => s.window, Entered, Left, ops, answers, states);
  }

  /** What the operations drew from the source pipe was, in order, at its front. */
  lemma SourceOfRun(ops: seq<Op>, answers: seq<int>, states: seq<State>)
    requires Follows(Does, ops, answers, states)
    ensures states[0].source.bytes == Joined(Log(Drawn, ops, answers, states)) + states[|ops|].source.bytes
  {
    forall o, n, a, b | Does(o, n, a, b)
      ensures a.source.bytes == Drawn(o, n, a, b) + b.source.bytes
    {
      DoesDraw(o, n, a, b);
    }
    SupplyOfRun(Does, (s: State) => s.source.bytes, Drawn, ops, answers, states);
  }

  /** What `char*` readers and the buffer have been handed is what left for them, in order. */
  lemma ReadersOfRun(ops: seq<Op>, answers: seq<int>, states: seq<State>)
    requires Follows(Does, ops, answers, states)
    ensures states[|ops|].hands == states[0].hands + Joined(Log(Handed, ops, answers, states))
    ensures states[|ops|].sink.bytes == states[0].sink.bytes + Joined(Log(Poured, ops, answers, states))
  {
    forall o, n, a, b | Does(o, n, a, b)
      ensures b.hands == a.hands + Handed(o, n, a, b) && b.sink.bytes == a.sink.bytes + Poured(o, n, a, b)
    {
      DoesHand(o, n, a, b);
    }
    GrowthOfRun(Does, (s: State) => s.hands, Handed, ops, answers, states);
    GrowthOfRun(Does, (s: State) => s.sink.bytes, Poured, ops, answers, states);
  }

  /** What the target pipe and the descriptor have been sent is, in order, bytes from the start of the block. */
  lemma SendingsOfRun(ops: seq<Op>, answers: seq<int>, states: seq<State>)
    requires Follows(Does, ops, answers, states)
    ensures states[|ops|].target.bytes == states[0].target.bytes + Joined(Log(SentToPipe, ops, answers, states))
    ensures states[|ops|].output.bytes == states[0].output.bytes + Joined(Log(SentToFd, ops, answers, states))
  {
    forall o, n, a, b | Does(o, n, a, b)
      ensures b.target.bytes == a.target.bytes + SentToPipe(o, n, a, b)
      ensures b.output.bytes == a.output.bytes + SentToFd(o, n, a, b)
    {
      DoesSend(o, n, a, b);
    }
    GrowthOfRun(Does, (s: State) => s.target.bytes, SentToPipe, ops, answers, states);
    GrowthOfRun(Does, (s: State) => s.output.bytes, SentToFd, ops, answers, states);
  }

  // ---------------------------------------------------------------- runs on the stream itself

  /** The objects of a run are sound and different ones. */
  ghost predicate Apart(s: BufferStream, source: Pipe, target: Pipe, sink: Buffer)
    reads s, s.data, source, target, sink
  {
    s.Valid() && sink.Valid() && sink != s.data && source != target && source.Valid() && target.Valid()
  }

  /** The block the operation would write to has been freed under its feet. */
  predicate Stuck(s: BufferStream, sink: Buffer, op: Op)
    reads s.data, sink
  {
    if Puts(op) then s.data.dangling else op.TakeBuffer? && sink.dangling
  }

  method ApplyPut(s: BufferStream, source: Pipe, ghost target: Pipe, ghost sink: Buffer, op: Op,
                  ghost output: seq<Byte>, ghost hands: seq<Byte>)
    returns (n: int)
    requires Apart(s, source, target, sink) && s.data.Usable() && Puts(op)
    modifies s, s.data, source
    ensures Apart(s, source, target, sink)
    ensures Does(op, n, old(Now(s, source, target, sink, output, hands)), Now(s, source, target, sink, output, hands))
  {
    match op
    case Put(bytes) =>
      n := s.WriteBytes(bytes);
      assert bytes[..|bytes|] == bytes;
    case PutPipe(wanted) =>
      ghost var kernel, moved := source.kernel, [];
      n, moved := s.WritePipe(source, wanted);
      SameFront(moved, source.kernel, kernel[..|moved|], kernel[|moved|..]);
  }

  method ApplyTakeChars(s: BufferStream, ghost source: Pipe, ghost target: Pipe, ghost sink: Buffer, wanted: nat,
                        ghost output: seq<Byte>, hands: seq<Byte>)
    returns (n: int, hands': seq<Byte>)
    requires Apart(s, source, target, sink)
    modifies s, s.data
    ensures Apart(s, source, target, sink)
    ensures Does(TakeChars(wanted), n, old(Now(s, source, target, sink, output, hands)),
                 Now(s, source, target, sink, output, hands'))
  {
    var dst := new Byte[wanted];
    ghost var unread, got := s.Unread(), [];
    n, got := s.ReadChars(dst, 0, wanted);
    hands' := hands + dst[..n];
    SameFront(got, s.Unread(), unread[..n], unread[n..]);
  }

  method ApplyTake(s: BufferStream, ghost source: Pipe, ghost target: Pipe, sink: Buffer, op: Op,
                   ghost output: seq<Byte>, ghost hands: seq<Byte>)
    returns (n: int)
    requires Apart(s, source, target, sink) && !Stuck(s, sink, op) && (op.TakeBuffer? || op.TakeByte?)
    modifies s, s.data, sink
    ensures Apart(s, source, target, sink)
    ensures Does(op, n, old(Now(s, source, target, sink, output, hands)), Now(s, source, target, sink, output, hands))
  {
    ghost var unread, got := s.Unread(), [];
    match op
    case TakeBuffer(wanted) =>
      n, got := s.ReadBuffer(sink, wanted);
      SameFront(got, s.Unread(), unread[..n], unread[n..]);
    case TakeByte =>
      n, got := s.ReadByte();
  }

  method ApplyGive(s: BufferStream, ghost source: Pipe, target: Pipe, ghost sink: Buffer, op: Op,
                   output: seq<Byte>, ghost hands: seq<Byte>)
    returns (n: int, output': seq<Byte>)
    requires Apart(s, source, target, sink) && (op.GivePipe? || op.GiveFd?)
    modifies s, target
    ensures Apart(s, source, target, sink)
    ensures Does(op, n, old(Now(s, source, target, sink, output, hands)), Now(s, source, target, sink, output', hands))
  {
    ghost var unread, got, sent := s.Unread(), [], [];
    output' := output;
    match op
    case GivePipe(wanted) =>
      n, got, sent := s.ReadPipe(target, wanted);
      SameFront(got, s.Unread(), unread[..|got|], unread[|got|..]);
    case GiveFd(wanted) =>
      n, output', got, sent := s.ReadFd(output, wanted);
      SameFront(got, s.Unread(), unread[..|got|], unread[|got|..]);
  }

  method Apply(s: BufferStream, source: Pipe, target: Pipe, sink: Buffer, op: Op, output: seq<Byte>, hands: seq<Byte>)
    returns (n: int, output': seq<Byte>, hands': seq<Byte>)
    requires Apart(s, source, target, sink) && !Stuck(s, sink, op)
    modifies s, s.data, source, target, sink
    ensures Apart(s, source, target, sink)
    ensures Does(op, n, old(Now(s, source, target, sink, output, hands)), Now(s, source, target, sink, output', hands'))
  {
    output', hands' := output, hands;
    if Puts(op) {
      n := ApplyPut(s, source, target, sink, op, output, hands);
    } else if op.GivePipe? || op.GiveFd? {
      n, output' := ApplyGive(s, source, target, sink, op, output, hands);
    } else if op.TakeChars? {
      n, hands' := ApplyTakeChars(s, source, target, sink, op.n, output, hands);
    } else {
      n := ApplyTake(s, source, target, sink, op, output, hands);
    }
  }

  /**
   * Every run from every sound stream: each operation does what `Does` says, so the bytes written
   * follow, in order, those read so far and the unread window, and `char*` readers have what they
   * took. A run ends early at a write to a freed block.
   */
  method Run(s: BufferStream, source: Pipe, target: Pipe, sink: Buffer, ops: seq<Op>, written: seq<Byte>)
    returns (done: nat, answers: seq<int>, output: seq<Byte>, hands: seq<Byte>, ghost states: seq<State>)
    requires Apart(s, source, target, sink)
    modifies s, s.data, source, target, sink
    ensures Apart(s, source, target, sink) && done <= |ops| && Follows(Does, ops[..done], answers, states)
    ensures states[0] == old(Now(s, source, target, sink, written, []))
    ensures states[done] == Now(s, source, target, sink, output, hands)
    ensures old(s.Unread()) + Joined(Log(Entered, ops[..done], answers, states)) ==
            Joined(Log(Left, ops[..done], answers, states)) + s.Unread()
    ensures old(source.kernel) == Joined(Log(Drawn, ops[..done], answers, states)) + source.kernel
    ensures hands == Joined(Log(Handed, ops[..done], answers, states))
    ensures done < |ops| ==> Stuck(s, sink, ops[done])
  {
    done, answers, output, hands := 0, [], written, [];
    ghost var first := Now(s, source, target, sink, output, hands);
    states := [first];
    while done < |ops|
      invariant done <= |ops| && Apart(s, source, target, sink)
      invariant Follows(Does, ops[..done], answers, states) && states[0] == first
      invariant states[done] == Now(s, source, target, sink, output, hands)
    {
      if Stuck(s, sink, ops[done]) {
        break;
      }
      var n;
      n, output, hands := Apply(s, source, target, sink, ops[done], output, hands);
      ghost var next := Now(s, source, target, sink, output, hands);
      FollowsStep(Does, ops[..done], answers, states, ops[done], n, next);
      assert ops[..done + 1] == ops[..done] + [ops[done]];
      answers, states, done := answers + [n], states + [next], done + 1;
    }
    FifoOfRun(ops[..done], answers, states);
    SourceOfRun(ops[..done], answers, states);
    ReadersOfRun(ops[..done], answers, states);
  }
}
