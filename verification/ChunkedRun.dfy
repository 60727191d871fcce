/** Whole runs of a `ChunkedStream` with everything it is connected to. */
module ChunkedRuns {
  import opened Bytes
  import opened Buffers
  import opened Pipes
  import opened ChunkFacts
  import opened Chunks
  import opened ChunkedStreams
  import opened Delivery
  import opened Draining
  import opened Runs

  datatype Op =
    | Put(bytes: seq<Byte>)
    | PutPipe(size: nat, mode: Mode)
    | PutFd(size: nat)
    | Take(size: nat)
    | TakeBuffer(size: nat)
    | TakeFd(size: nat)
    | TakePipe(size: nat)
    | TakeByte
    | Drop
  {
    predicate Writes() {
      Put? || PutPipe? || PutFd?
    }
  }

  /**
   * What can be observed between two operations: the chunks, the pipes it is fed from and drained to,
   * the buffer it is read to, what can still be read from `input`, and what a descriptor and the
   * `char*` readers have been handed.
   */
  datatype Scene = Scene(chunks: seq<Facts>, source: Side, target: Side, sink: Side, input: seq<Byte>,
                         output: seq<Byte>, hands: seq<Byte>)

  /** The objects of a run are sound and different ones. */
  ghost predicate Apart(s: ChunkedStream, source: Pipe, target: Pipe, sink: Buffer)
    reads s, s.Repr, source, target, sink
  {
    && s.Valid() && source.Valid() && target.Valid() && sink.Valid()
    && source != target && source !in s.Repr && target !in s.Repr && sink !in s.Repr
  }

  ghost function Now(s: ChunkedStream, source: Pipe, target: Pipe, sink: Buffer, input: seq<Byte>,
                     output: seq<Byte>, hands: seq<Byte>): Scene
    requires Apart(s, source, target, sink)
    reads s, s.Repr, source, target, sink
  {
    Scene(s.Now(), Side(source.kernel, source.errors), Side(target.kernel, target.errors),
          Side(sink.Contents(), sink.refusals), input, output, hands)
  }

  /** `bytes` is what is found in memory of `size` bytes to which every turn read. */
  ghost predicate Landed(fs: seq<Facts>, size: nat, lens: seq<nat>, bytes: seq<Byte>) {
    exists end: seq<Byte> :: |end| == size && Found(fs, lens, end, bytes)
  }

  /** One write that answered `n` took the scene from `a` to `b`. */
  ghost predicate Writes(op: Op, n: int, a: Scene, b: Scene) {
    match op
    case Put(bytes) => Stores(bytes, n, a.chunks, b.chunks) && b == a.(chunks := b.chunks)
    case PutPipe(size, mode) =>
      var there, k := |a.source.bytes|, |a.source.bytes| - |b.source.bytes|;
      && k >= 0
      && (if mode == MOVE then Splices(there, there, n, a.source.bytes[..k], a.chunks, b.chunks)
          else Receives(size, there, n, a.source.bytes[..k], a.chunks, b.chunks))
      && b == a.(chunks := b.chunks,
                 source := Side(a.source.bytes[k..], a.source.failures + if n == -1 && mode == COPY then 1 else 0))
    case PutFd(size) =>
      var k := |a.input| - |b.input|;
      && k >= 0 && Splices(size, |a.input|, n, a.input[..k], a.chunks, b.chunks)
      && b == a.(chunks := b.chunks, input := a.input[k..])
    case _ => false
  }

  /** One read that answered `n` after turns of `lens` bytes took the scene from `a` to `b`. */
  ghost predicate Takes(op: Op, n: int, lens: seq<nat>, a: Scene, b: Scene) {
    match op
    case Take(size) =>
      && ReadsChars(a.chunks, size, n, lens, b.chunks)
      && a.hands <= b.hands && Landed(a.chunks, size, lens, b.hands[|a.hands|..])
      && b == a.(chunks := b.chunks, hands := b.hands)
    case TakeBuffer(size) =>
      if b.sink.failures > a.sink.failures then
        n == 0 && lens == [] && b == a.(sink := a.sink.(failures := a.sink.failures + 1))
      else
        && ReadsChars(a.chunks, size, n, lens, b.chunks)
        && a.sink.bytes <= b.sink.bytes && Landed(a.chunks, size, lens, b.sink.bytes[|a.sink.bytes|..])
        && b == a.(chunks := b.chunks, sink := a.sink.(bytes := b.sink.bytes))
    case TakeFd(size) =>
      && Reads(a.chunks, size, n, lens, b.chunks)
      && b == a.(chunks := b.chunks, output := a.output + Joined(Sent(a.chunks, lens)))
    case TakePipe(size) =>
      && Drains(a.chunks, size, n, lens, b.chunks, b.target.failures > a.target.failures)
      && a.target.failures <= b.target.failures <= a.target.failures + 1
      && b == a.(chunks := b.chunks,
                 target := Side(a.target.bytes + Joined(Sent(a.chunks, lens)), b.target.failures))
    case TakeByte => lens == [] && ReadsByte(a.chunks, n, b.chunks) && b == a.(chunks := b.chunks)
    case Drop => n == 0 && lens == [] && b == a.(chunks := if a.chunks == [] then [] else a.chunks[1..])
    case _ => false
  }

  /** What an operation answers, and the lengths of its turns. */
  datatype Answer = Answer(n: int, lens: seq<nat>)

  /** One operation took the scene from `a` to `b`. */
  ghost predicate Does(op: Op, r: Answer, a: Scene, b: Scene) {
    if op.Writes() then r.lens == [] && Writes(op, r.n, a, b) else Takes(op, r.n, r.lens, a, b)
  }

  // ---------------------------------------------------------------- what one operation does

  /** What the operation put into the stream: bytes it was given, or the front of the source or of the input. */
  function Entered(op: Op, r: Answer, a: Scene, b: Scene): seq<Byte> {
    match op
    case Put(bytes) => Prefix(bytes, r.n)
    case PutPipe(_, _) => FromSource(op, r, a, b)
    case PutFd(_) => FromInput(op, r, a, b)
    case _ => []
  }

  /** What was drawn from the front of a supply. */
  function Drawn(before: seq<Byte>, after: seq<Byte>): seq<Byte> {
    Prefix(before, |before| - |after|)
  }

  /** What the operation drew from the source pipe. */
  function FromSource(op: Op, r: Answer, a: Scene, b: Scene): seq<Byte> {
    if op.PutPipe? then Drawn(a.source.bytes, b.source.bytes) else []
  }

  /** What the operation drew from the input. */
  function FromInput(op: Op, r: Answer, a: Scene, b: Scene): seq<Byte> {
    if op.PutFd? then Drawn(a.input, b.input) else []
  }

  /** What the operation took out of the stream. */
  function Left(op: Op, r: Answer, a: Scene, b: Scene): seq<Byte> {
    if op.Writes() then [] else Missing(a.chunks, b.chunks)
  }

  /** What the operation sent to the descriptor. */
  function SentToFd(op: Op, r: Answer, a: Scene, b: Scene): seq<Byte> {
    if op.TakeFd? && Legal(a.chunks, r.lens) then Joined(Sent(a.chunks, r.lens)) else []
  }

  /** What the operation sent to the target pipe. */
  function SentToPipe(op: Op, r: Answer, a: Scene, b: Scene): seq<Byte> {
    if op.TakePipe? && Legal(a.chunks, r.lens) then Joined(Sent(a.chunks, r.lens)) else []
  }

  lemma WriteExtends(op: Op, r: Answer, a: Scene, b: Scene)
    requires Does(op, r, a, b) && op.Writes()
    ensures Extends(a.chunks, Entered(op, r, a, b), b.chunks) && |Entered(op, r, a, b)| == Max(r.n, 0)
  {
    var entered := Entered(op, r, a, b);
    if op.Put? || (op.PutPipe? && op.mode == COPY) {
      AppendedHeld(a.chunks, HasRoom(a.chunks), false, entered, b.chunks);
    } else {
      AppendedHeld(a.chunks, EndsInPipe(a.chunks), true, entered, b.chunks);
    }
  }

  lemma TakeShrinks(op: Op, r: Answer, a: Scene, b: Scene)
    requires Does(op, r, a, b) && !op.Writes()
    ensures Shrinks(a.chunks, b.chunks)
  {
    match op
    case Take(size) => ReadsShrinks(a.chunks, size, r.n, r.lens, b.chunks);
    case TakeBuffer(size) =>
      if b.sink.failures <= a.sink.failures {
        ReadsShrinks(a.chunks, size, r.n, r.lens, b.chunks);
      }
    case TakeFd(size) => ReadsShrinks(a.chunks, size, r.n, r.lens, b.chunks);
    case TakePipe(size) =>
      DrainsShrinks(a.chunks, size, r.n, r.lens, b.chunks, b.target.failures > a.target.failures);
    case TakeByte => ByteShrinks(a.chunks, r.n, b.chunks);
    case Drop =>
      if a.chunks != [] {
        DropShrinks(a.chunks);
      }
  }

  /** One operation of a queue: it puts in at the end or takes off the front. */
  lemma DoesQueue(op: Op, r: Answer, a: Scene, b: Scene)
    requires Does(op, r, a, b)
    ensures Held(a.chunks) + Entered(op, r, a, b) == Left(op, r, a, b) + Held(b.chunks)
    ensures (op.Writes() ==> r.n > 0) && NoneEmpty(a.chunks) ==> NoneEmpty(b.chunks)
  {
    if op.Writes() {
      WriteExtends(op, r, a, b);
      GrownAtEnd(Held(a.chunks), Entered(op, r, a, b), Held(b.chunks));
    } else {
      TakeShrinks(op, r, a, b);
      CutAtFront(Held(a.chunks), Left(op, r, a, b), Held(b.chunks));
    }
  }

  lemma DoesDraw(op: Op, r: Answer, a: Scene, b: Scene)
    requires Does(op, r, a, b)
    ensures a.source.bytes == FromSource(op, r, a, b) + b.source.bytes
    ensures a.input == FromInput(op, r, a, b) + b.input
  {
    if op.Writes() {
      WriteDraws(op, r.n, a, b);
    } else {
      assert b.source == a.source && b.input == a.input;
    }
  }

  lemma WriteDraws(op: Op, n: int, a: Scene, b: Scene)
    requires Writes(op, n, a, b)
    ensures a.source.bytes == (if op.PutPipe? then Drawn(a.source.bytes, b.source.bytes) else []) + b.source.bytes
    ensures a.input == (if op.PutFd? then Drawn(a.input, b.input) else []) + b.input
  {
  }

  lemma DoesSend(op: Op, r: Answer, a: Scene, b: Scene)
    requires Does(op, r, a, b)
    ensures b.output == a.output + SentToFd(op, r, a, b)
    ensures b.target.bytes == a.target.bytes + SentToPipe(op, r, a, b)
  {
    match op
    case TakeFd(size) => FdSends(size, r, a, b);
    case TakePipe(size) => PipeSends(size, r, a, b);
    case _ => KeepsTargets(op, r, a, b);
  }

  lemma FdSends(size: nat, r: Answer, a: Scene, b: Scene)
    requires Takes(Op.TakeFd(size), r.n, r.lens, a, b)
    ensures Legal(a.chunks, r.lens) && b.target == a.target
    ensures b.output == a.output + Joined(Sent(a.chunks, r.lens))
  {
  }

  lemma PipeSends(size: nat, r: Answer, a: Scene, b: Scene)
    requires Takes(Op.TakePipe(size), r.n, r.lens, a, b)
    ensures Legal(a.chunks, r.lens) && b.output == a.output
    ensures b.target.bytes == a.target.bytes + Joined(Sent(a.chunks, r.lens))
  {
  }

  lemma KeepsTargets(op: Op, r: Answer, a: Scene, b: Scene)
    requires Does(op, r, a, b) && !op.TakeFd? && !op.TakePipe?
    ensures b.output == a.output && b.target == a.target
  {
  }

  /** A failure of the kernel, or of the allocator, was counted by the operation. */
  ghost predicate Excused(op: Op, r: Answer, a: Scene, b: Scene) {
    || (After(a.chunks, r.lens) != [] && b.chunks == Failed(After(a.chunks, r.lens)))
    || b.target.failures > a.target.failures || b.sink.failures > a.sink.failures
  }

  /** A read takes all there is before the first empty chunk, up to its request, unless it counted a failure. */
  lemma TakesAllItCan(op: Op, r: Answer, a: Scene, b: Scene)
    requires Does(op, r, a, b) && (op.Take? || op.TakeBuffer? || op.TakeFd? || op.TakePipe?)
    ensures r.n == Min(op.size, Reach(a.chunks)) || Excused(op, r, a, b)
    ensures |Left(op, r, a, b)| == Max(r.n, 0)
  {
    if op.TakePipe? {
      DrainsShrinks(a.chunks, op.size, r.n, r.lens, b.chunks, b.target.failures > a.target.failures);
      DrainsYields(a.chunks, op.size, r.n, r.lens, b.chunks, b.target.failures > a.target.failures);
    } else if op.TakeBuffer? && b.sink.failures > a.sink.failures {
      assert b.chunks == a.chunks;
    } else {
      ReadsShrinks(a.chunks, op.size, r.n, r.lens, b.chunks);
      ReadsYields(a.chunks, op.size, r.n, r.lens, b.chunks);
    }
  }

  lemma DoesKeepsBlocked(op: Op, r: Answer, a: Scene, b: Scene)
    requires Does(op, r, a, b) && Blocked(a.chunks) && !op.Drop?
    ensures Blocked(b.chunks) && (op.Writes() || b.chunks == a.chunks)
  {
    if op.Put? || (op.PutPipe? && op.mode == COPY) {
      AppendedBlocked(a.chunks, HasRoom(a.chunks), false, Entered(op, r, a, b), b.chunks);
    } else if op.Writes() {
      AppendedBlocked(a.chunks, EndsInPipe(a.chunks), true, Entered(op, r, a, b), b.chunks);
    } else if !(op.TakeBuffer? && b.sink.failures > a.sink.failures) && !op.TakeByte? {
      NoTurnAtEmptyFront(a.chunks, r.lens);
    }
  }

  // ---------------------------------------------------------------- whole runs

  /** A run of a stream is a run of one first-in first-out queue of bytes. */
  lemma FifoOfRun(ops: seq<Op>, answers: seq<Answer>, scenes: seq<Scene>)
    requires Follows(Does, ops, answers, scenes)
    ensures Held(scenes[0].chunks) + Joined(Log(Entered, ops, answers, scenes)) ==
            Joined(Log(Left, ops, answers, scenes)) + Held(scenes[|ops|].chunks)
  {
    forall o, r, a, b | Does(o, r, a, b)
      ensures Held(a.chunks) + Entered(o, r, a, b) == Left(o, r, a, b) + Held(b.chunks)
    {
      DoesQueue(o, r, a, b);
    }
    QueueOfRun(Does, (s: Scene) => Held(s.chunks), Entered, Left, ops, answers, scenes);
  }

  /** Nothing is invented and nothing is skipped: what entered from the source and the input was at their fronts. */
  lemma SuppliesOfRun(ops: seq<Op>, answers: seq<Answer>, scenes: seq<Scene>)
    requires Follows(Does, ops, answers, scenes)
    ensures scenes[0].source.bytes == Joined(Log(FromSource, ops, answers, scenes)) + scenes[|ops|].source.bytes
    ensures scenes[0].input == Joined(Log(FromInput, ops, answers, scenes)) + scenes[|ops|].input
  {
    forall o, r, a, b | Does(o, r, a, b)
      ensures a.source.bytes == FromSource(o, r, a, b) + b.source.bytes && a.input == FromInput(o, r, a, b) + b.input
    {
      DoesDraw(o, r, a, b);
    }
    SupplyOfRun(Does, (s: Scene) => s.source.bytes, FromSource, ops, answers, scenes);
    SupplyOfRun(Does, (s: Scene) => s.input, FromInput, ops, answers, scenes);
  }

  /** What the descriptor and the target pipe have been sent is, in order, what `Sent` says of the turns. */
  lemma SendingsOfRun(ops: seq<Op>, answers: seq<Answer>, scenes: seq<Scene>)
    requires Follows(Does, ops, answers, scenes)
    ensures scenes[|ops|].output == scenes[0].output + Joined(Log(SentToFd, ops, answers, scenes))
    ensures scenes[|ops|].target.bytes == scenes[0].target.bytes + Joined(Log(SentToPipe, ops, answers, scenes))
  {
    forall o, r, a, b | Does(o, r, a, b)
      ensures b.output == a.output + SentToFd(o, r, a, b) && b.target.bytes == a.target.bytes + SentToPipe(o, r, a, b)
    {
      DoesSend(o, r, a, b);
    }
    GrowthOfRun(Does, (s: Scene) => s.output, SentToFd, ops, answers, scenes);
    GrowthOfRun(Does, (s: Scene) => s.target.bytes, SentToPipe, ops, answers, scenes);
  }

  /** The operation is no write, or stored something. */
  predicate Stored(op: Op, r: Answer) {
    op.Writes() ==> r.n > 0
  }

  /** If every write stores something, no chunk is ever empty. */
  lemma NoneEmptyInRun(ops: seq<Op>, answers: seq<Answer>, scenes: seq<Scene>)
    requires Follows(Does, ops, answers, scenes) && NoneEmpty(scenes[0].chunks)
    requires forall i :: 0 <= i < |ops| ==> Stored(ops[i], answers[i])
    ensures forall i :: 0 <= i <= |ops| ==> NoneEmpty(scenes[i].chunks)
  {
    var full: Scene -> bool := (s: Scene) => NoneEmpty(s.chunks);
    forall o, r, a, b | Does(o, r, a, b) && Stored(o, r) && full(a)
      ensures full(b)
    {
      DoesQueue(o, r, a, b);
    }
    InvariantOfRun(Does, Stored, full, ops, answers, scenes);
    forall i | 0 <= i <= |ops|
      ensures NoneEmpty(scenes[i].chunks)
    {
      assert full(scenes[i]);
    }
  }

  predicate Keeps(op: Op, r: Answer) {
    !op.Drop?
  }

  /** Once the front chunk is empty for good, no operation but `pop_front()` ever gets a byte out again. */
  lemma BlockedForGood(ops: seq<Op>, answers: seq<Answer>, scenes: seq<Scene>)
    requires Follows(Does, ops, answers, scenes) && Blocked(scenes[0].chunks)
    requires forall i :: 0 <= i < |ops| ==> !ops[i].Drop?
    ensures Blocked(scenes[|ops|].chunks) && Joined(Log(Left, ops, answers, scenes)) == []
    ensures Held(scenes[|ops|].chunks) == Held(scenes[0].chunks) + Joined(Log(Entered, ops, answers, scenes))
  {
    var blocked: Scene -> bool := (s: Scene) => Blocked(s.chunks);
    forall o, r, a, b | Does(o, r, a, b) && Keeps(o, r) && blocked(a)
      ensures blocked(b)
    {
      DoesKeepsBlocked(o, r, a, b);
    }
    InvariantOfRun(Does, Keeps, blocked, ops, answers, scenes);
    assert blocked(scenes[|ops|]);
    var left := Log(Left, ops, answers, scenes);
    forall i: nat | i < |ops|
      ensures left[i] == []
    {
      assert blocked(scenes[i]) && StepAt(Does, ops, answers, scenes, i);
      DoesKeepsBlocked(ops[i], answers[i], scenes[i], scenes[i + 1]);
    }
    NothingJoined(left);
    FifoOfRun(ops, answers, scenes);
    assert [] + Held(scenes[|ops|].chunks) == Held(scenes[|ops|].chunks);
  }

  // ---------------------------------------------------------------- runs on the stream itself

  method ApplyPut(s: ChunkedStream, ghost source: Pipe, ghost target: Pipe, ghost sink: Buffer, op: Op,
                  input: seq<Byte>, ghost output: seq<Byte>, ghost hands: seq<Byte>)
    returns (n: int, input': seq<Byte>)
    requires Apart(s, source, target, sink) && (op.Put? || op.PutFd?)
    modifies s.Repr
    ensures Apart(s, source, target, sink) && fresh(s.Repr - old(s.Repr))
    ensures Writes(op, n, old(Now(s, source, target, sink, input, output, hands)),
                   Now(s, source, target, sink, input', output, hands))
  {
    ghost var moved, before := [], Now(s, source, target, sink, input, output, hands);
    input' := input;
    match op
    case Put(bytes) =>
      n := s.WriteBytes(bytes);
    case PutFd(size) =>
      n, input', moved := s.WriteFd(input, size);
      FdWritten(before, size, n, moved, s.Now(), input');
  }

  lemma FdWritten(a: Scene, size: nat, n: int, moved: seq<Byte>, chunks: seq<Facts>, input: seq<Byte>)
    requires a.input == moved + input && Splices(size, |a.input|, n, moved, a.chunks, chunks)
    ensures Writes(Op.PutFd(size), n, a, a.(chunks := chunks, input := input))
  {
    FrontOf(a.input, moved, input);
  }

  lemma FrontOf(supply: seq<Byte>, moved: seq<Byte>, rest: seq<Byte>)
    requires supply == moved + rest
    ensures |moved| == |supply| - |rest| && moved == supply[..|moved|] && rest == supply[|moved|..]
  {
  }

  method ApplyPutPipe(s: ChunkedStream, source: Pipe, ghost target: Pipe, ghost sink: Buffer, size: nat, mode: Mode,
                      ghost input: seq<Byte>, ghost output: seq<Byte>, ghost hands: seq<Byte>)
    returns (n: int)
    requires Apart(s, source, target, sink)
    modifies s.Repr, source
    ensures Apart(s, source, target, sink) && fresh(s.Repr - old(s.Repr))
    ensures Writes(Op.PutPipe(size, mode), n, old(Now(s, source, target, sink, input, output, hands)),
                   Now(s, source, target, sink, input, output, hands))
  {
    ghost var moved, before := [], Now(s, source, target, sink, input, output, hands);
    n, moved := s.WritePipe(source, size, mode);
    PipeWritten(before, size, mode, n, moved, s.Now(), Side(source.kernel, source.errors));
  }

  lemma PipeWritten(a: Scene, size: nat, mode: Mode, n: int, moved: seq<Byte>, chunks: seq<Facts>, source: Side)
    requires a.source.bytes == moved + source.bytes
    requires source.failures == a.source.failures + if n == -1 && mode == COPY then 1 else 0
    requires var there := |a.source.bytes|;
             if mode == MOVE then Splices(there, there, n, moved, a.chunks, chunks)
             else Receives(size, there, n, moved, a.chunks, chunks)
    ensures Writes(Op.PutPipe(size, mode), n, a, a.(chunks := chunks, source := source))
  {
    FrontOf(a.source.bytes, moved, source.bytes);
  }

  method ApplyTake(s: ChunkedStream, ghost source: Pipe, ghost target: Pipe, ghost sink: Buffer, op: Op,
                   ghost input: seq<Byte>, ghost output: seq<Byte>, hands: seq<Byte>)
    returns (n: int, hands': seq<Byte>, ghost lens: seq<nat>)
    requires Apart(s, source, target, sink) && (op.Take? || op.TakeByte? || op.Drop?)
    modifies s.Repr
    ensures Apart(s, source, target, sink) && s.Repr == old(s.Repr)
    ensures Takes(op, n, lens, old(Now(s, source, target, sink, input, output, hands)),
                  Now(s, source, target, sink, input, output, hands'))
  {
    hands', lens := hands, [];
    match op
    case Take(size) =>
      ghost var fs, before := s.Now(), [];
      var bytes;
      n, bytes, lens, before := s.ReadPastEnd(size);
      hands' := hands + bytes;
      assert Landed(fs, size, lens, bytes);
      assert hands'[|hands|..] == bytes;
    case TakeByte =>
      n := s.ReadByte();
    case Drop =>
      n := 0;
      if s.chunks != [] {
        s.PopFront();
      }
  }

  method ApplyTakeBuffer(s: ChunkedStream, ghost source: Pipe, ghost target: Pipe, sink: Buffer, size: nat,
                         ghost input: seq<Byte>, ghost output: seq<Byte>, ghost hands: seq<Byte>)
    returns (n: int, ghost lens: seq<nat>)
    requires Apart(s, source, target, sink) && sink.Usable()
    modifies s.Repr, sink
    ensures Apart(s, source, target, sink) && s.Repr == old(s.Repr)
    ensures Takes(Op.TakeBuffer(size), n, lens, old(Now(s, source, target, sink, input, output, hands)),
                  Now(s, source, target, sink, input, output, hands))
  {
    ghost var fs, had, end, arrived := s.Now(), sink.Contents(), [], [];
    var refused;
    n, refused, lens, end, arrived := s.ReadBuffer(sink, size);
    if refused {
      lens := [];
    } else {
      assert Landed(fs, size, lens, arrived);
      assert sink.Contents()[|had|..] == arrived;
    }
  }

  method ApplyGive(s: ChunkedStream, ghost source: Pipe, target: Pipe, ghost sink: Buffer, op: Op,
                   ghost input: seq<Byte>, output: seq<Byte>, ghost hands: seq<Byte>)
    returns (n: int, output': seq<Byte>, ghost lens: seq<nat>)
    requires Apart(s, source, target, sink) && (op.TakeFd? || (op.TakePipe? && Drainable(s.Now(), op.size)))
    modifies s.Repr, target
    ensures Apart(s, source, target, sink) && s.Repr == old(s.Repr)
    ensures Takes(op, n, lens, old(Now(s, source, target, sink, input, output, hands)),
                  Now(s, source, target, sink, input, output', hands))
  {
    output' := output;
    match op
    case TakeFd(size) =>
      n, output', lens := s.ReadFd(output, size);
    case TakePipe(size) =>
      n, lens := s.ReadPipe(target, size);
  }

  /** The operation would not return, or would write to a freed block. */
  predicate Stuck(s: ChunkedStream, sink: Buffer, op: Op)
    requires s.Valid()
    reads s, s.Repr, sink
  {
    match op
    case TakePipe(size) => !CanDrain(s.chunks, size)
    case TakeBuffer(_) => sink.dangling
    case _ => false
  }

  method Apply(s: ChunkedStream, source: Pipe, target: Pipe, sink: Buffer, op: Op, input: seq<Byte>,
               output: seq<Byte>, hands: seq<Byte>)
    returns (n: int, input': seq<Byte>, output': seq<Byte>, hands': seq<Byte>, ghost lens: seq<nat>)
    requires Apart(s, source, target, sink) && !Stuck(s, sink, op)
    modifies s.Repr, source, target, sink
    ensures Apart(s, source, target, sink) && fresh(s.Repr - old(s.Repr))
    ensures Does(op, Answer(n, lens), old(Now(s, source, target, sink, input, output, hands)),
                 Now(s, source, target, sink, input', output', hands'))
  {
    input', output', hands', lens := input, output, hands, [];
    if op.PutPipe? {
      n := ApplyPutPipe(s, source, target, sink, op.size, op.mode, input, output, hands);
    } else if op.Writes() {
      n, input' := ApplyPut(s, source, target, sink, op, input, output, hands);
    } else if op.TakeFd? || op.TakePipe? {
      n, output', lens := ApplyGive(s, source, target, sink, op, input, output, hands);
    } else if op.TakeBuffer? {
      n, lens := ApplyTakeBuffer(s, source, target, sink, op.size, input, output, hands);
    } else {
      n, hands', lens := ApplyTake(s, source, target, sink, op, input, output, hands);
    }
  }

  lemma StepTaken(ops: seq<Op>, done: nat, answers: seq<Answer>, scenes: seq<Scene>, returned: seq<int>, n: int,
                  lens: seq<nat>, next: Scene)
    requires done < |ops| && Follows(Does, ops[..done], answers, scenes) && Returned(answers, returned)
    requires Does(ops[done], Answer(n, lens), scenes[done], next)
    ensures Follows(Does, ops[..done + 1], answers + [Answer(n, lens)], scenes + [next])
    ensures Returned(answers + [Answer(n, lens)], returned + [n])
  {
    FollowsStep(Does, ops[..done], answers, scenes, ops[done], Answer(n, lens), next);
    assert ops[..done + 1] == ops[..done] + [ops[done]];
  }

  /** The operations one after the other, as far as they return. */
  method Steps(s: ChunkedStream, source: Pipe, target: Pipe, sink: Buffer, ops: seq<Op>, input: seq<Byte>)
    returns (done: nat, returned: seq<int>, input': seq<Byte>, output: seq<Byte>, hands: seq<Byte>,
             ghost answers: seq<Answer>, ghost scenes: seq<Scene>)
    requires Apart(s, source, target, sink)
    modifies s.Repr, source, target, sink
    ensures Apart(s, source, target, sink) && fresh(s.Repr - old(s.Repr))
    ensures done <= |ops| && Follows(Does, ops[..done], answers, scenes) && Returned(answers, returned)
    ensures scenes[0] == old(Now(s, source, target, sink, input, [], []))
    ensures scenes[done] == Now(s, source, target, sink, input', output, hands)
    ensures done < |ops| ==> Stuck(s, sink, ops[done])
  {
    ghost var first := Now(s, source, target, sink, input, [], []);
    done, returned, input', output, hands, answers, scenes := 0, [], input, [], [], [], [first];
    while done < |ops|
      invariant done <= |ops| && Apart(s, source, target, sink) && fresh(s.Repr - old(s.Repr))
      invariant Follows(Does, ops[..done], answers, scenes) && Returned(answers, returned) && scenes[0] == first
      invariant scenes[done] == Now(s, source, target, sink, input', output, hands)
    {
      if Stuck(s, sink, ops[done]) {
        break;
      }
      var n;
      ghost var lens;
      n, input', output, hands, lens := Apply(s, source, target, sink, ops[done], input', output, hands);
      ghost var next := Now(s, source, target, sink, input', output, hands);
      StepTaken(ops, done, answers, scenes, returned, n, lens, next);
      returned, answers, scenes, done := returned + [n], answers + [Answer(n, lens)], scenes + [next], done + 1;
    }
  }

  /**
   * Every run from every sound stream. Each operation does what `Does` says, so the stream is one
   * first-in first-out queue of bytes, and what entered it came in order from the source, the input
   * and the bytes given. If every write stored something, no chunk is ever empty, so `empty()`, which
   * looks at one chunk, tells whether `size()`, which sums over all, is zero. A run ends early at an
   * operation that would not return.
   */
  method Run(s: ChunkedStream, source: Pipe, target: Pipe, sink: Buffer, ops: seq<Op>, input: seq<Byte>)
    returns (done: nat, returned: seq<int>, input': seq<Byte>, output: seq<Byte>, hands: seq<Byte>,
             ghost answers: seq<Answer>, ghost scenes: seq<Scene>)
    requires Apart(s, source, target, sink)
    modifies s.Repr, source, target, sink
    ensures Apart(s, source, target, sink) && fresh(s.Repr - old(s.Repr))
    ensures done <= |ops| && Follows(Does, ops[..done], answers, scenes) && Returned(answers, returned)
    ensures scenes[0] == old(Now(s, source, target, sink, input, [], []))
    ensures scenes[done] == Now(s, source, target, sink, input', output, hands)
    ensures old(s.Contents()) + Joined(Log(Entered, ops[..done], answers, scenes)) ==
            Joined(Log(Left, ops[..done], answers, scenes)) + s.Contents()
    ensures old(source.kernel) == Joined(Log(FromSource, ops[..done], answers, scenes)) + source.kernel
    ensures input == Joined(Log(FromInput, ops[..done], answers, scenes)) + input'
    ensures output == Joined(Log(SentToFd, ops[..done], answers, scenes))
    ensures target.kernel == old(target.kernel) + Joined(Log(SentToPipe, ops[..done], answers, scenes))
    ensures old(NoneEmpty(s.Now())) && AllStored(ops[..done], returned) ==>
              NoneEmpty(s.Now()) && (s.Empty() <==> s.Contents() == [])
    ensures done < |ops| ==> Stuck(s, sink, ops[done])
  {
    done, returned, input', output, hands, answers, scenes := Steps(s, source, target, sink, ops, input);
    RunLaws(ops[..done], answers, scenes, returned);
  }

  /** What the operations returned is in their answers. */
  ghost predicate Returned(answers: seq<Answer>, returned: seq<int>) {
    |returned| == |answers| && forall i :: 0 <= i < |answers| ==> answers[i].n == returned[i]
  }

  /** Every write returned a positive count. */
  ghost predicate AllStored(ops: seq<Op>, returned: seq<int>)
    requires |returned| == |ops|
  {
    forall i :: 0 <= i < |ops| && ops[i].Writes() ==> returned[i] > 0
  }

  /** All that a run keeps. */
  lemma RunLaws(ops: seq<Op>, answers: seq<Answer>, scenes: seq<Scene>, returned: seq<int>)
    requires Follows(Does, ops, answers, scenes) && Returned(answers, returned)
    ensures Held(scenes[0].chunks) + Joined(Log(Entered, ops, answers, scenes)) ==
            Joined(Log(Left, ops, answers, scenes)) + Held(scenes[|ops|].chunks)
    ensures scenes[0].source.bytes == Joined(Log(FromSource, ops, answers, scenes)) + scenes[|ops|].source.bytes
    ensures scenes[0].input == Joined(Log(FromInput, ops, answers, scenes)) + scenes[|ops|].input
    ensures scenes[|ops|].output == scenes[0].output + Joined(Log(SentToFd, ops, answers, scenes))
    ensures scenes[|ops|].target.bytes == scenes[0].target.bytes + Joined(Log(SentToPipe, ops, answers, scenes))
    ensures NoneEmpty(scenes[0].chunks) && AllStored(ops, returned) ==> NoneEmpty(scenes[|ops|].chunks)
  {
    FifoOfRun(ops, answers, scenes);
    SuppliesOfRun(ops, answers, scenes);
    SendingsOfRun(ops, answers, scenes);
    if NoneEmpty(scenes[0].chunks) && AllStored(ops, returned) {
      forall i | 0 <= i < |ops|
        ensures Stored(ops[i], answers[i])
      {
        assert answers[i].n == returned[i];
      }
      NoneEmptyInRun(ops, answers, scenes);
    }
  }

  // ---------------------------------------------------------------- two particular runs

  /** A write of nothing to a new stream hides what is written next: `empty()` says there is nothing. */
  method WriteAfterEmptyWrite(bytes: seq<Byte>) returns (s: ChunkedStream, n: int, m: int)
    ensures s.Valid() && n == 0 && (m == |bytes| || m == 0)
    ensures Blocked(s.Now()) && s.Empty() && s.Contents() == bytes[..m]
  {
    s := new ChunkedStream();
    n := s.WriteBytes([]);
    ghost var fs := s.Now();
    EmptyWriteBlocks(n, fs);
    m := s.WriteBytes(bytes);
    AppendedBlocked(fs, HasRoom(fs), false, bytes[..m], s.Now());
  }

  /** Each code is a number from -128 to 127 that gives back a byte of `taken`, in order; none of them is 255. */
  ghost predicate Decoded(codes: seq<int>, taken: seq<Byte>) {
    && |codes| == |taken|
    && forall i :: 0 <= i < |taken| ==>
         -128 <= codes[i] <= 127 && (codes[i] + 256) % 256 == taken[i] as int && taken[i] as int != 255
  }

  lemma DecodedStep(codes: seq<int>, taken: seq<Byte>, ch: int, gone: seq<Byte>)
    requires Decoded(codes, taken) && |gone| == 1 && ch == Signed(gone[0])
    ensures ch != -1 ==> Decoded(codes + [ch], taken + gone)
    ensures ch == -1 ==> gone[0] as int == 255
  {
    SignedOctet(gone[0]);
  }

  /**
   * Reading byte by byte until -1 yields the bytes in writing order, up to the first byte of 255,
   * which reads as -1 and is consumed. Without one, the loop ends at an empty front chunk or where
   * the kernel fails a pipe.
   */
  method ReadUntilEnd(s: ChunkedStream)
    returns (codes: seq<int>, ghost taken: seq<Byte>, ghost last: seq<Byte>, ghost before: seq<Facts>)
    requires s.Valid()
    modifies s.Repr
    ensures s.Valid() && s.Repr == old(s.Repr) && old(s.Contents()) == (taken + last) + s.Contents()
    ensures Decoded(codes, taken)
    ensures if last != [] then |last| == 1 && last[0] as int == 255
            else s.Empty() || (before != [] && before[0].pipe && s.Now() == Failed(before))
    ensures last == [] && old(NoneEmpty(s.Now()) && OnlyBuffers(s.Now())) ==> s.Contents() == []
  {
    codes, taken, last := [], [], [];
    ghost var all, start := s.Contents(), s.Now();
    while true
      invariant s.Valid() && s.Repr == old(s.Repr) && all == taken + s.Contents() && Decoded(codes, taken)
      invariant NoneEmpty(start) ==> NoneEmpty(s.Now())
      invariant OnlyBuffers(start) ==> OnlyBuffers(s.Now())
      decreases |s.Contents()|
    {
      before := s.Now();
      var ch := s.ReadByte();
      ByteStep(all, taken, before, ch, s.Now());
      last := Missing(before, s.Now());
      if last != [] {
        DecodedStep(codes, taken, ch, last);
      }
      if ch == -1 {
        return;
      }
      codes, taken := codes + [ch], taken + last;
    }
  }
}
