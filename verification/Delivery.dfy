/** What arrives of a read from a `ChunkedStream`, at one address and at a descriptor. */
module Delivery {
  import opened Bytes
  import opened ChunkFacts

  /** The block at `at`, to which every piece that left was copied in turn. */
  ghost predicate Copied(fs: seq<Facts>, lens: seq<nat>, block: seq<Byte>, at: nat, now: seq<Byte>) {
    && Legal(fs, lens) && at <= |block| && AllFit(Gone(fs, lens), |block| - at)
    && now == Overlaid(block, at, Gone(fs, lens))
  }

  /** What is found at the start of memory that held `before`. */
  ghost predicate Found(fs: seq<Facts>, lens: seq<nat>, before: seq<Byte>, bytes: seq<Byte>) {
    && Legal(fs, lens) && AllFit(Gone(fs, lens), |before|) && Total(lens) <= |before|
    && bytes == Overlaid(before, 0, Gone(fs, lens))[..Total(lens)]
    && (|lens| <= 1 ==> bytes == Joined(Gone(fs, lens)))
  }

  lemma CopiedStep(fs: seq<Facts>, lens: seq<nat>, block: seq<Byte>, at: nat, now: seq<Byte>, k: nat)
    requires Copied(fs, lens, block, at, now) && 0 < k <= |Front(After(fs, lens))| && at + k <= |block|
    ensures Copied(fs, lens + [k], block, at, Patched(now, at, Front(After(fs, lens))[..k]))
  {
    TurnStep(fs, lens, k);
    OverlaidSnoc(block, at, Gone(fs, lens), Front(After(fs, lens))[..k]);
  }

  /**
   * `read(char*)` as far as it has got: the chunks are `now`, and `n` bytes have left and been copied.
   */
  ghost predicate Copying(fs: seq<Facts>, size: nat, lens: seq<nat>, now: seq<Facts>, n: int, block: seq<Byte>,
                          at: nat, dst: seq<Byte>) {
    && Copied(fs, lens, block, at, dst) && now == After(fs, lens) && n == Total(lens) <= size
    && (n == 0 ==> lens == []) && CharLengths(fs, size, lens)
  }

  lemma CopyingStep(fs: seq<Facts>, size: nat, lens: seq<nat>, now: seq<Facts>, n: int, block: seq<Byte>, at: nat,
                    dst: seq<Byte>, rv: int)
    requires Copying(fs, size, lens, now, n, block, at, dst) && at + size <= |block|
    requires 0 < rv <= Min(size - n, |Front(now)|) && CharLength(now, size - n, rv)
    ensures Copying(fs, size, lens + [rv], Consume(now, rv), n + rv, block, at, Patched(dst, at, Front(now)[..rv]))
  {
    CopiedStep(fs, lens, block, at, dst, rv);
    TurnStep(fs, lens, rv);
    CharLengthsStep(fs, size, lens, rv);
  }

  /** A `char*` read with what it means. */
  ghost predicate CharsRead(fs: seq<Facts>, size: nat, n: int, lens: seq<nat>, fs': seq<Facts>) {
    && ReadsChars(fs, size, n, lens, fs') && Yields(fs, size, n, lens, fs')
    && (OnlyBuffers(fs) ==> fs' == After(fs, lens)) && OneTurnLaw(fs, size, lens, fs')
  }

  lemma CopyingEnds(fs: seq<Facts>, size: nat, lens: seq<nat>, now: seq<Facts>, n: int, block: seq<Byte>, at: nat,
                    dst: seq<Byte>)
    requires Copying(fs, size, lens, now, n, block, at, dst) && !(Front(now) != [] && n < size)
    ensures CharsRead(fs, size, n, lens, now)
  {
    ReadsYields(fs, size, n, lens, now);
    OneTurnLawHolds(fs, size, n, lens, now);
  }

  lemma CopyingFails(fs: seq<Facts>, size: nat, lens: seq<nat>, now: seq<Facts>, n: int, block: seq<Byte>, at: nat,
                     dst: seq<Byte>)
    requires Copying(fs, size, lens, now, n, block, at, dst) && n < size && Front(now) != [] && now[0].pipe
    ensures CharsRead(fs, size, if n == 0 then -1 else n, lens, Failed(now))
  {
    var m := if n == 0 then -1 else n;
    ReadsYields(fs, size, m, lens, Failed(now));
    OneTurnLawHolds(fs, size, m, lens, Failed(now));
    AfterHeld(fs, lens);
  }

  /** A `char*` read to fresh memory that held `end`, where `bytes` are found afterwards. */
  ghost predicate Poured(fs: seq<Facts>, size: nat, n: int, lens: seq<nat>, fs': seq<Facts>, end: seq<Byte>,
                         bytes: seq<Byte>) {
    CharsRead(fs, size, n, lens, fs') && |end| == size && Found(fs, lens, end, bytes)
  }

  lemma CopiedIsPoured(fs: seq<Facts>, size: nat, n: int, lens: seq<nat>, fs': seq<Facts>, end: seq<Byte>,
                       now: seq<Byte>)
    requires CharsRead(fs, size, n, lens, fs') && Copied(fs, lens, end, 0, now) && |end| == size
    ensures |now| == size && Max(n, 0) == Total(lens) <= size && Poured(fs, size, n, lens, fs', end, now[..Max(n, 0)])
  {
    CopiedIsFound(fs, lens, end, now);
  }

  lemma CopiedIsFound(fs: seq<Facts>, lens: seq<nat>, end: seq<Byte>, now: seq<Byte>)
    requires Copied(fs, lens, end, 0, now) && Total(lens) <= |end|
    ensures |now| == |end| && Found(fs, lens, end, now[..Total(lens)])
  {
    var pieces := Gone(fs, lens);
    PiecesLength(fs, lens);
    if |lens| <= 1 {
      OnePieceFound(end, pieces, now, Total(lens));
    }
  }

  lemma PiecesLength(fs: seq<Facts>, lens: seq<nat>)
    requires Legal(fs, lens)
    ensures |Joined(Gone(fs, lens))| == Total(lens)
  {
    AfterHeld(fs, lens);
  }

  // ---------------------------------------------------------------- one address, one turn

  /**
   * The request is met by the front chunk in one turn whatever the kernel answers: something a caller
   * can see before the call. A pipe promises no more than one byte.
   */
  predicate OneChunkServes(fs: seq<Facts>, size: nat) {
    fs == [] || Min(size, Reach(fs)) <= if fs[0].pipe then 1 else |fs[0].view|
  }

  /** Where one chunk serves there is at most one turn; and, from a buffer, one turn means that it served. */
  ghost predicate OneTurnLaw(fs: seq<Facts>, size: nat, lens: seq<nat>, fs': seq<Facts>) {
    && (OneChunkServes(fs, size) ==> |lens| <= 1)
    && (fs != [] && !fs[0].pipe && fs' == After(fs, lens) && |lens| <= 1 ==> OneChunkServes(fs, size))
  }

  /** The first turn, and that a second one takes more. */
  lemma {:induction false} FirstTurn(fs: seq<Facts>, size: nat, lens: seq<nat>)
    requires Legal(fs, lens) && CharLengths(fs, size, lens) && lens != []
    ensures CharLength(fs, size, lens[0]) && 0 < lens[0] <= |Front(fs)|
    ensures Total(lens) >= lens[0] + if |lens| >= 2 then 1 else 0
    decreases |lens|
  {
    var k := |lens| - 1;
    if k == 0 {
      assert lens[..0] == [];
    } else {
      FirstTurn(fs, size, lens[..k]);
      assert lens[..k][0] == lens[0];
    }
  }

  lemma OneTurnSuffices(fs: seq<Facts>, size: nat, lens: seq<nat>)
    requires Legal(fs, lens) && Total(lens) <= size && CharLengths(fs, size, lens)
    ensures OneChunkServes(fs, size) ==> |lens| <= 1
  {
    if lens != [] {
      FirstTurn(fs, size, lens);
      AfterReach(fs, lens);
    }
  }

  lemma OneTurnLawHolds(fs: seq<Facts>, size: nat, n: int, lens: seq<nat>, fs': seq<Facts>)
    requires ReadsChars(fs, size, n, lens, fs')
    ensures OneTurnLaw(fs, size, lens, fs')
  {
    OneTurnSuffices(fs, size, lens);
    AfterReach(fs, lens);
    if lens != [] {
      FirstTurn(fs, size, lens);
    }
    FailedHeld(After(fs, lens));
    if |lens| == 1 {
      assert lens == [lens[0]] && lens[..0] == [];
    }
  }

  /** From any point on, a read can take all it can at every turn until it ends. */
  lemma {:induction false} CompleteGreedily(fs: seq<Facts>, size: nat, lens: seq<nat>) returns (all: seq<nat>)
    requires Legal(fs, lens) && Total(lens) <= size && CharLengths(fs, size, lens)
    ensures Legal(fs, all) && Total(all) <= size && CharLengths(fs, size, all) && Ended(fs, size, all)
    ensures |all| >= |lens| + if Ended(fs, size, lens) then 0 else 1
    decreases size - Total(lens)
  {
    if Ended(fs, size, lens) {
      all := lens;
    } else {
      var next := GreedyTurn(fs, size, lens);
      all := CompleteGreedily(fs, size, next);
    }
  }

  lemma GreedyTurn(fs: seq<Facts>, size: nat, lens: seq<nat>) returns (next: seq<nat>)
    requires Legal(fs, lens) && Total(lens) <= size && CharLengths(fs, size, lens) && !Ended(fs, size, lens)
    ensures Legal(fs, next) && CharLengths(fs, size, next)
    ensures |next| == |lens| + 1 && Total(lens) < Total(next) <= size
  {
    var k := Min(size - Total(lens), |Front(After(fs, lens))|);
    TurnStep(fs, lens, k);
    CharLengthsStep(fs, size, lens, k);
    next := lens + [k];
  }

  lemma SomeReadTakesTwo(fs: seq<Facts>, size: nat) returns (lens: seq<nat>)
    requires !OneChunkServes(fs, size)
    ensures ReadsChars(fs, size, Total(lens), lens, After(fs, lens)) && |lens| >= 2
  {
    var k: nat := if fs[0].pipe then 1 else |fs[0].view|;
    TurnStep(fs, [], k);
    CharLengthsStep(fs, size, [], k);
    assert [] + [k] == [k];
    ConsumeReach(fs, k);
    assert Total([k]) == k;
    lens := CompleteGreedily(fs, size, [k]);
  }

  /** A `char*` read takes at most one turn, whatever the kernel answers, exactly when one chunk serves it. */
  lemma OneTurnIff(fs: seq<Facts>, size: nat)
    ensures (forall n, lens, fs' :: ReadsChars(fs, size, n, lens, fs') ==> |lens| <= 1) <==> OneChunkServes(fs, size)
  {
    if OneChunkServes(fs, size) {
      forall n, lens, fs' | ReadsChars(fs, size, n, lens, fs')
        ensures |lens| <= 1
      {
        OneTurnSuffices(fs, size, lens);
      }
    } else {
      var lens := SomeReadTakesTwo(fs, size);
      assert ReadsChars(fs, size, Total(lens), lens, After(fs, lens));
    }
  }

  /** The same chunk with other bytes in it. */
  predicate AlikeChunk(f: Facts, g: Facts) {
    |f.read| == |g.read| && |f.view| == |g.view| && f.pipe == g.pipe
  }

  /** The same chunks with other bytes in them. */
  ghost predicate Alike(fs: seq<Facts>, other: seq<Facts>) {
    |fs| == |other| && forall i :: 0 <= i < |fs| ==> AlikeChunk(fs[i], other[i])
  }

  lemma AlikeRest(fs: seq<Facts>, other: seq<Facts>)
    requires Alike(fs, other) && fs != []
    ensures Alike(fs[1..], other[1..])
  {
    forall i | 0 <= i < |fs[1..]|
      ensures AlikeChunk(fs[1..][i], other[1..][i])
    {
      assert AlikeChunk(fs[i + 1], other[i + 1]);
    }
  }

  lemma AlikeCons(f: Facts, fs: seq<Facts>, g: Facts, other: seq<Facts>)
    requires AlikeChunk(f, g) && Alike(fs, other)
    ensures Alike([f] + fs, [g] + other)
  {
    forall i | 0 <= i < |fs| + 1
      ensures AlikeChunk(([f] + fs)[i], ([g] + other)[i])
    {
      assert i > 0 ==> AlikeChunk(fs[i - 1], other[i - 1]);
    }
  }

  lemma ConsumeAlike(fs: seq<Facts>, other: seq<Facts>, k: nat)
    requires Alike(fs, other) && k <= |Front(fs)|
    ensures Alike(Consume(fs, k), Consume(other, k))
  {
    if fs != [] {
      assert AlikeChunk(fs[0], other[0]);
      AlikeRest(fs, other);
      if k < |fs[0].view| {
        AlikeCons(Used(fs[0], k), fs[1..], Used(other[0], k), other[1..]);
      }
    }
  }

  /** The bytes do not matter to which turns are possible. */
  lemma {:induction false} TurnsAlike(fs: seq<Facts>, other: seq<Facts>, lens: seq<nat>)
    requires Alike(fs, other) && Legal(fs, lens)
    ensures Legal(other, lens) && Alike(After(fs, lens), After(other, lens))
    decreases |lens|
  {
    if lens != [] {
      var k := |lens| - 1;
      TurnsAlike(fs, other, lens[..k]);
      FrontAlike(After(fs, lens[..k]), After(other, lens[..k]));
      ConsumeAlike(After(fs, lens[..k]), After(other, lens[..k]), lens[k]);
    }
  }

  lemma {:induction false} GoneShaped(fs: seq<Facts>, lens: seq<nat>)
    requires Legal(fs, lens)
    ensures Shaped(Gone(fs, lens), lens)
    decreases |lens|
  {
    if lens != [] {
      var k := |lens| - 1;
      GoneShaped(fs, lens[..k]);
      ShapedSnoc(Gone(fs, lens[..k]), lens[..k], Front(After(fs, lens[..k]))[..lens[k]]);
      assert lens == lens[..k] + [lens[k]];
    }
  }

  lemma AfterAlike(fs: seq<Facts>, other: seq<Facts>, lens: seq<nat>)
    requires Alike(fs, other) && Legal(fs, lens)
    ensures Legal(other, lens) && Alike(After(fs, lens), After(other, lens))
    ensures Shaped(Gone(other, lens), lens)
  {
    TurnsAlike(fs, other, lens);
    GoneShaped(other, lens);
  }

  lemma FrontAlike(fs: seq<Facts>, other: seq<Facts>)
    requires Alike(fs, other)
    ensures |Front(fs)| == |Front(other)|
  {
    assert fs != [] ==> AlikeChunk(fs[0], other[0]);
  }

  lemma ShapedSnoc(pieces: seq<seq<Byte>>, lens: seq<nat>, piece: seq<Byte>)
    requires Shaped(pieces, lens)
    ensures Shaped(pieces + [piece], lens + [|piece|])
  {
  }

  /** While more is wanted, a greedy read has used up one chunk per turn. */
  lemma {:induction false} GreedyAfter(fs: seq<Facts>, size: nat, lens: seq<nat>)
    requires Legal(fs, lens) && Greedy(fs, size, lens) && Total(lens) < size
    ensures |lens| <= |fs| && After(fs, lens) == fs[|lens|..]
    decreases |lens|
  {
    if lens != [] {
      GreedyAfter(fs, size, lens[..|lens| - 1]);
    }
  }

  /** The same chunks, whose very first byte differs from all others. */
  function TwoColoured(fs: seq<Facts>): (r: seq<Facts>)
    ensures Alike(fs, r)
    ensures forall i, j :: 0 <= i < |r| && 0 <= j < |r[i].view| ==>
              r[i].view[j] == if i == 0 && j == 0 then 'a' else 'b'
  {
    seq(|fs|, i requires 0 <= i < |fs| =>
      fs[i].(view := seq(|fs[i].view|, j => if i == 0 && j == 0 then 'a' else 'b')))
  }

  lemma {:induction false} HeldColour(fs: seq<Facts>)
    requires forall i, j :: 0 <= i < |fs| && 0 <= j < |fs[i].view| ==> fs[i].view[j] == 'b'
    ensures forall p :: 0 <= p < |Held(fs)| ==> Held(fs)[p] == 'b'
  {
    if fs != [] {
      HeldColour(fs[1..]);
    }
  }

  /** The last of several pieces starts behind the first byte held. */
  lemma LastPiece(fs: seq<Facts>, lens: seq<nat>)
    requires Legal(fs, lens) && |lens| >= 2
    ensures var k := |lens| - 1;
            && 0 < Total(lens[..k]) < |Held(fs)|
            && Gone(fs, lens)[k] != [] && Gone(fs, lens)[k][0] == Held(fs)[Total(lens[..k])]
  {
    var k := |lens| - 1;
    AfterHeld(fs, lens[..k]);
    assert Total(lens[..k]) >= lens[k - 1] by {
      assert lens[..k][k - 1] == lens[k - 1];
    }
    var now := After(fs, lens[..k]);
    assert Held(now)[0] == now[0].view[0];
  }

  lemma TwoColouredHeld(fs: seq<Facts>)
    ensures forall p :: 0 < p < |Held(TwoColoured(fs))| ==> Held(TwoColoured(fs))[p] == 'b'
  {
    if fs != [] {
      var other := TwoColoured(fs);
      HeldColour(other[1..]);
    }
  }

  lemma TwoColouredTurns(fs: seq<Facts>, lens: seq<nat>)
    requires Legal(fs, lens) && |lens| >= 2
    ensures Legal(TwoColoured(fs), lens) && Shaped(Gone(TwoColoured(fs), lens), lens)
    ensures var pieces := Gone(TwoColoured(fs), lens);
            pieces[0] != [] && pieces[|lens| - 1] != [] && pieces[0][0] != pieces[|lens| - 1][0]
  {
    var other := TwoColoured(fs);
    AfterAlike(fs, other, lens);
    FirstPiece(other, lens);
    LastPiece(other, lens);
    TwoColouredHeld(fs);
  }

  /** Pieces read to one address arrive there whole, whatever their bytes, if and only if there is at most one. */
  lemma ArriveWholeIffOneTurn(fs: seq<Facts>, lens: seq<nat>, block: seq<Byte>, at: nat)
    requires Legal(fs, lens) && at + Total(lens) <= |block|
    ensures (forall other :: Alike(fs, other) ==> Legal(other, lens) && ArriveWhole(block, at, Gone(other, lens)))
            <==> |lens| <= 1
  {
    if |lens| <= 1 {
      forall other | Alike(fs, other)
        ensures Legal(other, lens) && ArriveWhole(block, at, Gone(other, lens))
      {
        AfterAlike(fs, other, lens);
        OneArrivesWhole(lens, block, at, Gone(other, lens));
      }
    } else {
      var other := TwoColoured(fs);
      TwoColouredTurns(fs, lens);
      var pieces := Gone(other, lens);
      JoinedLength(pieces, lens);
      PiecesFit(pieces, |block| - at);
      ManyPiecesMayNotDeliver(block, at, pieces);
    }
  }

  /**
   * `read(char*)`: what is found at the destination is right, whatever the bytes in chunks of these
   * sizes and whatever the kernel answers, exactly when one chunk serves the request.
   */
  lemma ArrivesWholeIff(fs: seq<Facts>, size: nat, block: seq<Byte>, at: nat)
    requires at + size <= |block|
    ensures (forall n, lens, fs', other :: ReadsChars(fs, size, n, lens, fs') && Alike(fs, other) ==>
               Legal(other, lens) && ArriveWhole(block, at, Gone(other, lens)))
            <==> OneChunkServes(fs, size)
  {
    if OneChunkServes(fs, size) {
      forall n, lens, fs', other | ReadsChars(fs, size, n, lens, fs') && Alike(fs, other)
        ensures Legal(other, lens) && ArriveWhole(block, at, Gone(other, lens))
      {
        OneTurnSuffices(fs, size, lens);
        ArriveWholeIffOneTurn(fs, lens, block, at);
      }
    } else {
      var lens := SomeReadTakesTwo(fs, size);
      ArriveWholeIffOneTurn(fs, lens, block, at);
      assert ReadsChars(fs, size, Total(lens), lens, After(fs, lens));
    }
  }

  // ---------------------------------------------------------------- descriptors

  /** Every turn reads from a pipe, or from a buffer chunk nothing has been read from. */
  predicate Clean(fs: seq<Facts>, lens: seq<nat>)
    decreases |lens|
  {
    lens == [] ||
    var k := |lens| - 1;
    Clean(fs, lens[..k]) && var now := After(fs, lens[..k]); now != [] && (now[0].pipe || now[0].read == [])
  }

  /** What `Sent` says was sent followed `before` on the descriptor. */
  ghost predicate Forwarded(fs: seq<Facts>, lens: seq<nat>, before: seq<Byte>, now: seq<Byte>) {
    Legal(fs, lens) && now == before + Joined(Sent(fs, lens))
  }

  lemma ForwardedStep(fs: seq<Facts>, lens: seq<nat>, before: seq<Byte>, now: seq<Byte>, k: nat)
    requires Forwarded(fs, lens, before, now) && 0 < k <= |Front(After(fs, lens))|
    ensures Forwarded(fs, lens + [k], before, now + SentBy(After(fs, lens)[0], k))
  {
    TurnStep(fs, lens, k);
    var piece := SentBy(After(fs, lens)[0], k);
    JoinedSnoc(Sent(fs, lens), piece);
    Associative(before, Joined(Sent(fs, lens)), piece);
  }

  /** `read(int)` and `read(Pipe*)` as far as they have got. */
  ghost predicate Forwarding(fs: seq<Facts>, size: nat, lens: seq<nat>, now: seq<Facts>, n: int, before: seq<Byte>,
                             output: seq<Byte>) {
    && Forwarded(fs, lens, before, output) && now == After(fs, lens) && n == Total(lens) <= size
    && (n == 0 ==> lens == [])
  }

  lemma ForwardingStarts(fs: seq<Facts>, size: nat, before: seq<Byte>)
    ensures Forwarding(fs, size, [], fs, 0, before, before)
  {
  }

  lemma ForwardingStep(fs: seq<Facts>, size: nat, lens: seq<nat>, now: seq<Facts>, n: int, before: seq<Byte>,
                       output: seq<Byte>, rv: int)
    requires Forwarding(fs, size, lens, now, n, before, output) && 0 < rv <= Min(size - n, |Front(now)|)
    ensures Forwarding(fs, size, lens + [rv], Consume(now, rv), n + rv, before, output + SentBy(now[0], rv))
  {
    ForwardedStep(fs, lens, before, output, rv);
    TurnStep(fs, lens, rv);
  }

  lemma ForwardingEnds(fs: seq<Facts>, size: nat, lens: seq<nat>, now: seq<Facts>, n: int, before: seq<Byte>,
                       output: seq<Byte>)
    requires Forwarding(fs, size, lens, now, n, before, output) && !(Front(now) != [] && n < size)
    ensures Reads(fs, size, n, lens, now) && Drains(fs, size, n, lens, now, false)
  {
  }

  lemma ForwardingFails(fs: seq<Facts>, size: nat, lens: seq<nat>, now: seq<Facts>, n: int, before: seq<Byte>,
                        output: seq<Byte>)
    requires Forwarding(fs, size, lens, now, n, before, output) && n < size && Front(now) != []
    ensures var m := if n == 0 then -1 else n;
            Reads(fs, size, m, lens, Failed(now)) && Drains(fs, size, m, lens, now, true)
  {
  }

  lemma {:induction false} CleanSends(fs: seq<Facts>, lens: seq<nat>)
    requires Legal(fs, lens) && Clean(fs, lens)
    ensures Sent(fs, lens) == Gone(fs, lens)
    decreases |lens|
  {
    if lens != [] {
      var k := |lens| - 1;
      CleanSends(fs, lens[..k]);
      var f := After(fs, lens[..k])[0];
      assert f.read == [] ==> f.read + f.view == f.view;
    }
  }

  /** A block whose first byte differs from all others. */
  ghost predicate Marked(f: Facts) {
    var block := f.read + f.view;
    !f.pipe ==> forall j :: 0 <= j < |block| ==> block[j] == if j == 0 then 'a' else 'b'
  }

  ghost predicate AllMarked(fs: seq<Facts>) {
    forall i :: 0 <= i < |fs| ==> Marked(fs[i])
  }

  lemma ConsumeMarked(fs: seq<Facts>, k: nat)
    requires AllMarked(fs)
    ensures AllMarked(Consume(fs, k))
  {
    var fs' := Consume(fs, k);
    if fs' != [] && fs' != fs && k < |Front(fs)| && !fs[0].pipe {
      assert fs'[0].read + fs'[0].view == fs[0].read + fs[0].view;
    }
    forall i | 0 <= i < |fs'|
      ensures Marked(fs'[i])
    {
      if k < |Front(fs)| && i > 0 {
        assert fs'[i] == fs[i];
      }
    }
  }

  lemma {:induction false} AfterMarked(fs: seq<Facts>, lens: seq<nat>)
    requires AllMarked(fs)
    ensures AllMarked(After(fs, lens))
    decreases |lens|
  {
    if lens != [] {
      AfterMarked(fs, lens[..|lens| - 1]);
      ConsumeMarked(After(fs, lens[..|lens| - 1]), lens[|lens| - 1]);
    }
  }

  lemma {:induction false} UncleanSendsWrong(fs: seq<Facts>, lens: seq<nat>)
    requires Legal(fs, lens) && AllMarked(fs) && !Clean(fs, lens)
    ensures Sent(fs, lens) != Gone(fs, lens)
    decreases |lens|
  {
    var k := |lens| - 1;
    if !Clean(fs, lens[..k]) {
      UncleanSendsWrong(fs, lens[..k]);
      assert Sent(fs, lens)[..k] == Sent(fs, lens[..k]) && Gone(fs, lens)[..k] == Gone(fs, lens[..k]);
    } else {
      AfterMarked(fs, lens[..k]);
      var f := After(fs, lens[..k])[0];
      assert Marked(f);
      assert SentBy(f, lens[k])[0] == (f.read + f.view)[0] == 'a';
      assert f.view[..lens[k]][0] == (f.read + f.view)[|f.read|] == 'b';
      assert Sent(fs, lens)[k] != Gone(fs, lens)[k];
    }
  }

  /** The same chunks with marked blocks. */
  function WithMarks(fs: seq<Facts>): (r: seq<Facts>)
    ensures Alike(fs, r) && AllMarked(r)
  {
    seq(|fs|, i requires 0 <= i < |fs| =>
      fs[i].(read := seq(|fs[i].read|, j => if j == 0 then 'a' else 'b'),
             view := seq(|fs[i].view|, j => if |fs[i].read| + j == 0 then 'a' else 'b')))
  }

  lemma {:induction false} CleanAlike(fs: seq<Facts>, other: seq<Facts>, lens: seq<nat>)
    requires Alike(fs, other) && Legal(fs, lens)
    ensures Clean(fs, lens) <==> Clean(other, lens)
    decreases |lens|
  {
    if lens != [] {
      AfterAlike(fs, other, lens[..|lens| - 1]);
      CleanAlike(fs, other, lens[..|lens| - 1]);
    }
  }

  /** What is sent is what leaves the stream, whatever the bytes, exactly if every turn is clean. */
  lemma TurnsSendRightIff(fs: seq<Facts>, lens: seq<nat>)
    requires Legal(fs, lens)
    ensures (forall other :: Alike(fs, other) ==> Legal(other, lens) && Sent(other, lens) == Gone(other, lens))
            <==> Clean(fs, lens)
  {
    if Clean(fs, lens) {
      forall other | Alike(fs, other)
        ensures Legal(other, lens) && Sent(other, lens) == Gone(other, lens)
      {
        AfterAlike(fs, other, lens);
        CleanAlike(fs, other, lens);
        CleanSends(other, lens);
      }
    } else {
      var other := WithMarks(fs);
      AfterAlike(fs, other, lens);
      CleanAlike(fs, other, lens);
      UncleanSendsWrong(other, lens);
    }
  }

  /**
   * Before the call: every chunk the request reaches is a pipe, or a buffer nothing has been read
   * from that gives no more than one byte. A kernel may always answer with one byte.
   */
  predicate AlwaysClean(fs: seq<Facts>, size: nat) {
    size == 0 || Front(fs) == [] ||
    (&& (fs[0].pipe || (fs[0].read == [] && Min(size, |fs[0].view|) <= 1))
     && AlwaysClean(fs[1..], Max(0, size - |fs[0].view|)))
  }

  lemma TurnStaysClean(fs: seq<Facts>, size: nat, k: nat)
    requires AlwaysClean(fs, size) && 0 < k <= Min(size, |Front(fs)|)
    ensures (fs[0].pipe || fs[0].read == []) && AlwaysClean(Consume(fs, k), size - k)
  {
    if k < |fs[0].view| {
      var fs' := Consume(fs, k);
      assert fs'[0] == Used(fs[0], k) && fs'[1..] == fs[1..];
    }
  }

  lemma {:induction false} StaysClean(fs: seq<Facts>, size: nat, lens: seq<nat>)
    requires AlwaysClean(fs, size) && Legal(fs, lens) && Total(lens) <= size
    ensures Clean(fs, lens) && AlwaysClean(After(fs, lens), size - Total(lens))
    decreases |lens|
  {
    if lens != [] {
      var k := |lens| - 1;
      StaysClean(fs, size, lens[..k]);
      TurnStaysClean(After(fs, lens[..k]), size - Total(lens[..k]), lens[k]);
    }
  }

  lemma CleanStep(fs: seq<Facts>, lens: seq<nat>, k: nat)
    ensures Clean(fs, lens + [k]) <==>
            Clean(fs, lens) && After(fs, lens) != [] && (After(fs, lens)[0].pipe || After(fs, lens)[0].read == [])
  {
    var all := lens + [k];
    assert all[..|lens|] == lens;
  }

  /** Two turns of one byte each from a buffer chunk: the second one is not clean. */
  lemma TwoTurns(fs: seq<Facts>, size: nat, lens: seq<nat>) returns (all: seq<nat>)
    requires Legal(fs, lens) && |Front(After(fs, lens))| > 1 && !After(fs, lens)[0].pipe && size - Total(lens) > 1
    ensures Legal(fs, all) && Total(all) <= size && !Clean(fs, all)
  {
    var now, one := After(fs, lens), lens + [1];
    TurnStep(fs, lens, 1);
    assert After(fs, one)[0] == Used(now[0], 1);
    TurnStep(fs, one, 1);
    CleanStep(fs, one, 1);
    all := one + [1];
  }

  /** A turn that uses up the front chunk. */
  lemma WholeTurn(fs: seq<Facts>, lens: seq<nat>) returns (next: seq<nat>)
    requires Legal(fs, lens) && Front(After(fs, lens)) != []
    ensures Legal(fs, next) && Total(next) == Total(lens) + |Front(After(fs, lens))|
    ensures After(fs, next) == After(fs, lens)[1..]
  {
    var k := |Front(After(fs, lens))|;
    TurnStep(fs, lens, k);
    next := lens + [k];
  }

  /** Where the condition fails, some counts lead to a turn that is not clean. */
  lemma {:induction false} FindUnclean(fs: seq<Facts>, size: nat, lens: seq<nat>) returns (all: seq<nat>)
    requires Legal(fs, lens) && Total(lens) <= size && !AlwaysClean(After(fs, lens), size - Total(lens))
    ensures Legal(fs, all) && Total(all) <= size && !Clean(fs, all)
    decreases size - Total(lens)
  {
    var now, rest := After(fs, lens), size - Total(lens);
    if !now[0].pipe && now[0].read != [] {
      TurnStep(fs, lens, 1);
      CleanStep(fs, lens, 1);
      all := lens + [1];
    } else if !now[0].pipe && Min(rest, |now[0].view|) > 1 {
      all := TwoTurns(fs, size, lens);
    } else {
      var next := WholeTurn(fs, lens);
      all := FindUnclean(fs, size, next);
    }
  }

  /** Any turns within the request can be those of a call, which then ends or fails. */
  lemma TurnsOfSomeCall(fs: seq<Facts>, size: nat, lens: seq<nat>) returns (n: int, fs': seq<Facts>)
    requires Legal(fs, lens) && Total(lens) <= size
    ensures Reads(fs, size, n, lens, fs')
  {
    if Ended(fs, size, lens) {
      n, fs' := Total(lens), After(fs, lens);
    } else {
      n, fs' := if lens == [] then -1 else Total(lens), Failed(After(fs, lens));
    }
  }

  /**
   * Sending to a descriptor: what is sent is what leaves the stream, whatever the bytes in chunks of
   * these sizes and whatever the kernel answers, exactly under the condition above.
   */
  lemma SendsRightIff(fs: seq<Facts>, size: nat)
    ensures (forall n, lens, fs', other :: Reads(fs, size, n, lens, fs') && Alike(fs, other) ==>
               Legal(other, lens) && Sent(other, lens) == Gone(other, lens))
            <==> AlwaysClean(fs, size)
  {
    if AlwaysClean(fs, size) {
      forall n, lens, fs', other | Reads(fs, size, n, lens, fs') && Alike(fs, other)
        ensures Legal(other, lens) && Sent(other, lens) == Gone(other, lens)
      {
        StaysClean(fs, size, lens);
        TurnsSendRightIff(fs, lens);
      }
    } else {
      var lens := FindUnclean(fs, size, []);
      var n, fs' := TurnsOfSomeCall(fs, size, lens);
      TurnsSendRightIff(fs, lens);
    }
  }

  lemma {:induction false} GreedyIsCleanIff(fs: seq<Facts>, size: nat, lens: seq<nat>)
    requires RestUntouched(fs) && Legal(fs, lens) && Total(lens) <= size && Greedy(fs, size, lens)
    ensures Clean(fs, lens) <==> lens == [] || fs == [] || fs[0].pipe || fs[0].read == []
    decreases |lens|
  {
    if lens != [] {
      var k := |lens| - 1;
      GreedyIsCleanIff(fs, size, lens[..k]);
      GreedyAfter(fs, size, lens[..k]);
    }
  }

  /** The same while the kernel takes all it is offered: then it is up to the front chunk alone. */
  lemma SendsRightAtFullCountsIff(fs: seq<Facts>, size: nat)
    requires RestUntouched(fs)
    ensures (forall n, lens, fs', other ::
               Reads(fs, size, n, lens, fs') && Greedy(fs, size, lens) && Alike(fs, other) ==>
                 Legal(other, lens) && Sent(other, lens) == Gone(other, lens))
            <==> size == 0 || Front(fs) == [] || fs[0].pipe || fs[0].read == []
  {
    if size == 0 || Front(fs) == [] || fs[0].pipe || fs[0].read == [] {
      forall n, lens, fs', other | Reads(fs, size, n, lens, fs') && Greedy(fs, size, lens) && Alike(fs, other)
        ensures Legal(other, lens) && Sent(other, lens) == Gone(other, lens)
      {
        GreedyIsCleanIff(fs, size, lens);
        NoTurnAtEmptyFront(fs, lens);
        AfterReach(fs, lens);
        if lens != [] {
          FirstPiece(fs, lens);
          FirstWithin(lens);
        }
        TurnsSendRightIff(fs, lens);
      }
    } else {
      var k := Min(size, |Front(fs)|);
      TurnStep(fs, [], k);
      GreedyStep(fs, size, [], k);
      assert [] + [k] == [k];
      var n, fs' := TurnsOfSomeCall(fs, size, [k]);
      GreedyIsCleanIff(fs, size, [k]);
      TurnsSendRightIff(fs, [k]);
    }
  }

  lemma {:induction false} FirstWithin(lens: seq<nat>)
    requires lens != []
    ensures lens[0] <= Total(lens)
    decreases |lens|
  {
    if |lens| > 1 {
      FirstWithin(lens[..|lens| - 1]);
    } else {
      assert lens[..0] == [];
    }
  }
}
