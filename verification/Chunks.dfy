/** The chunks of a `ChunkedStream`: user-space buffers and kernel pipes behind one interface. */
module Chunks {
  import opened Bytes
  import opened Pipes
  import opened BufferStreams
  import opened ChunkFacts
  import opened Draining

  datatype Chunk = BufferChunk(buffer: BufferStream) | PipeChunk(pipe: Pipe)

  /** The objects a chunk consists of. */
  function Foot(c: Chunk): set<object> {
    match c
    case BufferChunk(b) => {b, b.data}
    case PipeChunk(p) => {p}
  }

  ghost predicate Sound(c: Chunk)
    reads Foot(c)
  {
    match c
    case BufferChunk(b) => b.Valid()
    case PipeChunk(p) => p.Exact()
  }

  ghost function FactsOf(c: Chunk): Facts
    requires Sound(c)
    reads Foot(c)
  {
    match c
    case BufferChunk(b) =>
      Facts(b.Consumed(), b.Unread(), false, b.errors, b.data.refusals, b.data.Capacity())
    case PipeChunk(p) => Facts([], p.kernel, true, p.errors, 0, 0)
  }

  function ChunkSize(c: Chunk): (n: nat)
    requires Sound(c)
    reads Foot(c)
    ensures n == |FactsOf(c).view|
  {
    match c
    case BufferChunk(b) => b.Size()
    case PipeChunk(p) => p.size
  }

  // ---------------------------------------------------------------- virtual calls

  /** `k` bytes were read from the chunk; one that is used up will be disposed of, so only its emptiness matters. */
  ghost predicate Took(f: Facts, k: nat, f': Facts) {
    k <= |f.view| && f'.view == f.view[k..] && (f'.view != [] ==> f' == Used(f, k))
  }

  method ReadChars(c: Chunk, dst: array<Byte>, at: nat, n: nat) returns (rv: int)
    requires Sound(c) && dst !in Foot(c) && at + n <= dst.Length
    modifies Foot(c), dst
    ensures Sound(c)
    ensures var f, f' := old(FactsOf(c)), FactsOf(c);
            if rv == -1 then f.pipe && f' == f.(errors := f.errors + 1) && dst[..] == old(dst[..])
            else
              && Served(rv, |f.view|, n) && (!f.pipe ==> rv == Min(n, |f.view|)) && Took(f, rv, f')
              && dst[..] == Patched(old(dst[..]), at, f.view[..rv])
  {
    ghost var got;
    match c
    case BufferChunk(b) => rv, got := b.ReadChars(dst, at, n);
    case PipeChunk(p) => rv, got := p.ReadChars(dst, at, n);
  }

  method ReadPipe(c: Chunk, target: Pipe, n: nat) returns (rv: int)
    requires Sound(c) && target !in Foot(c) && target.Valid()
    modifies Foot(c), target
    ensures Sound(c) && target.Valid() && target.Lag() == old(target.Lag())
    ensures target.errors == old(target.errors) + if rv == -1 then 1 else 0
    ensures var f, f' := old(FactsOf(c)), FactsOf(c);
            if f.pipe || rv == -1 then f' == f && target.kernel == old(target.kernel) && (f.pipe ==> rv == 0)
            else
              && Served(rv, |f.view|, n) && Took(f, rv, f')
              && target.kernel == old(target.kernel) + SentBy(f, rv)
  {
    match c
    case BufferChunk(b) =>
      ghost var got, sent;
      rv, got, sent := b.ReadPipe(target, n);
    case PipeChunk(p) =>
      rv := p.ReadPipe(target, n);
  }

  method ReadFd(c: Chunk, output: seq<Byte>, n: nat) returns (rv: int, output': seq<Byte>)
    requires Sound(c)
    modifies Foot(c)
    ensures Sound(c)
    ensures var f, f' := old(FactsOf(c)), FactsOf(c);
            if rv == -1 then f' == f.(errors := f.errors + 1) && output' == output
            else Served(rv, |f.view|, n) && Took(f, rv, f') && output' == output + SentBy(f, rv)
  {
    ghost var got, sent;
    match c
    case BufferChunk(b) => rv, output', got, sent := b.ReadFd(output, n);
    case PipeChunk(p) => rv, output', got := p.ReadFd(output, n);
  }

  method ReadByte(c: Chunk) returns (ch: int)
    requires Sound(c)
    modifies Foot(c)
    ensures Sound(c)
    ensures var f, f' := old(FactsOf(c)), FactsOf(c);
            if f.view == [] then ch == -1 && f' == f
            else
              || (ch == Signed(f.view[0]) && Took(f, 1, f'))
              || (f.pipe && ch == -1 && f' == f.(errors := f.errors + 1))
  {
    ghost var got;
    match c
    case BufferChunk(b) => ch, got := b.ReadByte();
    case PipeChunk(p) => ch, got := p.ReadByte();
  }

  // ---------------------------------------------------------------- lists of chunks

  function Footprint(cs: seq<Chunk>): set<object> {
    if cs == [] then {} else Foot(cs[0]) + Footprint(cs[1..])
  }

  /** Sound chunks that share no object. */
  ghost predicate AllSound(cs: seq<Chunk>)
    reads Footprint(cs)
  {
    cs == [] || (Sound(cs[0]) && Foot(cs[0]) !! Footprint(cs[1..]) && AllSound(cs[1..]))
  }

  ghost function Survey(cs: seq<Chunk>): (fs: seq<Facts>)
    requires AllSound(cs)
    reads Footprint(cs)
    ensures |fs| == |cs|
  {
    if cs == [] then [] else [FactsOf(cs[0])] + Survey(cs[1..])
  }

  lemma {:induction false} SnocFootprint(cs: seq<Chunk>, c: Chunk)
    ensures Footprint(cs + [c]) == Footprint(cs) + Foot(c)
  {
    if cs == [] {
      assert cs + [c] == [c];
      assert Footprint([c]) == Foot(c) + Footprint([]);
    } else {
      assert (cs + [c])[1..] == cs[1..] + [c];
      SnocFootprint(cs[1..], c);
    }
  }

  /** A sound, separate chunk may be put at the end, and its facts then come last. */
  lemma {:induction false} SnocSound(cs: seq<Chunk>, c: Chunk)
    requires AllSound(cs) && Sound(c) && Foot(c) !! Footprint(cs)
    ensures AllSound(cs + [c]) && Survey(cs + [c]) == Survey(cs) + [FactsOf(c)]
  {
    if cs == [] {
      assert cs + [c] == [c];
      assert [c][1..] == [];
    } else {
      assert (cs + [c])[1..] == cs[1..] + [c];
      SnocFootprint(cs[1..], c);
      SnocSound(cs[1..], c);
    }
  }

  /** Conversely, the last chunk of a sound list is sound and separate from the others. */
  lemma {:induction false} LastSound(cs: seq<Chunk>)
    requires cs != [] && AllSound(cs)
    ensures var k := |cs| - 1; cs == cs[..k] + [cs[k]]
    ensures var k := |cs| - 1; AllSound(cs[..k]) && Sound(cs[k]) && Foot(cs[k]) !! Footprint(cs[..k])
    ensures var k := |cs| - 1; Footprint(cs) == Footprint(cs[..k]) + Foot(cs[k])
    ensures var k := |cs| - 1; Survey(cs) == Survey(cs[..k]) + [FactsOf(cs[k])]
  {
    var k := |cs| - 1;
    assert cs == cs[..k] + [cs[k]];
    SnocFootprint(cs[..k], cs[k]);
    LastSeparate(cs);
    SnocSound(cs[..k], cs[k]);
  }

  lemma {:induction false} LastSeparate(cs: seq<Chunk>)
    requires cs != [] && AllSound(cs)
    ensures var k := |cs| - 1; AllSound(cs[..k]) && Sound(cs[k]) && Foot(cs[k]) !! Footprint(cs[..k])
  {
    var k := |cs| - 1;
    if k > 0 {
      LastSeparate(cs[1..]);
      assert cs[1..] == cs[..k][1..] + [cs[k]];
      SnocFootprint(cs[..k][1..], cs[k]);
      assert cs[1..][..k - 1] == cs[..k][1..];
    }
  }

  /** Everything that matters of the chunks before the tail: it depends on no object of the tail. */
  ghost predicate Kept(cs: seq<Chunk>, fs: seq<Facts>)
    reads Footprint(cs)
  {
    AllSound(cs) && Survey(cs) == fs
  }

  /** Whether a drain of `size` bytes into a pipe meets no pipe chunk on its way. */
  predicate CanDrain(cs: seq<Chunk>, size: nat): (r: bool)
    requires AllSound(cs)
    reads Footprint(cs)
    ensures r == Drainable(Survey(cs), size)
  {
    size == 0 || cs == [] || ChunkSize(cs[0]) == 0 ||
    (cs[0].BufferChunk? && CanDrain(cs[1..], Max(0, size - ChunkSize(cs[0]))))
  }
}
