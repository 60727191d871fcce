/**
 * What a `ChunkedStream` is, seen as a value: the list of its chunks, each with the bytes it holds
 * and what has happened to it. The operations of the stream are relations between such lists.
 */
module ChunkFacts {
  import opened Bytes

  /**
   * A chunk: the part of its block that has been read, the unread rest, whether it is a pipe, how
   * often the kernel has failed it, how often the allocator has refused it, and its capacity. A pipe
   * has no read part, is refused nothing, and its capacity is not looked at.
   */
  datatype Facts = Facts(read: seq<Byte>, view: seq<Byte>, pipe: bool, errors: nat, refusals: nat, capacity: nat)

  function Fresh(pipe: bool): Facts {
    Facts([], [], pipe, 0, 0, 0)
  }

  /** The unread bytes of all chunks, front to back. */
  function Held(fs: seq<Facts>): seq<Byte> {
    if fs == [] then [] else fs[0].view + Held(fs[1..])
  }

  /** The unread bytes of the front chunk. */
  function Front(fs: seq<Facts>): seq<Byte> {
    if fs == [] then [] else fs[0].view
  }

  ghost predicate NoneEmpty(fs: seq<Facts>) {
    forall i :: 0 <= i < |fs| ==> fs[i].view != []
  }

  ghost predicate OnlyBuffers(fs: seq<Facts>) {
    forall i :: 0 <= i < |fs| ==> !fs[i].pipe
  }

  /** Nothing has been read from the chunks behind the front one. */
  ghost predicate RestUntouched(fs: seq<Facts>) {
    forall i :: 0 < i < |fs| ==> fs[i].read == []
  }

  lemma {:induction false} HeldSnoc(fs: seq<Facts>, f: Facts)
    ensures Held(fs + [f]) == Held(fs) + f.view
  {
    if fs == [] {
      assert fs + [f] == [f] && [f][1..] == [];
    } else {
      assert (fs + [f])[1..] == fs[1..] + [f];
      HeldSnoc(fs[1..], f);
    }
  }

  /** Looking at the front chunk tells whether anything is held, if no chunk is empty. */
  lemma EmptyIffFrontEmpty(fs: seq<Facts>)
    ensures Held(fs) == [] ==> Front(fs) == []
    ensures NoneEmpty(fs) ==> (Front(fs) == [] <==> Held(fs) == [])
  {
  }

  // ---------------------------------------------------------------- writing

  /** The tail is a buffer chunk with fewer unread bytes than capacity. */
  predicate HasRoom(fs: seq<Facts>) {
    fs != [] && !fs[|fs| - 1].pipe && |fs[|fs| - 1].view| < fs[|fs| - 1].capacity
  }

  /** The tail will be reused for `n` bytes and needs no new storage for them. */
  predicate Fits(fs: seq<Facts>, n: nat) {
    HasRoom(fs) && |fs[|fs| - 1].read| + |fs[|fs| - 1].view| + n <= fs[|fs| - 1].capacity
  }

  /** The tail is a pipe. */
  predicate EndsInPipe(fs: seq<Facts>) {
    fs != [] && fs[|fs| - 1].pipe
  }

  /** The chunks a write leaves alone: all but a reused tail. */
  function Ahead(fs: seq<Facts>, reuse: bool): seq<Facts>
    requires reuse ==> fs != []
  {
    if reuse then fs[..|fs| - 1] else fs
  }

  /** The chunk a write starts from: the reused tail, or a new one. */
  function Tail(fs: seq<Facts>, reuse: bool, pipe: bool): Facts
    requires reuse ==> fs != []
  {
    if reuse then fs[|fs| - 1] else Fresh(pipe)
  }

  /** The chunk `f` became `f'` by having `more` put at its end. */
  ghost predicate Gained(f: Facts, more: seq<Byte>, f': Facts) {
    && f' == f.(view := f.view + more, errors := f'.errors, refusals := f'.refusals, capacity := f'.capacity)
    && f'.errors >= f.errors && f'.refusals >= f.refusals
  }

  /** `more` was put at the end of the tail, and nothing else happened. */
  ghost predicate Appended(fs: seq<Facts>, reuse: bool, pipe: bool, more: seq<Byte>, fs': seq<Facts>)
    requires reuse ==> fs != []
  {
    && |fs'| == |Ahead(fs, reuse)| + 1 && fs'[..|fs'| - 1] == Ahead(fs, reuse)
    && Gained(Tail(fs, reuse, pipe), more, fs'[|fs'| - 1])
  }

  /** The tail was refused memory. */
  ghost predicate Refused(fs: seq<Facts>, reuse: bool, fs': seq<Facts>)
    requires reuse ==> fs != []
  {
    fs' != [] && fs'[|fs'| - 1].refusals > Tail(fs, reuse, false).refusals
  }

  /** The kernel failed the tail `n` times. */
  ghost predicate FailedTail(fs: seq<Facts>, reuse: bool, fs': seq<Facts>, n: nat)
    requires reuse ==> fs != []
  {
    fs' != [] && fs'[|fs'| - 1].errors == Tail(fs, reuse, false).errors + n
  }

  /**
   * `write(const char*)`: all of `bytes` in a tail with room or in a new chunk, or nothing, but then
   * memory was refused, which cannot happen while they fit.
   */
  ghost predicate Stores(bytes: seq<Byte>, n: int, fs: seq<Facts>, fs': seq<Facts>) {
    && (n == |bytes| || n == 0)
    && Appended(fs, HasRoom(fs), false, bytes[..n], fs') && FailedTail(fs, HasRoom(fs), fs', 0)
    && (n < |bytes| ==> !Fits(fs, |bytes|) && Refused(fs, HasRoom(fs), fs'))
    && (bytes == [] && !HasRoom(fs) ==> fs'[|fs'| - 1].capacity == 0)
  }

  /** `write(Pipe*)` in COPY mode: up to `size` bytes in a buffer tail. */
  ghost predicate Receives(size: nat, available: nat, n: int, moved: seq<Byte>, fs: seq<Facts>, fs': seq<Facts>) {
    && Appended(fs, HasRoom(fs), false, moved, fs') && FailedTail(fs, HasRoom(fs), fs', 0)
    && |moved| <= Min(size, available) && (if moved != [] then n == |moved| else -1 <= n <= 0)
    && (n == 0 ==> size == 0 || available == 0 || Refused(fs, HasRoom(fs), fs'))
  }

  /** `write(Pipe*)` in MOVE mode, and `write(int)`: up to `size` bytes in a pipe tail. */
  ghost predicate Splices(size: nat, available: nat, n: int, moved: seq<Byte>, fs: seq<Facts>, fs': seq<Facts>) {
    && Appended(fs, EndsInPipe(fs), true, moved, fs')
    && FailedTail(fs, EndsInPipe(fs), fs', if n == -1 then 1 else 0)
    && (if n == -1 then moved == [] else n == |moved| && Served(n, available, size))
  }

  /**
   * Moving a pipe's `available` bytes keeps to the count it is given, whatever the kernel answers,
   * exactly where no more are there.
   */
  lemma MoveBoundedIff(size: nat, available: nat)
    ensures (forall n, moved, fs, fs' :: Splices(available, available, n, moved, fs, fs') ==> |moved| <= size)
            <==> available <= size
  {
    var moved: seq<Byte> := seq(available, _ => 'a');
    var fs' := [Fresh(true).(view := moved)];
    assert Splices(available, available, available, moved, [], fs');
  }

  /**
   * Copying from a pipe leaves it alone, whatever the kernel answers, exactly where nothing is asked
   * for or nothing is there.
   */
  lemma CopyLeavesSourceIff(size: nat, available: nat)
    ensures (forall n, moved, fs, fs' :: Receives(size, available, n, moved, fs, fs') ==> moved == [])
            <==> size == 0 || available == 0
  {
    if size > 0 && available > 0 {
      var fs' := [Fresh(false).(view := ['a'], capacity := 1)];
      assert Receives(size, available, 1, ['a'], [], fs');
    }
  }

  lemma AppendedLast(fs: seq<Facts>, reuse: bool, pipe: bool, more: seq<Byte>, fs': seq<Facts>)
    requires (reuse ==> fs != []) && Appended(fs, reuse, pipe, more, fs')
    ensures Held(fs') == Held(fs) + more
  {
    var k := |fs'| - 1;
    assert fs' == fs'[..k] + [fs'[k]];
    HeldSnoc(fs'[..k], fs'[k]);
    if reuse {
      assert fs == fs[..k] + [fs[k]];
      HeldSnoc(fs[..k], fs[k]);
      Associative(Held(fs[..k]), fs[k].view, more);
    }
  }

  lemma AppendedKeeps(fs: seq<Facts>, reuse: bool, pipe: bool, more: seq<Byte>, fs': seq<Facts>)
    requires (reuse ==> fs != []) && Appended(fs, reuse, pipe, more, fs')
    ensures more != [] && NoneEmpty(fs) ==> NoneEmpty(fs')
    ensures RestUntouched(fs) ==> RestUntouched(fs')
  {
    var k := |fs'| - 1;
    forall i | 0 <= i < k
      ensures fs'[i] == fs[i]
    {
      assert fs'[i] == fs'[..k][i];
    }
  }

  /** What was put at the end is held last, and a non-empty write makes no empty chunk. */
  lemma AppendedHeld(fs: seq<Facts>, reuse: bool, pipe: bool, more: seq<Byte>, fs': seq<Facts>)
    requires (reuse ==> fs != []) && Appended(fs, reuse, pipe, more, fs')
    ensures Held(fs') == Held(fs) + more
    ensures more != [] && NoneEmpty(fs) ==> NoneEmpty(fs')
    ensures RestUntouched(fs) ==> RestUntouched(fs')
  {
    AppendedLast(fs, reuse, pipe, more, fs');
    AppendedKeeps(fs, reuse, pipe, more, fs');
  }

  /** Appending to the tail after a new one was put there where needed: `fs1` is the list in between. */
  lemma AppendedBehind(fs: seq<Facts>, reuse: bool, pipe: bool, fs1: seq<Facts>, more: seq<Byte>, fs': seq<Facts>)
    requires reuse ==> fs != []
    requires Appended(fs, reuse, pipe, [], fs1) && Appended(fs1, true, pipe, more, fs')
    ensures Appended(fs, reuse, pipe, more, fs')
  {
    var k := |fs1| - 1;
    assert fs'[..k] == fs1[..k] == Ahead(fs, reuse);
    assert (Tail(fs, reuse, pipe).view + []) + more == Tail(fs, reuse, pipe).view + more;
  }

  /** What a write of `moved` does to the bytes held and to the shape of the stream. */
  ghost predicate Extends(fs: seq<Facts>, moved: seq<Byte>, fs': seq<Facts>) {
    && Held(fs') == Held(fs) + moved
    && (moved != [] && NoneEmpty(fs) ==> NoneEmpty(fs')) && (RestUntouched(fs) ==> RestUntouched(fs'))
  }

  lemma SplicesBehind(size: nat, available: nat, n: int, moved: seq<Byte>, fs: seq<Facts>, fs1: seq<Facts>,
                      fs': seq<Facts>)
    requires fs1 == if EndsInPipe(fs) then fs else fs + [Fresh(true)]
    requires Splices(size, available, n, moved, fs1, fs')
    ensures Splices(size, available, n, moved, fs, fs') && Extends(fs, moved, fs')
  {
    AppendedBehind(fs, EndsInPipe(fs), true, fs1, moved, fs');
    AppendedHeld(fs, EndsInPipe(fs), true, moved, fs');
  }

  /** The list after a buffer chunk has been put at its end where the tail has no room. */
  ghost predicate Roomed(fs: seq<Facts>, size: nat, fs1: seq<Facts>) {
    if HasRoom(fs) then fs1 == fs
    else
      && |fs1| == |fs| + 1 && fs1[..|fs|] == fs && fs1[|fs|].capacity <= size
      && fs1[|fs|] == Fresh(false).(refusals := fs1[|fs|].refusals, capacity := fs1[|fs|].capacity)
  }

  lemma RoomedByNew(fs: seq<Facts>, size: nat, f: Facts)
    requires !HasRoom(fs) && f == Fresh(false).(refusals := f.refusals, capacity := f.capacity) && f.capacity <= size
    ensures Roomed(fs, size, fs + [f])
  {
    var fs1 := fs + [f];
    assert fs1[..|fs|] == fs && fs1[|fs|] == f;
  }

  /** The tail became `f'` by a write of `bytes` that stored `n` of them. */
  lemma TailStored(init: seq<Facts>, f: Facts, bytes: seq<Byte>, n: int, f': Facts)
    requires (n == |bytes| || n == 0) && Gained(f, bytes[..n], f') && f'.errors == f.errors
    requires n < |bytes| ==> f'.refusals > f.refusals && |f.read| + |f.view| + |bytes| > f.capacity
    requires bytes == [] ==> f'.capacity == f.capacity
    ensures var fs, fs' := init + [f], init + [f'];
            && Appended(fs, true, false, bytes[..n], fs') && FailedTail(fs, true, fs', 0)
            && (n < |bytes| ==> Refused(fs, true, fs') && !Fits(fs, |bytes|))
            && (bytes == [] ==> fs'[|fs'| - 1].capacity == fs[|fs| - 1].capacity)
  {
    TailGained(init, f, false, bytes[..n], f');
  }

  lemma ReceivesBehind(size: nat, available: nat, n: int, moved: seq<Byte>, fs: seq<Facts>, fs1: seq<Facts>,
                       fs': seq<Facts>)
    requires Roomed(fs, size, fs1)
    requires Appended(fs1, true, false, moved, fs') && FailedTail(fs1, true, fs', 0)
    requires |moved| <= Min(size, available) && (if moved != [] then n == |moved| else -1 <= n <= 0)
    requires n == 0 ==> size == 0 || available == 0 || Refused(fs1, true, fs')
    ensures Receives(size, available, n, moved, fs, fs') && Extends(fs, moved, fs')
  {
    AppendedBehind(fs, HasRoom(fs), false, fs1, moved, fs');
    AppendedHeld(fs, HasRoom(fs), false, moved, fs');
  }

  lemma StoresBehind(bytes: seq<Byte>, n: int, fs: seq<Facts>, fs1: seq<Facts>, fs': seq<Facts>)
    requires Roomed(fs, |bytes|, fs1) && (n == |bytes| || n == 0)
    requires Appended(fs1, true, false, bytes[..n], fs') && FailedTail(fs1, true, fs', 0)
    requires n < |bytes| ==> Refused(fs1, true, fs') && !Fits(fs1, |bytes|)
    requires bytes == [] ==> fs'[|fs'| - 1].capacity == fs1[|fs1| - 1].capacity
    ensures Stores(bytes, n, fs, fs') && Extends(fs, bytes[..n], fs')
  {
    AppendedBehind(fs, HasRoom(fs), false, fs1, bytes[..n], fs');
    AppendedHeld(fs, HasRoom(fs), false, bytes[..n], fs');
  }

  /** The front chunk is empty, and no write will fill it. */
  predicate Blocked(fs: seq<Facts>) {
    fs != [] && fs[0].view == [] && (|fs| > 1 || (!fs[0].pipe && fs[0].capacity == 0))
  }

  /** A write of nothing to a stream without a chunk blocks it. */
  lemma EmptyWriteBlocks(n: int, fs': seq<Facts>)
    requires Stores([], n, [], fs')
    ensures n == 0 && Blocked(fs')
  {
  }

  /** A write to a blocked stream leaves it blocked. */
  lemma AppendedBlocked(fs: seq<Facts>, reuse: bool, pipe: bool, more: seq<Byte>, fs': seq<Facts>)
    requires Blocked(fs) && Appended(fs, reuse, pipe, more, fs') && (reuse ==> HasRoom(fs) || EndsInPipe(fs))
    ensures Blocked(fs')
  {
    assert fs'[0] == fs'[..|fs'| - 1][0];
  }

  /** No write whatever fills the front of a blocked stream, and some write does of any other with an empty front. */
  lemma BlockedIff(fs: seq<Facts>)
    requires Front(fs) == []
    ensures Blocked(fs) <==>
            && (forall bytes, n, fs' :: Stores(bytes, n, fs, fs') ==> Front(fs') == [])
            && (forall size, available, n, moved, fs' ::
                  Receives(size, available, n, moved, fs, fs') ==> Front(fs') == [])
            && (forall size, available, n, moved, fs' ::
                  Splices(size, available, n, moved, fs, fs') ==> Front(fs') == [])
  {
    if Blocked(fs) {
      forall bytes, n, fs' | Stores(bytes, n, fs, fs')
        ensures Front(fs') == []
      {
        AppendedBlocked(fs, HasRoom(fs), false, bytes[..n], fs');
      }
      forall size, available, n, moved, fs' | Receives(size, available, n, moved, fs, fs')
        ensures Front(fs') == []
      {
        AppendedBlocked(fs, HasRoom(fs), false, moved, fs');
      }
      forall size, available, n, moved, fs' | Splices(size, available, n, moved, fs, fs')
        ensures Front(fs') == []
      {
        AppendedBlocked(fs, EndsInPipe(fs), true, moved, fs');
      }
    } else if fs == [] || !fs[0].pipe {
      var tail := Tail(fs, fs != [], false);
      var fs' := [tail.(view := ['a'], capacity := 1)];
      assert tail.view + ['a'] == ['a'] && ['a'][..1] == ['a'];
      assert Stores(['a'], 1, fs, fs');
    } else {
      var fs' := [fs[0].(view := ['a'])];
      assert fs[0].view + ['a'] == ['a'];
      assert Splices(1, 1, 1, ['a'], fs, fs');
    }
  }

  /** The tail became `f'` by having `more` put at its end. */
  lemma TailGained(init: seq<Facts>, f: Facts, pipe: bool, more: seq<Byte>, f': Facts)
    requires Gained(f, more, f')
    ensures Appended(init + [f], true, pipe, more, init + [f'])
    ensures Tail(init + [f], true, pipe) == f
  {
    var fs, fs' := init + [f], init + [f'];
    assert fs[..|fs| - 1] == init && fs'[..|fs'| - 1] == init;
  }

  // ---------------------------------------------------------------- reading

  /** How many bytes come before the first empty chunk: what a read can get. */
  function Reach(fs: seq<Facts>): nat {
    if Front(fs) == [] then 0 else |fs[0].view| + Reach(fs[1..])
  }

  /** Everything that is held, if no chunk is empty. */
  lemma {:induction false} ReachOfFull(fs: seq<Facts>)
    ensures Reach(fs) <= |Held(fs)|
    ensures NoneEmpty(fs) ==> Reach(fs) == |Held(fs)|
  {
    if fs != [] {
      ReachOfFull(fs[1..]);
      if NoneEmpty(fs) {
        assert forall i :: 0 <= i < |fs[1..]| ==> fs[1..][i] == fs[i + 1];
        assert NoneEmpty(fs[1..]);
      }
    }
  }

  /** A chunk after `k` of its bytes have been read. */
  function Used(f: Facts, k: nat): Facts
    requires k <= |f.view|
  {
    f.(view := f.view[k..], read := if f.pipe then [] else f.read + f.view[..k])
  }

  /** The chunks after `k` bytes have been read from the front one, which goes when it is used up. */
  function Consume(fs: seq<Facts>, k: nat): seq<Facts> {
    if k > |Front(fs)| || fs == [] then fs
    else if k == |fs[0].view| then fs[1..]
    else [Used(fs[0], k)] + fs[1..]
  }

  /** The kernel failed the front chunk. */
  function Failed(fs: seq<Facts>): seq<Facts> {
    if fs == [] then [] else [fs[0].(errors := fs[0].errors + 1)] + fs[1..]
  }

  /** The chunks after turns that read `lens` bytes each from what was then the front chunk. */
  function After(fs: seq<Facts>, lens: seq<nat>): seq<Facts>
    decreases |lens|
  {
    if lens == [] then fs else Consume(After(fs, lens[..|lens| - 1]), lens[|lens| - 1])
  }

  /** Every turn reads something the front chunk then has. */
  predicate Legal(fs: seq<Facts>, lens: seq<nat>)
    decreases |lens|
  {
    lens == [] ||
    var k := |lens| - 1;
    Legal(fs, lens[..k]) && 0 < lens[k] <= |Front(After(fs, lens[..k]))|
  }

  /** The bytes that left the stream, turn by turn. */
  function Gone(fs: seq<Facts>, lens: seq<nat>): (r: seq<seq<Byte>>)
    requires Legal(fs, lens)
    ensures |r| == |lens|
    decreases |lens|
  {
    if lens == [] then []
    else
      var k := |lens| - 1;
      Gone(fs, lens[..k]) + [Front(After(fs, lens[..k]))[..lens[k]]]
  }

  /** What a chunk hands to a descriptor for `k` unread bytes: a buffer chunk sends from the start of its block. */
  function SentBy(f: Facts, k: nat): seq<Byte>
    requires k <= |f.view|
  {
    if f.pipe then f.view[..k] else (f.read + f.view)[..k]
  }

  /** The bytes that were sent to a descriptor, turn by turn. */
  function Sent(fs: seq<Facts>, lens: seq<nat>): (r: seq<seq<Byte>>)
    requires Legal(fs, lens)
    ensures |r| == |lens|
    decreases |lens|
  {
    if lens == [] then []
    else
      var k := |lens| - 1;
      Sent(fs, lens[..k]) + [SentBy(After(fs, lens[..k])[0], lens[k])]
  }

  /** Every turn reads as much as is wanted or as the front chunk has. */
  predicate Greedy(fs: seq<Facts>, size: nat, lens: seq<nat>)
    decreases |lens|
  {
    lens == [] ||
    var k := |lens| - 1;
    && Greedy(fs, size, lens[..k])
    && lens[k] == Min(size - Total(lens[..k]), |Front(After(fs, lens[..k]))|)
  }

  /** A turn of a `char*` read: a buffer chunk gives all that is wanted or there, only a pipe may give less. */
  predicate CharLength(fs: seq<Facts>, rest: int, k: nat) {
    fs != [] && (fs[0].pipe || k == Min(rest, |fs[0].view|))
  }

  predicate CharLengths(fs: seq<Facts>, size: nat, lens: seq<nat>)
    decreases |lens|
  {
    lens == [] ||
    var k := |lens| - 1;
    CharLengths(fs, size, lens[..k]) && CharLength(After(fs, lens[..k]), size - Total(lens[..k]), lens[k])
  }

  lemma CharLengthsStep(fs: seq<Facts>, size: nat, lens: seq<nat>, k: nat)
    requires CharLengths(fs, size, lens) && CharLength(After(fs, lens), size - Total(lens), k)
    ensures CharLengths(fs, size, lens + [k])
  {
    var all := lens + [k];
    assert all[..|lens|] == lens && all[|lens|] == k;
  }

  /** One more turn. */
  lemma TurnStep(fs: seq<Facts>, lens: seq<nat>, k: nat)
    requires Legal(fs, lens) && 0 < k <= |Front(After(fs, lens))|
    ensures Legal(fs, lens + [k]) && After(fs, lens + [k]) == Consume(After(fs, lens), k)
    ensures Gone(fs, lens + [k]) == Gone(fs, lens) + [Front(After(fs, lens))[..k]]
    ensures Sent(fs, lens + [k]) == Sent(fs, lens) + [SentBy(After(fs, lens)[0], k)]
    ensures Total(lens + [k]) == Total(lens) + k
  {
    var all := lens + [k];
    assert all[..|lens|] == lens && all[|lens|] == k;
  }

  lemma GreedyStep(fs: seq<Facts>, size: nat, lens: seq<nat>, k: nat)
    requires Greedy(fs, size, lens) && k == Min(size - Total(lens), |Front(After(fs, lens))|)
    ensures Greedy(fs, size, lens + [k])
  {
    var all := lens + [k];
    assert all[..|lens|] == lens && all[|lens|] == k;
  }

  lemma HeldCons(f: Facts, rest: seq<Facts>)
    ensures Held([f] + rest) == f.view + Held(rest)
  {
    assert ([f] + rest)[1..] == rest;
  }

  lemma SplitAt(view: seq<Byte>, k: nat, rest: seq<Byte>)
    requires k <= |view|
    ensures view + rest == view[..k] + (view[k..] + rest)
  {
  }

  lemma ConsumeHeld(fs: seq<Facts>, k: nat)
    requires k <= |Front(fs)|
    ensures Held(fs) == Front(fs)[..k] + Held(Consume(fs, k))
  {
    if fs != [] && k < |fs[0].view| {
      HeldCons(Used(fs[0], k), fs[1..]);
      SplitAt(fs[0].view, k, Held(fs[1..]));
    }
  }

  lemma ConsumeKeeps(fs: seq<Facts>, k: nat)
    requires k <= |Front(fs)|
    ensures NoneEmpty(fs) ==> NoneEmpty(Consume(fs, k))
    ensures OnlyBuffers(fs) ==> OnlyBuffers(Consume(fs, k))
    ensures RestUntouched(fs) ==> RestUntouched(Consume(fs, k))
  {
  }

  /** Whatever the turns, what was held is, in order, what has left and what is held, and no empty chunk appears. */
  lemma {:induction false} AfterHeld(fs: seq<Facts>, lens: seq<nat>)
    requires Legal(fs, lens)
    ensures Held(fs) == Joined(Gone(fs, lens)) + Held(After(fs, lens))
    ensures |Joined(Gone(fs, lens))| == Total(lens)
    ensures NoneEmpty(fs) ==> NoneEmpty(After(fs, lens))
    ensures OnlyBuffers(fs) ==> OnlyBuffers(After(fs, lens))
    ensures RestUntouched(fs) ==> RestUntouched(After(fs, lens))
    decreases |lens|
  {
    if lens != [] {
      var k := |lens| - 1;
      AfterHeld(fs, lens[..k]);
      ConsumeHeld(After(fs, lens[..k]), lens[k]);
      ConsumeKeeps(After(fs, lens[..k]), lens[k]);
      JoinedSnoc(Gone(fs, lens[..k]), Front(After(fs, lens[..k]))[..lens[k]]);
    }
  }

  lemma ConsumeReach(fs: seq<Facts>, k: nat)
    requires 0 < k <= |Front(fs)|
    ensures Reach(fs) == k + Reach(Consume(fs, k))
  {
    if k < |fs[0].view| {
      var fs' := Consume(fs, k);
      assert fs'[0] == Used(fs[0], k) && fs'[1..] == fs[1..];
    }
  }

  lemma {:induction false} AfterReach(fs: seq<Facts>, lens: seq<nat>)
    requires Legal(fs, lens)
    ensures Reach(fs) == Total(lens) + Reach(After(fs, lens))
    decreases |lens|
  {
    if lens != [] {
      var k := |lens| - 1;
      AfterReach(fs, lens[..k]);
      ConsumeReach(After(fs, lens[..k]), lens[k]);
    }
  }

  lemma {:induction false} FirstPiece(fs: seq<Facts>, lens: seq<nat>)
    requires Legal(fs, lens) && lens != []
    ensures 0 < lens[0] <= |Front(fs)| && Gone(fs, lens)[0] == Front(fs)[..lens[0]]
    decreases |lens|
  {
    var k := |lens| - 1;
    if k == 0 {
      assert lens[..0] == [];
    } else {
      FirstPiece(fs, lens[..k]);
    }
  }

  /** No turn gets anything from an empty front chunk. */
  lemma NoTurnAtEmptyFront(fs: seq<Facts>, lens: seq<nat>)
    requires Legal(fs, lens)
    ensures lens == [] || Front(fs) != []
  {
    if lens != [] {
      FirstPiece(fs, lens);
    }
  }

  /** One turn of a read, that took `rv` bytes or failed. */
  ghost predicate Turn(fs: seq<Facts>, n: nat, rv: int, fs': seq<Facts>) {
    if rv == -1 then fs' == Failed(fs) else 0 < rv <= Min(n, |Front(fs)|) && fs' == Consume(fs, rv)
  }

  /** `read()`: the next byte as a signed number, or -1 where there is none or the kernel fails a pipe. */
  ghost predicate ReadsByte(fs: seq<Facts>, ch: int, fs': seq<Facts>) {
    if Front(fs) == [] then ch == -1 && fs' == fs
    else
      || (ch == Signed(Front(fs)[0]) && fs' == Consume(fs, 1))
      || (fs[0].pipe && ch == -1 && fs' == Failed(fs))
  }

  /** A read ends when nothing more is wanted or the front chunk has nothing. */
  predicate Ended(fs: seq<Facts>, size: nat, lens: seq<nat>) {
    Total(lens) == size || Front(After(fs, lens)) == []
  }

  /**
   * `read(int)`: turns until `size` bytes have left or the front chunk is empty, unless the kernel
   * fails the front chunk, which is counted there.
   */
  ghost predicate Reads(fs: seq<Facts>, size: nat, n: int, lens: seq<nat>, fs': seq<Facts>) {
    && Legal(fs, lens) && Total(lens) <= size
    && (|| (fs' == After(fs, lens) && Ended(fs, size, lens) && n == Total(lens))
        || (&& !Ended(fs, size, lens) && fs' == Failed(After(fs, lens))
            && n == if lens == [] then -1 else Total(lens)))
  }

  /** `read(char*)`: such turns, which only a pipe cuts short, by giving less or by failing. */
  ghost predicate ReadsChars(fs: seq<Facts>, size: nat, n: int, lens: seq<nat>, fs': seq<Facts>) {
    && Reads(fs, size, n, lens, fs') && CharLengths(fs, size, lens)
    && var now := After(fs, lens); fs' == now || (now != [] && now[0].pipe)
  }

  lemma FailedHeld(fs: seq<Facts>)
    ensures Held(Failed(fs)) == Held(fs) && Front(Failed(fs)) == Front(fs)
    ensures NoneEmpty(Failed(fs)) <==> NoneEmpty(fs)
    ensures RestUntouched(Failed(fs)) <==> RestUntouched(fs)
    ensures fs != [] ==> Failed(fs) != fs
  {
    if fs != [] {
      assert Failed(fs)[1..] == fs[1..];
    }
  }

  /**
   * What a read means: the bytes leave in order, no empty chunk appears, and unless the kernel fails
   * all has left that was asked for and stood before the first empty chunk.
   */
  ghost predicate Yields(fs: seq<Facts>, size: nat, n: int, lens: seq<nat>, fs': seq<Facts>) {
    && Legal(fs, lens) && Held(fs) == Joined(Gone(fs, lens)) + Held(fs')
    && (if lens == [] then -1 <= n <= 0 else n == Total(lens) == |Joined(Gone(fs, lens))|)
    && (NoneEmpty(fs) ==> NoneEmpty(fs')) && (RestUntouched(fs) ==> RestUntouched(fs'))
    && (Ended(fs, size, lens) ==> n == Min(size, Reach(fs)))
  }

  lemma ReadsYields(fs: seq<Facts>, size: nat, n: int, lens: seq<nat>, fs': seq<Facts>)
    requires Reads(fs, size, n, lens, fs')
    ensures Yields(fs, size, n, lens, fs')
  {
    AfterHeld(fs, lens);
    AfterReach(fs, lens);
    FailedHeld(After(fs, lens));
  }

  /**
   * `read(Pipe*)` of a drainable request: turns as in `read(int)`, except that a failure is the
   * target's and leaves the chunks alone; `failed` says that there was one.
   */
  ghost predicate Drains(fs: seq<Facts>, size: nat, n: int, lens: seq<nat>, fs': seq<Facts>, failed: bool) {
    && Legal(fs, lens) && Total(lens) <= size && fs' == After(fs, lens)
    && (if Ended(fs, size, lens) then !failed && n == Total(lens)
        else failed && n == if lens == [] then -1 else Total(lens))
  }

  // ---------------------------------------------------------------- all reads

  /** What was held and is not any more. */
  function Missing(fs: seq<Facts>, fs': seq<Facts>): seq<Byte> {
    if |Held(fs')| <= |Held(fs)| then Held(fs)[..|Held(fs)| - |Held(fs')|] else []
  }

  /** Something left from the front, and no empty chunk appeared. */
  ghost predicate Shrinks(fs: seq<Facts>, fs': seq<Facts>) {
    Held(fs) == Missing(fs, fs') + Held(fs') && (NoneEmpty(fs) ==> NoneEmpty(fs'))
  }

  lemma GoneIsMissing(fs: seq<Facts>, gone: seq<Byte>, fs': seq<Facts>)
    requires Held(fs) == gone + Held(fs')
    ensures Missing(fs, fs') == gone
  {
  }

  lemma ReadsShrinks(fs: seq<Facts>, size: nat, n: int, lens: seq<nat>, fs': seq<Facts>)
    requires Reads(fs, size, n, lens, fs')
    ensures Shrinks(fs, fs') && Missing(fs, fs') == Joined(Gone(fs, lens)) && |Missing(fs, fs')| == Max(n, 0)
  {
    ReadsYields(fs, size, n, lens, fs');
    GoneIsMissing(fs, Joined(Gone(fs, lens)), fs');
  }

  lemma DrainsYields(fs: seq<Facts>, size: nat, n: int, lens: seq<nat>, fs': seq<Facts>, failed: bool)
    requires Drains(fs, size, n, lens, fs', failed)
    ensures Yields(fs, size, n, lens, fs')
  {
    AfterHeld(fs, lens);
    AfterReach(fs, lens);
  }

  lemma DrainsShrinks(fs: seq<Facts>, size: nat, n: int, lens: seq<nat>, fs': seq<Facts>, failed: bool)
    requires Drains(fs, size, n, lens, fs', failed)
    ensures Shrinks(fs, fs') && Missing(fs, fs') == Joined(Gone(fs, lens)) && |Missing(fs, fs')| == Max(n, 0)
  {
    AfterHeld(fs, lens);
    GoneIsMissing(fs, Joined(Gone(fs, lens)), fs');
  }

  lemma ByteShrinks(fs: seq<Facts>, ch: int, fs': seq<Facts>)
    requires ReadsByte(fs, ch, fs')
    ensures Shrinks(fs, fs')
    ensures Missing(fs, fs') == [] || (Front(fs) != [] && Missing(fs, fs') == [Front(fs)[0]])
  {
    FailedHeld(fs);
    if Front(fs) != [] {
      ConsumeHeld(fs, 1);
      ConsumeKeeps(fs, 1);
    }
    GoneIsMissing(fs, if fs' == Consume(fs, 1) && Front(fs) != [] then Front(fs)[..1] else [], fs');
  }

  /** One byte left and was returned, or none did and -1 was. */
  lemma ByteStep(all: seq<Byte>, taken: seq<Byte>, fs: seq<Facts>, ch: int, fs': seq<Facts>)
    requires ReadsByte(fs, ch, fs') && all == taken + Held(fs)
    ensures var gone := Missing(fs, fs');
            && all == (taken + gone) + Held(fs')
            && (if gone == [] then ch == -1 && (Front(fs') == [] || (fs[0].pipe && fs' == Failed(fs)))
                else |gone| == 1 && ch == Signed(gone[0]) && |Held(fs')| < |Held(fs)|)
    ensures NoneEmpty(fs) ==> NoneEmpty(fs')
    ensures OnlyBuffers(fs) ==> OnlyBuffers(fs')
  {
    ByteShrinks(fs, ch, fs');
    QueueStep(all, taken, Held(fs), [], Missing(fs, fs'), Held(fs'));
    FailedHeld(fs);
    if Front(fs) != [] {
      ConsumeHeld(fs, 1);
      ConsumeKeeps(fs, 1);
    }
  }

  lemma DropShrinks(fs: seq<Facts>)
    requires fs != []
    ensures Shrinks(fs, fs[1..]) && Missing(fs, fs[1..]) == fs[0].view
  {
    GoneIsMissing(fs, fs[0].view, fs[1..]);
  }
}
