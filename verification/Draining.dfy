/** Draining a `ChunkedStream` into a pipe: a loop that a pipe chunk brings to a standstill. */
module Draining {
  import opened Bytes
  import opened ChunkFacts

  /** One turn of the loop in `read(Pipe*)`: a pipe chunk transfers nothing and says so with 0. */
  ghost predicate PipeTurn(fs: seq<Facts>, n: nat, rv: int, fs': seq<Facts>) {
    && fs != [] && fs[0].view != [] && n > 0
    && if fs[0].pipe then rv == 0 && fs' == fs
       else if rv == -1 then fs' == fs
       else 0 < rv <= Min(n, |fs[0].view|) && fs' == Consume(fs, rv)
  }

  /**
   * A drain of `size` bytes into a pipe meets no pipe chunk on its way: it is satisfied, runs out of
   * chunks, or stops at an empty one before.
   */
  predicate Drainable(fs: seq<Facts>, size: nat) {
    size == 0 || fs == [] || fs[0].view == [] || (!fs[0].pipe && Drainable(fs[1..], Max(0, size - |fs[0].view|)))
  }

  /** Chunk `k` is a pipe with bytes; before it are buffers only, none empty, that together hold less than `size`. */
  ghost predicate PipeInTheWay(fs: seq<Facts>, size: nat, k: nat) {
    k < |fs| && fs[k].pipe && fs[k].view != [] && OnlyBuffers(fs[..k]) && NoneEmpty(fs[..k]) && |Held(fs[..k])| < size
  }

  /** A drain is drainable if and only if no pipe is in its way. */
  lemma {:induction false} DrainableIff(fs: seq<Facts>, size: nat)
    ensures Drainable(fs, size) <==> !exists k: nat :: PipeInTheWay(fs, size, k)
  {
    if fs != [] {
      DrainableIff(fs[1..], Max(0, size - |fs[0].view|));
      forall k: nat
        ensures PipeInTheWay(fs, size, k) <==>
                if k == 0 then size > 0 && fs[0].pipe && fs[0].view != []
                else fs[0].view != [] && !fs[0].pipe && |fs[0].view| < size &&
                     PipeInTheWay(fs[1..], size - |fs[0].view|, k - 1)
      {
        PipeInTheWayStep(fs, size, k);
      }
      if !Drainable(fs, size) {
        if fs[0].pipe {
          assert PipeInTheWay(fs, size, 0);
        } else {
          var k: nat :| PipeInTheWay(fs[1..], Max(0, size - |fs[0].view|), k);
          assert PipeInTheWay(fs, size, k + 1);
        }
      }
    }
  }

  lemma PipeInTheWayStep(fs: seq<Facts>, size: nat, k: nat)
    requires fs != []
    ensures PipeInTheWay(fs, size, k) <==>
            if k == 0 then size > 0 && fs[0].pipe && fs[0].view != []
            else fs[0].view != [] && !fs[0].pipe && |fs[0].view| < size &&
                 PipeInTheWay(fs[1..], size - |fs[0].view|, k - 1)
  {
    if 0 < k < |fs| {
      var a, b := fs[..k], fs[1..][..k - 1];
      assert a[1..] == b && a[0] == fs[0] && fs[1..][k - 1] == fs[k];
      assert Held(a) == fs[0].view + Held(b);
      assert OnlyBuffers(a) <==> !fs[0].pipe && OnlyBuffers(b) by {
        assert forall i :: 0 < i < |a| ==> a[i] == b[i - 1];
        assert forall i :: 0 <= i < |b| ==> b[i] == a[i + 1];
      }
      assert NoneEmpty(a) <==> fs[0].view != [] && NoneEmpty(b) by {
        assert forall i :: 0 < i < |a| ==> a[i] == b[i - 1];
        assert forall i :: 0 <= i < |b| ==> b[i] == a[i + 1];
      }
    }
  }

  /** No turn that did not fail changes whether a drain is drainable. */
  lemma PipeTurnKeeps(fs: seq<Facts>, n: nat, rv: int, fs': seq<Facts>)
    requires PipeTurn(fs, n, rv, fs') && rv >= 0
    ensures Drainable(fs', n - rv) <==> Drainable(fs, n)
    ensures rv == 0 ==> !Drainable(fs, n)
  {
    if !fs[0].pipe && rv < |fs[0].view| {
      assert fs'[1..] == fs[1..];
    }
  }

  /** The loop goes round: `fss[i]` and `ns[i]` are the chunks and the bytes wanted before turn `i`. */
  ghost predicate Rounds(fss: seq<seq<Facts>>, ns: seq<nat>, rvs: seq<int>) {
    && |fss| == |ns| == |rvs| + 1
    && forall i :: 0 <= i < |rvs| ==>
         PipeTurn(fss[i], ns[i], rvs[i], fss[i + 1]) && rvs[i] >= 0 && ns[i + 1] == ns[i] - rvs[i]
  }

  /** The guard of the loop. */
  predicate GoesOn(fs: seq<Facts>, n: nat) {
    Front(fs) != [] && n > 0
  }

  /**
   * The loop in `read(Pipe*)`, as long as the kernel fails nothing: a drainable request ends within
   * as many turns as there are bytes wanted; of any other, no number of turns brings the end.
   */
  lemma {:induction false} EndsIffDrainable(fss: seq<seq<Facts>>, ns: seq<nat>, rvs: seq<int>)
    requires Rounds(fss, ns, rvs)
    ensures Drainable(fss[|rvs|], ns[|rvs|]) <==> Drainable(fss[0], ns[0])
    ensures !Drainable(fss[0], ns[0]) ==> GoesOn(fss[|rvs|], ns[|rvs|])
    ensures Drainable(fss[0], ns[0]) ==> |rvs| + ns[|rvs|] <= ns[0]
    decreases |rvs|
  {
    if rvs != [] {
      var k := |rvs| - 1;
      EndsIffDrainable(fss[..k + 1], ns[..k + 1], rvs[..k]);
      PipeTurnKeeps(fss[k], ns[k], rvs[k], fss[k + 1]);
    }
  }

  lemma DrainableStep(fs: seq<Facts>, n: nat, k: nat)
    requires Drainable(fs, n) && 0 < k <= Min(n, |Front(fs)|)
    ensures Drainable(Consume(fs, k), n - k)
  {
    PipeTurnKeeps(fs, n, k, Consume(fs, k));
  }

  /** A drainable request stays so over any turns within it. */
  lemma {:induction false} DrainableAfter(fs: seq<Facts>, size: nat, lens: seq<nat>)
    requires Drainable(fs, size) && Legal(fs, lens) && Total(lens) <= size
    ensures Drainable(After(fs, lens), size - Total(lens))
    decreases |lens|
  {
    if lens != [] {
      var k := |lens| - 1;
      var now, rest := After(fs, lens[..k]), size - Total(lens[..k]);
      DrainableAfter(fs, size, lens[..k]);
      DrainableStep(now, rest, lens[k]);
      assert size - Total(lens) == rest - lens[k];
    }
  }
}
