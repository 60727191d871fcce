/**
 * The C library and kernel services the containers stand on. A kernel queue (a pipe, a socket, a
 * file read front to back) is a sequence of bytes. Each service answers with any result its manual
 * page allows: an error, or any count from one byte up to what was asked for and is there.
 */
module SystemCalls {
  import opened Bytes

  /** Any count the kernel may serve: none only if there is nothing to serve. */
  method Count(available: nat) returns (k: nat)
    ensures k <= available
    ensures k == 0 ==> available == 0
  {
    if available == 0 {
      k := 0;
    } else {
      k :| 1 <= k <= available;
    }
  }

  /** realloc: the block may move; its common prefix survives and new bytes are indeterminate. */
  method Realloc(block: seq<Byte>, n: nat) returns (ok: bool, moved: seq<Byte>)
    requires n > 0
    ensures ok ==> |moved| == n && moved[..Min(n, |block|)] == block[..Min(n, |block|)]
    ensures !ok ==> moved == block
  {
    ok := *;
    if !ok {
      moved := block;
    } else if n <= |block| {
      moved := block[..n];
    } else {
      moved := block + seq(n - |block|, _ => '\0');
    }
  }

  /**
   * read(2), and splice(2) out of a queue. `faults` bounds how often the kernel may still answer
   * with an error although bytes are waiting; `left` is that bound after the call.
   */
  method Read(queue: seq<Byte>, n: nat, faults: nat := 1)
    returns (rv: int, got: seq<Byte>, rest: seq<Byte>, left: nat)
    ensures queue == got + rest
    ensures rv == -1 || rv == |got|
    ensures |got| <= n && (rv == -1 ==> got == [])
    ensures rv == 0 ==> n == 0 || queue == []
    ensures left <= faults && (rv == -1 && queue != [] ==> left < faults)
  {
    var fails: bool := *;
    if n > 0 && queue == [] {
      rv, got, rest, left := if fails then -1 else 0, [], queue, faults;
    } else if fails && faults > 0 {
      rv, got, rest, left := -1, [], queue, faults - 1;
    } else {
      var k := Count(Min(n, |queue|));
      rv, got, rest, left := k, queue[..k], queue[k..], faults;
    }
  }

  /** write(2): a prefix of `bytes` is appended to the queue. */
  method Write(queue: seq<Byte>, bytes: seq<Byte>) returns (rv: int, after: seq<Byte>)
    ensures -1 <= rv <= |bytes|
    ensures after == queue + (if rv > 0 then bytes[..rv] else [])
    ensures rv == 0 ==> bytes == []
  {
    var fails: bool := *;
    if fails {
      rv, after := -1, queue;
    } else {
      rv := Count(|bytes|);
      after := queue + bytes[..rv];
    }
  }

  /** splice(2) between two queues: a prefix of at most `n` bytes changes sides. */
  method Splice(source: seq<Byte>, target: seq<Byte>, n: nat)
    returns (rv: int, source': seq<Byte>, target': seq<Byte>, ghost moved: seq<Byte>)
    ensures source == moved + source' && target' == target + moved
    ensures rv == -1 || rv == |moved|
    ensures |moved| <= n && (rv == -1 ==> moved == [])
    ensures rv == 0 ==> n == 0 || source == []
  {
    var k, got, rest, _ := Read(source, n);
    rv, source', target', moved := k, rest, target + got, got;
  }

  /** tee(2): a prefix of at most `n` bytes is appended to the target and stays in the source. */
  method Tee(source: seq<Byte>, target: seq<Byte>, n: nat) returns (rv: int, target': seq<Byte>)
    ensures -1 <= rv <= Min(n, |source|)
    ensures target' == target + (if rv > 0 then source[..rv] else [])
    ensures rv == 0 ==> n == 0 || source == []
  {
    var k, got, _, _ := Read(source, n);
    rv, target' := k, target + got;
  }
}
