/** The loop `Pipe::read(Buffer&)` and `Socket::read(Buffer&)` share: growing a buffer while reading into it. */
module Fill {
  import opened Bytes
  import opened Buffers
  import SystemCalls

  /** The capacity the loop asks for; `size * 1.5` is exact for sizes below 2^52. */
  function Wanted(size: nat): nat {
    Max(4096, size * 3 / 2)
  }

  /**
   * Whenever the loop decides to grow, the request exceeds the capacity, and granting it leaves at
   * least 1365 free bytes. 1365 cannot be improved: it is what a buffer of 2731 bytes gets.
   */
  lemma GrowthMakesRoom(size: nat, capacity: nat)
    requires size <= capacity < size + 256
    ensures Wanted(size) > capacity
    ensures Padded(capacity, Wanted(size)) - size >= 1365
    ensures size == 2731 ==> Padded(capacity, Wanted(size)) - size == 1365
  {
    PaddedIsLeast(capacity, Wanted(size));
    if size == 2731 {
      assert (4096 - 1) % 4096 == 4095;
    }
  }

  /** The growth step at the top of the loop. */
  method MakeRoom(result: Buffer) returns (ok: bool)
    requires result.Usable()
    modifies result
    ensures result.Usable() && result.size == old(result.size) && result.Contents() == old(result.Contents())
    ensures ok ==> result.Capacity() - result.size >= 256
    ensures result.refusals == old(result.refusals) + if ok then 0 else 1
    ensures ok && old(result.Capacity() - result.size) < 256 ==> result.Capacity() - result.size >= 1365
  {
    ok := true;
    if result.Capacity() - result.size < 256 {
      GrowthMakesRoom(result.size, result.Capacity());
      ok := result.Reserve(Max(4096, result.size * 3 / 2));
    }
  }

  /** One read of at most `nbytes` into the free room of the buffer. */
  method ReadOnce(result: Buffer, source: seq<Byte>, nbytes: nat)
    returns (rv: int, rest: seq<Byte>, ghost got: seq<Byte>)
    requires result.Usable() && 0 < nbytes <= result.Capacity() - result.size
    modifies result
    ensures result.Usable() && result.Capacity() == old(result.Capacity()) && result.refusals == old(result.refusals)
    ensures source == got + rest && result.Contents() == old(result.Contents()) + got
    ensures |got| <= nbytes && (if got != [] then rv == |got| else -1 <= rv <= 0)
    ensures rv == 0 ==> source == []
  {
    var k, bytes, rest', _ := SystemCalls.Read(source, nbytes);
    rv, rest, got := k, rest', bytes;
    if rv > 0 {
      result.Extend(bytes);
    }
  }

  /** One read the loop issued: what it asked for, the room there was, what was still wanted, and the answer. */
  datatype Issue = Issue(count: nat, room: nat, wanted: nat, rv: int, got: seq<Byte>)

  function Received(issues: seq<Issue>): seq<Byte> {
    if issues == [] then [] else Received(issues[..|issues| - 1]) + issues[|issues| - 1].got
  }

  /** The last read, if there was one, was not served in full. */
  predicate EndedShort(issues: seq<Issue>) {
    issues != [] && |issues[|issues| - 1].got| < issues[|issues| - 1].count
  }

  /** A read for a positive count, the smaller of the room and of what is still wanted. */
  predicate Sensible(i: Issue) {
    && 0 < i.count == Min(i.room, i.wanted)
    && |i.got| <= i.count && (if i.got != [] then i.rv == |i.got| else -1 <= i.rv <= 0)
  }

  /** Every read is sensible and wants all that the earlier ones left over, and all but the last were served in full. */
  predicate Issued(issues: seq<Issue>, size: nat)
    decreases |issues|
  {
    issues == [] ||
    var k := |issues| - 1;
    && Issued(issues[..k], size) && !EndedShort(issues[..k])
    && Sensible(issues[k]) && issues[k].wanted == size - |Received(issues[..k])|
  }

  /** What was read left the front of `source` and follows `before` in the buffer. */
  ghost predicate Transferred(issues: seq<Issue>, source: seq<Byte>, rest: seq<Byte>, before: seq<Byte>,
                              now: seq<Byte>) {
    source == Received(issues) + rest && now == before + Received(issues)
  }

  lemma IssuedStep(issues: seq<Issue>, size: nat, i: Issue, source: seq<Byte>, rest: seq<Byte>, rest': seq<Byte>,
                   before: seq<Byte>, now: seq<Byte>)
    requires Issued(issues, size) && !EndedShort(issues)
    requires Sensible(i) && i.wanted == size - |Received(issues)|
    requires Transferred(issues, source, rest, before, now) && rest == i.got + rest'
    ensures Issued(issues + [i], size) && |Received(issues + [i])| == |Received(issues)| + |i.got|
    ensures Transferred(issues + [i], source, rest', before, now + i.got)
  {
    assert (issues + [i])[..|issues|] == issues;
    assert Received(issues + [i]) == Received(issues) + i.got;
  }

  /** One turn of the loop: make room, then read once. */
  method Turn(result: Buffer, source: seq<Byte>, remaining: nat)
    returns (ok: bool, rv: int, short: bool, rest: seq<Byte>, ghost issue: Issue)
    requires result.Usable() && remaining > 0
    modifies result
    ensures result.Usable() && result.Contents() == old(result.Contents()) + issue.got
    ensures result.refusals == old(result.refusals) + if ok then 0 else 1
    ensures source == issue.got + rest && rv == issue.rv && short == (|issue.got| < issue.count)
    ensures ok ==> Sensible(issue) && issue.wanted == remaining
    ensures !ok ==> rv == -1 && issue.got == [] && rest == source && result.Contents() == old(result.Contents())
    ensures rv == 0 ==> source == []
  {
    ok := MakeRoom(result);
    if !ok {
      return ok, -1, false, source, Issue(0, 0, 0, -1, []);
    }
    ghost var got;
    ghost var room := result.Capacity() - result.size;
    var nbytes: nat := Min(result.Capacity() - result.size, remaining);
    rv, rest, got := ReadOnce(result, source, nbytes);
    short, issue := rv < nbytes, Issue(nbytes, room, remaining, rv, got);
  }

  /**
   * Appends bytes from the front of `source` to `result`. It ends with `size` bytes, with a read that
   * was not served in full, or with a refusal of the allocator.
   */
  method FillFrom(result: Buffer, source: seq<Byte>, size: nat)
    returns (n: int, rest: seq<Byte>, ghost issues: seq<Issue>)
    requires result.Usable()
    modifies result
    ensures result.Usable() && Issued(issues, size)
    ensures Transferred(issues, source, rest, old(result.Contents()), result.Contents())
    ensures if Received(issues) != [] then n == |Received(issues)| <= size else -1 <= n <= 0
    ensures result.refusals >= old(result.refusals)
    ensures |Received(issues)| == size || EndedShort(issues) || result.refusals > old(result.refusals)
    ensures n == 0 ==> size == 0 || source == []
    ensures n == -1 ==> result.refusals > old(result.refusals) || (issues != [] && issues[|issues| - 1].rv == -1)
  {
    var remaining: nat := size;
    ghost var before := result.Contents();
    n, rest, issues := 0, source, [];
    while remaining > 0
      invariant result.Usable() && result.refusals == old(result.refusals)
      invariant Transferred(issues, source, rest, before, result.Contents())
      invariant n == |Received(issues)| && n + remaining == size
      invariant Issued(issues, size) && !EndedShort(issues)
      decreases remaining
    {
      ghost var now := result.Contents();
      var ok, rv, short, rest', issue := Turn(result, rest, remaining);
      if !ok {
        n := if n != 0 then n else -1;
        return;
      }
      IssuedStep(issues, size, issue, source, rest, rest', before, now);
      rest, issues := rest', issues + [issue];
      if rv <= 0 {
        n := if n != 0 then n else rv;
        return;
      }
      remaining, n := remaining - rv, n + rv;
      if short {
        return;
      }
    }
  }
}
