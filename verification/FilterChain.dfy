/** `FilterStream::process`: a chain of filters run over two buffers that change places. */
module FilterChain {
  import opened Bytes
  import opened Buffers

  /** A filter, as its interface promises: what it appends to its output depends on its input. */
  type Filter = seq<Byte> -> seq<Byte>

  /** The intended meaning: each filter works on the result of the one before. */
  function Composed(filters: seq<Filter>, input: seq<Byte>): seq<Byte> {
    if filters == [] then input
    else filters[|filters| - 1](Composed(filters[..|filters| - 1], input))
  }

  /**
   * What the loop computes after `k` filters: the buffer that receives the k-th result still holds
   * the result of two filters before.
   */
  function Accumulated(filters: seq<Filter>, input: seq<Byte>, k: nat): seq<Byte>
    requires k <= |filters|
  {
    if k == 0 then []
    else if k == 1 then filters[0](input)
    else Accumulated(filters, input, k - 2) + filters[k - 1](Accumulated(filters, input, k - 1))
  }

  /** A filter's `process`: appends to `output`; the storage it needs is granted here. */
  method Apply(filter: Filter, input: seq<Byte>, output: Buffer) returns (ok: bool)
    requires output.Usable()
    modifies output
    ensures output.Usable()
    ensures ok ==> output.Contents() == old(output.Contents()) + filter(input)
    ensures output.refusals == old(output.refusals) + if ok then 0 else 1
  {
    var before := output.size;
    ghost var _ := output.Append(filter(input));
    ok := output.size == before + |filter(input)|;
  }

  /**
   * `process`. Unless an allocation fails, the output grows by the accumulated result of all
   * filters, by whichever of the two branches at the end.
   */
  method Process(filters: seq<Filter>, input: seq<Byte>, output: Buffer)
    returns (n: int, ok: bool, ghost refused: Buffer)
    requires output.Usable()
    modifies output
    ensures output.Usable()
    ensures ok ==> output.Contents() == old(output.Contents()) + Accumulated(filters, input, |filters|)
    ensures ok && |filters| != 1 ==> n == |Accumulated(filters, input, |filters|)|
    ensures !ok ==>
              || (fresh(refused) && refused.refusals > 0)
              || (refused == output && output.refusals > old(output.refusals))
  {
    refused := output;
    if |filters| == 0 {
      return 0, true, refused;
    }
    if |filters| == 1 {
      n := 0;
      ok := Apply(filters[0], input, output);
      return;
    }
    var result;
    ghost var culprit;
    result, ok, culprit := Chain(filters, input);
    n := result.size;
    if !ok {
      refused := culprit;
    } else {
      ok := Deliver(result, output);
    }
  }

  /** The loop over two or more filters: `result` and `tmp` are swapped before each filter, and not cleared. */
  method Chain(filters: seq<Filter>, input: seq<Byte>) returns (result: Buffer, ok: bool, ghost refused: Buffer)
    requires |filters| >= 2
    ensures fresh(result) && result.Usable()
    ensures !ok ==> fresh(refused) && refused.refusals > 0
    ensures ok ==> result.Contents() == Accumulated(filters, input, |filters|)
  {
    result := new Buffer();
    var tmp := new Buffer();
    ok := Apply(filters[0], input, result);
    assert [] + filters[0](input) == filters[0](input);
    refused := result;
    if ok {
      ok := Loop(filters, input, result, tmp);
    }
  }

  method Loop(filters: seq<Filter>, input: seq<Byte>, result: Buffer, tmp: Buffer) returns (ok: bool)
    requires |filters| >= 2 && result != tmp && result.Usable() && tmp.Usable()
    requires result.Contents() == filters[0](input) && tmp.Contents() == []
    modifies result, tmp
    ensures result.Usable()
    ensures ok ==> result.Contents() == Accumulated(filters, input, |filters|)
    ensures !ok ==> result.refusals > old(result.refusals)
  {
    ok := true;
    var i := 1;
    ghost var held := [[], filters[0](input)];
    while i < |filters| && ok
      invariant 1 <= i <= |filters| && result.Usable() && tmp.Usable()
      invariant |held| == i + 1 && Succeeding(held, filters, input)
      invariant ok ==> result.Contents() == held[i] && tmp.Contents() == held[i - 1]
      invariant result.refusals >= old(result.refusals) && (!ok ==> result.refusals > old(result.refusals))
      decreases |filters| - i
    {
      ok := Turn(filters[i], result, tmp);
      SucceedingStep(held, filters, input, i);
      held := held + [held[i - 1] + filters[i](held[i])];
      i := i + 1;
    }
    if ok {
      SucceedingAccumulates(held, filters, input, i);
    }
  }

  /** The contents of the result buffer, filter by filter. */
  ghost predicate Succeeding(held: seq<seq<Byte>>, filters: seq<Filter>, input: seq<Byte>) {
    && 2 <= |held| <= |filters| + 1 && held[0] == [] && held[1] == filters[0](input)
    && forall k :: 2 <= k < |held| ==> held[k] == held[k - 2] + filters[k - 1](held[k - 1])
  }

  lemma SucceedingStep(held: seq<seq<Byte>>, filters: seq<Filter>, input: seq<Byte>, i: nat)
    requires Succeeding(held, filters, input) && |held| == i + 1 && i < |filters|
    ensures Succeeding(held + [held[i - 1] + filters[i](held[i])], filters, input)
  {
    var next := held + [held[i - 1] + filters[i](held[i])];
    forall k | 2 <= k < |next|
      ensures next[k] == next[k - 2] + filters[k - 1](next[k - 1])
    {
      if k < |held| {
        assert next[k] == held[k] && next[k - 1] == held[k - 1] && next[k - 2] == held[k - 2];
      }
    }
  }

  lemma {:induction false} SucceedingAccumulates(held: seq<seq<Byte>>, filters: seq<Filter>, input: seq<Byte>, k: nat)
    requires Succeeding(held, filters, input) && k < |held|
    ensures held[k] == Accumulated(filters, input, k)
  {
    if k >= 2 {
      SucceedingAccumulates(held, filters, input, k - 1);
      SucceedingAccumulates(held, filters, input, k - 2);
    }
  }

  /** One turn of the loop. */
  method Turn(filter: Filter, result: Buffer, tmp: Buffer) returns (ok: bool)
    requires result != tmp && result.Usable() && tmp.Usable()
    modifies result, tmp
    ensures result.Usable() && tmp.Usable()
    ensures tmp.Contents() == old(result.Contents())
    ensures ok ==> result.Contents() == old(tmp.Contents()) + filter(old(result.Contents()))
    ensures result.refusals == old(result.refusals) + if ok then 0 else 1
  {
    result.Swap(tmp);
    ok := Apply(filter, tmp.mem[..tmp.size], result);
  }

  /** Appends to an output that has storage, moves into one that has none: the same either way. */
  method Deliver(result: Buffer, output: Buffer) returns (ok: bool)
    requires output.Usable() && result.Usable() && output != result
    modifies output, result
    ensures output.Usable() && (ok ==> output.Contents() == old(output.Contents()) + old(result.Contents()))
    ensures !ok ==> output.refusals > old(output.refusals)
  {
    if output.Capacity() > 0 {
      var before := output.size;
      ghost var _ := output.Append(result.mem[..result.size]);
      ok := output.size == before + result.size;
    } else {
      output.MoveFrom(result);
      ok := true;
    }
  }

  // ---------------------------------------------------------------- against the intended meaning

  /** With one or two filters the chain means what it should. */
  lemma ShortChainsCompose(filters: seq<Filter>, input: seq<Byte>)
    requires 1 <= |filters| <= 2
    ensures Accumulated(filters, input, |filters|) == Composed(filters, input)
  {
    if |filters| == 1 {
      assert filters[..0] == [];
    } else {
      assert filters[..1][..0] == [] && filters[..1][0] == filters[0];
      assert Composed(filters[..1], input) == filters[0](input);
    }
  }

  function Fibonacci(k: nat): nat {
    if k < 2 then k else Fibonacci(k - 2) + Fibonacci(k - 1)
  }

  function Identity(n: nat): (fs: seq<Filter>)
    ensures |fs| == n
  {
    seq(n, _ => (x: seq<Byte>) => x)
  }

  /** Filters that change nothing multiply one byte by the Fibonacci numbers. */
  lemma {:induction false} IdentityGrows(n: nat, input: seq<Byte>, k: nat)
    requires k <= n && |input| == 1
    ensures |Accumulated(Identity(n), input, k)| == Fibonacci(k)
  {
    if k >= 2 {
      IdentityGrows(n, input, k - 2);
      IdentityGrows(n, input, k - 1);
    }
  }

  lemma {:induction false} IdentityComposes(n: nat, input: seq<Byte>)
    ensures Composed(Identity(n), input) == input
  {
    if n > 0 {
      IdentityComposes(n - 1, input);
      assert Identity(n)[..n - 1] == Identity(n - 1);
    }
  }

  lemma {:induction false} FibonacciGrows(k: nat)
    requires k >= 3
    ensures Fibonacci(k) >= 2
  {
    if k > 4 {
      FibonacciGrows(k - 1);
    }
  }

  /** Of three filters, the first one's result comes first and once more, before that of the whole chain. */
  lemma ThreeFiltersPutOut(f: Filter, g: Filter, h: Filter, input: seq<Byte>)
    ensures Accumulated([f, g, h], input, 3) == f(input) + h(g(f(input)))
  {
    assert Accumulated([f, g, h], input, 2) == [] + g(f(input));
    assert [] + g(f(input)) == g(f(input));
  }

  /** Three filters compose exactly when the first one puts out nothing. */
  lemma ThreeFiltersComposeIff(filters: seq<Filter>, input: seq<Byte>)
    requires |filters| == 3
    ensures Accumulated(filters, input, 3) == Composed(filters, input) <==> filters[0](input) == []
  {
    ShortChainsCompose(filters[..2], input);
    assert Accumulated(filters, input, 2) == Accumulated(filters[..2], input, 2);
    var r := filters[2](Accumulated(filters, input, 2));
    assert Accumulated(filters, input, 3) == filters[0](input) + r;
    assert Composed(filters, input) == r;
    assert filters[0](input) == [] ==> filters[0](input) + r == r;
  }

  /** The chain means composition, for all filters and inputs, exactly at the lengths one and two. */
  lemma ComposesIffShort(n: nat)
    ensures (forall filters: seq<Filter>, input ::
               |filters| == n ==> Accumulated(filters, input, n) == Composed(filters, input))
            <==> n == 1 || n == 2
  {
    if n == 1 || n == 2 {
      forall filters: seq<Filter>, input | |filters| == n
        ensures Accumulated(filters, input, n) == Composed(filters, input)
      {
        ShortChainsCompose(filters, input);
      }
    } else {
      var input: seq<Byte> := ['x'];
      IdentityComposes(n, input);
      IdentityGrows(n, input, n);
      if n >= 3 {
        FibonacciGrows(n);
      }
      assert Accumulated(Identity(n), input, n) != Composed(Identity(n), input);
    }
  }
}
