/**
 * Runs of any machine: a sequence of operations, their answers, and the states between them. The
 * machine is a relation `does` between an operation, its answer, the state before and the state after.
 */
module Runs {
  import opened Bytes

  /** One party of a run: the bytes it holds, and how often it has failed. */
  datatype Side = Side(bytes: seq<Byte>, failures: nat)

  /** The first `n` bytes, where there are that many. */
  function Prefix(bytes: seq<Byte>, n: int): seq<Byte> {
    if 0 <= n <= |bytes| then bytes[..n] else []
  }

  ghost predicate StepAt<O, A, S>(does: (O, A, S, S) -> bool, ops: seq<O>, answers: seq<A>, states: seq<S>, i: nat)
    requires i < |ops| == |answers| == |states| - 1
  {
    does(ops[i], answers[i], states[i], states[i + 1])
  }

  /** A run: neighbouring states are related by the operation between them and its answer. */
  ghost predicate Follows<O, A, S>(does: (O, A, S, S) -> bool, ops: seq<O>, answers: seq<A>, states: seq<S>) {
    && |ops| == |answers| == |states| - 1
    && forall i: nat :: i < |ops| ==> StepAt(does, ops, answers, states, i)
  }

  lemma FollowsPrefix<O, A, S>(does: (O, A, S, S) -> bool, ops: seq<O>, answers: seq<A>, states: seq<S>, k: nat)
    requires Follows(does, ops, answers, states) && k <= |ops|
    ensures Follows(does, ops[..k], answers[..k], states[..k + 1])
  {
    var ops', answers', states' := ops[..k], answers[..k], states[..k + 1];
    forall i: nat | i < k
      ensures StepAt(does, ops', answers', states', i)
    {
      assert StepAt(does, ops, answers, states, i);
    }
  }

  lemma FollowsStep<O, A, S>(does: (O, A, S, S) -> bool, ops: seq<O>, answers: seq<A>, states: seq<S>, op: O,
                             answer: A, next: S)
    requires Follows(does, ops, answers, states) && does(op, answer, states[|ops|], next)
    ensures Follows(does, ops + [op], answers + [answer], states + [next])
  {
    var ops', answers', states' := ops + [op], answers + [answer], states + [next];
    forall i: nat | i < |ops'|
      ensures StepAt(does, ops', answers', states', i)
    {
      assert i < |ops| ==> StepAt(does, ops, answers, states, i);
    }
  }

  /** What `note` says of each step. */
  function Log<O, A, S, T>(note: (O, A, S, S) -> T, ops: seq<O>, answers: seq<A>, states: seq<S>): (log: seq<T>)
    requires |ops| == |answers| == |states| - 1
    ensures |log| == |ops|
    ensures forall i :: 0 <= i < |ops| ==> log[i] == note(ops[i], answers[i], states[i], states[i + 1])
  {
    seq(|ops|, i requires 0 <= i < |ops| => note(ops[i], answers[i], states[i], states[i + 1]))
  }

  lemma LogPrefix<O, A, S, T>(note: (O, A, S, S) -> T, ops: seq<O>, answers: seq<A>, states: seq<S>, k: nat)
    requires |ops| == |answers| == |states| - 1 && k <= |ops|
    ensures Log(note, ops, answers, states)[..k] == Log(note, ops[..k], answers[..k], states[..k + 1])
  {
  }

  /** What every step keeps, the run keeps. */
  lemma {:induction false} InvariantOfRun<O(!new), A(!new), S(!new)>(
      does: (O, A, S, S) -> bool, admits: (O, A) -> bool, inv: S -> bool, ops: seq<O>, answers: seq<A>, states: seq<S>)
    requires Follows(does, ops, answers, states) && inv(states[0])
    requires forall i :: 0 <= i < |ops| ==> admits(ops[i], answers[i])
    requires forall o, a, s, t :: does(o, a, s, t) && admits(o, a) && inv(s) ==> inv(t)
    ensures forall i :: 0 <= i <= |ops| ==> inv(states[i])
    decreases |ops|
  {
    if ops != [] {
      var k := |ops| - 1;
      FollowsPrefix(does, ops, answers, states, k);
      InvariantOfRun(does, admits, inv, ops[..k], answers[..k], states[..k + 1]);
      assert StepAt(does, ops, answers, states, k);
      assert inv(states[..k + 1][k]);
      forall i | 0 <= i <= |ops|
        ensures inv(states[i])
      {
        assert i <= k ==> states[..k + 1][i] == states[i];
      }
    }
  }

  /**
   * If every step puts in at the end and takes off the front, the run is that of a first-in first-out
   * queue: what was held at first and what came in is, in order, what went out and what is held.
   */
  lemma {:induction false} QueueOfRun<O(!new), A(!new), S(!new)>(
      does: (O, A, S, S) -> bool, held: S -> seq<Byte>, entered: (O, A, S, S) -> seq<Byte>,
      left: (O, A, S, S) -> seq<Byte>, ops: seq<O>, answers: seq<A>, states: seq<S>)
    requires Follows(does, ops, answers, states)
    requires forall o, a, s, t :: does(o, a, s, t) ==> held(s) + entered(o, a, s, t) == left(o, a, s, t) + held(t)
    ensures held(states[0]) + Joined(Log(entered, ops, answers, states)) ==
            Joined(Log(left, ops, answers, states)) + held(states[|ops|])
    decreases |ops|
  {
    var ins, outs := Log(entered, ops, answers, states), Log(left, ops, answers, states);
    if ops == [] {
      assert held(states[0]) + [] == [] + held(states[0]);
    } else {
      var k := |ops| - 1;
      FollowsPrefix(does, ops, answers, states, k);
      QueueOfRun(does, held, entered, left, ops[..k], answers[..k], states[..k + 1]);
      LogPrefix(entered, ops, answers, states, k);
      LogPrefix(left, ops, answers, states, k);
      assert StepAt(does, ops, answers, states, k);
      assert ins == ins[..k] + [ins[k]] && outs == outs[..k] + [outs[k]];
      JoinedSnoc(ins[..k], ins[k]);
      JoinedSnoc(outs[..k], outs[k]);
      QueueStep(held(states[0]) + Joined(ins[..k]), Joined(outs[..k]), held(states[k]), ins[k], outs[k],
                held(states[k + 1]));
      Associative(held(states[0]), Joined(ins[..k]), ins[k]);
    }
  }

  /** If every step only puts in, what is held at the end is what was held at first and all that came in. */
  lemma GrowthOfRun<O(!new), A(!new), S(!new)>(
      does: (O, A, S, S) -> bool, held: S -> seq<Byte>, entered: (O, A, S, S) -> seq<Byte>, ops: seq<O>,
      answers: seq<A>, states: seq<S>)
    requires Follows(does, ops, answers, states)
    requires forall o, a, s, t :: does(o, a, s, t) ==> held(t) == held(s) + entered(o, a, s, t)
    ensures held(states[|ops|]) == held(states[0]) + Joined(Log(entered, ops, answers, states))
  {
    var none: (O, A, S, S) -> seq<Byte> := (_, _, _, _) => [];
    forall o, a, s, t | does(o, a, s, t)
      ensures held(s) + entered(o, a, s, t) == none(o, a, s, t) + held(t)
    {
      GrownAtEnd(held(s), entered(o, a, s, t), held(t));
    }
    QueueOfRun(does, held, entered, none, ops, answers, states);
    NothingJoined(Log(none, ops, answers, states));
    assert [] + held(states[|ops|]) == held(states[|ops|]);
  }

  /** If every step only takes off the front, what was held at first is all that was taken and what is left. */
  lemma SupplyOfRun<O(!new), A(!new), S(!new)>(
      does: (O, A, S, S) -> bool, held: S -> seq<Byte>, left: (O, A, S, S) -> seq<Byte>, ops: seq<O>,
      answers: seq<A>, states: seq<S>)
    requires Follows(does, ops, answers, states)
    requires forall o, a, s, t :: does(o, a, s, t) ==> held(s) == left(o, a, s, t) + held(t)
    ensures held(states[0]) == Joined(Log(left, ops, answers, states)) + held(states[|ops|])
  {
    var none: (O, A, S, S) -> seq<Byte> := (_, _, _, _) => [];
    forall o, a, s, t | does(o, a, s, t)
      ensures held(s) + none(o, a, s, t) == left(o, a, s, t) + held(t)
    {
      CutAtFront(held(s), left(o, a, s, t), held(t));
    }
    QueueOfRun(does, held, none, left, ops, answers, states);
    NothingJoined(Log(none, ops, answers, states));
    assert held(states[0]) + [] == held(states[0]);
  }
}
