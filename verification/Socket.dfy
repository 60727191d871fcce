/** The event side of `Socket`: its connection state, I/O watcher, timer and user callback. */
module Sockets {
  import opened Bytes
  import opened Buffers
  import Fill

  datatype Connection = Closed | Connecting | Handshake | Operational

  datatype Event = TIMEOUT | HANDSHAKE | CONNECTED | IO(revents: int)

  /** What a call or a loop event makes the user see: nothing, a callback, or std::bad_function_call. */
  datatype Effect = Nothing | Calls(event: Event) | Throws

  /** The fields of a socket. */
  datatype Snapshot = Snapshot(fd: int, state: Connection, io: bool, timer: bool, timeout: nat, handler: bool)

  /** How far `open` gets, as the kernel decides. */
  datatype Opening =
    | NoSocket                    // ::socket fails
    | NoFlags(newFd: nat)         // fcntl fails
    | NoFamily                    // neither IPv4 nor IPv6
    | Connected(newFd: nat)       // ::connect succeeds at once
    | InProgress(newFd: nat)
    | Refused

  datatype Op =
    | Open(how: Opening)
    | On(timeout: nat, callback: bool)
    | Watch(timeout: nat)
    | WatchAgain
    | Restart
    | Stop
    | Close
    | IoReady(revents: int, healthy: bool)    // `healthy`: SO_ERROR could be read and was zero
    | TimerExpired

  function OnClose(s: Snapshot): Snapshot {
    if s.fd >= 0 then s.(state := Closed) else s
  }

  function OnWatch(s: Snapshot): Snapshot {
    s.(timer := s.timeout != 0 || s.timer, io := true)
  }

  function OnOpen(s: Snapshot, how: Opening): Snapshot {
    match how
    case NoSocket => s.(fd := -1)
    case NoFlags(fd) => s.(fd := fd)
    case NoFamily => s.(fd := -1)
    case Connected(fd) => s.(fd := fd, state := Operational)
    case InProgress(fd) => s.(fd := fd, state := Connecting)
    case Refused => s.(fd := -1, state := Closed)
  }

  function Callback(s: Snapshot, event: Event): Effect {
    if s.handler then Calls(event) else Nothing
  }

  /** `onConnectComplete`: a descriptor of -1 has no SO_ERROR to read. */
  function CompletedConnect(s: Snapshot, healthy: bool): (Snapshot, Effect) {
    var t := s.(timer := false, io := false);
    var u := if healthy && s.fd >= 0 then t.(state := Operational) else OnClose(t);
    (u, Callback(u, CONNECTED))
  }

  function OnIo(s: Snapshot, revents: int, healthy: bool): (Snapshot, Effect) {
    var t := s.(timer := false);
    match s.state
    case Connecting => CompletedConnect(t, healthy)
    case Handshake => (t, if s.handler then Calls(HANDSHAKE) else Throws)
    case _ => (t, Callback(t, IO(revents)))
  }

  /** One call or loop event. The user's callback runs last in each, so what it does next are further steps. */
  function Step(s: Snapshot, op: Op): (Snapshot, Effect) {
    match op
    case Open(how) => (OnOpen(s, how), Nothing)
    case On(timeout, callback) => (s.(handler := callback, timeout := timeout, timer := true, io := true), Nothing)
    case Watch(timeout) => (OnWatch(if timeout != 0 then s.(timeout := timeout) else s), Nothing)
    case WatchAgain => (OnWatch(s), Nothing)
    case Restart => (if s.io then s.(timer := s.timeout != 0) else s, Nothing)
    case Stop => (s.(timer := false, io := false), Nothing)
    case Close => (OnClose(s), Nothing)
    case IoReady(revents, healthy) => OnIo(s, revents, healthy)
    case TimerExpired => (s.(timer := false, io := false), if s.handler then Calls(TIMEOUT) else Throws)
  }

  /** The loop delivers events only to active watchers, and refuses to watch a negative descriptor. */
  predicate Enabled(s: Snapshot, op: Op) {
    && (op.IoReady? ==> s.io) && (op.TimerExpired? ==> s.timer)
    && (op.On? || op.Watch? || op.WatchAgain? ==> s.fd >= 0)
  }

  // ---------------------------------------------------------------- whole runs

  function After(s: Snapshot, ops: seq<Op>): Snapshot
    decreases |ops|
  {
    if ops == [] then s else After(Step(s, ops[0]).0, ops[1..])
  }

  /** The callbacks of a run, in order. */
  function Effects(s: Snapshot, ops: seq<Op>): (es: seq<Effect>)
    ensures |es| == |ops|
    decreases |ops|
  {
    if ops == [] then [] else [Step(s, ops[0]).1] + Effects(Step(s, ops[0]).0, ops[1..])
  }

  ghost predicate EnabledRun(s: Snapshot, ops: seq<Op>)
    decreases |ops|
  {
    ops == [] || (Enabled(s, ops[0]) && EnabledRun(Step(s, ops[0]).0, ops[1..]))
  }

  /** A running timer watches over running I/O. */
  predicate Guarded(s: Snapshot) {
    s.timer ==> s.io
  }

  /**
   * Over every run the timer runs only while the I/O watcher does, and both are stopped when the
   * TIMEOUT callback is made.
   */
  lemma {:induction false} TimerGuardsIo(s: Snapshot, ops: seq<Op>)
    requires Guarded(s)
    ensures Guarded(After(s, ops))
    ensures forall i :: 0 <= i < |ops| && Effects(s, ops)[i] == Calls(TIMEOUT) ==>
              ops[i].TimerExpired? && var t := After(s, ops[..i + 1]); !t.timer && !t.io
    decreases |ops|
  {
    if ops != [] {
      var t := Step(s, ops[0]).0;
      TimerGuardsIo(t, ops[1..]);
      forall i | 0 <= i < |ops| && Effects(s, ops)[i] == Calls(TIMEOUT)
        ensures ops[i].TimerExpired? && var u := After(s, ops[..i + 1]); !u.timer && !u.io
      {
        assert ops[..i + 1][1..] == ops[1..][..i];
        if i > 0 {
          assert Effects(t, ops[1..])[i - 1] == Calls(TIMEOUT);
        }
      }
    }
  }

  /** Connecting without a descriptor: no outcome can ever be read. */
  predicate Lost(s: Snapshot) {
    s.state == Connecting && s.fd < 0
  }

  /** Opening again while a connection is pending, and failing before there is a new descriptor. */
  predicate Abandons(s: Snapshot, op: Op) {
    s.state == Connecting && op.Open? && (op.how.NoSocket? || op.how.NoFamily?)
  }

  lemma LostIffAbandoned(s: Snapshot, op: Op)
    requires !Lost(s)
    ensures Lost(Step(s, op).0) <==> Abandons(s, op)
  {
  }

  /**
   * The CONNECTED callback finds the socket operational if SO_ERROR was zero and closed if it was not,
   * exactly when there was a descriptor; without one it is still connecting. Both watchers are stopped.
   */
  lemma ConnectCompletesIff(s: Snapshot, op: Op)
    requires op.IoReady? && s.state == Connecting
    ensures Step(s, op).0.state == if s.fd < 0 then Connecting else if op.healthy then Operational else Closed
    ensures Step(s, op).0.state in {Operational, Closed} <==> !Lost(s)
    ensures Step(s, op).1 == if s.handler then Calls(CONNECTED) else Nothing
    ensures !Step(s, op).0.io && !Step(s, op).0.timer
  {
  }

  /** What makes a socket operational: a connection made at once, or a healthy report while connecting. */
  predicate Connects(s: Snapshot, op: Op) {
    || (op.Open? && op.how.Connected?)
    || (op.IoReady? && op.healthy && s.state == Connecting && s.fd >= 0)
  }

  /** What ends that: closing it, or opening it again with a connection pending or refused. */
  predicate Disconnects(s: Snapshot, op: Op) {
    (op.Close? && s.fd >= 0) || (op.Open? && (op.how.InProgress? || op.how.Refused?))
  }

  lemma StepOperational(s: Snapshot, op: Op)
    ensures Step(s, op).0.state == Operational <==> Connects(s, op) || (s.state == Operational && !Disconnects(s, op))
  {
  }

  /** From operation `from` on, nothing in the run disconnects. */
  ghost predicate Undisturbed(s: Snapshot, ops: seq<Op>, from: nat) {
    forall j: nat :: from <= j < |ops| ==> !Disconnects(After(s, ops[..j]), ops[j])
  }

  /** Operation `i` of the run connects. */
  ghost predicate ConnectsAt(s: Snapshot, ops: seq<Op>, i: nat) {
    i < |ops| && Connects(After(s, ops[..i]), ops[i])
  }

  lemma {:induction false} AfterSnoc(s: Snapshot, ops: seq<Op>, op: Op)
    ensures After(s, ops + [op]) == Step(After(s, ops), op).0
    decreases |ops|
  {
    if ops == [] {
      assert ops + [op] == [op] && [op][1..] == [];
    } else {
      assert (ops + [op])[1..] == ops[1..] + [op];
      AfterSnoc(Step(s, ops[0]).0, ops[1..], op);
    }
  }

  lemma PrefixRuns(s: Snapshot, ops: seq<Op>, k: nat)
    requires k + 1 == |ops|
    ensures forall from: nat :: from <= k ==>
              (Undisturbed(s, ops, from) <==>
               Undisturbed(s, ops[..k], from) && !Disconnects(After(s, ops[..k]), ops[k]))
    ensures forall i: nat :: i < k ==> (ConnectsAt(s, ops, i) <==> ConnectsAt(s, ops[..k], i))
  {
    assert forall j: nat :: j <= k ==> ops[..k][..j] == ops[..j];
    assert forall j: nat :: j < k ==> ops[..k][j] == ops[j];
  }

  /**
   * A run ends with the socket operational if and only if it was operational and nothing disconnected
   * it, or some operation connected it and nothing disconnected it after that.
   */
  lemma {:induction false} OperationalIff(s: Snapshot, ops: seq<Op>)
    ensures After(s, ops).state == Operational <==>
            || (s.state == Operational && Undisturbed(s, ops, 0))
            || (exists i: nat :: ConnectsAt(s, ops, i) && Undisturbed(s, ops, i + 1))
    decreases |ops|
  {
    if ops != [] {
      var k := |ops| - 1;
      var init, last := ops[..k], ops[k];
      OperationalIff(s, init);
      AfterSnoc(s, init, last);
      assert ops == init + [last];
      StepOperational(After(s, init), last);
      PrefixRuns(s, ops, k);
      if Connects(After(s, init), last) {
        assert ConnectsAt(s, ops, k) && Undisturbed(s, ops, k + 1);
      }
    }
  }

  /** A socket starts to connect exactly by an `open` whose connection is pending, and none enters Handshake. */
  lemma StepConnecting(s: Snapshot, op: Op)
    ensures s.state != Connecting ==> (Step(s, op).0.state == Connecting <==> op.Open? && op.how.InProgress?)
    ensures s.state != Handshake ==> Step(s, op).0.state != Handshake
    ensures op.Close? ==> Step(s, op).0.state == if s.fd >= 0 then Closed else s.state
    ensures op.Open? ==> Step(s, op).0.fd == if op.how.NoFlags? || op.how.Connected? || op.how.InProgress?
                                             then op.how.newFd else -1
    ensures !op.Open? ==> Step(s, op).0.fd == s.fd
  {
  }

  /** Readiness of a socket that is not connecting reaches the handler as it came, and stops the timer. */
  lemma ReadinessIsReported(s: Snapshot, op: Op)
    requires op.IoReady? && s.state != Connecting && s.handler
    ensures Step(s, op).1 == Calls(if s.state == Handshake then HANDSHAKE else IO(op.revents))
    ensures Step(s, op).0 == s.(timer := false)
  {
  }

  /** An expiring timer, and readiness in a handshake, throw if there is no handler; `stop` stops both watchers. */
  lemma WithoutHandler(s: Snapshot, op: Op)
    ensures op.TimerExpired? || (op.IoReady? && s.state == Handshake) ==> (Step(s, op).1 == Throws <==> !s.handler)
    ensures op.IoReady? && s.state != Handshake && !s.handler ==> Step(s, op).1 == Nothing
    ensures op.Stop? ==> Step(s, op).0 == s.(timer := false, io := false)
  {
  }

  /** Only these stop a running timer, or the handler, while a timeout is set. */
  predicate Quiet(op: Op) {
    !op.IoReady? && !op.Stop? && !op.TimerExpired? && (op.On? ==> op.timeout > 0 && op.callback)
  }

  /** A timer is running, a timeout is set and there is someone to call. */
  predicate Armed(s: Snapshot) {
    s.timer && s.timeout > 0 && s.handler
  }

  /** What starts the timer: watching with a timeout, one set before, or `on`; restarting if the socket is watched. */
  lemma TimerStarts(s: Snapshot, timeout: nat, callback: bool)
    ensures Step(s, Watch(timeout)).0.timeout == if timeout > 0 then timeout else s.timeout
    ensures Step(s, Watch(timeout)).0.timer <==> timeout > 0 || s.timeout > 0 || s.timer
    ensures Step(s, WatchAgain).0.timer <==> s.timeout > 0 || s.timer
    ensures Step(s, Watch(timeout)).0.io && Step(s, WatchAgain).0.io
    ensures var t := Step(s, On(timeout, callback)).0;
            t.timer && t.io && t.timeout == timeout && t.handler == callback
    ensures s.io ==> (Step(s, Restart).0.timer <==> s.timeout > 0)
    ensures !s.io ==> Step(s, Restart).0 == s
  {
  }

  lemma {:induction false} StaysArmed(s: Snapshot, ops: seq<Op>)
    requires Armed(s) && forall i :: 0 <= i < |ops| ==> Quiet(ops[i])
    ensures Armed(After(s, ops))
    decreases |ops|
  {
    if ops != [] {
      StaysArmed(Step(s, ops[0]).0, ops[1..]);
    }
  }

  /** After a watch with a timeout, over any quiet run, the timer can expire, and then TIMEOUT is called. */
  lemma TimeoutIsCalled(s: Snapshot, timeout: nat, ops: seq<Op>)
    requires s.handler && timeout > 0 && forall i :: 0 <= i < |ops| ==> Quiet(ops[i])
    ensures var t := After(Step(s, Watch(timeout)).0, ops);
            && Enabled(t, TimerExpired) && Step(t, TimerExpired).1 == Calls(TIMEOUT)
            && !Step(t, TimerExpired).0.timer && !Step(t, TimerExpired).0.io
  {
    StaysArmed(Step(s, Watch(timeout)).0, ops);
  }

  function Entries(ops: seq<Op>): nat {
    if ops == [] then 0 else (if ops[0].Open? && ops[0].how.InProgress? then 1 else 0) + Entries(ops[1..])
  }

  function Completions(es: seq<Effect>): nat {
    if es == [] then 0 else (if es[0] == Calls(CONNECTED) then 1 else 0) + Completions(es[1..])
  }

  ghost predicate NeverAbandons(s: Snapshot, ops: seq<Op>)
    decreases |ops|
  {
    ops == [] || (!Abandons(s, ops[0]) && NeverAbandons(Step(s, ops[0]).0, ops[1..]))
  }

  function Pending(s: Snapshot): nat {
    if s.state == Connecting then 1 else 0
  }

  lemma StepBalance(s: Snapshot, op: Op)
    requires !Lost(s) && !Abandons(s, op)
    ensures Completions([Step(s, op).1]) + Pending(Step(s, op).0) <= Entries([op]) + Pending(s)
  {
  }

  /**
   * Over every run that abandons no pending connection, each entry into Connecting yields at most
   * one CONNECTED callback, and a connection still pending has had none.
   */
  lemma {:induction false} AtMostOneCompletion(s: Snapshot, ops: seq<Op>)
    requires !Lost(s) && NeverAbandons(s, ops)
    ensures !Lost(After(s, ops))
    ensures Completions(Effects(s, ops)) + Pending(After(s, ops)) <= Entries(ops) + Pending(s)
    decreases |ops|
  {
    if ops != [] {
      LostIffAbandoned(s, ops[0]);
      StepBalance(s, ops[0]);
      AtMostOneCompletion(Step(s, ops[0]).0, ops[1..]);
      assert Effects(s, ops)[1..] == Effects(Step(s, ops[0]).0, ops[1..]);
    }
  }

  /**
   * `n` times: opening fails, the old watcher reports, opening fails after the new descriptor has
   * been stored, and that is watched.
   */
  function Reopenings(fd: nat, n: nat): seq<Op> {
    if n == 0 then []
    else [Open(NoSocket)] + ([IoReady(1, true)] + ([Open(NoFlags(fd))] + ([WatchAgain] + Reopenings(fd, n - 1))))
  }

  /** What a run that starts with `op` adds to the rest of the run. */
  lemma FirstStep(s: Snapshot, op: Op, rest: seq<Op>)
    ensures var ops, t := [op] + rest, Step(s, op);
            && After(s, ops) == After(t.0, rest) && Entries(ops) == Entries([op]) + Entries(rest)
            && (EnabledRun(s, ops) <==> Enabled(s, op) && EnabledRun(t.0, rest))
            && Completions(Effects(s, ops)) == Completions([t.1]) + Completions(Effects(t.0, rest))
  {
    var ops, t := [op] + rest, Step(s, op);
    assert ops[1..] == rest;
    assert Effects(s, ops)[1..] == Effects(t.0, rest);
    assert [op][1..] == [] && [t.1][1..] == [];
  }

  /**
   * A pending connection that is abandoned reports CONNECTED again each time it is reopened in vain,
   * without a single new entry into Connecting, in a run the loop allows.
   */
  lemma {:induction false} AbandonedReportsAgain(s: Snapshot, fd: nat, n: nat)
    requires s.state == Connecting && s.fd >= 0 && s.io && s.handler
    ensures var ops := Reopenings(fd, n);
            && EnabledRun(s, ops) && After(s, ops).state == Connecting
            && Entries(ops) == 0 && Completions(Effects(s, ops)) == n
    decreases n
  {
    if n > 0 {
      var rest := Reopenings(fd, n - 1);
      var s1 := Step(s, Open(NoSocket)).0;
      var s2 := Step(s1, IoReady(1, true)).0;
      var s3 := Step(s2, Open(NoFlags(fd))).0;
      FirstStep(s, Open(NoSocket), [IoReady(1, true)] + ([Open(NoFlags(fd))] + ([WatchAgain] + rest)));
      FirstStep(s1, IoReady(1, true), [Open(NoFlags(fd))] + ([WatchAgain] + rest));
      FirstStep(s2, Open(NoFlags(fd)), [WatchAgain] + rest);
      FirstStep(s3, WatchAgain, rest);
      AbandonedReportsAgain(Step(s3, WatchAgain).0, fd, n - 1);
    }
  }

  // ---------------------------------------------------------------- the socket

  class Socket {
    var fd: int
    var state: Connection
    var io: bool
    var timer: bool
    var timeout: nat
    var handler: bool

    ghost function Now(): Snapshot
      reads this
    {
      Snapshot(fd, state, io, timer, timeout, handler)
    }

    constructor (fd: int, state: Connection)
      ensures Now() == Snapshot(fd, state, false, false, 0, false)
    {
      this.fd, this.state := fd, state;
      io, timer, timeout, handler := false, false, 0, false;
    }

    /** `open`: some failures return Closed without entering that state. */
    method Open(how: Opening) returns (r: Connection)
      modifies this
      ensures Now() == Step(old(Now()), Op.Open(how)).0
      ensures r == if how.NoSocket? || how.NoFlags? || how.NoFamily? then Closed else state
    {
      if how.NoSocket? {
        fd := -1;
        return Closed;
      }
      if how.NoFlags? {
        fd := how.newFd;
        return Closed;
      }
      match how {
        case NoFamily =>
          fd := -1;
          return Closed;
        case Connected(newFd) =>
          fd, state := newFd, Operational;
        case InProgress(newFd) =>
          fd, state := newFd, Connecting;
        case Refused =>
          fd, state := -1, Closed;
      }
      return state;
    }

    method Close()
      modifies this
      ensures Now() == Step(old(Now()), Op.Close).0
    {
      if fd >= 0 {
        state := Closed;
      }
    }

    method On(timeout: nat, callback: bool)
      modifies this
      ensures Now() == Step(old(Now()), Op.On(timeout, callback)).0
    {
      handler := callback;
      this.timeout := timeout;
      timer := true;
      io := true;
    }

    method Watch(timeout: nat)
      modifies this
      ensures Now() == Step(old(Now()), Op.Watch(timeout)).0
    {
      if timeout != 0 {
        this.timeout := timeout;
      }
      WatchAgain();
    }

    method WatchAgain()
      modifies this
      ensures Now() == Step(old(Now()), Op.WatchAgain).0
    {
      if timeout != 0 {
        timer := true;
      }
      if io {
        io := false;
      }
      io := true;
    }

    method Restart()
      modifies this
      ensures Now() == Step(old(Now()), Op.Restart).0
    {
      if !io {
        return;
      }
      if timer {
        timer := false;
      }
      if timeout != 0 {
        timer := true;
      }
    }

    /** `stop` leaves the handler in place: moving from it without a target does nothing. */
    method Stop()
      modifies this
      ensures Now() == Step(old(Now()), Op.Stop).0
    {
      timer := false;
      io := false;
    }

    /** The I/O watcher's callback. */
    method Io(revents: int, healthy: bool) returns (e: Effect)
      modifies this
      ensures (Now(), e) == Step(old(Now()), IoReady(revents, healthy))
    {
      timer := false;
      if state == Connecting {
        e := OnConnectComplete(healthy);
      } else if state == Handshake {
        e := if handler then Calls(HANDSHAKE) else Throws;
      } else {
        e := if handler then Calls(IO(revents)) else Nothing;
      }
    }

    method OnConnectComplete(healthy: bool) returns (e: Effect)
      modifies this
      ensures (Now(), e) == CompletedConnect(old(Now()), healthy)
    {
      Stop();
      if healthy && fd >= 0 {
        state := Operational;
      } else {
        Close();
      }
      e := if handler then Calls(CONNECTED) else Nothing;
    }

    /** The timer's callback. */
    method Timeout() returns (e: Effect)
      modifies this
      ensures (Now(), e) == Step(old(Now()), TimerExpired)
    {
      timer := false;
      io := false;
      e := if handler then Calls(TIMEOUT) else Throws;
    }

    /** `read(Buffer&)`: the fill loop over what the peer has sent. */
    method ReadBuffer(result: Buffer, input: seq<Byte>, n: nat)
      returns (rv: int, input': seq<Byte>, ghost issues: seq<Fill.Issue>)
      requires result.Usable()
      modifies result
      ensures result.Usable() && Fill.Issued(issues, n)
      ensures Fill.Transferred(issues, input, input', old(result.Contents()), result.Contents())
      ensures var got := |Fill.Received(issues)|; if got > 0 then rv == got <= n else -1 <= rv <= 0
      ensures rv == 0 ==> n == 0 || input == []
      ensures |Fill.Received(issues)| == n || Fill.EndedShort(issues) || result.refusals > old(result.refusals)
    {
      rv, input', issues := Fill.FillFrom(result, input, n);
    }
  }
}
