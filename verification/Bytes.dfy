/**
 * Bytes, and the two ways the containers of this library arrange them: one after the other
 * (a queue of chunks read as one sequence) and one over the other (several writes to one address).
 */
module Bytes {

  /** A C `char` holding one octet. */
  type Byte = c: char | c as int < 256 witness '\0'

  datatype Option<+T> = None | Some(value: T)

  function Min(a: int, b: int): int {
    if a < b then a else b
  }

  function Max(a: int, b: int): int {
    if a < b then b else a
  }

  /** The value a (signed) `char` has when it is converted to `int`. */
  function Signed(c: Byte): (r: int)
    ensures -128 <= r <= 127 && (r == c as int || r == c as int - 256)
  {
    if c as int < 128 then c as int else c as int - 256
  }

  /** The value gives back the octet, and only 255 reads as -1. */
  lemma SignedOctet(c: Byte)
    ensures (Signed(c) + 256) % 256 == c as int
    ensures Signed(c) == -1 <==> c as int == 255
  {
  }

  /** The chunks of `views` read one after the other. */
  function Joined<T>(views: seq<seq<T>>): seq<T> {
    if views == [] then [] else views[0] + Joined(views[1..])
  }

  lemma {:induction false} JoinedSnoc<T>(views: seq<seq<T>>, last: seq<T>)
    ensures Joined(views + [last]) == Joined(views) + last
  {
    if views == [] {
      assert views + [last] == [last];
      assert Joined([last]) == last + Joined([]);
    } else {
      assert (views + [last])[1..] == views[1..] + [last];
      JoinedSnoc(views[1..], last);
    }
  }

  /** The sum of `ns`. */
  function Total(ns: seq<nat>): nat
    decreases |ns|
  {
    if ns == [] then 0 else Total(ns[..|ns| - 1]) + ns[|ns| - 1]
  }

  /** One step of a queue: `held` takes in `added`, gives out `removed` and becomes `after`. */
  lemma QueueStep<T>(entered: seq<T>, left: seq<T>, held: seq<T>, added: seq<T>, removed: seq<T>, after: seq<T>)
    requires entered == left + held
    requires held + added == removed + after
    ensures entered + added == (left + removed) + after
  {
    assert entered + added == left + (held + added);
  }

  /** A step of a queue that only takes in. */
  lemma GrownAtEnd<T>(held: seq<T>, added: seq<T>, after: seq<T>)
    requires after == held + added
    ensures held + added == [] + after
  {
  }

  /** A step of a queue that only gives out. */
  lemma CutAtFront<T>(held: seq<T>, removed: seq<T>, after: seq<T>)
    requires held == removed + after
    ensures held + [] == removed + after
  {
  }

  lemma Associative<T>(a: seq<T>, b: seq<T>, c: seq<T>)
    ensures (a + b) + c == a + (b + c)
  {
  }

  /** Appending leaves every part of what was there in place. */
  lemma SliceOfSum<T>(s: seq<T>, t: seq<T>, from: nat, n: nat)
    requires from + n <= |s|
    ensures (s + t)[from..from + n] == s[from..from + n]
  {
    var u, v := (s + t)[from..from + n], s[from..from + n];
    forall i | 0 <= i < n
      ensures u[i] == v[i]
    {
      assert u[i] == (s + t)[from + i] == s[from + i];
    }
  }

  /** A slice within a prefix is the same slice of the whole. */
  lemma SliceOfPrefix<T>(s: seq<T>, size: nat, from: nat, n: nat)
    requires from + n <= size <= |s|
    ensures s[..size][from..from + n] == s[from..from + n]
  {
    var u, v := s[..size][from..from + n], s[from..from + n];
    forall i | 0 <= i < n
      ensures u[i] == v[i]
    {
      assert u[i] == s[..size][from + i] == s[from + i];
    }
  }

  /** A sequence has one front of each length. */
  lemma SameFront<T>(a: seq<T>, b: seq<T>, c: seq<T>, d: seq<T>)
    requires a + b == c + d && |a| == |c|
    ensures a == c && b == d
  {
    assert a == (a + b)[..|a|] && c == (c + d)[..|c|];
    assert b == (a + b)[|a|..] && d == (c + d)[|c|..];
  }

  /** `block` after `piece` has been copied to index `at`. */
  function Patched<T>(block: seq<T>, at: nat, piece: seq<T>): (r: seq<T>)
    requires at + |piece| <= |block|
    ensures |r| == |block|
  {
    seq(|block|, i requires 0 <= i < |block| => if at <= i < at + |piece| then piece[i - at] else block[i])
  }

  /** Every piece fits into `room` elements. */
  ghost predicate AllFit<T>(pieces: seq<seq<T>>, room: nat) {
    forall i :: 0 <= i < |pieces| ==> |pieces[i]| <= room
  }

  /** `block` after all `pieces` have been copied, in order, to the same index `at`. */
  function Overlaid<T>(block: seq<T>, at: nat, pieces: seq<seq<T>>): (r: seq<T>)
    requires at <= |block| && AllFit(pieces, |block| - at)
    ensures |r| == |block|
    decreases |pieces|
  {
    if pieces == [] then block
    else
      var last := |pieces| - 1;
      Patched(Overlaid(block, at, pieces[..last]), at, pieces[last])
  }

  lemma OverlaidSnoc<T>(block: seq<T>, at: nat, pieces: seq<seq<T>>, piece: seq<T>)
    requires at <= |block| && AllFit(pieces, |block| - at) && |piece| <= |block| - at
    ensures AllFit(pieces + [piece], |block| - at)
    ensures Overlaid(block, at, pieces + [piece]) == Patched(Overlaid(block, at, pieces), at, piece)
  {
    assert (pieces + [piece])[..|pieces|] == pieces;
  }

  /** Copying the pieces to one address leaves them there one after the other. */
  ghost predicate Delivers(block: seq<Byte>, at: nat, pieces: seq<seq<Byte>>)
    requires at + |Joined(pieces)| <= |block| && AllFit(pieces, |block| - at)
  {
    Overlaid(block, at, pieces)[at..at + |Joined(pieces)|] == Joined(pieces)
  }

  lemma {:induction false} PiecesFit<T>(pieces: seq<seq<T>>, room: nat)
    requires |Joined(pieces)| <= room
    ensures AllFit(pieces, room)
  {
    if pieces != [] {
      PiecesFit(pieces[1..], room);
      forall i | 0 <= i < |pieces|
        ensures |pieces[i]| <= room
      {
        assert i > 0 ==> pieces[i] == pieces[1..][i - 1];
      }
    }
  }

  lemma OnePieceDelivers(block: seq<Byte>, at: nat, pieces: seq<seq<Byte>>)
    requires at + |Joined(pieces)| <= |block| && AllFit(pieces, |block| - at) && |pieces| <= 1
    ensures Delivers(block, at, pieces)
  {
    if |pieces| == 1 {
      assert pieces[..0] == [] && pieces[1..] == [];
      assert Overlaid(block, at, pieces) == Patched(block, at, pieces[0]);
      assert Joined(pieces) == pieces[0];
    }
  }

  lemma OnePieceFound(block: seq<Byte>, pieces: seq<seq<Byte>>, now: seq<Byte>, n: nat)
    requires AllFit(pieces, |block|) && |pieces| <= 1 && n == |Joined(pieces)| <= |block|
    requires now == Overlaid(block, 0, pieces)
    ensures now[..n] == Joined(pieces)
  {
    OnePieceDelivers(block, 0, pieces);
    assert now[..n] == now[0..0 + n];
  }

  /** Pieces that start differently at both ends arrive wrong: the last one covers the first. */
  lemma ManyPiecesMayNotDeliver(block: seq<Byte>, at: nat, pieces: seq<seq<Byte>>)
    requires at + |Joined(pieces)| <= |block| && AllFit(pieces, |block| - at)
    requires |pieces| >= 2 && pieces[0] != [] && pieces[|pieces| - 1] != []
    ensures Delivers(block, at, pieces) ==> pieces[0][0] == pieces[|pieces| - 1][0]
  {
    LastPieceCovers(block, at, pieces);
    var r, all := Overlaid(block, at, pieces), Joined(pieces);
    assert all[0] == pieces[0][0];
    assert r[at..at + |all|][0] == r[at];
  }

  lemma LastPieceCovers(block: seq<Byte>, at: nat, pieces: seq<seq<Byte>>)
    requires at < |block| && AllFit(pieces, |block| - at) && pieces != [] && pieces[|pieces| - 1] != []
    ensures Overlaid(block, at, pieces)[at] == pieces[|pieces| - 1][0]
  {
  }

  ghost predicate Shaped(pieces: seq<seq<Byte>>, lengths: seq<nat>) {
    |pieces| == |lengths| && forall i :: 0 <= i < |pieces| ==> |pieces[i]| == lengths[i]
  }

  lemma {:induction false} JoinedLength(pieces: seq<seq<Byte>>, lengths: seq<nat>)
    requires Shaped(pieces, lengths)
    ensures |Joined(pieces)| == Total(lengths)
    decreases |pieces|
  {
    if pieces != [] {
      var k := |pieces| - 1;
      JoinedLength(pieces[..k], lengths[..k]);
      JoinedSnoc(pieces[..k], pieces[k]);
      assert pieces == pieces[..k] + [pieces[k]];
    }
  }

  /** Pieces read to one address are found there whole. */
  ghost predicate ArriveWhole(block: seq<Byte>, at: nat, pieces: seq<seq<Byte>>) {
    at + |Joined(pieces)| <= |block| && AllFit(pieces, |block| - at) && Delivers(block, at, pieces)
  }

  lemma OneArrivesWhole(lengths: seq<nat>, block: seq<Byte>, at: nat, pieces: seq<seq<Byte>>)
    requires at + Total(lengths) <= |block| && |lengths| <= 1 && Shaped(pieces, lengths)
    ensures ArriveWhole(block, at, pieces)
  {
    JoinedLength(pieces, lengths);
    PiecesFit(pieces, |block| - at);
    OnePieceDelivers(block, at, pieces);
  }

  lemma NothingJoined<T>(none: seq<seq<T>>)
    requires forall i :: 0 <= i < |none| ==> none[i] == []
    ensures Joined(none) == []
  {
  }

  /** `n` of the `there` bytes that were waiting, and none only if none were there or none were wanted. */
  predicate Served(n: int, there: nat, wanted: nat) {
    0 <= n <= Min(there, wanted) && (n == 0 ==> there == 0 || wanted == 0)
  }
}
