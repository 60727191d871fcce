/**
 * The file information cache with its inotify index: `cache_` maps names to entries, `inotifies_`
 * maps watch ids to the same entries. The branches for a system with inotify are modelled; a
 * system without it is the case where no watch is ever granted.
 */
module FileCache {
  import opened Bytes

  /** A cached entry. `id` numbers the entries in order of creation and stands for the object's identity. */
  datatype FileInfo = FileInfo(id: nat, filename: string, cachedAt: int, wd: int, mimetype: string)

  /** A change event taken from the queue: its watch id, and how many entries existed by then. */
  datatype Change = Change(wd: int, born: nat)

  /** The two maps, the number of entries ever created, and all change events processed so far. */
  datatype State = State(cache: map<string, FileInfo>, inotifies: map<int, FileInfo>, born: nat, log: seq<Change>)

  const EMPTY := State(map[], map[], 0, [])

  // ---------------------------------------------------------------- the two operations

  /** `isValid`. */
  predicate IsValid(fi: FileInfo, now: int, ttl: int) {
    fi.wd > 0 || fi.cachedAt + ttl > now
  }

  /** One trailing slash is dropped. */
  function Normalized(filename: string): string
    requires filename != []
  {
    if filename[|filename| - 1] == '/' then filename[..|filename| - 1] else filename
  }

  /** A name and the same name with a slash behind it are one entry; no other name is changed. */
  lemma OneSlashDropped(stem: string)
    ensures Normalized(stem + ['/']) == stem
    ensures stem != [] && stem[|stem| - 1] != '/' ==> Normalized(stem) == stem
  {
  }

  /** What a query meets outside the cache: the clock, and the watch id inotify would answer (-1 for none). */
  datatype Probe = Probe(now: int, wd: int, mimetype: string)

  predicate Hit(s: State, name: string, now: int, ttl: int) {
    name in s.cache && IsValid(s.cache[name], now, ttl)
  }

  function Expired(s: State, name: string): State {
    if name in s.cache then
      var fi := s.cache[name];
      s.(cache := s.cache - {name}, inotifies := if fi.wd >= 0 then s.inotifies - {fi.wd} else s.inotifies)
    else s
  }

  function NewEntry(s: State, name: string, p: Probe): FileInfo {
    FileInfo(s.born, name, p.now, p.wd, p.mimetype)
  }

  function AfterQuery(s: State, name: string, p: Probe, ttl: int): State {
    if Hit(s, name, p.now, ttl) then s
    else
      var t := Expired(s, name);
      var fi := NewEntry(s, name, p);
      t.(cache := t.cache[name := fi],
         inotifies := if p.wd != -1 then t.inotifies[p.wd := fi] else t.inotifies,
         born := s.born + 1)
  }

  function QueryResult(s: State, name: string, p: Probe, ttl: int): FileInfo {
    if Hit(s, name, p.now, ttl) then s.cache[name] else NewEntry(s, name, p)
  }

  function AfterEvent(s: State, wd: int): State {
    var t := s.(log := s.log + [Change(wd, s.born)]);
    if wd !in s.inotifies then t
    else t.(cache := s.cache - {s.inotifies[wd].filename}, inotifies := s.inotifies - {wd})
  }

  /** A batch of events; the loop stops at a watch id of zero. */
  function AfterBatch(s: State, wds: seq<int>): State
    decreases |wds|
  {
    if wds == [] || wds[0] == 0 then s else AfterBatch(AfterEvent(s, wds[0]), wds[1..])
  }

  // ---------------------------------------------------------------- consistency of the two maps

  /** Entries are stored under their own name and numbered below the next; watch ids are positive. */
  ghost predicate Filed(s: State) {
    && (forall n :: n in s.cache ==> s.cache[n].filename == n && s.cache[n].id < s.born)
    && (forall w :: w in s.inotifies ==> w > 0)
  }

  /** Every indexed entry is the one the cache holds under its name, and carries its index. */
  ghost predicate IndexedIsCached(s: State) {
    forall w :: w in s.inotifies ==>
      var e := s.inotifies[w];
      e.wd == w && e.filename in s.cache && s.cache[e.filename] == e
  }

  /** Every cached entry that counts as watched is in the index. */
  ghost predicate WatchedIsIndexed(s: State) {
    forall n :: n in s.cache && s.cache[n].wd > 0 ==>
      s.cache[n].wd in s.inotifies && s.inotifies[s.cache[n].wd] == s.cache[n]
  }

  ghost predicate Consistent(s: State) {
    Filed(s) && IndexedIsCached(s)
  }

  /** inotify answers -1 or a positive id. */
  predicate Answer(wd: int) {
    wd == -1 || wd > 0
  }

  lemma QueryKeepsConsistent(s: State, name: string, p: Probe, ttl: int)
    requires Consistent(s) && Answer(p.wd)
    ensures Consistent(AfterQuery(s, name, p, ttl))
  {
    var t := AfterQuery(s, name, p, ttl);
    forall w | w in t.inotifies
      ensures var e := t.inotifies[w]; e.wd == w && e.filename in t.cache && t.cache[e.filename] == e
    {
      if !Hit(s, name, p.now, ttl) && w != p.wd {
        assert s.inotifies[w].filename != name;
      }
    }
  }

  lemma EventKeepsConsistent(s: State, wd: int)
    requires Consistent(s)
    ensures Consistent(AfterEvent(s, wd))
    ensures wd in s.inotifies ==> s.inotifies[wd].filename in s.cache
  {
    if wd in s.inotifies {
      forall w | w in s.inotifies && w != wd
        ensures s.inotifies[w].filename != s.inotifies[wd].filename
      {
        assert s.cache[s.inotifies[w].filename].wd == w;
      }
    }
  }

  /** A watch id a miss brings in is not in the index already. */
  predicate Fresh(s: State, name: string, p: Probe, ttl: int) {
    Hit(s, name, p.now, ttl) || p.wd == -1 || p.wd !in s.inotifies
  }

  /** A query keeps the watched entries indexed if and only if its watch id is fresh. */
  lemma QueryKeepsWatchedIffFresh(s: State, name: string, p: Probe, ttl: int)
    requires Consistent(s) && WatchedIsIndexed(s) && Answer(p.wd)
    ensures WatchedIsIndexed(AfterQuery(s, name, p, ttl)) <==> Fresh(s, name, p, ttl)
  {
    var t := AfterQuery(s, name, p, ttl);
    if Fresh(s, name, p, ttl) {
      forall n | n in t.cache && t.cache[n].wd > 0
        ensures t.cache[n].wd in t.inotifies && t.inotifies[t.cache[n].wd] == t.cache[n]
      {
        if !Hit(s, name, p.now, ttl) && n != name {
          assert s.inotifies[s.cache[n].wd] == s.cache[n];
        }
      }
    } else {
      var e := s.inotifies[p.wd];
      assert s.cache[e.filename] == e && e.filename != name;
      assert t.cache[e.filename] == e && t.inotifies[e.wd].filename == name;
    }
  }

  lemma EventKeepsWatched(s: State, wd: int)
    requires Consistent(s) && WatchedIsIndexed(s)
    ensures WatchedIsIndexed(AfterEvent(s, wd))
  {
  }

  // ---------------------------------------------------------------- staleness

  /** A change event for this entry's watch has been processed since the entry was created. */
  ghost predicate Changed(log: seq<Change>, e: FileInfo) {
    exists i :: 0 <= i < |log| && log[i].wd == e.wd && e.id < log[i].born
  }

  /** No entry that counts as watched has changed. */
  ghost predicate NoneStale(s: State) {
    forall n :: n in s.cache && s.cache[n].wd > 0 ==> !Changed(s.log, s.cache[n])
  }

  /** No event can have been logged by a future entry count. */
  ghost predicate LogPast(s: State) {
    forall i :: 0 <= i < |s.log| ==> s.log[i].born <= s.born
  }

  lemma EventKeepsFresh(s: State, wd: int)
    requires Consistent(s) && WatchedIsIndexed(s) && NoneStale(s)
    ensures NoneStale(AfterEvent(s, wd))
  {
    var t := AfterEvent(s, wd);
    forall n | n in t.cache && t.cache[n].wd > 0
      ensures !Changed(t.log, t.cache[n])
    {
      assert !Changed(s.log, s.cache[n]);
      assert s.cache[n].wd != wd;
    }
  }

  lemma {:induction false} BatchKeepsAll(s: State, wds: seq<int>)
    requires Consistent(s) && LogPast(s)
    ensures Consistent(AfterBatch(s, wds)) && LogPast(AfterBatch(s, wds))
    ensures WatchedIsIndexed(s) ==> WatchedIsIndexed(AfterBatch(s, wds))
    ensures WatchedIsIndexed(s) && NoneStale(s) ==> NoneStale(AfterBatch(s, wds))
    decreases |wds|
  {
    if wds != [] && wds[0] != 0 {
      EventKeepsConsistent(s, wds[0]);
      if WatchedIsIndexed(s) {
        EventKeepsWatched(s, wds[0]);
        if NoneStale(s) {
          EventKeepsFresh(s, wds[0]);
        }
      }
      BatchKeepsAll(AfterEvent(s, wds[0]), wds[1..]);
    }
  }

  /**
   * In a consistent cache without stale entries, no batch of events can leave a stale entry behind
   * if and only if every watched entry is indexed.
   */
  lemma NeverStaleIffIndexed(s: State)
    requires Consistent(s) && LogPast(s) && NoneStale(s)
    ensures (forall wds :: NoneStale(AfterBatch(s, wds))) <==> WatchedIsIndexed(s)
  {
    if WatchedIsIndexed(s) {
      forall wds
        ensures NoneStale(AfterBatch(s, wds))
      {
        BatchKeepsAll(s, wds);
      }
    } else {
      var n :| n in s.cache && s.cache[n].wd > 0 &&
        !(s.cache[n].wd in s.inotifies && s.inotifies[s.cache[n].wd] == s.cache[n]);
      var e := s.cache[n];
      var t := AfterEvent(s, e.wd);
      assert t == AfterBatch(s, [e.wd]) by {
        assert [e.wd][1..] == [];
      }
      assert n in t.cache && t.cache[n] == e;
      assert t.log[|s.log|] == Change(e.wd, s.born);
      assert Changed(t.log, e);
      assert !NoneStale(AfterBatch(s, [e.wd]));
    }
  }

  // ---------------------------------------------------------------- whole runs

  datatype Op = Query(name: string, probe: Probe) | Events(wds: seq<int>)

  function AfterOp(s: State, op: Op, ttl: int): State {
    match op
    case Query(name, p) => AfterQuery(s, name, p, ttl)
    case Events(wds) => AfterBatch(s, wds)
  }

  function AfterRun(s: State, ops: seq<Op>, ttl: int): State
    decreases |ops|
  {
    if ops == [] then s else AfterRun(AfterOp(s, ops[0], ttl), ops[1..], ttl)
  }

  ghost predicate Answered(ops: seq<Op>) {
    forall i :: 0 <= i < |ops| && ops[i].Query? ==> Answer(ops[i].probe.wd)
  }

  /** Every watch id that a miss in the run brings in is fresh at that point. */
  ghost predicate FreshRun(s: State, ops: seq<Op>, ttl: int)
    decreases |ops|
  {
    ops == [] ||
    ((ops[0].Query? ==> Fresh(s, ops[0].name, ops[0].probe, ttl)) && FreshRun(AfterOp(s, ops[0], ttl), ops[1..], ttl))
  }

  lemma QueryKeepsFresh(s: State, name: string, p: Probe, ttl: int)
    requires Consistent(s) && LogPast(s) && NoneStale(s)
    ensures LogPast(AfterQuery(s, name, p, ttl)) && NoneStale(AfterQuery(s, name, p, ttl))
  {
  }

  /**
   * In every reachable state every indexed entry is cached, so the event loop always finds the
   * cache entry it erases; with fresh watch ids the two maps agree on the watched entries as well.
   */
  lemma {:induction false} RunKeepsMaps(s: State, ops: seq<Op>, ttl: int)
    requires Answered(ops) && Consistent(s) && LogPast(s)
    ensures var t := AfterRun(s, ops, ttl);
            && Consistent(t) && LogPast(t)
            && (FreshRun(s, ops, ttl) && WatchedIsIndexed(s) ==> WatchedIsIndexed(t))
            && (FreshRun(s, ops, ttl) && WatchedIsIndexed(s) && NoneStale(s) ==> NoneStale(t))
    decreases |ops|
  {
    if ops != [] {
      match ops[0] {
        case Query(name, p) =>
          QueryKeepsConsistent(s, name, p, ttl);
          if WatchedIsIndexed(s) {
            QueryKeepsWatchedIffFresh(s, name, p, ttl);
            if NoneStale(s) {
              QueryKeepsFresh(s, name, p, ttl);
            }
          }
        case Events(wds) =>
          BatchKeepsAll(s, wds);
      }
      RunKeepsMaps(AfterOp(s, ops[0], ttl), ops[1..], ttl);
    }
  }

  /** What a query promises about its result. */
  ghost predicate Guaranteed(s: State, r: FileInfo, now: int, ttl: int) {
    || (r.id == s.born && r.cachedAt == now)          // made by this query
    || r.cachedAt + ttl > now                         // young enough
    || (r.wd > 0 && !Changed(s.log, r))               // watched, and nothing happened to it
  }

  /** After every run from an empty cache with fresh watch ids, no query answers with a stale entry. */
  lemma NoStaleAnswer(ops: seq<Op>, name: string, p: Probe, ttl: int)
    requires Answered(ops) && FreshRun(EMPTY, ops, ttl)
    ensures var s := AfterRun(EMPTY, ops, ttl);
            Guaranteed(s, QueryResult(s, name, p, ttl), p.now, ttl) && QueryResult(s, name, p, ttl).filename == name
  {
    RunKeepsMaps(EMPTY, ops, ttl);
  }

  // ---------------------------------------------------------------- what the cache is for

  /** A cached entry may be served: it is watched, or younger than the time to live. */
  predicate Servable(r: FileInfo, now: int, ttl: int) {
    r.wd > 0 || now < r.cachedAt + ttl
  }

  /** Nothing in the run reports a change of the entry, and every query of its name could be served with it. */
  ghost predicate Undisturbed(ops: seq<Op>, r: FileInfo, ttl: int) {
    forall i :: 0 <= i < |ops| ==>
      match ops[i]
      case Query(name, p) => name == r.filename ==> Servable(r, p.now, ttl)
      case Events(wds) => r.wd !in wds
  }

  ghost predicate CachedAs(s: State, r: FileInfo) {
    r.filename in s.cache && s.cache[r.filename] == r
  }

  lemma {:induction false} BatchKeepsEntry(s: State, wds: seq<int>, r: FileInfo)
    requires Consistent(s) && CachedAs(s, r) && r.wd !in wds
    ensures CachedAs(AfterBatch(s, wds), r) && AfterBatch(s, wds).born == s.born
    decreases |wds|
  {
    if wds != [] && wds[0] != 0 {
      EventKeepsConsistent(s, wds[0]);
      assert wds[0] in s.inotifies ==> s.inotifies[wds[0]].wd == wds[0];
      BatchKeepsEntry(AfterEvent(s, wds[0]), wds[1..], r);
    }
  }

  lemma OpKeepsEntry(s: State, op: Op, r: FileInfo, ttl: int)
    requires Consistent(s) && CachedAs(s, r) && Undisturbed([op], r, ttl) && Answered([op])
    ensures Consistent(AfterOp(s, op, ttl)) && CachedAs(AfterOp(s, op, ttl), r)
  {
    assert [op][0] == op;
    match op
    case Query(name, p) =>
      QueryKeepsConsistent(s, name, p, ttl);
    case Events(wds) =>
      BatchKeepsEntry(s, wds, r);
      BatchKeepsConsistent(s, wds);
  }

  lemma {:induction false} BatchKeepsConsistent(s: State, wds: seq<int>)
    requires Consistent(s)
    ensures Consistent(AfterBatch(s, wds))
    decreases |wds|
  {
    if wds != [] && wds[0] != 0 {
      EventKeepsConsistent(s, wds[0]);
      BatchKeepsConsistent(AfterEvent(s, wds[0]), wds[1..]);
    }
  }

  lemma {:induction false} RunKeepsEntry(s: State, ops: seq<Op>, r: FileInfo, ttl: int)
    requires Consistent(s) && CachedAs(s, r) && Undisturbed(ops, r, ttl) && Answered(ops)
    ensures Consistent(AfterRun(s, ops, ttl)) && CachedAs(AfterRun(s, ops, ttl), r)
    decreases |ops|
  {
    if ops != [] {
      OpKeepsEntry(s, ops[0], r, ttl);
      RunKeepsEntry(AfterOp(s, ops[0], ttl), ops[1..], r, ttl);
    }
  }

  /**
   * What a query answered is what a later query of the same name answers, over any run in between
   * that does not disturb the entry, exactly as long as it may be served; after that the answer is new.
   */
  lemma ServedFromCacheIff(s: State, name: string, p: Probe, ops: seq<Op>, q: Probe, ttl: int)
    requires Consistent(s) && Answer(p.wd) && Answered(ops)
    requires Undisturbed(ops, QueryResult(s, name, p, ttl), ttl)
    ensures var r := QueryResult(s, name, p, ttl);
            var t := AfterRun(AfterQuery(s, name, p, ttl), ops, ttl);
            var a := QueryResult(t, name, q, ttl);
            && r.filename == name && (a == r <==> q.now < r.cachedAt + ttl || r.wd > 0)
            && (a != r ==> a == FileInfo(t.born, name, q.now, q.wd, q.mimetype))
  {
    var r := QueryResult(s, name, p, ttl);
    QueryKeepsConsistent(s, name, p, ttl);
    RunKeepsEntry(AfterQuery(s, name, p, ttl), ops, r, ttl);
  }

  /** A batch evicts exactly the entries indexed under its watch ids, up to the first id of zero. */
  lemma {:induction false} BatchEvictsExactly(s: State, wds: seq<int>, rest: seq<int>, n: string)
    requires Consistent(s) && 0 !in wds
    ensures var t := AfterBatch(s, wds + [0] + rest);
            n in t.cache <==> n in s.cache && !(s.cache[n].wd in wds && s.cache[n].wd in s.inotifies &&
                                                s.inotifies[s.cache[n].wd] == s.cache[n])
    decreases |wds|
  {
    var all := wds + [0] + rest;
    if wds != [] {
      assert all[0] == wds[0] && all[1..] == wds[1..] + [0] + rest;
      EventKeepsConsistent(s, wds[0]);
      BatchEvictsExactly(AfterEvent(s, wds[0]), wds[1..], rest, n);
    }
  }

  /** No watch is ever granted: the cache without inotify. */
  ghost predicate Unwatched(ops: seq<Op>) {
    forall i :: 0 <= i < |ops| && ops[i].Query? ==> ops[i].probe.wd == -1
  }

  lemma {:induction false} UnwatchedRun(s: State, ops: seq<Op>, ttl: int)
    requires Unwatched(ops) && s.inotifies == map[] && forall n :: n in s.cache ==> s.cache[n].wd == -1
    ensures var t := AfterRun(s, ops, ttl); t.inotifies == map[] && forall n :: n in t.cache ==> t.cache[n].wd == -1
    decreases |ops|
  {
    if ops != [] {
      if ops[0].Events? {
        UnwatchedBatch(s, ops[0].wds);
      }
      UnwatchedRun(AfterOp(s, ops[0], ttl), ops[1..], ttl);
    }
  }

  lemma {:induction false} UnwatchedBatch(s: State, wds: seq<int>)
    requires s.inotifies == map[]
    ensures AfterBatch(s, wds).cache == s.cache && AfterBatch(s, wds).inotifies == map[]
    decreases |wds|
  {
    if wds != [] && wds[0] != 0 {
      UnwatchedBatch(AfterEvent(s, wds[0]), wds[1..]);
    }
  }

  /** Without inotify every answer is new or younger than the time to live. */
  lemma WithinTtl(ops: seq<Op>, name: string, p: Probe, ttl: int)
    requires Unwatched(ops)
    ensures var r := QueryResult(AfterRun(EMPTY, ops, ttl), name, p, ttl);
            r.cachedAt == p.now || r.cachedAt + ttl > p.now
  {
    UnwatchedRun(EMPTY, ops, ttl);
  }

  /** Two names of one file share a watch id; a change then leaves the first entry behind, stale for ever. */
  lemma SharedWatchGoesStale(ttl: int, now: int)
    requires ttl >= 0
    ensures var p := Probe(0, 7, "");
            var s := AfterRun(EMPTY, [Query("a", p), Query("b", p), Events([7])], ttl);
            var r := QueryResult(s, "a", Probe(now, -1, ""), ttl);
            r.wd > 0 && Changed(s.log, r) && (now >= ttl ==> !Guaranteed(s, r, now, ttl))
  {
    var p := Probe(0, 7, "");
    var a, b := FileInfo(0, "a", 0, 7, ""), FileInfo(1, "b", 0, 7, "");
    var s1 := AfterQuery(EMPTY, "a", p, ttl);
    assert s1 == State(map["a" := a], map[7 := a], 1, []);
    var s2 := AfterQuery(s1, "b", p, ttl);
    assert s2 == State(map["a" := a, "b" := b], map[7 := b], 2, []);
    var s3 := AfterEvent(s2, 7);
    assert [7][1..] == [] && AfterBatch(s2, [7]) == s3;
    var ops := [Query("a", p), Query("b", p), Events([7])];
    assert ops[1..] == [Query("b", p), Events([7])] && ops[1..][1..] == [Events([7])] && ops[1..][1..][1..] == [];
    assert AfterRun(EMPTY, ops, ttl) == AfterRun(s1, ops[1..], ttl) == AfterRun(s2, ops[1..][1..], ttl) == s3;
    assert s3.log[0] == Change(7, 2);
    assert s3.cache["a"] == a;
  }

  // ---------------------------------------------------------------- the service

  class FileMgr {
    const ttl: int
    const mimetypes: map<string, string>
    const defaultMimetype: string
    var cache: map<string, FileInfo>
    var inotifies: map<int, FileInfo>
    var born: nat
    ghost var log: seq<Change>

    ghost function Now(): State
      reads this
    {
      State(cache, inotifies, born, log)
    }

    constructor (ttl: int, mimetypes: map<string, string>, defaultMimetype: string)
      ensures Now() == EMPTY && this.ttl == ttl
      ensures this.mimetypes == mimetypes && this.defaultMimetype == defaultMimetype
    {
      this.ttl, this.mimetypes, this.defaultMimetype := ttl, mimetypes, defaultMimetype;
      cache, inotifies, born, log := map[], map[], 0, [];
    }

    /**
     * `query`. `now` is the event loop's clock, `present` whether the file exists, and `wd` what
     * inotify_add_watch would answer; an inotify handle of -1 grants nothing.
     */
    method Query(filename: string, handle: int, now: int, present: bool, wd: int) returns (r: FileInfo)
      requires filename != []
      modifies this
      ensures var p := Probe(now, if handle != -1 && present then wd else -1,
                             MimetypeOf(Normalized(filename), mimetypes, defaultMimetype));
              && r == QueryResult(old(Now()), Normalized(filename), p, ttl)
              && Now() == AfterQuery(old(Now()), Normalized(filename), p, ttl)
              && (Normalized(filename) !in old(cache) ==>
                    r == FileInfo(old(born), Normalized(filename), now, p.wd, p.mimetype))
    {
      var name := Normalized(filename);
      if name in cache {
        var fi := cache[name];
        if IsValid(fi, now, ttl) {
          return fi;
        }
        if fi.wd >= 0 {
          if fi.wd in inotifies {
            inotifies := inotifies - {fi.wd};
          } else {
            assert inotifies - {fi.wd} == inotifies;
          }
        }
        cache := cache - {name};
      }
      var mimetype := GetMimetype(name);
      var granted := if handle != -1 && present then wd else -1;
      r := FileInfo(born, name, now, granted, mimetype);
      if granted != -1 {
        inotifies := inotifies[granted := r];
      }
      cache := cache[name := r];
      born := born + 1;
    }

    /** `onFileChanged`: the erase below is only defined for a key that is there. */
    method OnFileChanged(wds: seq<int>)
      requires Consistent(Now())
      modifies this
      ensures Consistent(Now()) && Now() == AfterBatch(old(Now()), wds)
    {
      var i := 0;
      while i < |wds| && wds[i] != 0
        invariant 0 <= i <= |wds| && Consistent(Now())
        invariant AfterBatch(Now(), wds[i..]) == AfterBatch(old(Now()), wds)
      {
        assert wds[i..][0] == wds[i] && wds[i..][1..] == wds[i + 1..];
        EventKeepsConsistent(Now(), wds[i]);
        log := log + [Change(wds[i], born)];
        if wds[i] in inotifies {
          var k := inotifies[wds[i]].filename;
          assert k in cache;
          cache := cache - {k};
          inotifies := inotifies - {wds[i]};
        }
        i := i + 1;
      }
    }

    /** `get_mimetype`: backup suffixes of '~' are peeled off the extension until it is known. */
    method GetMimetype(filename: string) returns (r: string)
      ensures r == MimetypeOf(filename, mimetypes, defaultMimetype)
    {
      var ndot, nslash := LastOf(filename, '.'), LastOf(filename, '/');
      if ndot.Some? && nslash.Some? && ndot.value > nslash.value {
        var ext := filename[ndot.value + 1..];
        ghost var whole := Peeled(ext, mimetypes);
        while |ext| > 0
          invariant Peeled(ext, mimetypes) == whole
        {
          if ext in mimetypes {
            return mimetypes[ext];
          }
          if ext[|ext| - 1] != '~' {
            break;
          }
          ext := ext[..|ext| - 1];
        }
      }
      return defaultMimetype;
    }
  }

  // ---------------------------------------------------------------- mime types

  /** `find_last_of` a single character. */
  function LastOf(s: string, c: char): (r: Option<nat>)
    ensures r.Some? ==> r.value < |s| && s[r.value] == c && forall i :: r.value < i < |s| ==> s[i] != c
    ensures r.None? ==> c !in s
  {
    if s == [] then None
    else if s[|s| - 1] == c then Some(|s| - 1)
    else LastOf(s[..|s| - 1], c)
  }

  /** The longest known text that `ext` becomes by dropping trailing '~' characters. */
  function Peeled(ext: string, known: map<string, string>): (r: Option<string>)
    ensures r.Some? ==> r.value in known && r.value != [] && r.value <= ext
    ensures r.Some? ==> forall i :: |r.value| <= i < |ext| ==> ext[i] == '~'
    ensures forall j :: 0 < j <= |ext| && ext[..j] in known && (forall i :: j <= i < |ext| ==> ext[i] == '~') ==>
              r.Some? && j <= |r.value|
  {
    if ext == [] then None
    else if ext in known then
      assert ext[..|ext|] == ext;
      Some(ext)
    else if ext[|ext| - 1] != '~' then
      assert ext[..|ext|] == ext;
      None
    else
      assert forall j :: 0 < j < |ext| ==> ext[..|ext| - 1][..j] == ext[..j];
      assert ext[..|ext|] == ext;
      Peeled(ext[..|ext| - 1], known)
  }

  /** An extension counts only after a slash: without one, `nslash` is `npos` and exceeds every index. */
  function MimetypeOf(filename: string, known: map<string, string>, default: string): string {
    var ndot, nslash := LastOf(filename, '.'), LastOf(filename, '/');
    if ndot.Some? && nslash.Some? && ndot.value > nslash.value then
      match Peeled(filename[ndot.value + 1..], known)
      case Some(ext) => known[ext]
      case None => default
    else default
  }

  /** A file name ending in a known extension gets its type if there is a slash before it, and the default otherwise. */
  lemma ExtensionNeedsSlash(stem: string, ext: string, known: map<string, string>, default: string)
    requires ext in known && ext != [] && '.' !in ext && '/' !in ext
    ensures MimetypeOf(stem + ['.'] + ext, known, default) == if '/' in stem then known[ext] else default
  {
    SplitName(stem, ext);
  }

  function WithMarks(ext: string, n: nat): string {
    ext + seq(n, _ => '~')
  }

  /** Where the known extension `ext` has `n` backup marks behind it, and no longer form is known, its type counts. */
  lemma BackupMarksDoNotCount(stem: string, ext: string, n: nat, known: map<string, string>, default: string)
    requires ext in known && ext != [] && '.' !in ext && '/' !in ext && '/' in stem
    requires forall k :: 0 < k <= n ==> WithMarks(ext, k) !in known
    ensures MimetypeOf(stem + ['.'] + WithMarks(ext, n), known, default) == known[ext]
  {
    SplitName(stem, WithMarks(ext, n));
    PeeledMarks(ext, n, known);
  }

  lemma {:induction false} PeeledMarks(ext: string, n: nat, known: map<string, string>)
    requires ext in known && ext != []
    requires forall k :: 0 < k <= n ==> WithMarks(ext, k) !in known
    ensures Peeled(WithMarks(ext, n), known) == Some(ext)
  {
    var marked := WithMarks(ext, n);
    if n == 0 {
      assert marked == ext;
    } else {
      PeeledMarks(ext, n - 1, known);
      assert marked[..|marked| - 1] == WithMarks(ext, n - 1);
    }
  }

  /** The last dot of a name whose extension has no dot and no slash. */
  lemma SplitName(stem: string, ext: string)
    requires '.' !in ext && '/' !in ext
    ensures var f := stem + ['.'] + ext;
            && LastOf(f, '.') == Some(|stem|) && f[|stem| + 1..] == ext
            && (LastOf(f, '/').Some? ==> LastOf(f, '/').value < |stem|)
            && (LastOf(f, '/').Some? <==> '/' in stem)
  {
    var f := stem + ['.'] + ext;
    assert f[|stem|] == '.' && forall i :: |stem| < i < |f| ==> f[i] == ext[i - |stem| - 1];
    assert f[|stem| + 1..] == ext;
    assert forall i :: 0 <= i < |stem| ==> f[i] == stem[i];
    if '/' in stem {
      var k :| 0 <= k < |stem| && stem[k] == '/';
      assert f[k] == '/';
    }
  }

  /** Without an extension in its last component, or with one of which no form is known, a name gets the default. */
  lemma OtherwiseDefault(stem: string, ext: string, known: map<string, string>, default: string)
    requires '.' !in ext && '/' !in ext
    ensures MimetypeOf(ext, known, default) == MimetypeOf(stem + ['/'] + ext, known, default) == default
    ensures (forall j :: 0 < j <= |ext| && (forall i :: j <= i < |ext| ==> ext[i] == '~') ==> ext[..j] !in known) ==>
              MimetypeOf(stem + ['.'] + ext, known, default) == default
  {
    SplitName(stem, ext);
    var g := stem + ['/'] + ext;
    assert g[|stem|] == '/' && forall i :: |stem| < i < |g| ==> g[i] == ext[i - |stem| - 1];
    var p := Peeled(ext, known);
    if p.Some? {
      assert ext[..|p.value|] == p.value;
    }
  }
}
