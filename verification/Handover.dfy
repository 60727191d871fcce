/**
 * Handing listening sockets over to a successor process: every listener serializes itself to text,
 * the texts are joined with ';', and the successor parses them with nested `strtok_r` calls.
 */
module Handover {
  import opened Bytes
  import opened Numbers

  // ---------------------------------------------------------------- strtok_r

  function SkipDelimiters(s: string, d: char): (r: string)
    ensures r == [] || r[0] != d
    ensures |r| <= |s|
  {
    if s != [] && s[0] == d then SkipDelimiters(s[1..], d) else s
  }

  /** Length of the text before the next delimiter. */
  function TokenLength(s: string, d: char): (n: nat)
    ensures n <= |s| && d !in s[..n] && (n < |s| ==> s[n] == d)
  {
    if s == [] || s[0] == d then 0 else 1 + TokenLength(s[1..], d)
  }

  /** `strtok_r`: the next token, or None, and the text saved for the next call. */
  function StrTok(s: string, d: char): (r: (Option<string>, string))
    ensures r.0.Some? ==> r.0.value != [] && |r.1| < |s|
    ensures r.0.None? ==> r.1 == []
  {
    var t := SkipDelimiters(s, d);
    var n := TokenLength(t, d);
    if t == [] then (None, [])
    else (Some(t[..n]), if n < |t| then t[n + 1..] else [])
  }

  /** All tokens of a text. */
  function Tokens(s: string, d: char): seq<string>
    decreases |s|
  {
    var (token, rest) := StrTok(s, d);
    if token.None? then [] else [token.value] + Tokens(rest, d)
  }

  /** Texts that are not empty and do not contain the delimiter. */
  ghost predicate Parts(parts: seq<string>, d: char) {
    forall i :: 0 <= i < |parts| ==> parts[i] != [] && d !in parts[i]
  }

  lemma {:induction false} TokensAreParts(s: string, d: char)
    ensures Parts(Tokens(s, d), d)
    decreases |s|
  {
    var (token, rest) := StrTok(s, d);
    if token.Some? {
      TokensAreParts(rest, d);
    }
  }

  /** The k-th comma-separated field of an entry. */
  function Field(entry: string, k: nat): Option<string> {
    if k < |Tokens(entry, ',')| then Some(Tokens(entry, ',')[k]) else None
  }

  /** Three calls in a row give the first three fields. */
  lemma FieldsByStrTok(entry: string)
    ensures var (f0, r0) := StrTok(entry, ',');
            var (f1, r1) := StrTok(r0, ',');
            var (f2, _) := StrTok(r1, ',');
            f0 == Field(entry, 0) && f1 == Field(entry, 1) && f2 == Field(entry, 2)
  {
    var (f0, r0) := StrTok(entry, ',');
    var (f1, r1) := StrTok(r0, ',');
    var (f2, r2) := StrTok(r1, ',');
    assert f0.Some? ==> Tokens(entry, ',') == [f0.value] + Tokens(r0, ',');
    assert f1.Some? ==> Tokens(r0, ',') == [f1.value] + Tokens(r1, ',');
    assert f2.Some? ==> Tokens(r1, ',') == [f2.value] + Tokens(r2, ',');
  }

  // ---------------------------------------------------------------- the parsers

  /** A parser's answer; Crash where it hands a null pointer to `atoi` or `strcmp`. */
  datatype Outcome<T> = Value(value: T) | Crash

  function Prepended(fd: int, r: Outcome<seq<int>>): Outcome<seq<int>> {
    if r.Crash? then Crash else Value([fd] + r.value)
  }

  /** The third field of every entry, or the second where there is no third. */
  function ListedFds(entries: seq<string>): Outcome<seq<int>> {
    if entries == [] then Value([])
    else
      var e := entries[0];
      var fd := if Field(e, 2).Some? then Field(e, 2) else Field(e, 1);
      if fd.None? then Crash else Prepended(Atoi(fd.value), ListedFds(entries[1..]))
  }

  function Extended(list: seq<int>, r: Outcome<seq<int>>): Outcome<seq<int>> {
    if r.Crash? then Crash else Value(list + r.value)
  }

  /** `getInheritedSocketList`. */
  method GetInheritedSocketList(env: Option<string>) returns (r: Outcome<seq<int>>)
    ensures r == if env.None? then Value([]) else ListedFds(Tokens(env.value, ';'))
  {
    if env.None? {
      return Value([]);
    }
    var list: seq<int> := [];
    var s1 := env.value;
    ghost var whole := ListedFds(Tokens(s1, ';'));
    assert Extended([], whole) == whole by {
      assert whole.Value? ==> [] + whole.value == whole.value;
    }
    while true
      invariant whole == Extended(list, ListedFds(Tokens(s1, ';')))
      decreases |s1|
    {
      var (token, rest1) := StrTok(s1, ';');
      if token.None? {
        assert list + [] == list;
        return Value(list);
      }
      FieldsByStrTok(token.value);
      var (_, rest2) := StrTok(token.value, ',');
      var (vival1, rest3) := StrTok(rest2, ',');
      var (vival2, _) := StrTok(rest3, ',');
      if vival2.None? && vival1.None? {
        return Crash;
      }
      var fd := Atoi(if vival2.Some? then vival2.value else vival1.value);
      ExtendedSnoc(list, fd, ListedFds(Tokens(rest1, ';')));
      list := list + [fd];
      s1 := rest1;
    }
  }

  lemma ExtendedSnoc(list: seq<int>, fd: int, r: Outcome<seq<int>>)
    ensures Extended(list, Prepended(fd, r)) == Extended(list + [fd], r)
  {
    if r.Value? {
      assert list + ([fd] + r.value) == (list + [fd]) + r.value;
    }
  }

  /** The descriptor of the first entry that matches address and port, if it is a socket; else -1. */
  function FindInet(entries: seq<string>, address: string, port: int, isSocket: int -> bool): Outcome<int> {
    if entries == [] then Value(-1)
    else
      var e := entries[0];
      if Field(e, 0).None? then Crash
      else if Field(e, 0).value != address then FindInet(entries[1..], address, port, isSocket)
      else if Field(e, 1).None? then Crash
      else if Atoi(Field(e, 1).value) != port then FindInet(entries[1..], address, port, isSocket)
      else if Field(e, 2).None? then Crash
      else Value(Checked(Atoi(Field(e, 2).value), isSocket))
  }

  /** The `fstat` check: a match that is no socket ends the search without one. */
  function Checked(fd: int, isSocket: int -> bool): int {
    if isSocket(fd) then fd else -1
  }

  /** `getSocketInet`. */
  method GetSocketInet(env: Option<string>, address: string, port: int, isSocket: int -> bool) returns (r: Outcome<int>)
    ensures r == if env.None? then Value(-1) else FindInet(Tokens(env.value, ';'), address, port, isSocket)
    ensures r.Value? ==> r.value == -1 || isSocket(r.value)
  {
    if env.None? {
      return Value(-1);
    }
    var s1 := env.value;
    while true
      invariant FindInet(Tokens(env.value, ';'), address, port, isSocket) ==
                FindInet(Tokens(s1, ';'), address, port, isSocket)
      decreases |s1|
    {
      var (token, rest1) := StrTok(s1, ';');
      if token.None? {
        return Value(-1);
      }
      FieldsByStrTok(token.value);
      s1 := rest1;
      var (vaddr, rest2) := StrTok(token.value, ',');
      if vaddr.None? {
        return Crash;
      }
      if vaddr.value != address {
        continue;
      }
      var (vport, rest3) := StrTok(rest2, ',');
      if vport.None? {
        return Crash;
      }
      if Atoi(vport.value) != port {
        continue;
      }
      var (vfd, _) := StrTok(rest3, ',');
      if vfd.None? {
        return Crash;
      }
      var fd := Atoi(vfd.value);
      return Value(if isSocket(fd) then fd else -1);
    }
  }

  function FindUnix(entries: seq<string>, path: string, isSocket: int -> bool): Outcome<int> {
    if entries == [] then Value(-1)
    else
      var e := entries[0];
      if Field(e, 0).None? then Crash
      else if Field(e, 0).value != path then FindUnix(entries[1..], path, isSocket)
      else if Field(e, 1).None? then Crash
      else Value(Checked(Atoi(Field(e, 1).value), isSocket))
  }

  /** `getSocketUnix`. */
  method GetSocketUnix(env: Option<string>, path: string, isSocket: int -> bool) returns (r: Outcome<int>)
    ensures r == if env.None? then Value(-1) else FindUnix(Tokens(env.value, ';'), path, isSocket)
    ensures r.Value? ==> r.value == -1 || isSocket(r.value)
  {
    if env.None? {
      return Value(-1);
    }
    var s1 := env.value;
    while true
      invariant FindUnix(Tokens(env.value, ';'), path, isSocket) == FindUnix(Tokens(s1, ';'), path, isSocket)
      decreases |s1|
    {
      var (token, rest1) := StrTok(s1, ';');
      if token.None? {
        return Value(-1);
      }
      FieldsByStrTok(token.value);
      s1 := rest1;
      var (vaddr, rest2) := StrTok(token.value, ',');
      if vaddr.None? {
        return Crash;
      }
      if vaddr.value != path {
        continue;
      }
      var (vfd, _) := StrTok(rest2, ',');
      if vfd.None? {
        return Crash;
      }
      var fd := Atoi(vfd.value);
      return Value(if isSocket(fd) then fd else -1);
    }
  }

  // ---------------------------------------------------------------- listeners

  datatype Listener = Inet(address: string, port: int, fd: int) | Unix(path: string, fd: int) {
    function Name(): string {
      if Inet? then address else path
    }

    function Fields(): seq<string> {
      if Inet? then [address, Decimal(port), Decimal(fd)] else [path, Decimal(fd)]
    }

    /** The text `snprintf` composes. */
    function Text(): string {
      JoinedWith(Fields(), ',')
    }

    /** `serialize`: copies as many bytes as the text has, Crash where that is more than its buffer holds. */
    function Serialize(): Outcome<string> {
      if |Text()| >= (if Inet? then 1024 else 4096) then Crash else Value(Text())
    }
  }

  function JoinedWith(parts: seq<string>, d: char): string {
    if parts == [] then []
    else if |parts| == 1 then parts[0]
    else parts[0] + [d] + JoinedWith(parts[1..], d)
  }

  /** A listener that `bind` has accepted: an address in presentation format, or a path that fits `sun_path`. */
  ghost predicate Bound(l: Listener) {
    && INT_MIN <= l.fd <= INT_MAX
    && (l.Inet? ==> |l.address| < 46 && INT_MIN <= l.port <= INT_MAX)
    && (l.Unix? ==> |l.path| < 108)
  }

  /** A name that survives tokenizing. */
  ghost predicate Clean(name: string) {
    name != [] && ',' !in name && ';' !in name
  }

  /** The text handed over in the environment. */
  function Handed(ls: seq<Listener>): string {
    JoinedWith(Texts(ls), ';')
  }

  function Texts(ls: seq<Listener>): seq<string> {
    if ls == [] then [] else [ls[0].Text()] + Texts(ls[1..])
  }

  // ---------------------------------------------------------------- tokenizing undoes joining

  lemma {:induction false} TokenLengthOf(p: string, rest: string, d: char)
    requires d !in p && (rest == [] || rest[0] == d)
    ensures TokenLength(p + rest, d) == |p|
  {
    if p == [] {
      assert p + rest == rest;
    } else {
      assert (p + rest)[1..] == p[1..] + rest;
      TokenLengthOf(p[1..], rest, d);
    }
  }

  lemma {:induction false} TokensOfJoined(parts: seq<string>, d: char)
    requires Parts(parts, d)
    ensures Tokens(JoinedWith(parts, d), d) == parts
  {
    if parts != [] {
      var p, s := parts[0], JoinedWith(parts, d);
      var tail := if |parts| == 1 then [] else [d] + JoinedWith(parts[1..], d);
      assert s == p + tail;
      TokenLengthOf(p, tail, d);
      TokensOfJoined(parts[1..], d);
      assert s[..|p|] == p;
      assert |parts| > 1 ==> s[|p| + 1..] == JoinedWith(parts[1..], d);
    }
  }

  /** Tokenizing undoes joining exactly for parts that are not empty and free of the delimiter. */
  lemma TokensUndoJoinedIff(parts: seq<string>, d: char)
    ensures Tokens(JoinedWith(parts, d), d) == parts <==> Parts(parts, d)
  {
    TokensAreParts(JoinedWith(parts, d), d);
    if Parts(parts, d) {
      TokensOfJoined(parts, d);
    }
  }

  lemma FieldsOf(l: Listener)
    requires Clean(l.Name())
    ensures Tokens(l.Text(), ',') == l.Fields()
    ensures l.Text() != [] && ';' !in l.Text()
  {
    FieldsAreParts(l);
    TokensOfJoined(l.Fields(), ',');
    JoinedFree(l.Fields());
  }

  lemma FieldsAreParts(l: Listener)
    requires Clean(l.Name())
    ensures Parts(l.Fields(), ',') && Parts(l.Fields(), ';')
  {
    DecimalIsClean(l.fd);
    if l.Inet? {
      DecimalIsClean(l.port);
    }
  }

  lemma DecimalIsClean(v: int)
    ensures Clean(Decimal(v))
  {
  }

  lemma {:induction false} JoinedFree(parts: seq<string>)
    requires Parts(parts, ';')
    ensures ';' !in JoinedWith(parts, ',') && (parts != [] ==> JoinedWith(parts, ',') != [])
  {
    if |parts| > 1 {
      JoinedFree(parts[1..]);
    }
  }

  lemma {:induction false} EntriesOf(ls: seq<Listener>)
    requires forall i :: 0 <= i < |ls| ==> Clean(ls[i].Name())
    ensures Parts(Texts(ls), ';')
  {
    if ls != [] {
      FieldsOf(ls[0]);
      EntriesOf(ls[1..]);
    }
  }

  /** What the parser sees of the text handed over: the listeners' texts, one by one. */
  lemma HandedEntries(ls: seq<Listener>)
    requires forall i :: 0 <= i < |ls| ==> Clean(ls[i].Name())
    ensures Tokens(Handed(ls), ';') == Texts(ls)
  {
    EntriesOf(ls);
    TokensOfJoined(Texts(ls), ';');
  }

  function Pow10(k: nat): nat {
    if k == 0 then 1 else 10 * Pow10(k - 1)
  }

  lemma {:induction false} DigitsLength(n: nat, k: nat)
    requires k > 0 && n < Pow10(k)
    ensures |Digits(n)| <= k
  {
    if n >= 10 {
      DigitsLength(n / 10, k - 1);
    }
  }

  lemma DecimalLength(v: int)
    requires INT_MIN <= v <= INT_MAX
    ensures |Decimal(v)| <= 11
  {
    assert Pow10(10) == 10 * Pow10(9) == 100 * Pow10(8) == 1000 * Pow10(7) == 10000 * Pow10(6) == 100000 * Pow10(5);
    assert Pow10(5) == 10 * Pow10(4) == 100 * Pow10(3) == 1000 * Pow10(2) == 10000 * Pow10(1) == 100000;
    DigitsLength(if v < 0 then -v else v, 10);
  }

  /** What a listener's text looks like: its name, the port of an Inet listener, and the descriptor. */
  lemma ListenerText(l: Listener)
    ensures l.Text() == l.Name() + "," + (if l.Inet? then Decimal(l.port) + "," else "") + Decimal(l.fd)
  {
    if l.Inet? {
      var rest := l.Fields()[1..];
      assert rest == [Decimal(l.port), Decimal(l.fd)] && rest[1..] == [Decimal(l.fd)];
      assert JoinedWith(rest[1..], ',') == Decimal(l.fd);
      assert JoinedWith(rest, ',') == Decimal(l.port) + [','] + Decimal(l.fd);
      assert l.Text() == l.address + [','] + (Decimal(l.port) + [','] + Decimal(l.fd));
    } else {
      assert l.Fields()[1..] == [Decimal(l.fd)];
      assert JoinedWith(l.Fields()[1..], ',') == Decimal(l.fd);
      assert l.Text() == l.path + [','] + Decimal(l.fd);
    }
  }

  /** The whole text: two listeners, separated by a semicolon. */
  lemma HandedText(l: Listener, m: Listener)
    ensures Handed([l, m]) == l.Text() + ";" + m.Text()
  {
    assert [l, m][1..] == [m] && [m][1..] == [];
    assert Texts([m]) == [m.Text()] + Texts([]) == [m.Text()];
    var texts := [l.Text(), m.Text()];
    assert Texts([l, m]) == texts && texts[1..] == [m.Text()];
    assert JoinedWith(texts, ';') == l.Text() + [';'] + JoinedWith(texts[1..], ';');
  }

  /** `serialize` crashes exactly where the text and its NUL exceed 1024 bytes of an Inet, 4096 of a Unix listener. */
  lemma SerializeCrashesIff(l: Listener)
    ensures l.Inet? ==>
              (l.Serialize() == Crash <==> |l.address| + |Decimal(l.port)| + |Decimal(l.fd)| + 3 > 1024)
    ensures l.Unix? ==> (l.Serialize() == Crash <==> |l.path| + |Decimal(l.fd)| + 2 > 4096)
  {
    ListenerText(l);
  }

  /** A bound listener's text always fits the buffer `serialize` prints to. */
  lemma SerializeFits(l: Listener)
    requires Bound(l)
    ensures l.Serialize() == Value(l.Text())
  {
    ListenerText(l);
    DecimalLength(l.fd);
    if l.Inet? {
      DecimalLength(l.port);
    }
  }

  // ---------------------------------------------------------------- round trips

  function Fds(ls: seq<Listener>): seq<int> {
    if ls == [] then [] else [ls[0].fd] + Fds(ls[1..])
  }

  lemma {:induction false} ListedFdsOf(ls: seq<Listener>)
    requires forall i :: 0 <= i < |ls| ==> Clean(ls[i].Name())
    ensures ListedFds(Texts(ls)) == Value(Fds(ls))
  {
    if ls != [] {
      FieldsOf(ls[0]);
      AtoiOfDecimal(ls[0].fd);
      ListedFdsOf(ls[1..]);
    }
  }

  /** Parsing the text handed over gives the descriptors of all listeners, in order. */
  lemma FdsRoundTrip(ls: seq<Listener>)
    requires forall i :: 0 <= i < |ls| ==> Clean(ls[i].Name())
    ensures ListedFds(Tokens(Handed(ls), ';')) == Value(Fds(ls))
  {
    HandedEntries(ls);
    ListedFdsOf(ls);
  }

  /**
   * What the Inet lookup finds in a list of listeners: the first one with that address and port. A
   * Unix listener whose path is the address is passed over, unless its descriptor is the port.
   */
  function LookupInet(ls: seq<Listener>, address: string, port: int, isSocket: int -> bool): Outcome<int> {
    if ls == [] then Value(-1)
    else if ls[0].Name() == address && ls[0].Inet? && ls[0].port == port then Value(Checked(ls[0].fd, isSocket))
    else if ls[0].Name() == address && ls[0].Unix? && ls[0].fd == port then Crash
    else LookupInet(ls[1..], address, port, isSocket)
  }

  lemma {:induction false} FindInetOf(ls: seq<Listener>, address: string, port: int, isSocket: int -> bool)
    requires forall i :: 0 <= i < |ls| ==> Clean(ls[i].Name())
    ensures FindInet(Texts(ls), address, port, isSocket) == LookupInet(ls, address, port, isSocket)
  {
    if ls != [] {
      FieldsOf(ls[0]);
      AtoiOfDecimal(ls[0].fd);
      if ls[0].Inet? {
        AtoiOfDecimal(ls[0].port);
      }
      FindInetOf(ls[1..], address, port, isSocket);
    }
  }

  /** On the text handed over, the Inet parser agrees with that lookup in the list itself. */
  lemma InetRoundTrip(ls: seq<Listener>, address: string, port: int, isSocket: int -> bool)
    requires forall i :: 0 <= i < |ls| ==> Clean(ls[i].Name())
    ensures FindInet(Tokens(Handed(ls), ';'), address, port, isSocket) == LookupInet(ls, address, port, isSocket)
  {
    HandedEntries(ls);
    FindInetOf(ls, address, port, isSocket);
  }

  ghost predicate MatchesInet(l: Listener, address: string, port: int) {
    l == Inet(address, port, l.fd)
  }

  /** `k` is the first listener bound to address and port, or the end of the list. */
  ghost predicate FirstInet(ls: seq<Listener>, address: string, port: int, k: nat) {
    && k <= |ls| && (k < |ls| ==> MatchesInet(ls[k], address, port))
    && forall i :: 0 <= i < k ==> !MatchesInet(ls[i], address, port)
  }

  /** What the caller of `getSocketInet` asks for: the descriptor of that listener if it is a socket, else -1. */
  ghost function WantedInet(ls: seq<Listener>, isSocket: int -> bool, k: nat): Outcome<int> {
    Value(if k < |ls| && isSocket(ls[k].fd) then ls[k].fd else -1)
  }

  lemma {:induction false} LookupIsFirstMatchIff(ls: seq<Listener>, address: string, port: int,
                                                 isSocket: int -> bool, k: nat)
    requires FirstInet(ls, address, port, k)
    ensures LookupInet(ls, address, port, isSocket) ==
            if Unix(address, port) in ls[..k] then Crash else WantedInet(ls, isSocket, k)
    decreases k
  {
    if k > 0 {
      LookupIsFirstMatchIff(ls[1..], address, port, isSocket, k - 1);
      assert ls[..k] == [ls[0]] + ls[1..][..k - 1];
    }
  }

  /**
   * The Inet parser answers with the first listener bound to address and port, or with -1 if there is
   * none, exactly when no Unix listener before it has that address as path and that port as
   * descriptor; otherwise it hands a null pointer to `atoi`.
   */
  lemma InetFindsFirstIff(ls: seq<Listener>, address: string, port: int, isSocket: int -> bool, k: nat)
    requires forall i :: 0 <= i < |ls| ==> Clean(ls[i].Name())
    requires FirstInet(ls, address, port, k)
    ensures FindInet(Tokens(Handed(ls), ';'), address, port, isSocket) == WantedInet(ls, isSocket, k)
            <==> Unix(address, port) !in ls[..k]
    ensures FindInet(Tokens(Handed(ls), ';'), address, port, isSocket) == Crash <==> Unix(address, port) in ls[..k]
  {
    InetRoundTrip(ls, address, port, isSocket);
    LookupIsFirstMatchIff(ls, address, port, isSocket, k);
  }

  /** Such a crash: a Unix listener on path "a" with descriptor 80, asked for address "a" and port 80. */
  lemma InetCrashes(isSocket: int -> bool)
    ensures FindInet(Tokens(Handed([Unix("a", 80)]), ';'), "a", 80, isSocket) == Crash
  {
    var ls := [Unix("a", 80)];
    assert ls[..1] == ls && ls[0].Name() == "a";
    InetFindsFirstIff(ls, "a", 80, isSocket, 1);
  }

  /** What the Unix lookup finds: the first listener of that name; of an Inet listener it takes the port. */
  function LookupUnix(ls: seq<Listener>, path: string, isSocket: int -> bool): int {
    if ls == [] then -1
    else if ls[0].Name() == path then Checked(if ls[0].Unix? then ls[0].fd else ls[0].port, isSocket)
    else LookupUnix(ls[1..], path, isSocket)
  }

  lemma {:induction false} FindUnixOf(ls: seq<Listener>, path: string, isSocket: int -> bool)
    requires forall i :: 0 <= i < |ls| ==> Clean(ls[i].Name())
    ensures FindUnix(Texts(ls), path, isSocket) == Value(LookupUnix(ls, path, isSocket))
  {
    if ls != [] {
      FieldsOf(ls[0]);
      AtoiOfDecimal(ls[0].fd);
      if ls[0].Inet? {
        AtoiOfDecimal(ls[0].port);
      }
      FindUnixOf(ls[1..], path, isSocket);
    }
  }

  /** On the text handed over, the Unix parser agrees with that lookup in the list itself. */
  lemma UnixRoundTrip(ls: seq<Listener>, path: string, isSocket: int -> bool)
    requires forall i :: 0 <= i < |ls| ==> Clean(ls[i].Name())
    ensures FindUnix(Tokens(Handed(ls), ';'), path, isSocket) == Value(LookupUnix(ls, path, isSocket))
  {
    HandedEntries(ls);
    FindUnixOf(ls, path, isSocket);
  }

  /** `j` is the first listener of that name, Inet or Unix, or the end of the list. */
  ghost predicate FirstNamed(ls: seq<Listener>, path: string, j: nat) {
    j <= |ls| && (j < |ls| ==> ls[j].Name() == path) && forall i :: 0 <= i < j ==> ls[i].Name() != path
  }

  /** `k` is the first Unix listener of that path, or the end of the list. */
  ghost predicate FirstUnix(ls: seq<Listener>, path: string, k: nat) {
    && k <= |ls| && (k < |ls| ==> ls[k] == Unix(path, ls[k].fd))
    && forall i :: 0 <= i < k ==> ls[i] != Unix(path, ls[i].fd)
  }

  /** The descriptor the caller of `getSocketUnix` asks for. */
  function WantedUnix(ls: seq<Listener>, k: nat): int {
    if k < |ls| then ls[k].fd else -1
  }

  lemma {:induction false} UnixLookupIsFirst(ls: seq<Listener>, path: string, isSocket: int -> bool, j: nat)
    requires FirstNamed(ls, path, j)
    ensures LookupUnix(ls, path, isSocket) ==
            if j == |ls| then -1 else Checked(if ls[j].Inet? then ls[j].port else ls[j].fd, isSocket)
    decreases j
  {
    if j > 0 {
      UnixLookupIsFirst(ls[1..], path, isSocket, j - 1);
    }
  }

  /** The port of a listener is taken for a descriptor. */
  predicate PortTaken(ls: seq<Listener>, j: nat, k: nat) {
    j < |ls| && ls[j].Inet? && ls[j].port != WantedUnix(ls, k)
  }

  /**
   * The Unix parser answers with the first Unix listener of the path, or with -1 if there is none,
   * whatever the descriptors are open on, exactly when the first listener of that name is not an Inet
   * one with another number for its port.
   */
  lemma UnixFindsFirstIff(ls: seq<Listener>, path: string, j: nat, k: nat)
    requires forall i :: 0 <= i < |ls| ==> Clean(ls[i].Name())
    requires FirstNamed(ls, path, j) && FirstUnix(ls, path, k)
    ensures (forall isSocket: int -> bool ::
               FindUnix(Tokens(Handed(ls), ';'), path, isSocket) ==
                 Value(if isSocket(WantedUnix(ls, k)) then WantedUnix(ls, k) else -1))
            <==> !PortTaken(ls, j, k)
  {
    forall isSocket: int -> bool
      ensures FindUnix(Tokens(Handed(ls), ';'), path, isSocket) ==
              Value(if j == |ls| then -1 else Checked(if ls[j].Inet? then ls[j].port else ls[j].fd, isSocket))
    {
      UnixRoundTrip(ls, path, isSocket);
      UnixLookupIsFirst(ls, path, isSocket, j);
    }
    if j < |ls| && ls[j].Unix? {
      assert ls[j] == Unix(path, ls[j].fd) && j == k;
    }
    if PortTaken(ls, j, k) {
      var any: int -> bool := _ => true;
      assert any(WantedUnix(ls, k)) && any(ls[j].port);
      assert FindUnix(Tokens(Handed(ls), ';'), path, any) == Value(ls[j].port) != Value(WantedUnix(ls, k));
    }
  }

  /** Such a wrong answer: an Inet listener "a" on port 80 before the Unix listener "a" with descriptor 5. */
  lemma UnixTakesPort(isSocket: int -> bool)
    requires isSocket(80)
    ensures FindUnix(Tokens(Handed([Inet("a", 80, 4), Unix("a", 5)]), ';'), "a", isSocket) == Value(80)
  {
    var ls := [Inet("a", 80, 4), Unix("a", 5)];
    assert ls[0].Name() == "a" && ls[1].Name() == "a";
    UnixRoundTrip(ls, "a", isSocket);
    UnixLookupIsFirst(ls, "a", isSocket, 0);
  }
}
