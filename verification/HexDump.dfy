/** `BufferBase::dump`: sixteen bytes a line, first in hexadecimal columns, then as text. */
module HexDump {
  import opened Bytes

  const BLOCK_SIZE: nat := 8
  const BLOCK_COUNT: nat := 2
  const HEX_WIDTH: nat := 54
  const PLAIN_WIDTH: nat := 16

  function HexDigit(n: nat): (c: char)
    requires n < 16
    ensures c as int == if n < 10 then '0' as int + n else 'A' as int + n - 10
    ensures c != ' ' && c != '\0'
  {
    "0123456789ABCDEF"[n]
  }

  /** `isprint` in the C locale. */
  function Plain(b: Byte): (c: char)
    ensures c != '\0'
  {
    if 32 <= b as int < 127 then b else '.'
  }

  /** What stands in column `c` of the hexadecimal frame. */
  function HexCell(bytes: seq<Byte>, c: nat): (r: char)
    requires c < HEX_WIDTH
    ensures r != '\0'
  {
    var k := 8 * (c / 27) + c % 27 / 3;
    if c % 27 >= 24 || k >= |bytes| || c % 3 == 2 then ' '
    else if c % 3 == 0 then HexDigit(bytes[k] as int / 16)
    else HexDigit(bytes[k] as int % 16)
  }

  /** The printed line for up to sixteen bytes. */
  function LineText(bytes: seq<Byte>): (s: string)
    ensures |s| == HEX_WIDTH + |bytes|
  {
    seq(HEX_WIDTH, c requires 0 <= c < HEX_WIDTH => HexCell(bytes, c)) +
    seq(|bytes|, j requires 0 <= j < |bytes| => Plain(bytes[j]))
  }

  ghost predicate HexDone(line: array<char>, bytes: seq<Byte>, u: nat)
    requires line.Length == HEX_WIDTH + PLAIN_WIDTH + 1 && u <= HEX_WIDTH
    reads line
  {
    forall c :: 0 <= c < u ==> line[c] == HexCell(bytes, c)
  }

  ghost predicate PlainDone(line: array<char>, bytes: seq<Byte>, k: nat)
    requires line.Length == HEX_WIDTH + PLAIN_WIDTH + 1 && k <= |bytes| <= PLAIN_WIDTH
    reads line
  {
    forall j :: 0 <= j < k ==> line[HEX_WIDTH + j] == Plain(bytes[j])
  }

  /** Cell `i` of block `b` holds the two digits of byte 8b + i, or blanks past the last byte. */
  lemma CellAt(bytes: seq<Byte>, b: nat, i: nat)
    requires b < BLOCK_COUNT && i < BLOCK_SIZE
    ensures var u, k := 27 * b + 3 * i, 8 * b + i;
            && HexCell(bytes, u + 2) == ' '
            && HexCell(bytes, u) == (if k < |bytes| then HexDigit(bytes[k] as int / 16) else ' ')
            && HexCell(bytes, u + 1) == (if k < |bytes| then HexDigit(bytes[k] as int % 16) else ' ')
  {
    ColumnOf(b, i, 0);
    ColumnOf(b, i, 1);
    ColumnOf(b, i, 2);
  }

  /** Where column `j` of cell `i` of block `b` stands. */
  lemma ColumnOf(b: nat, i: nat, j: nat)
    requires b < BLOCK_COUNT && i < BLOCK_SIZE && j < 3
    ensures var c := 27 * b + 3 * i + j; c / 27 == b && c % 27 == 3 * i + j && c % 27 / 3 == i && c % 3 == j
  {
    var r := 3 * i + j;
    if b == 0 {
      assert r / 27 == 0 && r % 27 == r && r / 3 == i && r % 3 == j;
    } else {
      assert b == 1 && (27 + r) / 27 == 1 && (27 + r) % 27 == r;
      assert r / 3 == i && (27 + r) % 3 == j;
    }
  }

  /** Three blanks close a block. */
  lemma SeparatorAt(bytes: seq<Byte>, b: nat)
    requires b < BLOCK_COUNT
    ensures var u := 27 * b + 24; HexCell(bytes, u) == HexCell(bytes, u + 1) == HexCell(bytes, u + 2) == ' '
  {
    var u := 27 * b + 24;
    assert u % 27 == 24 && (u + 1) % 27 == 25 && (u + 2) % 27 == 26;
  }

  /** Three characters to the hexadecimal cursor. */
  method Put(line: array<char>, bytes: seq<Byte>, u: nat, k: nat, x: char, y: char, z: char) returns (u': nat)
    requires line.Length == HEX_WIDTH + PLAIN_WIDTH + 1 && u + 3 <= HEX_WIDTH && k <= |bytes| <= PLAIN_WIDTH
    requires HexDone(line, bytes, u) && PlainDone(line, bytes, k)
    requires x == HexCell(bytes, u) && y == HexCell(bytes, u + 1) && z == HexCell(bytes, u + 2)
    modifies line
    ensures u' == u + 3
    ensures HexDone(line, bytes, u') && PlainDone(line, bytes, k)
  {
    line[u] := x;
    line[u + 1] := y;
    line[u + 2] := z;
    return u + 3;
  }

  /** One character to the plain-text cursor. */
  method PutPlain(line: array<char>, bytes: seq<Byte>, u: nat, k: nat) returns (k': nat)
    requires line.Length == HEX_WIDTH + PLAIN_WIDTH + 1 && u <= HEX_WIDTH && k < |bytes| <= PLAIN_WIDTH
    requires HexDone(line, bytes, u) && PlainDone(line, bytes, k)
    modifies line
    ensures k' == k + 1
    ensures HexDone(line, bytes, u) && PlainDone(line, bytes, k')
  {
    line[HEX_WIDTH + k] := Plain(bytes[k]);
    return k + 1;
  }

  /** Cells from `from` on to the end of block `blockNr` are blank. */
  method Blank(line: array<char>, bytes: seq<Byte>, blockNr: nat, from: nat, k: nat) returns (u: nat)
    requires line.Length == HEX_WIDTH + PLAIN_WIDTH + 1 && blockNr < BLOCK_COUNT && from <= BLOCK_SIZE
    requires k <= |bytes| <= PLAIN_WIDTH && (from < BLOCK_SIZE ==> |bytes| <= 8 * blockNr + from)
    requires HexDone(line, bytes, 27 * blockNr + 3 * from) && PlainDone(line, bytes, k)
    modifies line
    ensures u == 27 * (blockNr + 1)
    ensures HexDone(line, bytes, u) && PlainDone(line, bytes, k)
  {
    u := 27 * blockNr + 3 * from;
    var i := from;
    while i < BLOCK_SIZE
      invariant from <= i <= BLOCK_SIZE && u == 27 * blockNr + 3 * i
      invariant HexDone(line, bytes, u) && PlainDone(line, bytes, k)
    {
      CellAt(bytes, blockNr, i);
      u := Put(line, bytes, u, k, ' ', ' ', ' ');
      i := i + 1;
    }
    SeparatorAt(bytes, blockNr);
    u := Put(line, bytes, u, k, ' ', ' ', ' ');
  }

  /** The two digits of byte `i` of the block, a blank, and its character. */
  method PutByte(line: array<char>, bytes: seq<Byte>, blockNr: nat, i: nat) returns (u: nat, k: nat)
    requires line.Length == HEX_WIDTH + PLAIN_WIDTH + 1 && blockNr < BLOCK_COUNT && i < BLOCK_SIZE
    requires 8 * blockNr + i < |bytes| <= PLAIN_WIDTH
    requires HexDone(line, bytes, 27 * blockNr + 3 * i) && PlainDone(line, bytes, 8 * blockNr + i)
    modifies line
    ensures u == 27 * blockNr + 3 * (i + 1) && k == 8 * blockNr + i + 1
    ensures HexDone(line, bytes, u) && PlainDone(line, bytes, k)
  {
    u, k := 27 * blockNr + 3 * i, 8 * blockNr + i;
    CellAt(bytes, blockNr, i);
    u := Put(line, bytes, u, k, HexDigit(bytes[k] as int / 16), HexDigit(bytes[k] as int % 16), ' ');
    k := PutPlain(line, bytes, u, k);
  }

  /** One block that has bytes in it, and its padding. */
  method Block(line: array<char>, bytes: seq<Byte>, blockNr: nat) returns (u: nat, k: nat)
    requires line.Length == HEX_WIDTH + PLAIN_WIDTH + 1 && blockNr < BLOCK_COUNT
    requires 8 * blockNr < |bytes| <= PLAIN_WIDTH
    requires HexDone(line, bytes, 27 * blockNr) && PlainDone(line, bytes, 8 * blockNr)
    modifies line
    ensures u == 27 * (blockNr + 1) && k == Min(8 * (blockNr + 1), |bytes|)
    ensures HexDone(line, bytes, u) && PlainDone(line, bytes, k)
  {
    u, k := 27 * blockNr, 8 * blockNr;
    var i := 0;
    while i < BLOCK_SIZE && k < |bytes|
      invariant 0 <= i <= BLOCK_SIZE && u == 27 * blockNr + 3 * i && k == 8 * blockNr + i <= |bytes|
      invariant HexDone(line, bytes, u) && PlainDone(line, bytes, k)
    {
      u, k := PutByte(line, bytes, blockNr, i);
      i := i + 1;
    }
    u := Blank(line, bytes, blockNr, i, k);
  }

  /** One line: the hexadecimal cursor ends exactly where the plain-text frame begins. */
  method Line(line: array<char>, bytes: seq<Byte>)
    requires line.Length == HEX_WIDTH + PLAIN_WIDTH + 1 && 0 < |bytes| <= PLAIN_WIDTH
    modifies line
    ensures line[..54 + |bytes|] == LineText(bytes) && line[54 + |bytes|] == '\0'
    ensures Shown(line[54..54 + |bytes|], bytes)
  {
    var u, k, blockNr := 0, 0, 0;
    while blockNr < BLOCK_COUNT && k < |bytes|
      invariant 0 <= blockNr <= BLOCK_COUNT && u == 27 * blockNr && k == Min(8 * blockNr, |bytes|)
      invariant HexDone(line, bytes, u) && PlainDone(line, bytes, k)
      decreases BLOCK_COUNT - blockNr
    {
      u, k := Block(line, bytes, blockNr);
      blockNr := blockNr + 1;
    }
    while blockNr < BLOCK_COUNT
      invariant 0 <= blockNr <= BLOCK_COUNT && u == 27 * blockNr && k == |bytes| <= 8 * blockNr
      invariant HexDone(line, bytes, u) && PlainDone(line, bytes, k)
    {
      u := Blank(line, bytes, blockNr, 0, k);
      blockNr := blockNr + 1;
    }
    assert u == HEX_WIDTH;
    line[HEX_WIDTH + k] := '\0';
    assert HexDone(line, bytes, HEX_WIDTH) && PlainDone(line, bytes, |bytes|);
    LineTextAt(bytes);
    RowShows(bytes);
    assert line[54..54 + |bytes|] == line[..54 + |bytes|][54..];
  }

  lemma LineTextAt(bytes: seq<Byte>)
    ensures forall c :: 0 <= c < HEX_WIDTH ==> LineText(bytes)[c] == HexCell(bytes, c)
    ensures forall j :: 0 <= j < |bytes| ==> LineText(bytes)[HEX_WIDTH + j] == Plain(bytes[j])
  {
  }

  /** What `%s` prints: everything before the first NUL. */
  function CText(s: seq<char>): string {
    if s == [] || s[0] == '\0' then [] else [s[0]] + CText(s[1..])
  }

  lemma {:induction false} CTextOf(s: seq<char>, n: nat)
    requires n < |s| && s[n] == '\0' && forall i :: 0 <= i < n ==> s[i] != '\0'
    ensures CText(s) == s[..n]
  {
    if n > 0 {
      CTextOf(s[1..], n - 1);
    }
  }

  /** The bytes of line `k`. */
  function Row(bytes: seq<Byte>, k: nat): seq<Byte>
    requires 16 * k <= |bytes|
  {
    bytes[16 * k..Min(16 * k + 16, |bytes|)]
  }

  /** The text behind the hexadecimal columns of all lines. */
  function TextFrames(lines: seq<string>): string {
    Joined(seq(|lines|, k requires 0 <= k < |lines| => if |lines[k]| >= 54 then lines[k][54..] else []))
  }

  /** Each printable character as it is, each other byte as a dot. */
  ghost predicate Shown(text: string, bytes: seq<Byte>) {
    |text| == |bytes| && forall i :: 0 <= i < |bytes| ==> text[i] == if ' ' <= bytes[i] <= '~' then bytes[i] else '.'
  }

  /** The lines `dump` prints after its heading: one for every started group of sixteen bytes. */
  method Dump(bytes: seq<Byte>) returns (lines: seq<string>)
    ensures DumpOf(lines, bytes)
    ensures DecodedDump(lines) == bytes && Shown(TextFrames(lines), bytes)
    ensures forall k :: 0 <= k < |lines| ==> 54 < |lines[k]| <= 54 + 16
  {
    var line := new char[HEX_WIDTH + PLAIN_WIDTH + 1];
    lines := [];
    var p := 0;
    while p < |bytes|
      invariant p == Min(16 * |lines|, |bytes|)
      invariant |lines| <= (|bytes| + 15) / 16
      invariant forall k :: 0 <= k < |lines| ==> lines[k] == LineText(Row(bytes, k))
    {
      var row := Row(bytes, |lines|);
      Line(line, row);
      PrintsWhole(line[..], row);
      lines := lines + [CText(line[..])];
      p := p + |row|;
    }
    DumpRoundTrip(bytes, lines);
    DumpShows(bytes, lines);
  }

  lemma PrintsWhole(s: seq<char>, bytes: seq<Byte>)
    requires HEX_WIDTH + |bytes| < |s| && s[..HEX_WIDTH + |bytes|] == LineText(bytes) && s[HEX_WIDTH + |bytes|] == '\0'
    ensures CText(s) == LineText(bytes)
  {
    LineTextAt(bytes);
    forall i | 0 <= i < HEX_WIDTH + |bytes|
      ensures s[i] != '\0'
    {
      assert s[i] == s[..HEX_WIDTH + |bytes|][i];
      if i >= HEX_WIDTH {
        assert LineText(bytes)[HEX_WIDTH + (i - HEX_WIDTH)] == Plain(bytes[i - HEX_WIDTH]);
      }
    }
    CTextOf(s, HEX_WIDTH + |bytes|);
  }

  // ---------------------------------------------------------------- reading a dump back

  function HexValue(c: char): nat {
    if '0' <= c <= '9' then c as int - '0' as int else if 'A' <= c <= 'F' then c as int - 'A' as int + 10 else 0
  }

  /** The column of the first digit of byte `k`. */
  function Column(k: nat): nat {
    27 * (k / 8) + 3 * (k % 8)
  }

  function Pair(hi: char, lo: char): Byte {
    ((16 * HexValue(hi) + HexValue(lo)) % 256) as char
  }

  /** Reads the hexadecimal cells of a line from cell `k` on, up to the first blank one. */
  function Decoded(line: string, k: nat): seq<Byte>
    decreases PLAIN_WIDTH - k
  {
    if k >= PLAIN_WIDTH || |line| < HEX_WIDTH || line[Column(k)] == ' ' then []
    else [Pair(line[Column(k)], line[Column(k) + 1])] + Decoded(line, k + 1)
  }

  lemma PairOfDigits(b: Byte)
    ensures Pair(HexDigit(b as int / 16), HexDigit(b as int % 16)) == b
  {
    HexValueOfDigit(b as int / 16);
    HexValueOfDigit(b as int % 16);
  }

  lemma HexValueOfDigit(n: nat)
    requires n < 16
    ensures HexValue(HexDigit(n)) == n
  {
  }

  /** Cell `k` of the line holds byte `k`, or is blank past the last byte. */
  ghost predicate CellHolds(line: string, bytes: seq<Byte>, k: nat)
    requires |line| >= HEX_WIDTH && k < PLAIN_WIDTH
  {
    if k < |bytes| then line[Column(k)] != ' ' && Pair(line[Column(k)], line[Column(k) + 1]) == bytes[k]
    else line[Column(k)] == ' '
  }

  lemma DigitIsNotBlank(n: nat)
    requires n < 16
    ensures HexDigit(n) != ' '
  {
  }

  lemma LineAt(bytes: seq<Byte>, b: nat, i: nat)
    requires b < BLOCK_COUNT && i < BLOCK_SIZE
    ensures var u, k, line := 27 * b + 3 * i, 8 * b + i, LineText(bytes);
            && u + 1 < |line|
            && line[u] == (if k < |bytes| then HexDigit(bytes[k] as int / 16) else ' ')
            && line[u + 1] == (if k < |bytes| then HexDigit(bytes[k] as int % 16) else ' ')
  {
    CellAt(bytes, b, i);
    LineTextAt(bytes);
  }

  lemma LineHolds(bytes: seq<Byte>, k: nat)
    requires k < PLAIN_WIDTH
    ensures CellHolds(LineText(bytes), bytes, k)
  {
    var b, i := k / 8, k % 8;
    assert k == 8 * b + i && Column(k) == 27 * b + 3 * i;
    LineAt(bytes, b, i);
    if k < |bytes| {
      DigitIsNotBlank(bytes[k] as int / 16);
      PairOfDigits(bytes[k]);
    }
  }

  lemma {:induction false} DecodedFrom(line: string, bytes: seq<Byte>, k: nat)
    requires |line| >= HEX_WIDTH && k <= |bytes| <= PLAIN_WIDTH
    requires forall j: nat :: j < PLAIN_WIDTH ==> CellHolds(line, bytes, j)
    ensures Decoded(line, k) == bytes[k..]
    decreases |bytes| - k
  {
    assert k < PLAIN_WIDTH ==> CellHolds(line, bytes, k);
    if k < |bytes| {
      DecodedFrom(line, bytes, k + 1);
    }
  }

  function DecodedDump(lines: seq<string>): seq<Byte> {
    Joined(seq(|lines|, k requires 0 <= k < |lines| => Decoded(lines[k], 0)))
  }

  /** The lines are the dump of `bytes`. */
  ghost predicate DumpOf(lines: seq<string>, bytes: seq<Byte>) {
    |lines| == (|bytes| + 15) / 16 && forall k :: 0 <= k < |lines| ==> lines[k] == LineText(Row(bytes, k))
  }

  function Rows(bytes: seq<Byte>, n: nat): (rows: seq<seq<Byte>>)
    requires 16 * (n - 1) <= |bytes|
    ensures |rows| == n && forall k :: 0 <= k < n ==> rows[k] == Row(bytes, k)
  {
    seq(n, k requires 0 <= k < n => Row(bytes, k))
  }

  lemma {:induction false} RowsJoin(bytes: seq<Byte>, n: nat)
    requires 16 * (n - 1) <= |bytes|
    ensures Joined(Rows(bytes, n)) == bytes[..Min(16 * n, |bytes|)]
  {
    if n > 0 {
      RowsJoin(bytes, n - 1);
      assert Rows(bytes, n) == Rows(bytes, n - 1) + [Row(bytes, n - 1)];
      JoinedSnoc(Rows(bytes, n - 1), Row(bytes, n - 1));
      assert bytes[..16 * (n - 1)] + Row(bytes, n - 1) == bytes[..Min(16 * n, |bytes|)];
    }
  }

  lemma DecodedRow(row: seq<Byte>)
    requires |row| <= PLAIN_WIDTH
    ensures Decoded(LineText(row), 0) == row
  {
    forall k: nat | k < PLAIN_WIDTH
      ensures CellHolds(LineText(row), row, k)
    {
      LineHolds(row, k);
    }
    DecodedFrom(LineText(row), row, 0);
  }

  lemma RowShows(row: seq<Byte>)
    ensures Shown(LineText(row)[54..], row)
  {
    LineTextAt(row);
    var text := LineText(row)[54..];
    forall i | 0 <= i < |row|
      ensures text[i] == if ' ' <= row[i] <= '~' then row[i] else '.'
    {
      assert text[i] == LineText(row)[HEX_WIDTH + i];
    }
  }

  lemma ShownSnoc(text: string, bytes: seq<Byte>, t: string, row: seq<Byte>)
    requires Shown(text, bytes) && Shown(t, row)
    ensures Shown(text + t, bytes + row)
  {
  }

  lemma {:induction false} ShownRows(texts: seq<string>, rows: seq<seq<Byte>>)
    requires |texts| == |rows| && forall k :: 0 <= k < |rows| ==> Shown(texts[k], rows[k])
    ensures Shown(Joined(texts), Joined(rows))
  {
    if rows != [] {
      ShownRows(texts[1..], rows[1..]);
      ShownSnoc(texts[0], rows[0], Joined(texts[1..]), Joined(rows[1..]));
    }
  }

  /** The text frames of all lines show the bytes in order. */
  lemma DumpShows(bytes: seq<Byte>, lines: seq<string>)
    requires DumpOf(lines, bytes)
    ensures Shown(TextFrames(lines), bytes)
  {
    var texts := seq(|lines|, k requires 0 <= k < |lines| => if |lines[k]| >= 54 then lines[k][54..] else []);
    var rows := Rows(bytes, |lines|);
    forall k | 0 <= k < |lines|
      ensures Shown(texts[k], rows[k])
    {
      RowShows(Row(bytes, k));
    }
    ShownRows(texts, rows);
    RowsJoin(bytes, |lines|);
  }

  /** Decoding the hexadecimal pairs of all lines in order gives back the bytes. */
  lemma DumpRoundTrip(bytes: seq<Byte>, lines: seq<string>)
    requires DumpOf(lines, bytes)
    ensures DecodedDump(lines) == bytes
  {
    forall k | 0 <= k < |lines|
      ensures Decoded(lines[k], 0) == Row(bytes, k)
    {
      DecodedRow(Row(bytes, k));
    }
    assert seq(|lines|, k requires 0 <= k < |lines| => Decoded(lines[k], 0)) == Rows(bytes, |lines|);
    RowsJoin(bytes, |lines|);
  }
}
