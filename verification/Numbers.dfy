/** Decimal numbers: `push_back(int)` prints them, `toInt` and the C library's `atoi` parse them. */
module Numbers {
  import opened Bytes

  const INT_MAX: int := 0x7fff_ffff
  const INT_MIN: int := -0x8000_0000

  predicate IsDigit(c: char) {
    '0' <= c <= '9'
  }

  function DigitChar(d: nat): (c: Byte)
    requires d < 10
    ensures c == "0123456789"[d]
  {
    ('0' as int + d) as char
  }

  function DigitValue(c: char): nat
    requires IsDigit(c)
  {
    c as int - '0' as int
  }

  // ---------------------------------------------------------------- printing

  function Digits(n: nat): (r: seq<Byte>)
    ensures r != [] && forall i :: 0 <= i < |r| ==> IsDigit(r[i])
  {
    if n < 10 then [DigitChar(n)] else Digits(n / 10) + [DigitChar(n % 10)]
  }

  /** `%d`. */
  function Decimal(v: int): (r: seq<Byte>)
    ensures r != []
    ensures forall i :: 0 <= i < |r| ==> IsDigit(r[i]) || r[i] == '-'
  {
    if v < 0 then ['-'] + Digits(-v) else Digits(v)
  }

  // ---------------------------------------------------------------- reading

  function LeadingDigits(s: string): (r: string)
    ensures |r| <= |s| && r == s[..|r|]
    ensures forall i :: 0 <= i < |r| ==> IsDigit(r[i])
    ensures |r| < |s| ==> !IsDigit(s[|r|])
  {
    if s == [] || !IsDigit(s[0]) then [] else [s[0]] + LeadingDigits(s[1..])
  }

  /** The number that `ds` adds on to the digits `acc` stands for. */
  function Value(acc: nat, ds: string): (r: nat)
    requires forall i :: 0 <= i < |ds| ==> IsDigit(ds[i])
    ensures r >= acc
    decreases |ds|
  {
    if ds == [] then acc else Value(acc * 10 + DigitValue(ds[0]), ds[1..])
  }

  /** What `toInt` means: sign, digits, then anything. None where the C++ `int` would overflow. */
  function ParseInt(s: string): Option<int> {
    var signed := s != [] && (s[0] == '-' || s[0] == '+');
    var m: int := Value(0, LeadingDigits(if signed then s[1..] else s));
    if m > INT_MAX then None else Some(if signed && s[0] == '-' then -m else m)
  }

  /** `toInt`: returns None at the first intermediate value that does not fit an `int`. */
  method ToInt(view: string) returns (r: Option<int>)
    ensures r == ParseInt(view)
  {
    var i := 0;
    if i == |view| {
      return Some(0);
    }
    var sign := false;
    if view[i] == '-' {
      sign := true;
      i := i + 1;
      if i == |view| {
        return Some(0);
      }
    } else if view[i] == '+' {
      i := i + 1;
      if i == |view| {
        return Some(0);
      }
    }
    var val := ParseDigits(view, i);
    match val
    case None => return None;
    case Some(m) => return Some(if sign then -m else m);
  }

  /** What the text from index `i` on adds to the value so far. */
  function ValueFrom(val: nat, view: string, i: nat): nat
    requires i <= |view|
  {
    Value(val, LeadingDigits(view[i..]))
  }

  /** The digit loop from index `start` on. */
  method ParseDigits(view: string, start: nat) returns (r: Option<int>)
    requires start <= |view|
    ensures var m := ValueFrom(0, view, start); r == if m > INT_MAX then None else Some(m)
  {
    ghost var m := ValueFrom(0, view, start);
    var i, val: nat := start, 0;
    while i != |view|
      invariant 0 <= i <= |view| && val <= INT_MAX && ValueFrom(val, view, i) == m
      decreases |view| - i
    {
      if view[i] < '0' || view[i] > '9' {
        break;
      }
      var next := OneDigitMore(view, i, val);
      if next.None? {
        return None;
      }
      val := next.value;
      i := i + 1;
    }
    NoDigitMore(view, i, val);
    return Some(val);
  }

  /** `val *= 10` and `val += digit`, with the overflow that either may have. */
  method OneDigitMore(view: string, i: nat, val: nat) returns (r: Option<nat>)
    requires i < |view| && IsDigit(view[i]) && val <= INT_MAX
    ensures r.Some? ==> r.value <= INT_MAX && ValueFrom(r.value, view, i + 1) == ValueFrom(val, view, i)
    ensures r.None? ==> ValueFrom(val, view, i) > INT_MAX
  {
    DigitStep(view, i, val);
    var next := val;
    if next != 0 {
      next := next * 10;
    }
    if next > INT_MAX {
      return None;
    }
    next := next + DigitValue(view[i]);
    if next > INT_MAX {
      return None;
    }
    return Some(next);
  }

  lemma NoDigitMore(s: string, i: nat, val: nat)
    requires i == |s| || (i < |s| && !IsDigit(s[i]))
    ensures ValueFrom(val, s, i) == val
  {
  }

  /** One digit more: it moves from the text into the value. */
  lemma DigitStep(s: string, i: nat, val: nat)
    requires i < |s| && IsDigit(s[i])
    ensures var next := val * 10 + DigitValue(s[i]);
            Value(val, LeadingDigits(s[i..])) == Value(next, LeadingDigits(s[i + 1..])) >= next
  {
    LeadingDigitsFrom(s, i);
    var ds := LeadingDigits(s[i..]);
    assert ds[0] == s[i] && ds[1..] == LeadingDigits(s[i + 1..]);
  }

  lemma LeadingDigitsFrom(s: string, i: nat)
    requires i < |s| && IsDigit(s[i])
    ensures LeadingDigits(s[i..]) == [s[i]] + LeadingDigits(s[i + 1..])
  {
    assert s[i..][0] == s[i] && s[i..][1..] == s[i + 1..];
  }

  /** The C library's `atoi`, on numbers that fit. */
  function Atoi(s: string): int
    decreases |s|
  {
    if s != [] && (s[0] == ' ' || '\t' <= s[0] <= '\r') then Atoi(s[1..])
    else if s != [] && s[0] == '-' then 0 - Value(0, LeadingDigits(s[1..]))
    else if s != [] && s[0] == '+' then Value(0, LeadingDigits(s[1..]))
    else Value(0, LeadingDigits(s))
  }

  // ---------------------------------------------------------------- round trips

  lemma {:induction false} ValueSnoc(acc: nat, ds: string, d: char)
    requires (forall i :: 0 <= i < |ds| ==> IsDigit(ds[i])) && IsDigit(d)
    ensures Value(acc, ds + [d]) == Value(acc, ds) * 10 + DigitValue(d)
    decreases |ds|
  {
    if ds == [] {
      assert ds + [d] == [d];
    } else {
      assert (ds + [d])[1..] == ds[1..] + [d];
      ValueSnoc(acc * 10 + DigitValue(ds[0]), ds[1..], d);
    }
  }

  lemma {:induction false} ValueOfDigits(n: nat)
    ensures Value(0, Digits(n)) == n
  {
    if n < 10 {
      assert Digits(n)[1..] == [];
    } else {
      ValueOfDigits(n / 10);
      ValueSnoc(0, Digits(n / 10), DigitChar(n % 10));
    }
  }

  lemma {:induction false} LeadingDigitsOf(ds: string, rest: string)
    requires forall i :: 0 <= i < |ds| ==> IsDigit(ds[i])
    requires rest == [] || !IsDigit(rest[0])
    ensures LeadingDigits(ds + rest) == ds
  {
    if ds == [] {
      assert ds + rest == rest;
    } else {
      assert (ds + rest)[1..] == ds[1..] + rest;
      LeadingDigitsOf(ds[1..], rest);
    }
  }

  /**
   * Printing an `int` and parsing it back, also with any text behind it that does not start with a
   * digit, gives the number for every `int` but the least one, on which `toInt` overflows.
   */
  lemma PrintParse(v: int, rest: string)
    requires -2147483648 <= v <= 2147483647
    requires rest == [] || !IsDigit(rest[0])
    ensures ParseInt(Decimal(v) + rest) == if v == -2147483648 then None else Some(v)
  {
    var n := if v < 0 then -v else v;
    ValueOfDigits(n);
    LeadingDigitsOf(Digits(n), rest);
    var s := Decimal(v) + rest;
    if v < 0 {
      assert s[0] == '-' && s[1..] == Digits(n) + rest;
    } else {
      assert s[0] == Digits(n)[0];
    }
  }

  /** `%d` prints a minus exactly before negative numbers, and no leading zero but for zero itself. */
  lemma DecimalIsPlain(v: int)
    ensures Decimal(v)[0] == '-' <==> v < 0
    ensures forall i :: 0 < i < |Decimal(v)| ==> IsDigit(Decimal(v)[i])
    ensures v < 0 ==> |Decimal(v)| > 1 && Decimal(v)[1] != '0'
    ensures v == 0 ==> Decimal(v) == "0"
    ensures v > 0 ==> Decimal(v)[0] != '0'
  {
    var n := if v < 0 then -v else v;
    if n > 0 {
      NoLeadingZero(n);
    }
  }

  lemma {:induction false} NoLeadingZero(n: nat)
    requires n > 0
    ensures Digits(n)[0] != '0'
  {
    if n >= 10 {
      NoLeadingZero(n / 10);
    }
  }

  /** A plus before a digit does not count. */
  lemma PlusSign(s: string)
    requires s != [] && IsDigit(s[0])
    ensures ParseInt(['+'] + s) == ParseInt(s)
  {
    assert (['+'] + s)[1..] == s;
  }

  /** A zero before a digit does not count. */
  lemma LeadingZero(s: string)
    requires s != [] && IsDigit(s[0])
    ensures ParseInt(['0'] + s) == ParseInt(s)
  {
    var zero := ['0'] + s;
    assert zero[1..] == s;
    assert LeadingDigits(zero) == ['0'] + LeadingDigits(s) && LeadingDigits(zero)[1..] == LeadingDigits(s);
  }

  /** A text without digits, after its sign if it has one, reads as zero. */
  lemma NoDigits(s: string)
    requires s == [] || !IsDigit(s[0])
    ensures s == [] || (s[0] != '-' && s[0] != '+') ==> ParseInt(s) == Some(0)
    ensures ParseInt(['-'] + s) == ParseInt(['+'] + s) == Some(0)
  {
    assert LeadingDigits(s) == [];
    assert (['-'] + s)[1..] == s && (['+'] + s)[1..] == s;
  }

  /** A number too large for an `int` has no value, with or without a minus. */
  lemma TooManyDigits(v: nat, rest: string)
    requires v > 2147483647 && (rest == [] || !IsDigit(rest[0]))
    ensures ParseInt(Digits(v) + rest) == ParseInt(['-'] + (Digits(v) + rest)) == None
  {
    ValueOfDigits(v);
    var s := Digits(v) + rest;
    LeadingDigitsOf(Digits(v), rest);
    assert s[0] == Digits(v)[0] && (['-'] + s)[1..] == s;
  }

  /** `atoi` passes over leading blanks and a plus. */
  lemma AtoiPassesOver(c: char, s: string, v: nat)
    requires c == ' ' || 9 <= c as int <= 13
    ensures Atoi([c] + s) == Atoi(s)
    ensures Atoi(['+'] + Decimal(v)) == v
  {
    assert ([c] + s)[1..] == s;
    assert (['+'] + Decimal(v))[1..] == Digits(v);
    ValueOfDigits(v);
    LeadingDigitsOf(Digits(v), []);
    assert Digits(v) + [] == Digits(v);
  }

  lemma AtoiOfDecimal(v: int)
    ensures Atoi(Decimal(v)) == v
  {
    var n := if v < 0 then -v else v;
    ValueOfDigits(n);
    LeadingDigitsOf(Digits(n), []);
    assert Digits(n) + [] == Digits(n);
    if v < 0 {
      assert Decimal(v)[1..] == Digits(n);
    }
  }
}
