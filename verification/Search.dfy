/** `find` and `split`: substring search over a view into memory that it may read past the end of. */
module Search {
  import opened Bytes

  /** The needle lies in memory at index `i`. */
  predicate Occurs(mem: seq<Byte>, needle: seq<Byte>, i: nat) {
    i + |needle| <= |mem| && forall k :: 0 <= k < |needle| ==> mem[i + k] == needle[k]
  }

  /** The reference: the smallest index in [from, limit) where the needle lies in `mem`. */
  function FirstIn(mem: seq<Byte>, needle: seq<Byte>, from: nat, limit: nat): (r: Option<nat>)
    requires from <= limit
    ensures r.Some? ==> from <= r.value < limit && Occurs(mem, needle, r.value)
    ensures forall j: nat :: from <= j < (if r.Some? then r.value else limit) ==> !Occurs(mem, needle, j)
    decreases limit - from
  {
    if from == limit then None
    else if Occurs(mem, needle, from) then Some(from)
    else FirstIn(mem, needle, from + 1, limit)
  }

  /** A C string: no NUL inside. */
  ghost predicate CString(s: seq<Byte>) {
    forall i :: 0 <= i < |s| ==> s[i] != '\0'
  }

  /**
   * `find(const char*)`. The view is the first `size` bytes of `mem`; comparing runs on past it, up
   * to a NUL at `nul` at the latest. Hence it finds occurrences that merely start inside the view.
   */
  method Find(mem: seq<Byte>, size: nat, needle: seq<Byte>, offset: nat, ghost nul: nat) returns (r: Option<nat>)
    requires offset <= size <= nul < |mem| && mem[nul] == '\0'
    requires needle != [] && CString(needle)
    ensures r == FirstIn(mem, needle, offset, size)
  {
    var i := offset;
    while i != size
      invariant offset <= i <= size
      invariant FirstIn(mem, needle, offset, size) == FirstIn(mem, needle, i, size)
    {
      if mem[i] == needle[0] {
        var found := MatchesFrom(mem, needle, i, nul);
        if found {
          return Some(i);
        }
      }
      i := i + 1;
    }
    return None;
  }

  /** The inner loop: `q` runs over the needle and its terminator, `p` over memory. */
  method MatchesFrom(mem: seq<Byte>, needle: seq<Byte>, i: nat, ghost nul: nat) returns (found: bool)
    requires i < nul < |mem| && mem[nul] == '\0'
    requires needle != [] && CString(needle) && mem[i] == needle[0]
    ensures found <==> Occurs(mem, needle, i)
  {
    var value := needle + ['\0'];
    var p, q := i + 1, 1;
    var qe := i + |needle|;
    while mem[p] == value[q] && p != qe
      invariant i + 1 <= p <= qe && q == p - i && p <= nul
      invariant forall k :: 0 <= k < q ==> mem[i + k] == needle[k]
    {
      p := p + 1;
      q := q + 1;
    }
    assert p != qe ==> value[q] == needle[q] && mem[i + q] != needle[q];
    return p == qe;
  }

  /** What follows the view cannot continue a C string that reaches its last byte. */
  predicate Closed(mem: seq<Byte>, size: nat)
    requires size < |mem|
  {
    size == 0 || mem[size - 1] == '\0' || mem[size] == '\0'
  }

  /** A search in memory agrees with a search confined to the view. */
  ghost predicate Confined(mem: seq<Byte>, size: nat, needle: seq<Byte>, offset: nat)
    requires offset <= size <= |mem|
  {
    FirstIn(mem, needle, offset, size) == FirstIn(mem[..size], needle, offset, size)
  }

  /**
   * The search stays inside the view, for every needle and offset, exactly when the view is closed:
   * followed by a NUL byte, as a string literal or `c_str()` provides, or ending in one.
   */
  lemma ConfinedIffClosed(mem: seq<Byte>, size: nat)
    requires size < |mem|
    ensures (forall needle, offset: nat ::
               needle != [] && CString(needle) && offset <= size ==> Confined(mem, size, needle, offset))
            <==> Closed(mem, size)
  {
    if Closed(mem, size) {
      forall needle, offset: nat | needle != [] && CString(needle) && offset <= size
        ensures Confined(mem, size, needle, offset)
      {
        ClosedConfines(mem, size, needle, offset);
      }
    } else {
      var needle := mem[size - 1..size + 1];
      assert CString(needle);
      assert needle[0] == mem[size - 1] && needle[1] == mem[size];
      assert Occurs(mem, needle, size - 1);
      assert !Confined(mem, size, needle, size - 1);
    }
  }

  lemma {:induction false} ClosedConfines(mem: seq<Byte>, size: nat, needle: seq<Byte>, offset: nat)
    requires size < |mem| && Closed(mem, size) && needle != [] && CString(needle) && offset <= size
    ensures Confined(mem, size, needle, offset)
    decreases size - offset
  {
    if offset < size {
      OccursInside(mem, size, needle, offset);
      ClosedConfines(mem, size, needle, offset + 1);
    }
  }

  lemma OccursInside(mem: seq<Byte>, size: nat, needle: seq<Byte>, i: nat)
    requires size < |mem| && Closed(mem, size) && CString(needle) && i < size
    ensures Occurs(mem, needle, i) <==> Occurs(mem[..size], needle, i)
  {
    if i + |needle| > size {
      var k := if mem[size - 1] == '\0' then size - 1 - i else size - i;
      assert needle[k] != '\0' && mem[i + k] != needle[k];
    }
  }

  /**
   * `split(const char*)`: on a closed view, the parts before and after the first delimiter, which
   * rejoin to the view; without a delimiter, all of the view and nothing.
   */
  method Split(mem: seq<Byte>, size: nat, delimiter: seq<Byte>, ghost nul: nat)
    returns (first: seq<Byte>, second: seq<Byte>, found: bool)
    requires size <= nul < |mem| && mem[nul] == '\0' && Closed(mem, size)
    requires delimiter != [] && CString(delimiter)
    ensures found <==> exists j: nat :: j < size && Occurs(mem[..size], delimiter, j)
    ensures found ==> first + delimiter + second == mem[..size]
    ensures found ==> forall j: nat :: j < |first| ==> !Occurs(mem[..size], delimiter, j)
    ensures !found ==> first == mem[..size] && second == []
  {
    var i := Find(mem, size, delimiter, 0, nul);
    ClosedConfines(mem, size, delimiter, 0);
    match i
    case None =>
      first, second, found := mem[..size], [], false;
    case Some(k) =>
      assert Occurs(mem[..size], delimiter, k) && mem[k..k + |delimiter|] == delimiter;
      first, second, found := mem[..k], mem[k + |delimiter|..size], true;
  }
}
