/** `Buffer`: a growable block of bytes, and slices into it that survive its relocation. */
module Buffers {
  import opened Bytes
  import SystemCalls

  const CHUNK_SIZE: nat := 4096

  // ---------------------------------------------------------------- growth arithmetic

  /** The block size `setCapacity` asks for when `value` exceeds the current capacity. */
  function Padded(capacity: nat, value: nat): (r: nat)
    requires value > capacity
  {
    if capacity == 0 then value
    else value - 1 + CHUNK_SIZE - (value - 1) % CHUNK_SIZE
  }

  /** The first growth is exact; every later one gives the least multiple of 4096 that fits. */
  lemma PaddedIsLeast(capacity: nat, value: nat)
    requires value > capacity
    ensures capacity == 0 ==> Padded(capacity, value) == value
    ensures capacity > 0 ==> Padded(capacity, value) % 4096 == 0
    ensures value <= Padded(capacity, value) < value + 4096
    ensures forall m: nat :: capacity > 0 && m % 4096 == 0 && value <= m ==> Padded(capacity, value) <= m
  {
    if capacity > 0 {
      var q := (value - 1) / CHUNK_SIZE;
      assert Padded(capacity, value) == CHUNK_SIZE * (q + 1);
    }
  }

  /** What a run of appends costs: bytes stored, bytes reserved, blocks asked for and granted. */
  datatype Account = Account(size: nat, capacity: nat, reallocs: nat)

  /** The account after an append of `n` bytes; `granted` is what the allocator would answer. */
  function AfterAppend(a: Account, n: nat, granted: bool): Account {
    if n == 0 then a
    else if a.size + n <= a.capacity then a.(size := a.size + n)
    else if granted then Account(a.size + n, Padded(a.capacity, a.size + n), a.reallocs + 1)
    else a
  }

  function AfterAppends(a: Account, ns: seq<nat>, grants: seq<bool>): Account
    requires |ns| == |grants|
    decreases |ns|
  {
    if ns == [] then a
    else
      var k := |ns| - 1;
      AfterAppend(AfterAppends(a, ns[..k], grants[..k]), ns[k], grants[k])
  }

  /** Holds of every account a fresh buffer can reach. */
  predicate Economic(a: Account) {
    && a.size <= a.capacity
    && (a.capacity == 0 <==> a.reallocs == 0)
    && (a.reallocs >= 2 ==>
          && a.capacity % 4096 == 0
          && 4096 * (a.reallocs - 1) <= a.capacity < a.size + 4096)
  }

  lemma AppendStaysEconomic(a: Account, n: nat, granted: bool)
    requires Economic(a)
    ensures Economic(AfterAppend(a, n, granted))
  {
    if n > 0 && a.size + n > a.capacity && granted {
      PaddedIsLeast(a.capacity, a.size + n);
    }
  }

  /** Any run of appends totalling T bytes on a fresh buffer reallocates at most 1 + ceil(T / 4096) times. */
  lemma {:induction false} ReallocationBound(ns: seq<nat>, grants: seq<bool>)
    requires |ns| == |grants|
    ensures var a := AfterAppends(Account(0, 0, 0), ns, grants);
            && Economic(a)
            && a.size <= Total(ns)
            && a.reallocs <= 1 + (Total(ns) + 4095) / 4096
  {
    if ns != [] {
      var k := |ns| - 1;
      ReallocationBound(ns[..k], grants[..k]);
      AppendStaysEconomic(AfterAppends(Account(0, 0, 0), ns[..k], grants[..k]), ns[k], grants[k]);
    }
  }

  // ---------------------------------------------------------------- the buffer

  /**
   * The managed mutable buffer. `mem` is the allocated block, so its length is the capacity;
   * `dangling` says that the block was freed while the buffer still holds its address. `reallocs`
   * and `refusals` count the allocator's answers to this buffer.
   */
  class Buffer {
    var mem: seq<Byte>
    var size: nat
    var dangling: bool
    ghost var reallocs: nat
    ghost var refusals: nat

    ghost predicate Valid()
      reads this
    {
      size <= |mem| && (dangling ==> mem == [])
    }

    /** Valid, and its block may be reallocated. */
    ghost predicate Usable()
      reads this
    {
      Valid() && !dangling
    }

    function Capacity(): nat
      reads this
    {
      |mem|
    }

    ghost function Contents(): seq<Byte>
      requires size <= |mem|
      reads this
    {
      mem[..size]
    }

    ghost function Books(): Account
      reads this
    {
      Account(size, |mem|, reallocs)
    }

    constructor ()
      ensures Usable() && Contents() == [] && Books() == Account(0, 0, 0) && refusals == 0
    {
      mem, size, dangling, reallocs, refusals := [], 0, false, 0, 0;
    }

    constructor WithCapacity(capacity: nat)
      ensures Usable() && Contents() == []
      ensures Capacity() == if refusals == 0 then capacity else 0
    {
      mem, size, dangling, reallocs, refusals := [], 0, false, 0, 0;
      new;
      var _ := Reserve(capacity);
    }

    /**
     * A non-zero request always leaves a usable buffer holding the longest prefix of its bytes that
     * fits. A request for zero frees the block and nothing else, so it is only sound on an empty buffer.
     */
    method SetCapacity(value: nat) returns (ok: bool)
      requires Valid() && (dangling ==> value == 0)
      modifies this
      ensures Valid() <==> value > 0 || old(Capacity()) == 0 || old(size) == 0
      ensures value == 0 ==> ok && size == old(size) && Capacity() == 0 && reallocs == old(reallocs)
      ensures value == 0 ==> (dangling <==> old(dangling) || old(Capacity()) > 0)
      ensures value > 0 ==> !dangling && size == if old(Capacity()) > value then Min(old(size), value) else old(size)
      ensures value > 0 ==> size <= Capacity() && Contents() == old(Contents())[..size]
      ensures value > 0 && ok ==>
                Capacity() == (if value > old(Capacity()) then Padded(old(Capacity()), value) else value)
      ensures ok && 0 < old(Capacity()) < value ==> Capacity() % 4096 == 0 && value <= Capacity() < value + 4096
      ensures !ok ==> mem == old(mem)
      ensures refusals == old(refusals) + if ok then 0 else 1
      ensures value > 0 ==> reallocs == old(reallocs) + if ok && value != old(Capacity()) then 1 else 0
    {
      if value == 0 && |mem| > 0 {
        mem, dangling := [], true;
        return true;
      }
      var request := value;
      if value > |mem| {
        PaddedIsLeast(|mem|, value);
        if |mem| > 0 {
          request := request - 1;
          request := request + CHUNK_SIZE - request % CHUNK_SIZE;
        }
      } else if value < |mem| {
        if value < size {
          size := value;
        }
      } else {
        return true;
      }
      var granted, moved := SystemCalls.Realloc(mem, request);
      if granted {
        assert moved[..size] == moved[..Min(request, |mem|)][..size];
        assert mem[..size] == mem[..Min(request, |mem|)][..size];
        mem, reallocs := moved, reallocs + 1;
      } else {
        refusals := refusals + 1;
      }
      return granted;
    }

    /** `mutableEnsure`: room for `value` bytes in all; a non-zero request never gives up stored bytes. */
    method Reserve(value: nat) returns (ok: bool)
      requires Valid() && (dangling ==> value == 0)
      modifies this
      ensures Valid() <==> value > 0 || old(Capacity()) == 0 || old(size) == 0
      ensures size == old(size) && (Valid() ==> Contents() == old(Contents()))
      ensures dangling <==> old(dangling) || (value == 0 && old(Capacity()) > 0)
      ensures value > 0 && ok ==> value <= Capacity()
      ensures refusals == old(refusals) + if ok then 0 else 1
      ensures 0 < value <= old(Capacity()) ==> ok && mem == old(mem) && reallocs == old(reallocs)
      ensures value > old(Capacity()) && ok ==>
                Capacity() == Padded(old(Capacity()), value) && reallocs == old(reallocs) + 1
      ensures value > old(Capacity()) && !ok ==> mem == old(mem) && reallocs == old(reallocs)
      ensures value == 0 ==> ok && Capacity() == 0
    {
      if value > |mem| || value == 0 {
        ok := SetCapacity(value);
        if value > old(Capacity()) {
          PaddedIsLeast(old(Capacity()), value);
        }
      } else {
        ok := true;
      }
    }

    method Resize(value: nat) returns (ok: bool)
      requires Valid()
      modifies this`size
      ensures ok == (value <= Capacity())
      ensures size == if ok then value else old(size)
      ensures Valid()
    {
      if value > |mem| {
        return false;
      }
      size := value;
      return true;
    }

    method Clear()
      requires Valid()
      modifies this`size
      ensures size == 0 && Valid() && Contents() == []
    {
      size := 0;
    }

    /**
     * `push_back(const void*, size_t)`: all of `bytes` or, when the allocator refuses, none of it.
     * `granted` is the allocator's answer.
     */
    method Append(bytes: seq<Byte>) returns (ghost granted: bool)
      requires Usable()
      modifies this
      ensures Usable()
      ensures Books() == AfterAppend(old(Books()), |bytes|, granted)
      ensures Contents() == old(Contents()) + if size > old(size) then bytes else []
      ensures size == old(size) ==> mem == old(mem)
      ensures refusals == old(refusals) + if size == old(size) && bytes != [] then 1 else 0
    {
      granted := true;
      if |bytes| > 0 {
        var ok := Reserve(size + |bytes|);
        granted := ok;
        if ok {
          Extend(bytes);
        }
      }
    }

    /** Copies `bytes` to `end()` and raises the size over them. */
    method Extend(bytes: seq<Byte>)
      requires Usable() && size + |bytes| <= Capacity()
      modifies this`mem, this`size
      ensures Usable() && Capacity() == old(Capacity())
      ensures Contents() == old(Contents()) + bytes
    {
      mem := Patched(mem, size, bytes);
      var _ := Resize(size + |bytes|);
    }

    method Swap(other: Buffer)
      requires Valid() && other.Valid()
      modifies this, other
      ensures Valid() && other.Valid()
      ensures mem == old(other.mem) && size == old(other.size) && dangling == old(other.dangling)
      ensures other.mem == old(mem) && other.size == old(size) && other.dangling == old(dangling)
      ensures refusals == old(refusals) && other.refusals == old(other.refusals)
    {
      mem, other.mem := other.mem, mem;
      size, other.size := other.size, size;
      dangling, other.dangling := other.dangling, dangling;
      reallocs, other.reallocs := other.reallocs, reallocs;
    }

    /** Move assignment: frees this block first, then takes over the other's; self-assignment empties. */
    method MoveFrom(other: Buffer)
      requires Valid() && other.Valid()
      modifies this, other
      ensures Valid() && other.Usable() && other.Contents() == []
      ensures this != other ==> Contents() == old(other.Contents()) && Capacity() == old(other.Capacity())
      ensures dangling <==> this != other && old(other.dangling)
    {
      var _ := SetCapacity(0);
      mem, size, dangling, reallocs := other.mem, other.size, other.dangling, other.reallocs;
      other.mem, other.size, other.dangling, other.reallocs := [], 0, false, 0;
    }
  }

  /** A slice names its buffer and an offset, and finds the bytes when they are asked for. */
  datatype BufferSlice = BufferSlice(buffer: Buffer, offset: nat, size: nat) {
    ghost predicate Inside()
      reads buffer
    {
      buffer.Valid() && offset + size <= buffer.size
    }

    ghost function Bytes(): seq<Byte>
      requires Inside()
      reads buffer
    {
      buffer.mem[offset..offset + size]
    }
  }

  /** `slice(offset, count)`; None stands for `npos`. */
  method Slice(buffer: Buffer, offset: nat, count: Option<nat>) returns (s: BufferSlice)
    requires buffer.Valid() && offset <= buffer.size
    requires count.Some? ==> offset + count.value <= buffer.size
    ensures s.buffer == buffer && s.Inside()
    ensures s.Bytes() == match count
                         case None => buffer.Contents()[offset..]
                         case Some(n) => buffer.Contents()[offset..offset + n]
  {
    s := BufferSlice(buffer, offset, if count.Some? then count.value else buffer.size - offset);
  }

  lemma WithinContents(slice: BufferSlice)
    requires slice.Inside()
    ensures slice.offset + slice.size <= |slice.buffer.Contents()|
    ensures slice.Bytes() == slice.buffer.Contents()[slice.offset..slice.offset + slice.size]
  {
    SliceOfPrefix(slice.buffer.mem, slice.buffer.size, slice.offset, slice.size);
  }

  /**
   * Any run of appends to a buffer in use: a slice taken before keeps its bytes however often the
   * block is relocated.
   */
  method AppendUnderSlice(slice: BufferSlice, parts: seq<seq<Byte>>)
    requires slice.Inside() && slice.buffer.Usable()
    modifies slice.buffer
    ensures slice.Inside() && slice.buffer.Usable()
    ensures slice.Bytes() == old(slice.Bytes())
  {
    var buffer := slice.buffer;
    for k := 0 to |parts|
      invariant buffer.Usable() && slice.Inside() && slice.Bytes() == old(slice.Bytes())
    {
      ghost var before := buffer.Contents();
      WithinContents(slice);
      ghost var _ := buffer.Append(parts[k]);
      SliceOfSum(before, buffer.Contents()[|before|..], slice.offset, slice.size);
      WithinContents(slice);
    }
  }

  function Lengths(parts: seq<seq<Byte>>): (r: seq<nat>)
    ensures |r| == |parts| && forall i :: 0 <= i < |r| ==> r[i] == |parts[i]|
  {
    seq(|parts|, i requires 0 <= i < |parts| => |parts[i]|)
  }

  /**
   * Any run of appends to a fresh buffer: the parts survive in order, each whole except one for each
   * refusal of the allocator, and the number of reallocations is bounded by the bytes handed in.
   */
  method AppendRun(parts: seq<seq<Byte>>) returns (buffer: Buffer, ghost stored: seq<seq<Byte>>)
    ensures fresh(buffer) && buffer.Usable()
    ensures buffer.Contents() == Joined(stored)
    ensures |stored| == |parts| && forall i :: 0 <= i < |parts| ==> stored[i] == parts[i] || stored[i] == []
    ensures buffer.refusals == Dropped(parts, stored)
    ensures buffer.reallocs <= 1 + (Total(Lengths(parts)) + 4095) / 4096
  {
    buffer := new Buffer();
    stored := [];
    ghost var lengths: seq<nat> := Lengths(parts);
    ghost var grants: seq<bool> := [];
    for k := 0 to |parts|
      invariant buffer.Usable() && fresh(buffer)
      invariant Entries(parts, k, stored, buffer.Contents(), buffer.refusals)
      invariant |grants| == k && buffer.Books() == AfterAppends(Account(0, 0, 0), lengths[..k], grants)
    {
      ghost var had, before := buffer.Contents(), buffer.refusals;
      var size := buffer.size;
      ghost var granted := buffer.Append(parts[k]);
      ghost var piece := if buffer.size > size then parts[k] else [];
      EntriesStep(parts, k, stored, had, before, piece);
      AfterAppendsSnoc(lengths, k, grants, granted);
      stored, grants := stored + [piece], grants + [granted];
    }
    assert lengths[..|parts|] == lengths && parts[..|parts|] == parts;
    ReallocationBound(lengths, grants);
  }

  /** After `k` appends: each part was stored whole or dropped, which was counted, and those stored are in order. */
  ghost predicate Entries(parts: seq<seq<Byte>>, k: nat, stored: seq<seq<Byte>>, contents: seq<Byte>, refusals: nat) {
    && |stored| == k <= |parts| && contents == Joined(stored) && refusals == Dropped(parts[..k], stored)
    && forall i :: 0 <= i < k ==> stored[i] == parts[i] || stored[i] == []
  }

  lemma EntriesStep(parts: seq<seq<Byte>>, k: nat, stored: seq<seq<Byte>>, contents: seq<Byte>, refusals: nat,
                    piece: seq<Byte>)
    requires Entries(parts, k, stored, contents, refusals) && k < |parts| && (piece == parts[k] || piece == [])
    ensures Entries(parts, k + 1, stored + [piece], contents + piece,
                    refusals + if parts[k] != [] && piece == [] then 1 else 0)
  {
    JoinedSnoc(stored, piece);
    DroppedSnoc(parts, k, stored, piece);
  }

  /** The number of parts that had bytes and were not stored. */
  function Dropped(parts: seq<seq<Byte>>, stored: seq<seq<Byte>>): nat
    requires |parts| == |stored|
  {
    if parts == [] then 0
    else
      var k := |parts| - 1;
      Dropped(parts[..k], stored[..k]) + if parts[k] != [] && stored[k] == [] then 1 else 0
  }

  lemma DroppedSnoc(parts: seq<seq<Byte>>, k: nat, stored: seq<seq<Byte>>, piece: seq<Byte>)
    requires k < |parts| && |stored| == k
    ensures Dropped(parts[..k + 1], stored + [piece]) ==
            Dropped(parts[..k], stored) + if parts[k] != [] && piece == [] then 1 else 0
  {
    assert parts[..k + 1][..k] == parts[..k] && (stored + [piece])[..k] == stored;
  }

  lemma AfterAppendsSnoc(ns: seq<nat>, k: nat, grants: seq<bool>, granted: bool)
    requires k < |ns| && |grants| == k
    ensures AfterAppends(Account(0, 0, 0), ns[..k + 1], grants + [granted])
         == AfterAppend(AfterAppends(Account(0, 0, 0), ns[..k], grants), ns[k], granted)
  {
    assert ns[..k + 1][..k] == ns[..k] && (grants + [granted])[..k] == grants;
  }
}
