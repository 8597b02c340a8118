/**
 The byte stream of winpr/libwinpr/utils/stream.c: a buffer whose size is the
 capacity, a write/read position, and the sealed length that readers see.
 */
module WinprStream {

  datatype Option<+T> = None | Some(value: T)

  type Byte = b: int | 0 <= b < 0x100
  type Uint32 = v: int | 0 <= v < 0x1_0000_0000

  function Concat(pieces: seq<seq<Byte>>): (data: seq<Byte>)
  {
    if pieces == [] then [] else pieces[0] + Concat(pieces[1..])
  }

  function Zeros(n: nat): (z: seq<Byte>)
    ensures |z| == n && forall i :: 0 <= i < n ==> z[i] == 0
  {
    seq(n, _ => 0)
  }

  /** The capacity reached by doubling `capacity` until it holds `size` bytes. */
  function Doubled(capacity: nat, size: nat): (r: nat)
    requires capacity > 0 || size == 0
    ensures r >= size && r >= capacity
    ensures r > capacity ==> r < 2 * size
    decreases size - capacity
  {
    if capacity >= size then capacity else Doubled(2 * capacity, size)
  }

  /** Capacity after reserving room for `n` more bytes behind `position`. */
  function Reserved(capacity: nat, position: nat, n: nat): (r: nat)
    requires position <= capacity && (capacity > 0 || n == 0)
    ensures r >= capacity && r >= position + n
    ensures position + n <= capacity ==> r == capacity
  {
    if position + n > capacity then Doubled(capacity, capacity + n) else capacity
  }

  /** `capacity` doubled `k` times. */
  function Times(capacity: nat, k: nat): (r: nat)
    decreases k
  {
    if k == 0 then capacity else Times(2 * capacity, k - 1)
  }

  /** The fewest doublings that give the size. */
  lemma {:induction false} DoubledExactly(capacity: nat, size: nat) returns (k: nat)
    requires capacity > 0 || size == 0
    ensures Doubled(capacity, size) == Times(capacity, k)
    ensures k > 0 ==> Times(capacity, k - 1) < size
    decreases size - capacity
  {
    k := 0;
    if capacity < size {
      var more := DoubledExactly(2 * capacity, size);
      k := more + 1;
    }
  }

  /** A buffer without room is doubled until the bytes fit behind its old end, wherever the position is. */
  lemma ReservedExactly(capacity: nat, position: nat, n: nat) returns (k: nat)
    requires position <= capacity && (capacity > 0 || n == 0)
    ensures Reserved(capacity, position, n) == Times(capacity, k)
    ensures k > 0 <==> position + n > capacity
    ensures k > 0 ==> Times(capacity, k - 1) < capacity + n <= Times(capacity, k)
  {
    k := 0;
    if position + n > capacity { k := DoubledExactly(capacity, capacity + n); }
  }

  function LittleEndian32(v: Uint32): (r: seq<Byte>)
    ensures |r| == 4
  {
    [v % 0x100, v / 0x100 % 0x100, v / 0x1_0000 % 0x100, v / 0x100_0000]
  }

  function FromLittleEndian32(b: seq<Byte>): (v: Uint32)
    requires |b| >= 4
  {
    b[0] as int + 0x100 * b[1] as int + 0x1_0000 * b[2] as int + 0x100_0000 * b[3] as int
  }

  /** The lowest byte comes first. */
  lemma LittleEndianBytes(v: Uint32)
    ensures var r := LittleEndian32(v);
            v == r[0] as int + 0x100 * (r[1] as int + 0x100 * (r[2] as int + 0x100 * r[3] as int))
  {
    var a := v / 0x100;
    var b := a / 0x100;
    var c := b / 0x100;
    assert LittleEndian32(v) == [v % 0x100, a % 0x100, b % 0x100, c];
  }

  lemma LittleEndianRoundTrip(v: Uint32, rest: seq<Byte>)
    ensures FromLittleEndian32(LittleEndian32(v) + rest) == v
    ensures (LittleEndian32(v) + rest)[4..] == rest
  {
    var a := v / 0x100;
    var b := a / 0x100;
    var c := b / 0x100;
    assert LittleEndian32(v) == [v % 0x100, a % 0x100, b % 0x100, c];
  }

  class Stream {
    var buffer: seq<Byte>
    var position: nat
    var length: nat

    ghost predicate Valid()
      reads this
    {
      position <= |buffer| && length <= |buffer|
    }

    /** Everything written so far. */
    ghost function Written(): (w: seq<Byte>)
      requires Valid()
      reads this
    {
      buffer[..position]
    }

    /** What is left to read. */
    ghost function Rest(): (r: seq<Byte>)
      requires Valid() && position <= length
      reads this
    {
      buffer[position..length]
    }

    /** Stream_New(NULL, size): the caller checks for size 0, where C returns NULL. */
    constructor (size: nat, fill: Byte)
      requires size > 0
      ensures Valid() && position == 0 && length == size && |buffer| == size
    {
      buffer := seq(size, _ => fill);
      position := 0;
      length := size;
    }

    /** Stream_New(data, size) and Stream_StaticConstInit: a stream over given bytes. */
    constructor Over(data: seq<Byte>)
      ensures Valid() && position == 0 && length == |data| && buffer == data
    {
      buffer := data;
      position := 0;
      length := |data|;
    }

    method EnsureCapacity(size: nat)
      requires Valid() && (|buffer| > 0 || size == 0)
      modifies this
      ensures Valid() && position == old(position)
      ensures |buffer| == Doubled(old(|buffer|), size)
      ensures buffer[..old(|buffer|)] == old(buffer)
      ensures length == if size <= old(|buffer|) then old(length) else |buffer|
    {
      if |buffer| < size {
        var newCapacity := 2 * |buffer|;
        while newCapacity < size
          invariant newCapacity > |buffer|
          invariant Doubled(newCapacity, size) == Doubled(|buffer|, size)
          decreases size - newCapacity
        {
          newCapacity := 2 * newCapacity;
        }
        buffer := buffer + seq(newCapacity - |buffer|, _ => 0);
        length := newCapacity;
      }
    }

    method EnsureRemainingCapacity(n: nat)
      requires Valid() && (|buffer| > 0 || n == 0)
      modifies this
      ensures Valid() && position == old(position) && Written() == old(Written())
      ensures |buffer| == Reserved(old(|buffer|), old(position), n)
      ensures length == if position + n <= old(|buffer|) then old(length) else |buffer|
    {
      if position + n > |buffer| {
        ghost var before := buffer;
        EnsureCapacity(|buffer| + n);
        assert buffer[..position] == buffer[..|before|][..position];
      }
    }

    /** Stream_Write: the caller has reserved the room. */
    method Write(data: seq<Byte>)
      requires Valid() && position + |data| <= |buffer|
      modifies this
      ensures Valid() && |buffer| == old(|buffer|) && length == old(length)
      ensures position == old(position) + |data|
      ensures Written() == old(Written()) + data
    {
      buffer := buffer[..position] + data + buffer[position + |data|..];
      position := position + |data|;
    }

    method WriteUint8(b: Byte)
      requires Valid() && position + 1 <= |buffer|
      modifies this
      ensures Valid() && |buffer| == old(|buffer|) && length == old(length)
      ensures position == old(position) + 1
      ensures Written() == old(Written()) + [b]
    {
      Write([b]);
    }

    method WriteUint32(v: Uint32)
      requires Valid() && position + 4 <= |buffer|
      modifies this
      ensures Valid() && |buffer| == old(|buffer|) && length == old(length)
      ensures position == old(position) + 4
      ensures Written() == old(Written()) + LittleEndian32(v)
    {
      Write(LittleEndian32(v));
    }

    method Zero(n: nat)
      requires Valid() && position + n <= |buffer|
      modifies this
      ensures Valid() && |buffer| == old(|buffer|) && length == old(length)
      ensures position == old(position) + n
      ensures Written() == old(Written()) + Zeros(n)
    {
      Write(Zeros(n));
    }

    method ReadUint8() returns (b: Byte)
      requires Valid() && position + 1 <= length
      modifies this`position
      ensures Valid() && position == old(position) + 1
      ensures b == old(Rest())[0] && Rest() == old(Rest())[1..]
    {
      b := buffer[position];
      position := position + 1;
    }

    /** Consecutive Stream_Read_UINT8 calls. */
    method ReadBytes(n: nat) returns (b: seq<Byte>)
      requires Valid() && position + n <= length
      modifies this`position
      ensures Valid() && position == old(position) + n
      ensures b == old(Rest())[..n] && Rest() == old(Rest())[n..]
    {
      b := buffer[position..position + n];
      position := position + n;
    }

    method ReadUint32() returns (v: Uint32)
      requires Valid() && position + 4 <= length
      modifies this`position
      ensures Valid() && position == old(position) + 4
      ensures v == FromLittleEndian32(old(Rest())) && Rest() == old(Rest())[4..]
    {
      v := FromLittleEndian32(buffer[position..length]);
      position := position + 4;
    }

    /** Stream_SafeSeek: moves only when that many bytes are left. */
    method SafeSeek(n: nat) returns (ok: bool)
      requires Valid() && position <= length
      modifies this`position
      ensures Valid() && position <= length && ok == (n <= old(|Rest()|))
      ensures Rest() == if ok then old(Rest())[n..] else old(Rest())
      ensures position == if ok then old(position) + n else old(position)
    {
      ok := n <= length - position;
      if ok {
        position := position + n;
      }
    }
  }
}
