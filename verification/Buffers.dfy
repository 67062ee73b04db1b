/**
 BufferReader and BufferWriter (src/core/encoding/buffer-utils.ts, lines 326-500).
 */
module Buffers {
  import opened Results
  import opened ByteStrings
  import opened BufferPools

  /** The RangeError of a read past the end of a Buffer. */
  datatype ReadError = OutOfRange

  /** A cursor over a fixed byte string. The offset may run past the end. */
  class BufferReader {
    const buffer: Bytes
    var offset: nat

    constructor (buffer: Bytes)
      ensures this.buffer == buffer && offset == 0 && Rest() == buffer
    {
      this.buffer := buffer;
      offset := 0;
    }

    /** What has not been read. */
    function Rest(): Bytes
      reads this
    {
      Drop(buffer, offset)
    }

    predicate HasMore()
      reads this
      ensures HasMore() <==> Rest() != []
    {
      offset < |buffer|
    }

    /** The reader has consumed n bytes, or the read threw and nothing moved. */
    method ReadUIntLE(width: nat) returns (r: Result<nat, ReadError>)
      requires width > 0
      modifies this
      ensures |old(Rest())| < width ==> r == Err(OutOfRange) && offset == old(offset)
      ensures |old(Rest())| >= width ==>
                && r == Ok(FromLE(old(Rest())[..width]))
                && offset == old(offset) + width
                && Rest() == old(Rest())[width..]
    {
      if offset + width > |buffer| {
        return Err(OutOfRange);
      }
      r := Ok(FromLE(buffer[offset..offset + width]));
      assert buffer[offset..][..width] == buffer[offset..offset + width];
      assert buffer[offset..][width..] == buffer[offset + width..];
      offset := offset + width;
    }

    /** Never throws: a short buffer gives a short result, and the offset moves on regardless. */
    method ReadBuffer(length: nat) returns (r: Bytes)
      modifies this
      ensures r == Take(old(Rest()), length)
      ensures Rest() == Drop(old(Rest()), length)
      ensures offset == old(offset) + length
    {
      var rest := Drop(buffer, offset);
      r := Take(rest, length);
      offset := offset + length;
      if offset <= |buffer| {
        assert buffer[offset - length..][length..] == buffer[offset..];
      }
    }

    method Skip(bytes: nat)
      modifies this
      ensures Rest() == Drop(old(Rest()), bytes) && offset == old(offset) + bytes
    {
      offset := offset + bytes;
      if offset <= |buffer| {
        assert buffer[offset - bytes..][bytes..] == buffer[offset..];
      }
    }
  }

  // ---- Writing ----

  /** Capacity and supply once `ensureCapacity(n)` has run: the new buffer may still be too short. */
  function RoomFor(s: Supply, capacity: nat, offset: nat, n: nat): (nat, Supply) {
    if offset + n <= capacity then (capacity, s)
    else
      var (length, s') := AcquireFrom(s, Max(2 * capacity, offset + n));
      (length, ReleaseTo(s', capacity))
  }

  /** What `toBuffer` returns after data was copied to an offset, as far as it fits; a gap before it holds anything. */
  ghost predicate Written(before: Bytes, offset: nat, data: Bytes, capacity: nat, after: Bytes) {
    && |after| == Min(offset + |data|, capacity)
    && (forall i | 0 <= i < Min(|before|, |after|) :: after[i] == before[i])
    && (forall i | offset <= i < |after| :: after[i] == data[i - offset])
  }

  /** Exactly the data is appended if and only if there is room. */
  lemma WrittenIsAppended(before: Bytes, data: Bytes, capacity: nat, after: Bytes)
    requires Written(before, |before|, data, capacity, after) && |before| <= capacity
    ensures after == before + data <==> |before| + |data| <= capacity
    ensures after <= before + data
  {
  }

  lemma WrittenAfter(before: Bytes, offset: nat, kept: Bytes, data: Bytes, capacity: nat, after: Bytes)
    requires |before| <= offset
    requires Written(before, offset, [], capacity, kept) && Written(kept, offset, data, capacity, after)
    ensures Written(before, offset, data, capacity, after)
    ensures |before| == offset && offset + |data| <= capacity ==> after == before + data
  {
  }

  lemma WithoutPool(size: nat, length: nat)
    ensures AcquireFrom(NoPool, size) == (size, NoPool) && ReleaseTo(NoPool, length) == NoPool
  {
  }

  /** An append-only byte buffer that doubles when it is full, in memory of its own or out of a pool. */
  class BufferWriter {
    const pool: BufferPool?
    var buffer: Slice
    var offset: nat

    ghost predicate Valid()
      reads this, pool
    {
      && buffer.Valid()
      && (if pool == null then offset <= buffer.length else pool.Valid() && buffer.memory !in pool.Memories())
    }

    ghost function Supplies(): Supply
      reads this, pool
    {
      if pool == null then NoPool else pool.Supplies()
    }

    ghost function Memories(): set<array<Byte>>
      reads this, pool
    {
      {buffer.memory} + if pool == null then {} else pool.Memories()
    }

    /** What `toBuffer` returns. */
    function Contents(): Bytes
      requires buffer.Valid()
      reads this, buffer.memory
    {
      buffer.memory[..Min(offset, buffer.length)]
    }

    constructor (initialSize: nat, pool: BufferPool? := null)
      requires pool != null ==> pool.Valid()
      modifies pool
      ensures this.pool == pool && Valid() && offset == 0 && Contents() == []
      ensures pool == null ==> fresh(buffer.memory) && buffer.length == initialSize
      ensures pool != null ==>
                && (buffer.length, pool.Supplies()) == AcquireFrom(old(pool.Supplies()), initialSize)
                && pool.Memories() == old(pool.Memories()) - {buffer.memory}
                && (fresh(buffer.memory) || buffer.memory in old(pool.Memories()))
                && (old(pool.AllWhole()) ==> pool.AllWhole() && buffer.length == initialSize)
    {
      this.pool := pool;
      offset := 0;
      if pool == null {
        var memory := new Byte[initialSize];
        buffer := Slice(memory, initialSize);
      } else {
        var acquired := pool.Acquire(initialSize);
        buffer := acquired;
      }
    }

    method EnsureCapacity(bytes: nat)
      requires Valid()
      modifies this`buffer, pool, Memories()
      ensures Valid() && forall m | m in Memories() :: m in old(Memories()) || fresh(m)
      ensures pool == null ==> buffer == old(buffer) || fresh(buffer.memory)
      ensures (buffer.length, Supplies()) == RoomFor(old(Supplies()), old(buffer.length), offset, bytes)
      ensures Written(old(Contents()), offset, [], buffer.length, Contents())
      ensures offset + bytes <= old(buffer.length) ==> buffer == old(buffer) && Contents() == old(Contents())
      ensures offset + bytes <= old(buffer.length) && pool != null ==> pool.pools == old(pool.pools)
      ensures pool == null ==> offset + bytes <= buffer.length
    {
      hide AcquireFrom, ReleaseTo, MemoriesOf;
      var required := offset + bytes;
      if required > buffer.length {
        WithoutPool(Max(buffer.length * 2, required), buffer.length);
        Replace(Max(buffer.length * 2, required));
      }
    }

    /** Another buffer, with as much of the contents as it holds; the old one goes back to the pool. */
    method Replace(newSize: nat)
      requires Valid() && offset <= newSize
      modifies this`buffer, pool, Memories()
      ensures Valid() && forall m | m in Memories() :: m in old(Memories()) || fresh(m)
      ensures pool == null ==> buffer == old(buffer) || fresh(buffer.memory)
      ensures
        var (length, s) := AcquireFrom(old(Supplies()), newSize);
        buffer.length == length && Supplies() == ReleaseTo(s, old(buffer.length))
      ensures Written(old(Contents()), offset, [], buffer.length, Contents())
    {
      hide Separate, LengthsOf, Whole, BucketSize, AcquireFrom, ReleaseTo;
      WithoutPool(newSize, buffer.length);
      ghost var before := Contents();
      if pool == null {
        var memory := new Byte[newSize];
        CopyInto(Slice(memory, newSize));
        buffer := Slice(memory, newSize);
      } else {
        var newBuffer := pool.Acquire(newSize);
        CopyInto(newBuffer);
        pool.Release(buffer);
        buffer := newBuffer;
      }
    }

    /** `copy` stops at the end of the target. */
    method CopyInto(target: Slice)
      requires buffer.Valid() && target.Valid() && target.memory != buffer.memory
      modifies target.memory
      ensures Written(Contents(), offset, [], target.length, target.memory[..Min(offset, target.length)])
    {
      forall i | 0 <= i < Min(offset, Min(buffer.length, target.length)) {
        target.memory[i] := buffer.memory[i];
      }
    }

    method Put(data: Bytes)
      requires buffer.Valid()
      modifies this`offset, buffer.memory
      ensures offset == old(offset) + |data|
      ensures Written(old(Contents()), old(offset), data, buffer.length, Contents())
    {
      ghost var kept := Contents();
      forall i | 0 <= i < |data| && offset + i < buffer.length {
        buffer.memory[offset + i] := data[i];
      }
      assert forall i | 0 <= i < |kept| :: buffer.memory[i] == kept[i];
      offset := offset + |data|;
    }

    /** Never throws: what does not fit is dropped, and the offset moves on regardless. */
    method WriteBuffer(data: Bytes)
      requires Valid()
      modifies this`buffer, this`offset, pool, Memories()
      ensures Valid() && offset == old(offset) + |data|
      ensures forall m | m in Memories() :: m in old(Memories()) || fresh(m)
      ensures pool == null ==> buffer == old(buffer) || fresh(buffer.memory)
      ensures (buffer.length, Supplies()) == RoomFor(old(Supplies()), old(buffer.length), old(offset), |data|)
      ensures Written(old(Contents()), old(offset), data, buffer.length, Contents())
      ensures old(offset) <= old(buffer.length) && offset <= buffer.length ==> Contents() == old(Contents()) + data
      ensures old(offset) + |data| <= old(buffer.length) ==>
          buffer == old(buffer) && (pool != null ==> pool.pools == old(pool.pools))
    {
      hide MemoriesOf, Separate, LengthsOf, RoomFor;
      EnsureCapacity(|data|);
      ghost var kept := Contents();
      Put(data);
      WrittenAfter(old(Contents()), offset - |data|, kept, data, buffer.length, Contents());
    }

    /** Throws if there is still no room, and then writes nothing. */
    method WriteBytes(data: Bytes) returns (ok: bool)
      requires Valid()
      modifies this`buffer, this`offset, pool, Memories()
      ensures Valid() && forall m | m in Memories() :: m in old(Memories()) || fresh(m)
      ensures pool == null ==> buffer == old(buffer) || fresh(buffer.memory)
      ensures (buffer.length, Supplies()) == RoomFor(old(Supplies()), old(buffer.length), old(offset), |data|)
      ensures ok <==> old(offset) + |data| <= buffer.length
      ensures offset == old(offset) + if ok then |data| else 0
      ensures pool == null ==> ok
      ensures ok ==> Written(old(Contents()), old(offset), data, buffer.length, Contents())
      ensures ok && old(offset) <= old(buffer.length) ==> Contents() == old(Contents()) + data
      ensures old(offset) + |data| <= old(buffer.length) ==>
          buffer == old(buffer) && (pool != null ==> pool.pools == old(pool.pools))
    {
      hide MemoriesOf, Separate, LengthsOf, RoomFor;
      EnsureCapacity(|data|);
      ok := offset + |data| <= buffer.length;
      if ok {
        ghost var kept := Contents();
        Put(data);
        WrittenAfter(old(Contents()), offset - |data|, kept, data, buffer.length, Contents());
      }
    }

    method WriteUInt8(value: Byte) returns (ok: bool)
      requires Valid()
      modifies this`buffer, this`offset, pool, Memories()
      ensures Valid() && forall m | m in Memories() :: m in old(Memories()) || fresh(m)
      ensures pool == null ==> buffer == old(buffer) || fresh(buffer.memory)
      ensures (buffer.length, Supplies()) == RoomFor(old(Supplies()), old(buffer.length), old(offset), 1)
      ensures ok <==> old(offset) + 1 <= buffer.length
      ensures offset == old(offset) + if ok then 1 else 0
      ensures pool == null ==> ok
      ensures ok ==> Written(old(Contents()), old(offset), [value], buffer.length, Contents())
      ensures ok && old(offset) <= old(buffer.length) ==> Contents() == old(Contents()) + [value]
      ensures old(offset) + 1 <= old(buffer.length) ==>
          buffer == old(buffer) && (pool != null ==> pool.pools == old(pool.pools))
    {
      ok := WriteBytes([value]);
    }

    method WriteUIntLE(value: nat, width: nat) returns (ok: bool)
      requires Valid() && value < Pow256(width)
      modifies this`buffer, this`offset, pool, Memories()
      ensures Valid() && forall m | m in Memories() :: m in old(Memories()) || fresh(m)
      ensures pool == null ==> buffer == old(buffer) || fresh(buffer.memory)
      ensures (buffer.length, Supplies()) == RoomFor(old(Supplies()), old(buffer.length), old(offset), width)
      ensures ok <==> old(offset) + width <= buffer.length
      ensures offset == old(offset) + if ok then width else 0
      ensures pool == null ==> ok
      ensures ok ==> Written(old(Contents()), old(offset), LE(value, width), buffer.length, Contents())
      ensures ok && old(offset) <= old(buffer.length) ==> Contents() == old(Contents()) + LE(value, width)
      ensures old(offset) + width <= old(buffer.length) ==>
          buffer == old(buffer) && (pool != null ==> pool.pools == old(pool.pools))
    {
      ok := WriteBytes(LE(value, width));
    }

    method WriteUIntBE(value: nat, width: nat) returns (ok: bool)
      requires Valid() && value < Pow256(width)
      modifies this`buffer, this`offset, pool, Memories()
      ensures Valid() && forall m | m in Memories() :: m in old(Memories()) || fresh(m)
      ensures pool == null ==> buffer == old(buffer) || fresh(buffer.memory)
      ensures (buffer.length, Supplies()) == RoomFor(old(Supplies()), old(buffer.length), old(offset), width)
      ensures ok <==> old(offset) + width <= buffer.length
      ensures offset == old(offset) + if ok then width else 0
      ensures pool == null ==> ok
      ensures ok ==> Written(old(Contents()), old(offset), BE(value, width), buffer.length, Contents())
      ensures ok && old(offset) <= old(buffer.length) ==> Contents() == old(Contents()) + BE(value, width)
      ensures old(offset) + width <= old(buffer.length) ==>
          buffer == old(buffer) && (pool != null ==> pool.pools == old(pool.pools))
    {
      ok := WriteBytes(BE(value, width));
    }
  }
}
