/**
 StreamBuffer (src/core/encoding/buffer-utils.ts, lines 80-199): a byte queue over
 one array that is compacted in place and grown through a pool. What `consume` and `peek` return
 are views into that array, so the memory itself is part of the model.
 */
module StreamBuffers {
  import opened Results
  import opened ByteStrings
  import opened BufferPools

  // ---- The memory of a stream buffer, as a value ----

  datatype Memory = Memory(bytes: Bytes, readPos: nat, writePos: nat) {

    ghost predicate Valid() {
      readPos <= writePos <= |bytes|
    }

    /** The queue's contents. */
    function Contents(): (r: Bytes)
      requires Valid()
      ensures |r| == writePos - readPos
    {
      bytes[readPos..writePos]
    }

    /** The live data is moved to the front; the bytes behind it stay what they were. */
    function Compact(): (m: Memory)
      requires Valid()
      ensures m.Valid() && |m.bytes| == |bytes|
      ensures m.Contents() == Contents()
    {
      Memory(Contents() + bytes[writePos - readPos..], 0, writePos - readPos)
    }

    /** `readPos > buffer.length / 2` once n more bytes are read. */
    predicate Compacts(n: nat) {
      2 * (readPos + n) > |bytes|
    }

    function Consume(n: nat): (m: Memory)
      requires Valid() && n <= writePos - readPos
      ensures m.Valid() && |m.bytes| == |bytes|
      ensures m.Contents() == Contents()[n..]
    {
      var read := Memory(bytes, readPos + n, writePos);
      assert read.Contents() == Contents()[n..];
      if Compacts(n) then read.Compact() else read
    }

    /** What the view returned by `consume(n)` shows once `consume` has returned. */
    function Consumed(n: nat): (r: Bytes)
      requires Valid() && n <= writePos - readPos
      ensures |r| == n
    {
      Consume(n).bytes[readPos..readPos + n]
    }

    /** Compaction moves bytes into the region the view still shows. */
    predicate Overlaps(n: nat) {
      n > 0 && Compacts(n) && writePos - readPos - n > readPos
    }
  }

  /** Both cases: the view's leading bytes are those of the data that remains, the others are intact. */
  lemma ConsumedBytes(m: Memory, n: nat, i: nat)
    requires m.Valid() && n <= m.writePos - m.readPos && i < n
    ensures m.Consumed(n)[i] ==
            if m.Compacts(n) && m.readPos + i < m.writePos - m.readPos - n
            then m.Contents()[n..][m.readPos + i]
            else m.Contents()[i]
  {
  }

  lemma NoOverlapIntact(m: Memory, n: nat)
    requires m.Valid() && n <= m.writePos - m.readPos && !m.Overlaps(n)
    ensures m.Consumed(n) == m.Contents()[..n]
  {
    forall i | 0 <= i < n ensures m.Consumed(n)[i] == m.Contents()[..n][i] {
      ConsumedBytes(m, n, i);
    }
  }

  /** The condition is exact: where it fails, some buffer contents are returned wrong. */
  lemma IntactForAllContents(capacity: nat, readPos: nat, writePos: nat, n: nat)
    requires readPos + n <= writePos <= capacity
    ensures (forall bytes: Bytes | |bytes| == capacity ::
               var m := Memory(bytes, readPos, writePos); m.Consumed(n) == m.Contents()[..n])
            <==> !Memory(Zeros(capacity), readPos, writePos).Overlaps(n)
  {
    var zeros := Memory(Zeros(capacity), readPos, writePos);
    if zeros.Overlaps(n) {
      var m := zeros.(bytes := Zeros(capacity)[readPos + n + readPos := 1]);
      ConsumedBytes(m, n, 0);
      assert m.Consumed(n)[0] == 1 && m.Contents()[..n][0] == 0;
    } else {
      forall bytes: Bytes | |bytes| == capacity
        ensures var m := Memory(bytes, readPos, writePos); m.Consumed(n) == m.Contents()[..n]
      {
        NoOverlapIntact(Memory(bytes, readPos, writePos), n);
      }
    }
  }

  /** A region of an array, by reference. */
  datatype View = View(memory: array<Byte>, offset: nat, length: nat) {

    ghost predicate Valid() {
      offset + length <= memory.Length
    }

    function Bytes(): Bytes
      requires Valid()
      reads memory
    {
      memory[offset..offset + length]
    }
  }

  // ---- StreamBuffer ----

  datatype StreamError = Overflow

  /** Doubling until minSize fits, cut at maxSize. */
  function GrownSize(size: nat, minSize: nat, maxSize: nat): nat
    requires size > 0
    decreases maxSize - size
  {
    if size < minSize && size < maxSize then GrownSize(2 * size, minSize, maxSize) else Min(size, maxSize)
  }

  /** A size that comes from another one by doubling. */
  ghost predicate Doubling(size: nat, doubled: nat)
    requires size > 0
    decreases doubled - size
  {
    doubled == size || (size < doubled && Doubling(2 * size, doubled))
  }

  /** Growing stops at the first doubling that is enough, or at maxSize. */
  lemma {:induction false} GrownIsEnough(size: nat, minSize: nat, maxSize: nat)
    requires 0 < size < minSize <= maxSize
    ensures
      var grown := GrownSize(size, minSize, maxSize);
      && minSize <= grown <= maxSize && grown < 2 * minSize
      && (grown == maxSize || Doubling(size, grown))
    decreases minSize - size
  {
    if 2 * size < minSize {
      GrownIsEnough(2 * size, minSize, maxSize);
    } else {
      assert GrownSize(2 * size, minSize, maxSize) == Min(2 * size, maxSize);
      assert Doubling(2 * size, 2 * size);
    }
  }

  /** Capacity and read position once there is room for n more bytes. */
  function Room(capacity: nat, readPos: nat, writePos: nat, n: nat, maxSize: nat): (nat, nat)
    requires readPos <= writePos && capacity > 0
  {
    if writePos + n <= capacity then (capacity, readPos)
    else if writePos - readPos + n <= capacity then (capacity, 0)
    else (GrownSize(capacity, writePos - readPos + n, maxSize), 0)
  }

  /** Room is made only if needed, by moving to the front if that is enough, and else by growing. */
  lemma RoomIsEnough(capacity: nat, readPos: nat, writePos: nat, n: nat, maxSize: nat)
    requires readPos <= writePos <= capacity && 0 < capacity && writePos - readPos + n <= maxSize
    ensures
      var (c, at) := Room(capacity, readPos, writePos, n, maxSize);
      && at + (writePos - readPos) + n <= c
      && (at == readPos || at == 0)
      && (writePos + n <= capacity ==> at == readPos)
      && (readPos > 0 && writePos + n > capacity ==> at == 0)
      && (c == capacity <==> writePos - readPos + n <= capacity)
      && (c != capacity ==> c == maxSize || Doubling(capacity, c))
  {
    if writePos - readPos + n > capacity {
      GrownIsEnough(capacity, writePos - readPos + n, maxSize);
    }
  }

  /** From this capacity, doubling up to maxSize only meets sizes the pool keeps exactly. */
  ghost predicate CapacitiesExact(size: nat, maxSize: nat, pool: BufferPool)
    decreases maxSize - size
  {
    && 0 < size <= maxSize
    && pool.Exact(size)
    && (size < maxSize ==> CapacitiesExact(Min(2 * size, maxSize), maxSize, pool))
  }

  /** The sizes both users of the buffer grow through: 4096 doubled up to 1048576. */
  const INITIAL_SIZE: nat := 4096
  const MAX_SIZE: nat := 1048576

  const DEFAULT_BUCKETS: seq<nat> := [4, 8, 16, 32, 64, 128, 256, 512, 1024, 2048, 4096, 8192, 16384]
  const FRAME_BUCKETS: seq<nat> := [256, 512, 1024, 2048, 4096, 8192, 16384, 32768, 65536]

  lemma DoublingIsExact(pool: BufferPool)
    requires pool.config.sizeBuckets in {DEFAULT_BUCKETS, FRAME_BUCKETS}
    ensures CapacitiesExact(INITIAL_SIZE, MAX_SIZE, pool) && INITIAL_SIZE == 4096 && MAX_SIZE == 1048576
  {
    hide BucketSize;
    var b := pool.config.sizeBuckets;
    forall size: nat | size in {4096, 8192, 16384, 32768, 65536} || size > 65536 ensures pool.Exact(size) {
      BucketsFrom(b, size);
    }
    assert CapacitiesExact(1048576, MAX_SIZE, pool);
    assert CapacitiesExact(524288, MAX_SIZE, pool);
    assert CapacitiesExact(262144, MAX_SIZE, pool);
    assert CapacitiesExact(131072, MAX_SIZE, pool);
    assert CapacitiesExact(65536, MAX_SIZE, pool);
    assert CapacitiesExact(32768, MAX_SIZE, pool);
    assert CapacitiesExact(16384, MAX_SIZE, pool);
    assert CapacitiesExact(8192, MAX_SIZE, pool);
  }

  /** What StreamBuffer.Append promises; only the live part of the memory is determined. */
  ghost predicate Appended(m: Memory, data: Bytes, after: Memory) {
    && m.Valid() && after.Valid()
    && |m.Contents()| + |data| <= MAX_SIZE
    && after.Contents() == m.Contents() + data
    && (|m.bytes| > 0 ==> (|after.bytes|, after.readPos) == Room(|m.bytes|, m.readPos, m.writePos, |data|, MAX_SIZE))
  }

  class StreamBuffer {
    const maxSize: nat
    const pool: BufferPool
    var buffer: array<Byte>
    var readPos: nat
    var writePos: nat

    ghost function Repr(): set<object>
      reads this, pool
    {
      {this, pool, buffer} + pool.Memories()
    }

    ghost predicate Valid()
      reads this, pool
    {
      && pool.Valid() && pool.AllWhole()
      && buffer !in pool.Memories()
      && readPos <= writePos <= buffer.Length
      && 2 * readPos <= buffer.Length
      && CapacitiesExact(buffer.Length, maxSize, pool)
    }

    function Snapshot(): (m: Memory)
      requires readPos <= writePos <= buffer.Length
      reads this, buffer
      ensures m.Valid()
    {
      Memory(buffer[..], readPos, writePos)
    }

    function Contents(): Bytes
      requires readPos <= writePos <= buffer.Length
      reads this, buffer
    {
      buffer[readPos..writePos]
    }

    constructor (initialSize: nat, maxSize: nat, pool: BufferPool)
      requires pool.Valid() && pool.AllWhole() && initialSize > 0
      requires CapacitiesExact(initialSize, maxSize, pool)
      modifies pool
      ensures Valid() && Contents() == []
      ensures this.maxSize == maxSize && this.pool == pool && buffer.Length == initialSize
      ensures fresh(buffer) || buffer in old(pool.Memories())
      ensures pool.Memories() == old(pool.Memories()) - {buffer}
    {
      this.maxSize := maxSize;
      this.pool := pool;
      var acquired := pool.Acquire(initialSize);
      buffer := acquired.memory;
      readPos := 0;
      writePos := 0;
    }

    function Available(): nat
      requires readPos <= writePos
      reads this
    {
      writePos - readPos
    }

    /** In place and overlapping, like `Buffer.copy`. */
    method Compact()
      requires Valid()
      modifies this`readPos, this`writePos, buffer
      ensures Valid() && readPos == 0
      ensures Snapshot() == old(Snapshot().Compact())
    {
      CompactFrom();
    }

    method CompactFrom()
      requires readPos <= writePos <= buffer.Length
      modifies this`readPos, this`writePos, buffer
      ensures readPos == 0 && writePos <= buffer.Length
      ensures Snapshot() == old(Snapshot().Compact())
    {
      if readPos == 0 {
        assert buffer[..] == buffer[0..writePos] + buffer[writePos..];
        return;
      }
      var dataLength := writePos - readPos;
      forall i | 0 <= i < dataLength {
        buffer[i] := buffer[readPos + i];
      }
      assert buffer[..] == old(buffer[readPos..writePos]) + old(buffer[dataLength..]);
      assert old(buffer[..][readPos..writePos]) == old(buffer[readPos..writePos]);
      assert old(buffer[..][dataLength..]) == old(buffer[dataLength..]);
      readPos := 0;
      writePos := dataLength;
    }

    /** Doubles until minSize fits, but never past maxSize. */
    method Grow(minSize: nat) returns (r: Result<(), StreamError>)
      requires Valid() && minSize > buffer.Length
      modifies Repr()
      ensures Valid() && fresh(Repr() - old(Repr()))
      ensures r.Ok? <==> minSize <= maxSize
      ensures r.Ok? ==> buffer.Length == GrownSize(old(buffer.Length), minSize, maxSize) && minSize <= buffer.Length
      ensures r.Ok? ==> readPos == 0
      ensures r.Err? ==> buffer == old(buffer) && readPos == old(readPos)
      ensures Contents() == old(Contents()) && writePos - readPos == old(writePos - readPos)
    {
      var newSize := buffer.Length;
      while newSize < minSize && newSize < maxSize
        invariant GrownSize(newSize, minSize, maxSize) == GrownSize(buffer.Length, minSize, maxSize)
        invariant newSize >= buffer.Length && CapacitiesExact(Min(newSize, maxSize), maxSize, pool)
        invariant minSize > buffer.Length
      {
        newSize := newSize * 2;
      }
      newSize := Min(newSize, maxSize);
      if newSize < minSize {
        return Err(Overflow);
      }
      MoveTo(newSize);
      r := Ok(());
    }

    /** The live data in another buffer; the old one goes back to the pool. */
    method MoveTo(newSize: nat)
      requires Valid() && CapacitiesExact(newSize, maxSize, pool) && newSize >= buffer.Length
      modifies Repr()
      ensures Valid() && fresh(Repr() - old(Repr()))
      ensures buffer.Length == newSize && readPos == 0
      ensures Contents() == old(Contents()) && writePos - readPos == old(writePos - readPos)
    {
      hide MemoriesOf, Separate, Whole, LengthsOf, BucketSize;
      var acquired := pool.Acquire(newSize);
      var newBuffer := acquired.memory;
      var dataLength := writePos - readPos;
      forall i | 0 <= i < dataLength {
        newBuffer[i] := buffer[readPos + i];
      }
      assert newBuffer[..dataLength] == old(Contents());
      pool.Release(Slice(buffer, buffer.Length));
      buffer := newBuffer;
      writePos := writePos - readPos;
      readPos := 0;
    }

    /** Compacts first if that helps, and grows only if it has to. */
    method MakeRoom(bytes: nat) returns (r: Result<(), StreamError>)
      requires Valid()
      modifies Repr()
      ensures Valid() && fresh(Repr() - old(Repr()))
      ensures r.Ok? <==> old(Available()) + bytes <= maxSize
      ensures r.Ok? ==> (buffer.Length, readPos) == old(Room(buffer.Length, readPos, writePos, bytes, maxSize))
      ensures r.Ok? ==> writePos + bytes <= buffer.Length
      ensures Contents() == old(Contents()) && Available() == old(Available())
    {
      hide GrownSize, Separate, Whole, LengthsOf, BucketSize;
      var required := writePos + bytes;
      if required > buffer.Length && readPos > 0 {
        Compact();
        required := writePos + bytes;
      }
      if required > buffer.Length {
        r := Grow(required);
      } else {
        r := Ok(());
      }
    }

    /** Appends exactly the data, and throws exactly when the queue would outgrow maxSize. */
    method Append(data: Bytes) returns (r: Result<(), StreamError>)
      requires Valid()
      modifies Repr()
      ensures Valid() && fresh(Repr() - old(Repr()))
      ensures r.Ok? <==> old(Available()) + |data| <= maxSize
      ensures r.Ok? ==> (buffer.Length, readPos) == old(Room(buffer.Length, readPos, writePos, |data|, maxSize))
      ensures Contents() == old(Contents()) + if r.Ok? then data else []
    {
      r := MakeRoom(|data|);
      if r.Ok? {
        CopyIn(data);
      }
    }

    method CopyIn(data: Bytes)
      requires Valid() && writePos + |data| <= buffer.Length
      modifies this`writePos, buffer
      ensures Valid() && Contents() == old(Contents()) + data
    {
      forall i | 0 <= i < |data| {
        buffer[writePos + i] := data[i];
      }
      assert buffer[readPos..writePos] == old(Contents());
      assert buffer[writePos..writePos + |data|] == data;
      var end := writePos + |data|;
      assert buffer[readPos..end] == buffer[readPos..writePos] + buffer[writePos..end];
      writePos := end;
    }

    /** Drops exactly n bytes, and returns a view whose bytes Memory.Consumed tells. */
    method Consume(length: nat) returns (r: Option<View>)
      requires Valid()
      modifies this`readPos, this`writePos, buffer
      ensures Valid()
      ensures r.Some? <==> length <= old(Available())
      ensures r.None? ==> Snapshot() == old(Snapshot())
      ensures r.Some? ==>
                && Snapshot() == old(Snapshot()).Consume(length)
                && r.value == View(buffer, old(readPos), length)
                && r.value.Valid()
                && r.value.Bytes() == old(Snapshot()).Consumed(length)
    {
      if length > writePos - readPos {
        return None;
      }
      var data := View(buffer, readPos, length);
      Advance(length);
      assert data.Bytes() == buffer[..][data.offset..data.offset + length];
      r := Some(data);
    }

    /** Moves the read position, compacting once it is past the middle. */
    method Advance(length: nat)
      requires Valid() && length <= Available()
      modifies this`readPos, this`writePos, buffer
      ensures Valid() && Snapshot() == old(Snapshot()).Consume(length)
    {
      readPos := readPos + length;
      if 2 * readPos > buffer.Length {
        CompactFrom();
      }
    }

    method Peek(length: nat, offset: nat := 0) returns (r: Option<View>)
      requires Valid()
      ensures r.Some? <==> offset + length <= Available()
      ensures r.Some? ==> r.value.Valid() && r.value.Bytes() == Contents()[offset..offset + length]
    {
      if offset + length > writePos - readPos {
        return None;
      }
      r := Some(View(buffer, readPos + offset, length));
    }

    method Reset()
      requires Valid()
      modifies this`readPos, this`writePos
      ensures Valid() && Contents() == [] && readPos == writePos == 0
    {
      readPos := 0;
      writePos := 0;
    }
  }
}
