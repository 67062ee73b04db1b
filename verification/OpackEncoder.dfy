/**
 The OPACK encoder (src/core/encoding/opack.ts, lines 130-427): recursion over a shared object list,
 with writers out of a shared pool. Each method does what module OpackPool says.
 */
module OpackEncoder {
  import opened Results
  import opened ByteStrings
  import opened BufferPools
  import opened Buffers
  import opened OpackPool
  import opened OpackPoolRoundTrip
  import Opack
  import OpackRoundTrip

  type Value = Opack.Value
  type Entry = Opack.Entry
  type Outcome<+T> = Opack.Outcome<T>

  /** A writer has come as far as `w` says. */
  ghost predicate At(writer: BufferWriter, w: Writing)
    requires writer.buffer.Valid()
    reads writer, writer.buffer.memory
  {
    writer.offset == w.offset && writer.buffer.length == w.capacity && Shows(writer.Contents(), w.content)
  }

  /** What a packing method owes: the bytes, the object list and the pool, or the same error. */
  ghost predicate Packs(expected: Pooled, r: Outcome<Bytes>, objectList: seq<Bytes>, supply: Supply) {
    && supply == expected.supply
    && if expected.result.Ok? then r.Ok? && Shows(r.value, expected.result.value) && objectList == expected.table
       else r == Err(expected.result.error)
  }

  ghost predicate PacksInto(expected: PooledWriter, r: Outcome<()>, w: Writing, objectList: seq<Bytes>,
      supply: Supply) {
    && supply == expected.supply
    && if expected.result.Ok? then r.Ok? && w == expected.result.value && objectList == expected.table
       else r == Err(expected.result.error)
  }

  lemma ShowsKnown(bytes: Bytes)
    ensures Shows(bytes, Known(bytes))
  {
  }

  /** A write does to the bytes what it does to the cells. */
  lemma ShowsWritten(before: Bytes, w: Writing, s: Supply, data: Bytes, cells: Cells, after: Bytes)
    requires Shows(before, w.content) && Shows(data, cells)
    requires Written(before, w.offset, data, RoomFor(s, w.capacity, w.offset, |data|).0, after)
    ensures Shows(after, Write(w, s, cells).0.content)
  {
    hide RoomFor;
  }

  class Encoder {
    const pool: BufferPool
    var objectList: seq<Bytes>

    constructor (pool: BufferPool)
      ensures this.pool == pool && objectList == []
    {
      this.pool := pool;
      objectList := [];
    }

    /** What every encoding keeps of the pool. */
    ghost predicate Valid()
      reads this, pool
    {
      pool.Valid() && Shaped(pool.Supplies())
    }

    method CheckAndReuseObject(packed: Bytes) returns (r: Bytes)
      modifies this
      ensures Opack.CheckAndReuseObject(packed, old(objectList)) == Opack.Packed(r, objectList)
    {
      if |packed| <= 1 {
        return packed;
      }
      var i := 0;
      while i < |objectList| && objectList[i] != packed
        invariant 0 <= i <= |objectList|
        invariant packed !in objectList[..i]
      {
        i := i + 1;
      }
      FindIndexIsFirst(objectList, packed, i);
      if i < |objectList| {
        if i < 0x21 {
          return [0xa0 + i];
        } else if i <= 0xff {
          return [0xc1, i];
        } else if i <= 0xffff {
          return [0xc2] + LE(i, 2);
        } else if i <= 0xffff_ffff {
          return [0xc3] + LE(i, 4);
        }
      }
      objectList := objectList + [packed];
      r := packed;
    }

    method PackInteger(n: int) returns (r: Outcome<Bytes>)
      requires Valid()
      modifies pool, pool.Memories()
      ensures Valid() && forall m | m in pool.Memories() :: m in old(pool.Memories()) || fresh(m)
      ensures r == Opack.PackInteger(n) && pool.Supplies() == IntegerSupply(n, old(pool.Supplies()))
    {
      hide Shaped, MemoriesOf, Separate, LengthsOf, AcquireFrom, RoomFor, Written, LE;
      if 0 <= n < 0x28 {
        return Ok([n + 0x08]);
      }
      Pow256Values();
      AcquireShaped(pool.Supplies(), 5);
      var writer := new BufferWriter(5, pool);
      if n < 0 || n > 0xffff_ffff {
        return Err(Opack.IntegerRange);
      }
      var width := if n <= 0xff then 1 else if n <= 0xffff then 2 else 4;
      var tag: Byte := if n <= 0xff then 0x30 else if n <= 0xffff then 0x31 else 0x32;
      var ok := writer.WriteUInt8(tag);
      assert writer.Contents() == [tag];
      ok := writer.WriteUIntLE(n, width);
      r := Ok(writer.Contents());
    }

    method PackBigInt(n: int) returns (r: Outcome<Bytes>)
      requires Valid()
      modifies pool, pool.Memories()
      ensures Valid() && forall m | m in pool.Memories() :: m in old(pool.Memories()) || fresh(m)
      ensures r == Opack.PackBigInt(n) && pool.Supplies() == BigIntSupply(n, old(pool.Supplies()))
    {
      hide Shaped, MemoriesOf, Separate, LengthsOf, AcquireFrom, RoomFor, Written, LE;
      if n < 0 || n > 0xffff_ffff_ffff_ffff {
        return Err(Opack.BigIntRange);
      }
      Pow256Values();
      AcquireShaped(pool.Supplies(), 9);
      var writer := new BufferWriter(9, pool);
      var ok := writer.WriteUInt8(0x33);
      assert writer.Contents() == [0x33];
      ok := writer.WriteUIntLE(n, 8);
      r := Ok(writer.Contents());
    }

    /** A float's writer starts one byte short, and grows. */
    method PackFloat(bits: Bytes) returns (r: Bytes)
      requires Valid() && |bits| == 8
      modifies pool, pool.Memories()
      ensures Valid() && forall m | m in pool.Memories() :: m in old(pool.Memories()) || fresh(m)
      ensures r == [0x36] + bits && pool.Supplies() == FloatSupply(old(pool.Supplies()))
    {
      hide Shaped, MemoriesOf, Separate, LengthsOf, AcquireFrom, ReleaseTo, Written;
      NumberSupplies(0, pool.Supplies());
      AcquireShaped(pool.Supplies(), 8);
      var writer := new BufferWriter(8, pool);
      AcquireShaped(pool.Supplies(), 16);
      var ok := writer.WriteUInt8(0x36);
      assert writer.Contents() == [0x36];
      ghost var held := writer.Memories();
      assert forall m | m in held :: m in old(pool.Memories()) || fresh(m);
      ok := writer.WriteBytes(bits);
      assert forall m | m in writer.Memories() :: m in held || fresh(m);
      assert pool.Memories() <= writer.Memories();
      r := writer.Contents();
    }

    /** Short strings are put together in a buffer of the pool, longer ones by a writer. */
    method PackString(s: Bytes) returns (r: Outcome<Bytes>)
      requires Valid()
      modifies pool, pool.Memories()
      ensures Valid() && forall m | m in pool.Memories() :: m in old(pool.Memories()) || fresh(m)
      ensures r == Opack.PackString(s) && pool.Supplies() == StringSupply(|s|, old(pool.Supplies()))
    {
      hide Shaped, MemoriesOf, Separate, LengthsOf, AcquireFrom, BucketSize;
      if |s| <= 0x20 {
        AcquireShaped(pool.Supplies(), 1 + |s|);
        var buffer := pool.Acquire(1 + |s|);
        buffer.memory[0] := 0x40 + |s|;
        forall i | 0 <= i < |s| {
          buffer.memory[1 + i] := s[i];
        }
        r := Ok(buffer.memory[..1 + |s|]);
        assert r.value == [0x40 + |s|] + s;
      } else {
        r := PackLongString(s);
      }
    }

    /** A writer that is given less than it asked for grows again, into a buffer that is long enough. */
    method PackLongString(s: Bytes) returns (r: Outcome<Bytes>)
      requires Valid() && |s| > 0x20
      modifies pool, pool.Memories()
      ensures Valid() && forall m | m in pool.Memories() :: m in old(pool.Memories()) || fresh(m)
      ensures r == Opack.PackString(s) && pool.Supplies() == StringSupply(|s|, old(pool.Supplies()))
    {
      hide Shaped, MemoriesOf, Separate, LengthsOf, AcquireFrom, BucketSize, RoomFor, Written, LE;
      StringSupplies(|s|, pool.Supplies());
      StringRoom(|s|, pool.Supplies());
      var writer := new BufferWriter(|s| + 3, pool);
      if |s| > 0xffff {
        return Err(Opack.TooLong);
      }
      WriteTextHeader(writer, |s|);
      ghost var header, held := writer.Contents(), writer.Memories();
      assert forall m | m in held :: m in old(pool.Memories()) || fresh(m);
      writer.WriteBuffer(s);
      assert forall m | m in writer.Memories() :: m in held || fresh(m);
      assert pool.Memories() <= writer.Memories();
      assert Opack.PackString(s) == Ok(header + s);
      r := Ok(writer.Contents());
    }

    /** Byte strings are concatenated outside the pool. */
    method PackBytes(data: Bytes) returns (r: Outcome<Bytes>)
      ensures r == Opack.PackData(data)
    {
      if |data| <= 0x20 {
        r := Ok([0x70 + |data|] + data);
      } else if |data| <= 0xff {
        r := Ok([0x91, |data|] + data);
      } else if |data| <= 0xffff {
        r := Ok([0x92] + LE(|data|, 2) + data);
      } else {
        r := Err(Opack.TooLong);
      }
    }

    method PackValue(v: Value) returns (r: Outcome<Bytes>)
      requires Valid() && OpackRoundTrip.WellFormed(v)
      modifies this, pool, pool.Memories()
      ensures Valid() && forall m | m in pool.Memories() :: m in old(pool.Memories()) || fresh(m)
      ensures Packs(PackWith(v, old(objectList), old(pool.Supplies())), r, objectList, pool.Supplies())
      decreases v, 1
    {
      hide Shaped, MemoriesOf, Separate, LengthsOf, IntegerSupply, BigIntSupply, FloatSupply, StringSupply, Known,
          Shows;
      match v
      case Null =>
        r := Ok([0x04]);
        ShowsKnown(r.value);
      case Bool(b) =>
        r := Ok([if b then 0x01 else 0x02]);
        ShowsKnown(r.value);
      case Big(n) =>
        r := PackBigInt(n);
        ShowsResult(r);
      case Num(n) =>
        r := PackInteger(n);
        ShowsResult(r);
      case Float(bits) =>
        var packed := PackFloat(bits);
        r := Ok(packed);
        ShowsKnown(packed);
      case Str(s) =>
        var packed := PackString(s);
        r := Reuse(packed);
      case Data(d) =>
        var packed := PackBytes(d);
        r := Reuse(packed);
      case Arr(items) => r := PackArray(items);
      case Dict(entries) => r := PackDict(entries);
    }

    method Reuse(packed: Outcome<Bytes>) returns (r: Outcome<Bytes>)
      modifies this
      ensures Packs(PackTextWith(packed, old(objectList), pool.Supplies()), r, objectList, pool.Supplies())
    {
      var bytes :- packed;
      var reused := CheckAndReuseObject(bytes);
      ShowsKnown(reused);
      r := Ok(reused);
    }

    /** A container's writer, after the header. */
    method OpenWriter(header: Byte) returns (writer: BufferWriter, ghost w: Writing)
      requires Valid()
      modifies pool, pool.Memories()
      ensures Valid() && forall m | m in pool.Memories() :: m in old(pool.Memories()) || fresh(m)
      ensures fresh(writer) && writer.pool == pool && writer.Valid() && At(writer, w)
      ensures writer.buffer.memory in old(pool.Memories()) || fresh(writer.buffer.memory)
      ensures ContainerCapacity(w.capacity, w.offset)
      ensures (w, pool.Supplies()) == OpenContainer(header, old(pool.Supplies()))
    {
      hide Shaped, MemoriesOf, Separate, LengthsOf, AcquireFrom, RoomFor, Written;
      Opened(header, pool.Supplies());
      AcquireShaped(pool.Supplies(), CONTAINER_SIZE);
      ghost var s := pool.Supplies();
      writer := new BufferWriter(CONTAINER_SIZE, pool);
      ghost var s1 := pool.Supplies();
      var ok := writer.WriteUInt8(header);
      w := Write(Start(s, CONTAINER_SIZE).0, s1, Known([header])).0;
      ShowsKnown([header]);
      ShowsWritten([], Start(s, CONTAINER_SIZE).0, s1, [header], Known([header]), writer.Contents());
    }

    /** Adds what was packed, as far as it fits. */
    method Append(writer: BufferWriter, data: Bytes, ghost w: Writing, ghost cells: Cells) returns (ghost w': Writing)
      requires Valid() && writer.Valid() && writer.pool == pool && At(writer, w)
      requires ContainerCapacity(w.capacity, w.offset) && Shows(data, cells)
      modifies writer`buffer, writer`offset, pool, writer.Memories()
      ensures Valid() && writer.Valid() && At(writer, w')
      ensures forall m | m in writer.Memories() :: m in old(writer.Memories()) || fresh(m)
      ensures ContainerCapacity(w'.capacity, w'.offset)
      ensures (w', pool.Supplies()) == Write(w, old(pool.Supplies()), cells)
    {
      hide Shaped, MemoriesOf, Separate, LengthsOf, RoomFor, Written, Shows, ContainerCapacity;
      ghost var before, s := writer.Contents(), pool.Supplies();
      ShowsLength(data, cells);
      RoomShaped(s, w.capacity, w.offset, |data|);
      writer.WriteBuffer(data);
      w' := Write(w, s, cells).0;
      ShowsWritten(before, w, s, data, cells, writer.Contents());
    }

    /** Long containers end with a terminator, for which there is always room. */
    method Terminate(writer: BufferWriter, count: nat, ghost w: Writing) returns (ghost w': Writing)
      requires Valid() && writer.Valid() && writer.pool == pool && At(writer, w)
      requires ContainerCapacity(w.capacity, w.offset)
      modifies writer`buffer, writer`offset, pool, writer.Memories()
      ensures Valid() && writer.Valid() && At(writer, w')
      ensures forall m | m in writer.Memories() :: m in old(writer.Memories()) || fresh(m)
      ensures (w', pool.Supplies()) ==
              if count >= 0xf then Write(w, old(pool.Supplies()), Known([Opack.TERMINATOR]))
                  else (w, old(pool.Supplies()))
    {
      hide Shaped, MemoriesOf, Separate, LengthsOf, RoomFor, Written, Shows, ContainerCapacity;
      w' := w;
      if count >= 0xf {
        ghost var before, s := writer.Contents(), pool.Supplies();
        RoomShaped(s, w.capacity, w.offset, 1);
        var ok := writer.WriteUInt8(0x03);
        w' := Write(w, s, Known([Opack.TERMINATOR])).0;
        ShowsKnown([Opack.TERMINATOR]);
        ShowsWritten(before, w, s, [0x03], Known([Opack.TERMINATOR]), writer.Contents());
      }
    }

    method PackArray(items: seq<Value>) returns (r: Outcome<Bytes>)
      requires Valid() && OpackRoundTrip.WellFormed(Opack.Arr(items))
      modifies this, pool, pool.Memories()
      ensures Valid() && forall m | m in pool.Memories() :: m in old(pool.Memories()) || fresh(m)
      ensures Packs(PackWith(Opack.Arr(items), old(objectList), old(pool.Supplies())), r, objectList, pool.Supplies())
      decreases items, 1
    {
      hide Shaped, MemoriesOf, Separate, LengthsOf, OpenContainer, Write, PackItemsWith, Shows, ContainerCapacity;
      var writer;
      ghost var w;
      writer, w := OpenWriter(0xd0 + Min(|items|, 0xf));
      ghost var held := writer.Memories();
      assert forall m | m in held :: m in old(pool.Memories()) || fresh(m);
      var written;
      written, w := PackItemsInto(items, writer, w);
      assert forall m | m in writer.Memories() :: m in held || fresh(m);
      if written.Err? {
        assert pool.Memories() <= writer.Memories();
        return Err(written.error);
      }
      held := writer.Memories();
      assert forall m | m in held :: m in old(pool.Memories()) || fresh(m);
      w := Terminate(writer, |items|, w);
      assert forall m | m in writer.Memories() :: m in held || fresh(m);
      assert pool.Memories() <= writer.Memories();
      r := Ok(writer.Contents());
    }

    method PackItemsInto(items: seq<Value>, writer: BufferWriter, ghost w: Writing)
        returns (r: Outcome<()>, ghost w': Writing)
      requires Valid() && writer.Valid() && writer.pool == pool && At(writer, w)
      requires ContainerCapacity(w.capacity, w.offset) && OpackRoundTrip.WellFormed(Opack.Arr(items))
      modifies this, writer`buffer, writer`offset, pool, writer.Memories()
      ensures Valid() && writer.Valid() && At(writer, w') && ContainerCapacity(w'.capacity, w'.offset)
      ensures forall m | m in writer.Memories() :: m in old(writer.Memories()) || fresh(m)
      ensures PacksInto(PackItemsWith(items, old(objectList), w, old(pool.Supplies())), r, w', objectList,
          pool.Supplies())
      decreases items, 0
    {
      hide Shaped, MemoriesOf, Separate, LengthsOf, Write, PackWith, Shows, ContainerCapacity, PackItemsWith;
      w' := w;
      ghost var expected := PackItemsWith(items, objectList, w, pool.Supplies());
      assert items[0..] == items;
      for i := 0 to |items|
        invariant Valid() && writer.Valid() && At(writer, w') && ContainerCapacity(w'.capacity, w'.offset)
        invariant forall m | m in writer.Memories() :: m in old(writer.Memories()) || fresh(m)
        invariant expected == PackItemsWith(items[i..], objectList, w', pool.Supplies())
      {
        PackItemsStep(items, i, objectList, w', pool.Supplies());
        ghost var expectedItem, held := PackWith(items[i], objectList, pool.Supplies()), writer.Memories();
        assert forall m | m in held :: m in old(writer.Memories()) || fresh(m);
        var packed := PackValue(items[i]);
        assert forall m | m in writer.Memories() :: m in held || fresh(m);
        if packed.Err? {
          return Err(packed.error), w';
        }
        held := writer.Memories();
        w' := Append(writer, packed.value, w', expectedItem.result.value);
        assert forall m | m in writer.Memories() :: m in held || fresh(m);
      }
      PackItemsEnd(items[|items|..], objectList, w', pool.Supplies());
      r := Ok(());
    }

    method PackDict(entries: seq<Entry>) returns (r: Outcome<Bytes>)
      requires Valid() && OpackRoundTrip.WellFormed(Opack.Dict(entries))
      modifies this, pool, pool.Memories()
      ensures Valid() && forall m | m in pool.Memories() :: m in old(pool.Memories()) || fresh(m)
      ensures Packs(PackWith(Opack.Dict(entries), old(objectList), old(pool.Supplies())), r, objectList,
          pool.Supplies())
      decreases entries, 1
    {
      hide Shaped, MemoriesOf, Separate, LengthsOf, OpenContainer, Write, PackEntriesWith, Shows, ContainerCapacity;
      var writer;
      ghost var w;
      writer, w := OpenWriter(0xe0 + Min(|entries|, 0xf));
      ghost var held := writer.Memories();
      assert forall m | m in held :: m in old(pool.Memories()) || fresh(m);
      var written;
      written, w := PackEntriesInto(entries, writer, w);
      assert forall m | m in writer.Memories() :: m in held || fresh(m);
      if written.Err? {
        assert pool.Memories() <= writer.Memories();
        return Err(written.error);
      }
      held := writer.Memories();
      assert forall m | m in held :: m in old(pool.Memories()) || fresh(m);
      w := Terminate(writer, |entries|, w);
      assert forall m | m in writer.Memories() :: m in held || fresh(m);
      assert pool.Memories() <= writer.Memories();
      r := Ok(writer.Contents());
    }

    method PackEntriesInto(entries: seq<Entry>, writer: BufferWriter, ghost w: Writing)
        returns (r: Outcome<()>, ghost w': Writing)
      requires Valid() && writer.Valid() && writer.pool == pool && At(writer, w)
      requires ContainerCapacity(w.capacity, w.offset) && OpackRoundTrip.WellFormed(Opack.Dict(entries))
      modifies this, writer`buffer, writer`offset, pool, writer.Memories()
      ensures Valid() && writer.Valid() && At(writer, w') && ContainerCapacity(w'.capacity, w'.offset)
      ensures forall m | m in writer.Memories() :: m in old(writer.Memories()) || fresh(m)
      ensures PacksInto(PackEntriesWith(entries, old(objectList), w, old(pool.Supplies())), r, w', objectList,
          pool.Supplies())
      decreases entries, 0
    {
      hide Shaped, MemoriesOf, Separate, LengthsOf, PackEntryWith, Shows, ContainerCapacity, PackEntriesWith;
      w' := w;
      ghost var expected := PackEntriesWith(entries, objectList, w, pool.Supplies());
      assert entries[0..] == entries;
      for i := 0 to |entries|
        invariant Valid() && writer.Valid() && At(writer, w') && ContainerCapacity(w'.capacity, w'.offset)
        invariant forall m | m in writer.Memories() :: m in old(writer.Memories()) || fresh(m)
        invariant expected == PackEntriesWith(entries[i..], objectList, w', pool.Supplies())
      {
        PackEntriesStep(entries, i, objectList, w', pool.Supplies());
        ghost var held := writer.Memories();
        assert forall m | m in held :: m in old(writer.Memories()) || fresh(m);
        var packed;
        packed, w' := PackEntryInto(entries[i], writer, w');
        assert forall m | m in writer.Memories() :: m in held || fresh(m);
        if packed.Err? {
          return packed, w';
        }
      }
      PackEntriesEnd(entries[|entries|..], objectList, w', pool.Supplies());
      r := Ok(());
    }

    /** Both halves are packed before either is written. */
    method PackEntryInto(e: Entry, writer: BufferWriter, ghost w: Writing) returns (r: Outcome<()>, ghost w': Writing)
      requires Valid() && writer.Valid() && writer.pool == pool && At(writer, w)
      requires ContainerCapacity(w.capacity, w.offset) && OpackRoundTrip.EntryWellFormed(e)
      modifies this, writer`buffer, writer`offset, pool, writer.Memories()
      ensures Valid() && writer.Valid() && At(writer, w') && ContainerCapacity(w'.capacity, w'.offset)
      ensures forall m | m in writer.Memories() :: m in old(writer.Memories()) || fresh(m)
      ensures PacksInto(PackEntryWith(e, old(objectList), w, old(pool.Supplies())), r, w', objectList, pool.Supplies())
      decreases e, 0
    {
      hide Shaped, MemoriesOf, Separate, LengthsOf, PackWith, Write, Shows, ContainerCapacity;
      w' := w;
      ghost var expectedKey := PackWith(e.key, objectList, pool.Supplies());
      ghost var held := writer.Memories();
      var key := PackValue(e.key);
      assert forall m | m in writer.Memories() :: m in held || fresh(m);
      if key.Err? {
        return Err(key.error), w;
      }
      ghost var expectedValue := PackWith(e.value, objectList, pool.Supplies());
      ghost var held1 := writer.Memories();
      var value := PackValue(e.value);
      assert forall m | m in writer.Memories() :: m in held1 || fresh(m);
      if value.Err? {
        return Err(value.error), w;
      }
      ghost var held2 := writer.Memories();
      assert forall m | m in held2 :: m in held || fresh(m);
      w' := AppendBoth(writer, key.value, value.value, w, expectedKey.result.value, expectedValue.result.value);
      assert forall m | m in writer.Memories() :: m in held2 || fresh(m);
      r := Ok(());
    }

    method AppendBoth(
      writer: BufferWriter, key: Bytes, value: Bytes, ghost w: Writing, ghost keyCells: Cells, ghost valueCells: Cells)
      returns (ghost w': Writing)
      requires Valid() && writer.Valid() && writer.pool == pool && At(writer, w)
      requires ContainerCapacity(w.capacity, w.offset) && Shows(key, keyCells) && Shows(value, valueCells)
      modifies writer`buffer, writer`offset, pool, writer.Memories()
      ensures Valid() && writer.Valid() && At(writer, w')
      ensures forall m | m in writer.Memories() :: m in old(writer.Memories()) || fresh(m)
      ensures ContainerCapacity(w'.capacity, w'.offset)
      ensures
        var (w1, s1) := Write(w, old(pool.Supplies()), keyCells);
        (w', pool.Supplies()) == Write(w1, s1, valueCells)
    {
      hide Shaped, MemoriesOf, Separate, LengthsOf, Write, Shows, ContainerCapacity;
      w' := Append(writer, key, w, keyCells);
      ghost var held := writer.Memories();
      w' := Append(writer, value, w', valueCells);
      assert forall m | m in writer.Memories() :: m in held || fresh(m);
    }
  }

  lemma PackEntriesStep(entries: seq<Entry>, i: nat, table: seq<Bytes>, w: Writing, s: Supply)
    requires i < |entries|
    ensures
      var p := PackEntryWith(entries[i], table, w, s);
      PackEntriesWith(entries[i..], table, w, s) ==
        match p.result
        case Err(e) => p
        case Ok(w') => PackEntriesWith(entries[i + 1..], p.table, w', p.supply)
  {
    assert entries[i..][1..] == entries[i + 1..];
  }

  lemma PackEntriesEnd(entries: seq<Entry>, table: seq<Bytes>, w: Writing, s: Supply)
    requires entries == []
    ensures PackEntriesWith(entries, table, w, s) == PooledWriter(Ok(w), table, s)
  {
  }

  lemma ShowsLength(bytes: Bytes, cells: Cells)
    requires Shows(bytes, cells)
    ensures |bytes| == |cells|
  {
  }

  lemma ShowsResult(r: Outcome<Bytes>)
    ensures r.Ok? ==> Shows(r.value, KnownResult(r).value)
  {
  }

  lemma PackItemsStep(items: seq<Value>, i: nat, table: seq<Bytes>, w: Writing, s: Supply)
    requires i < |items|
    ensures
      var p := PackWith(items[i], table, s);
      PackItemsWith(items[i..], table, w, s) ==
        if p.result.Err? then PooledWriter(Err(p.result.error), p.table, p.supply)
        else
          var after := Write(w, p.supply, p.result.value);
          PackItemsWith(items[i + 1..], p.table, after.0, after.1)
  {
    assert items[i..][1..] == items[i + 1..];
  }

  lemma PackItemsEnd(items: seq<Value>, table: seq<Bytes>, w: Writing, s: Supply)
    requires items == []
    ensures PackItemsWith(items, table, w, s) == PooledWriter(Ok(w), table, s)
  {
  }

  method WriteTextHeader(writer: BufferWriter, length: nat)
    requires writer.Valid() && writer.pool != null && writer.offset == 0 && writer.buffer.length >= 3
    requires 0x20 < length <= 0xffff
    modifies writer`buffer, writer`offset, writer.pool, writer.Memories()
    ensures writer.Valid() && writer.buffer == old(writer.buffer) && writer.pool.pools == old(writer.pool.pools)
    ensures writer.offset == if length <= 0xff then 2 else 3
    ensures writer.Contents() == if length <= 0xff then [0x61, length] else [0x62] + LE(length, 2)
  {
    hide MemoriesOf, Separate, LengthsOf, RoomFor, Written, LE;
    Pow256Values();
    if length <= 0xff {
      var ok := writer.WriteUInt8(0x61);
      assert writer.Contents() == [0x61];
      ok := writer.WriteUInt8(length);
      assert [0x61] + [length] == [0x61, length];
    } else {
      var ok := writer.WriteUInt8(0x62);
      assert writer.Contents() == [0x62];
      ok := writer.WriteUIntLE(length, 2);
    }
  }

  /** A string's header fits the buffer it starts with, and its bytes the one it ends with. */
  lemma StringRoom(length: nat, s: Supply)
    requires Shaped(s) && length > 0x20
    ensures
      var (w, s1) := Start(s, length + 3);
      var header := if length <= 0xff then 2 else 3;
      3 <= w.capacity && header + length <= RoomFor(s1, w.capacity, header, length).0
  {
    hide Shaped, BucketSize;
    AcquireShaped(s, length + 3);
    var (w, s1) := Start(s, length + 3);
    var header := if length <= 0xff then 2 else 3;
    if header + length > w.capacity {
      AcquireShaped(s1, Max(2 * w.capacity, header + length));
    }
  }

  lemma FindIndexIsFirst(table: seq<Bytes>, packed: Bytes, i: nat)
    requires i <= |table| && packed !in table[..i]
    requires i == |table| || table[i] == packed
    ensures Opack.FindIndex(table, packed) == if i == |table| then None else Some(i)
  {
  }
}
