/**
 Where OPACK packing over its buffer pool fails: values without repeats, numbers out of line or other
 excuses whose encoding is cut off, and what decoding makes of it.
 */
module OpackPoolFailures {
  import opened Results
  import opened ByteStrings
  import opened BufferPools
  import opened Buffers
  import opened Opack
  import opened OpackPool
  import opened OpackPoolRoundTrip
  import OpackRoundTrip

  const COLD: Supply := Pool(OPACK_POOL, map[])

  // ---- What is asked of the pool ----

  /** The buckets are the powers of two from 4 to 1024, and keep five buffers each. */
  lemma BucketsKeepFive(s: Supply, length: nat)
    requires s.Pool? && s.config == OPACK_POOL
    ensures
      var bucket, after := BucketSize(s.config.sizeBuckets, length), ReleaseTo(s, length);
      && length <= bucket
      && (if length > 1024 then bucket == length
          else bucket in {4, 8, 16, 32, 64, 128, 256, 512, 1024} && (bucket > 4 ==> bucket < 2 * length))
      && Waiting(after, bucket) == Waiting(s, bucket) + if |Waiting(s, bucket)| < 5 then [length] else []
  {
    hide BucketSize;
    var buckets := [4, 8, 16, 32, 64, 128, 256, 512, 1024];
    BucketIs(buckets, length);
    var bucket := BucketSize(buckets, length);
    if length <= 1024 {
      assert buckets[8] >= length;
      var i :| 0 <= i < |buckets| && buckets[i] == bucket;
      if i > 0 {
        assert buckets[i - 1] < length;
      }
    }
  }

  /** Numbers in a byte take no buffer, other numbers one of 5 bytes and bigints one of 9. */
  lemma NumbersTake(n: nat, table: seq<Bytes>, s: Supply)
    ensures PackWith(Num(n), table, s).supply == if n < 40 then s else AcquireFrom(s, 5).1
    ensures PackWith(Big(n), table, s).supply == if n <= 0xffff_ffff_ffff_ffff then AcquireFrom(s, 9).1 else s
  {
  }

  /** A float writes nine bytes where it asked for eight, and so leaves its first buffer in the pool. */
  lemma FloatsLeaveABuffer(bits: Bytes, table: seq<Bytes>)
    ensures PackWith(Float(bits), table, COLD).supply == Pool(OPACK_POOL, map[8 := [8]])
  {
    var b := OPACK_POOL.sizeBuckets;
    assert b[1..] == [8, 16, 32, 64, 128, 256, 512, 1024] && b[1..][1..] == [16, 32, 64, 128, 256, 512, 1024];
    assert BucketSize(b, 8) == BucketSize(b[1..], 8) == 8;
    assert AcquireFrom(COLD, 8) == (8, COLD) && AcquireFrom(COLD, 16) == (16, COLD);
    assert RoomFor(COLD, 8, 1, 8).1 == ReleaseTo(COLD, 8);
    var after := ReleaseTo(COLD, 8);
    assert Waiting(COLD, 8) == [] && Waiting(COLD, 8) + [8] == [8];
    assert after.config == OPACK_POOL && after.waiting == map[8 := [8]];
    assert FloatSupply(COLD) == after;
  }

  // ---- One write past the end ----

  /** A write of known bytes that fits. */
  lemma FittingWrite(w: Writing, s: Supply, done: Bytes, data: Bytes)
    requires Exactly(w, done) && |done| + |data| <= w.capacity
    ensures Write(w, s, Known(data)) == (Writing(Known(done + data), |done| + |data|, w.capacity), s)
  {
    WriteIsExact(w, s, done, data);
  }

  /** A write of known bytes into a buffer that is too short for them. */
  lemma ShortWrite(w: Writing, s: Supply, done: Bytes, data: Bytes)
    requires Exactly(w, done) && |done| + |data| > w.capacity
    requires |done| <= RoomFor(s, w.capacity, |done|, |data|).0
    ensures
      var (capacity, s') := RoomFor(s, w.capacity, |done|, |data|);
      Write(w, s, Known(data)) == (Writing(Known(Take(done + data, capacity)), |done| + |data|, capacity), s')
  {
    var (capacity, s') := RoomFor(s, w.capacity, |done|, |data|);
    var w' := Write(w, s, Known(data)).0;
    assert w'.content == Known(Take(done + data, capacity));
  }

  // ---- A byte string is silently shortened ----

  /** The encoding of an array of one byte string of 256 bytes or more. */
  function OneData(d: Bytes): Bytes {
    [0xd1, 0x92] + LE(|d|, 2) + d
  }

  lemma OneDataIs(d: Bytes)
    requires 0x100 <= |d| <= 0xffff
    ensures PackValue(Arr([Data(d)]), []) == Ok(Packed(OneData(d), [[0x92] + LE(|d|, 2) + d]))
    ensures |OneData(d)| == 4 + |d|
  {
    var packed := [0x92] + LE(|d|, 2) + d;
    assert PackData(d) == Ok(packed) && FindIndex([], packed) == None && [] + [packed] == [packed];
    assert PackValue(Data(d), []) == Ok(Packed(packed, [packed]));
    assert [Data(d)][1..] == [] && packed + [] == packed;
    assert PackItems([], [packed]) == Ok(Packed([], [packed]));
    assert PackItems([Data(d)], []) == Ok(Packed(packed, [packed]));
    assert [0xd1] + packed + [] == OneData(d);
  }

  /** The writer ends in the newest buffer under 1024, if there is one. */
  lemma OneDataPacked(d: Bytes, s: Supply)
    requires Shaped(s) && 509 <= |d| <= 1020
    ensures
      var size := 4 + |d|;
      var lengths := Waiting(s, 1024);
      var capacity := if lengths == [] then size else Min(size, lengths[|lengths| - 1]);
      PackWith(Arr([Data(d)]), [], s).result == Ok(Known(Take(OneData(d), capacity)))
  {
    hide BucketSize, Shaped;
    OneDataIs(d);
    hide Write, RoomFor, PackWith, PackItemsWith, OpenContainer, AcquireFrom, LE, OneData, Known, PackValue;
    var packed := [0x92] + LE(|d|, 2) + d;
    var (w, s1) := OpenContainer(0xd1, s);
    OpenedContainer(0xd1, s);
    LargeRoom(s, s1, 1, |packed|);
    LargeRoomIsLarge(s1, 1, |packed|);
    ShortWrite(w, s1, [0xd1], packed);
    OneDataParts(d);
    DataPacked(d, s1);
    ArrayOfOne(Data(d), s, w, s1);
  }

  lemma OneDataParts(d: Bytes)
    ensures [0xd1] + ([0x92] + LE(|d|, 2) + d) == OneData(d) && |[0x92] + LE(|d|, 2) + d| == 3 + |d|
  {
  }

  lemma DataPacked(d: Bytes, s: Supply)
    requires 0x100 <= |d| <= 0xffff
    ensures var packed := [0x92] + LE(|d|, 2) + d; PackWith(Data(d), [], s) == Pooled(Ok(Known(packed)), [packed], s)
  {
    var packed := [0x92] + LE(|d|, 2) + d;
    assert PackData(d) == Ok(packed) && [] + [packed] == [packed];
  }

  lemma ArrayOfOne(v: Value, s: Supply, w: Writing, s1: Supply)
    requires OpenContainer(0xd1, s) == (w, s1)
    requires PackWith(v, [], s1).result.Ok?
    ensures
      var p := PackWith(v, [], s1);
      PackWith(Arr([v]), [], s).result == Ok(Write(w, p.supply, p.result.value).0.content)
  {
    hide Write, OpenContainer;
    var p := PackWith(v, [], s1);
    var (w', s') := Write(w, p.supply, p.result.value);
    assert [v][1..] == [];
    assert PackItemsWith([], p.table, w', s') == PooledWriter(Ok(w'), p.table, s');
    assert PackItemsWith([v], [], w, s1) == PooledWriter(Ok(w'), p.table, s');
  }

  lemma LargeRoomIsLarge(s: Supply, offset: nat, n: nat)
    requires Shaped(s) && Large(offset + n) && offset <= 256
    ensures 512 < RoomFor(s, 256, offset, n).0 <= offset + n
  {
    hide BucketSize, Shaped;
    AcquireShaped(s, Max(512, offset + n));
  }

  lemma OpenedContainer(header: Byte, s: Supply)
    requires Shaped(s)
    ensures
      var (w, s1) := OpenContainer(header, s);
      && w == Writing(Known([header]), 1, 256) && Exactly(w, [header])
      && Shaped(s1) && Waiting(s1, 1024) == Waiting(s, 1024)
  {
    hide BucketSize;
    AcquireShaped(s, CONTAINER_SIZE);
    BucketOf(CONTAINER_SIZE);
    var (w, s1) := Start(s, CONTAINER_SIZE);
    FittingWrite(w, s1, [], [header]);
    assert [] + [header] == [header];
  }

  lemma LargeRoom(s: Supply, s1: Supply, offset: nat, n: nat)
    requires Shaped(s1) && Waiting(s1, 1024) == Waiting(s, 1024) && Large(offset + n) && offset <= 256
    ensures
      var lengths := Waiting(s, 1024);
      RoomFor(s1, 256, offset, n).0 == if lengths == [] then offset + n else Min(offset + n, lengths[|lengths| - 1])
  {
    hide BucketSize;
    BucketOf(offset + n);
  }

  /** Decoding a shortened encoding gives a shorter byte string, and no error. */
  lemma ShortenedDecodes(d: Bytes, capacity: nat)
    requires 0x100 <= |d| <= 0xffff && 4 <= capacity <= 4 + |d|
    ensures Decode(Take(OneData(d), capacity)) == Ok(Arr([Data(d[..capacity - 4])]))
  {
    var bytes := Take(OneData(d), capacity);
    var kept := d[..capacity - 4];
    assert bytes == [0xd1] + ([0x92] + (LE(|d|, 2) + kept));
    var after := LE(|d|, 2) + kept;
    ShortTextRead(after, |d|, kept, []);
    assert [] + [Data(kept)] == [Data(kept)];
    assert ([0x92] + after)[1..] == after && bytes[1..] == [0x92] + after;
    assert UnpackBlob(0x92, after, []) == UnpackText(false, 2, after, []);
    assert UnpackValue([0x92] + after, []) == Ok(Unpacked(Data(kept), [], [Data(kept)]));
    ItemUnpacked(0, bytes[1..], [], Unpacked(Data(kept), [], [Data(kept)]));
    assert [Data(kept)] + [] == [Data(kept)];
    assert UnpackValue(bytes, []) == Ok(Unpacked(Arr([Data(kept)]), [], [Data(kept)]));
  }

  lemma ItemUnpacked(count: nat, input: Bytes, table: seq<Value>, u: Unpacked)
    requires UnpackValue(input, table) == Ok(u)
    ensures UnpackItems(count + 1, input, table) ==
            match UnpackItems(count, u.rest, u.table)
            case Err(e) => Err(e)
            case Ok(more) => Ok(UnpackedItems([u.value] + more.items, more.rest, more.table))
  {
  }

  /** A length field and fewer bytes than it says. */
  lemma ShortTextRead(after: Bytes, length: nat, kept: Bytes, table: seq<Value>)
    requires length <= 0xffff && after == LE(length, 2) + kept && |kept| <= length
    ensures UnpackText(false, 2, after, table) == Ok(Unpacked(Data(kept), [], table + [Data(kept)]))
  {
    Pow256Values();
    LERoundTrip(length, 2);
    assert after[..2] == LE(length, 2) && after[2..] == kept;
    assert Take(kept, length) == kept && Drop(kept, length) == [];
  }

  /**
   An array of one byte string of 509 to 1020 bytes comes back if and only if the pool has nothing
   shorter on offer; otherwise it is cut off, and nobody is told.
   */
  lemma ByteStringShortened(d: Bytes, s: Supply, bytes: Bytes)
    requires Shaped(s) && 509 <= |d| <= 1020 && MayReturn(Arr([Data(d)]), [], s, bytes)
    ensures
      var lengths := Waiting(s, 1024);
      var capacity := if lengths == [] then 4 + |d| else Min(4 + |d|, lengths[|lengths| - 1]);
      && 4 <= capacity <= 4 + |d|
      && Decode(bytes) == Ok(Arr([Data(d[..capacity - 4])]))
      && (Decode(bytes) == Ok(Arr([Data(d)])) <==> lengths == [] || lengths[|lengths| - 1] >= 4 + |d|)
  {
    hide PackWith, Decode;
    OneDataPacked(d, s);
    OneDataIs(d);
    var lengths := Waiting(s, 1024);
    var capacity := if lengths == [] then 4 + |d| else Min(4 + |d|, lengths[|lengths| - 1]);
    KnownIsDetermined(Known(Take(OneData(d), capacity)), Take(OneData(d), capacity));
    if lengths != [] {
      AtLeast513(s);
    }
    ShortenedDecodes(d, capacity);
    assert d[..|d|] == d;
    assert capacity < 4 + |d| ==> |d[..capacity - 4]| < |d|;
  }

  lemma AtLeast513(s: Supply)
    requires Shaped(s) && Waiting(s, 1024) != []
    ensures Waiting(s, 1024)[|Waiting(s, 1024)| - 1] >= 513
  {
  }

  // ---- A dictionary is cut off, starting from an empty pool ----

  /** A short string, packed. */
  function Text(c: Byte): Bytes {
    [0x41, c]
  }

  function Blob(d: Bytes): Bytes {
    [0x92] + LE(|d|, 2) + d
  }

  /** `{a: {x: d, y: n}}`. */
  function Nested(a: Byte, x: Byte, d: Bytes, y: Byte, n: nat): Value {
    Dict([Entry(Str([a]), Inner(x, d, y, n))])
  }

  function Inner(x: Byte, d: Bytes, y: Byte, n: nat): Value {
    Dict([Entry(Str([x]), Data(d)), Entry(Str([y]), Num(n))])
  }

  function InnerBytes(x: Byte, d: Bytes, y: Byte, n: nat): Bytes
    requires n < 0x28
  {
    [0xe2] + Text(x) + Blob(d) + Text(y) + [n + 0x08]
  }

  /** Once the inner writer has grown twice, its first larger buffer waits under 1024. */
  const GROWN: Supply := Pool(OPACK_POOL, map[256 := [256]])

  function GrownTwice(t: nat): Supply {
    Pool(OPACK_POOL, map[256 := [256], 1024 := [t]])
  }

  lemma NothingWaits(s: Supply, size: nat)
    requires s.Pool? && Waiting(s, BucketSize(s.config.sizeBuckets, size)) == []
    ensures AcquireFrom(s, size) == (size, s)
  {
  }

  lemma ColdRooms(t: nat)
    requires 513 <= t <= 1018
    ensures RoomFor(COLD, 256, 3, t - 3) == (t, GROWN)
    ensures RoomFor(GROWN, t, t, 2) == (2 * t, GrownTwice(t))
    ensures RoomFor(GrownTwice(t), 256, 3, t + 3).0 == t
  {
    hide BucketSize;
    BucketOf(t);
    BucketOf(2 * t);
    BucketOf(t + 6);
    WholeBuckets();
    NothingWaits(COLD, t);
    NothingWaits(GROWN, 2 * t);
    assert Waiting(COLD, 256) + [256] == [256] && Waiting(GROWN, 1024) + [t] == [t];
    assert COLD.waiting[256 := [256]] == GROWN.waiting;
    assert GROWN.waiting[1024 := [t]] == GrownTwice(t).waiting;
  }

  lemma SmallSupplies(t: nat)
    ensures AcquireFrom(COLD, 2).1 == COLD && AcquireFrom(COLD, CONTAINER_SIZE) == (CONTAINER_SIZE, COLD)
    ensures AcquireFrom(GROWN, 2).1 == GROWN
  {
    assert BucketSize(OPACK_POOL.sizeBuckets, 2) == 4;
  }

  /** A write of known bytes, with room. */
  lemma ExactWrite(w: Writing, s: Supply, done: Bytes, data: Bytes)
    requires Exactly(w, done) && |done| + |data| <= RoomFor(s, w.capacity, |done|, |data|).0
    ensures
      var (capacity, s') := RoomFor(s, w.capacity, |done|, |data|);
      Write(w, s, Known(data)) == (Writing(Known(done + data), |done| + |data|, capacity), s')
  {
    WriteIsExact(w, s, done, data);
  }

  lemma TextPacked(c: Byte, table: seq<Bytes>, s: Supply)
    requires Text(c) !in table && AcquireFrom(s, 2).1 == s
    ensures PackWith(Str([c]), table, s) == Pooled(Ok(Known(Text(c))), table + [Text(c)], s)
    ensures PackValue(Str([c]), table) == Ok(Packed(Text(c), table + [Text(c)]))
  {
    assert PackString([c]) == Ok([0x40 + 1] + [c]) && [0x41] + [c] == Text(c);
    assert FindIndex(table, Text(c)).None?;
  }

  lemma BlobPacked(d: Bytes, table: seq<Bytes>, s: Supply)
    requires 0x100 <= |d| <= 0xffff && Blob(d) !in table
    ensures PackWith(Data(d), table, s) == Pooled(Ok(Known(Blob(d))), table + [Blob(d)], s)
    ensures PackValue(Data(d), table) == Ok(Packed(Blob(d), table + [Blob(d)]))
  {
    assert PackData(d) == Ok(Blob(d)) && FindIndex(table, Blob(d)).None?;
  }

  lemma EntryWith(
    e: Entry, table: seq<Bytes>, w: Writing, s: Supply, k: Pooled, v: Pooled,
    w1: Writing, s1: Supply, w2: Writing, s2: Supply)
    requires PackWith(e.key, table, s) == k && k.result.Ok?
    requires PackWith(e.value, k.table, k.supply) == v && v.result.Ok?
    requires Write(w, v.supply, k.result.value) == (w1, s1) && Write(w1, s1, v.result.value) == (w2, s2)
    ensures PackEntryWith(e, table, w, s) == PooledWriter(Ok(w2), v.table, s2)
  {
  }

  /** The inner dictionary's first entry takes its writer past 512 bytes. */
  lemma FirstEntry(a: Byte, x: Byte, d: Bytes, s: Supply, w: Writing)
    requires a != x && 507 <= |d| <= 1012
    requires w == Writing(Known([0xe2]), 1, 256)
    ensures
      var done := [0xe2] + Text(x) + Blob(d);
      PackEntryWith(Entry(Str([x]), Data(d)), [Text(a)], w, COLD)
      == PooledWriter(Ok(Writing(Known(done), 6 + |d|, 6 + |d|)), [Text(a), Text(x), Blob(d)], GROWN)
  {
    hide Write, RoomFor, PackWith, PackEntryWith, AcquireFrom, ReleaseTo, Known, Blob, PackValue;
    var t, table := 6 + |d|, [Text(a)];
    SmallSupplies(t);
    ColdRooms(t);
    BlobLength(d);
    TextPacked(x, table, COLD);
    assert table + [Text(x)] == [Text(a), Text(x)] && [Text(a), Text(x)] + [Blob(d)] == [Text(a), Text(x), Blob(d)];
    BlobPacked(d, [Text(a), Text(x)], COLD);
    var done := [0xe2] + Text(x);
    FittingWrite(w, COLD, [0xe2], Text(x));
    ExactWrite(Writing(Known(done), 3, 256), COLD, done, Blob(d));
    EntryWith(Entry(Str([x]), Data(d)), table, w, COLD,
              Pooled(Ok(Known(Text(x))), [Text(a), Text(x)], COLD),
                  Pooled(Ok(Known(Blob(d))), [Text(a), Text(x), Blob(d)], COLD),
              Writing(Known(done), 3, 256), COLD, Writing(Known(done + Blob(d)), t, t), GROWN);
  }

  /** Its second makes it grow again, and leaves the buffer of the first behind. */
  lemma SecondEntry(table: seq<Bytes>, t: nat, done: Bytes, y: Byte, n: nat)
    requires Text(y) !in table && n < 0x28 && 513 <= t <= 1018 && |done| == t
    ensures
      PackEntryWith(Entry(Str([y]), Num(n)), table, Writing(Known(done), t, t), GROWN)
      == PooledWriter(Ok(Writing(Known(done + Text(y) + [n + 0x08]), t + 3, 2 * t)), table + [Text(y)], GrownTwice(t))
  {
    hide Write, RoomFor, PackWith, PackEntryWith, AcquireFrom, ReleaseTo, Known, PackValue;
    SmallSupplies(t);
    ColdRooms(t);
    TextPacked(y, table, GROWN);
    NumPacked(n, table + [Text(y)], GROWN);
    var w := Writing(Known(done), t, t);
    ExactlyIs(w, done);
    ExactWrite(w, GROWN, done, Text(y));
    var w1 := Writing(Known(done + Text(y)), t + 2, 2 * t);
    ExactlyIs(w1, done + Text(y));
    FittingWrite(w1, GrownTwice(t), done + Text(y), [n + 0x08]);
    EntryWith(Entry(Str([y]), Num(n)), table, w, GROWN,
              Pooled(Ok(Known(Text(y))), table + [Text(y)], GROWN),
                  Pooled(Ok(Known([n + 0x08])), table + [Text(y)], GROWN),
              w1, GrownTwice(t), Writing(Known(done + Text(y) + [n + 0x08]), t + 3, 2 * t), GrownTwice(t));
  }

  lemma ExactlyIs(w: Writing, done: Bytes)
    requires w.content == Known(done) && w.offset == |done| <= w.capacity
    ensures Exactly(w, done)
  {
  }

  /** The inner dictionary comes out right. */
  lemma InnerPacked(a: Byte, x: Byte, d: Bytes, y: Byte, n: nat)
    requires a != x && a != y && x != y && 507 <= |d| <= 1012 && n < 0x28
    ensures
      var p := PackWith(Inner(x, d, y, n), [Text(a)], COLD);
      && p.result == Ok(Known(InnerBytes(x, d, y, n)))
      && p.supply == GrownTwice(6 + |d|) && |InnerBytes(x, d, y, n)| == 9 + |d|
  {
    hide PackEntryWith, Known, Blob, OpenContainer;
    var t, table := 6 + |d|, [Text(a), Text(x), Blob(d)];
    var w := Writing(Known([0xe2]), 1, 256);
    ColdContainer(0xe2);
    BlobLength(d);
    FirstEntry(a, x, d, COLD, w);
    var done := [0xe2] + Text(x) + Blob(d);
    SecondEntry(table, t, done, y, n);
    var e1, e2 := Entry(Str([x]), Data(d)), Entry(Str([y]), Num(n));
    TwoEntries(e1, e2, [Text(a)], w, COLD);
    assert done + Text(y) + [n + 0x08] == InnerBytes(x, d, y, n);
  }

  lemma TwoEntries(e1: Entry, e2: Entry, table: seq<Bytes>, w: Writing, s: Supply)
    requires PackEntryWith(e1, table, w, s).result.Ok?
    requires
      var p := PackEntryWith(e1, table, w, s);
      PackEntryWith(e2, p.table, p.result.value, p.supply).result.Ok?
    ensures
      var p := PackEntryWith(e1, table, w, s);
      PackEntriesWith([e1, e2], table, w, s) == PackEntryWith(e2, p.table, p.result.value, p.supply)
  {
    hide PackEntryWith;
    assert [e1, e2][1..] == [e2] && [e2][1..] == [];
    var p := PackEntryWith(e1, table, w, s);
    var q := PackEntryWith(e2, p.table, p.result.value, p.supply);
    assert PackEntriesWith([], q.table, q.result.value, q.supply) == q;
    assert PackEntriesWith([e2], p.table, p.result.value, p.supply) == q;
  }

  /** The outer writer asks for room for it and is given the buffer that the inner one left. */
  lemma NestedPacked(a: Byte, x: Byte, d: Bytes, y: Byte, n: nat)
    requires a != x && a != y && x != y && 507 <= |d| <= 1012 && n < 0x28
    ensures
      var whole := [0xe1] + Text(a) + InnerBytes(x, d, y, n);
      && |whole| == 12 + |d|
      && PackWith(Nested(a, x, d, y, n), [], COLD).result == Ok(Known(whole[..6 + |d|]))
  {
    hide Write, RoomFor, PackEntryWith, PackWith, AcquireFrom, ReleaseTo, Known, InnerBytes, Inner, PackValue,
        OpenContainer;
    var t := 6 + |d|;
    SmallSupplies(t);
    ColdRooms(t);
    ColdContainer(0xe1);
    InnerPacked(a, x, d, y, n);
    assert [] + [Text(a)] == [Text(a)];
    TextPacked(a, [], COLD);
    var w := Writing(Known([0xe1]), 1, 256);
    FittingWrite(w, GrownTwice(t), [0xe1], Text(a));
    var done := [0xe1] + Text(a);
    var w1 := Writing(Known(done), 3, 256);
    ExactlyIs(w1, done);
    ShortWrite(w1, GrownTwice(t), done, InnerBytes(x, d, y, n));
    var inner := PackWith(Inner(x, d, y, n), [Text(a)], COLD);
    var (w2, s2) := Write(w1, GrownTwice(t), Known(InnerBytes(x, d, y, n)));
    var e := Entry(Str([a]), Inner(x, d, y, n));
    EntryWith(e, [], w, COLD, Pooled(Ok(Known(Text(a))), [Text(a)], COLD), inner, w1, GrownTwice(t), w2, s2);
    OneEntryDict(e, COLD, w);
  }

  lemma OneEntryDict(e: Entry, s: Supply, w: Writing)
    requires OpenContainer(0xe1, s) == (w, s) && PackEntryWith(e, [], w, s).result.Ok?
    ensures PackWith(Dict([e]), [], s).result == Ok(PackEntryWith(e, [], w, s).result.value.content)
  {
    hide PackEntryWith, OpenContainer;
    assert [e][1..] == [];
    var p := PackEntryWith(e, [], w, s);
    assert PackEntriesWith([], p.table, p.result.value, p.supply) == p;
    assert PackEntriesWith([e], [], w, s) == p;
  }

  lemma BlobLength(d: Bytes)
    ensures |Blob(d)| == 3 + |d|
  {
  }

  lemma NumPacked(n: nat, table: seq<Bytes>, s: Supply)
    requires n < 0x28
    ensures PackWith(Num(n), table, s) == Pooled(Ok(Known([n + 0x08])), table, s)
    ensures PackValue(Num(n), table) == Ok(Packed([n + 0x08], table))
  {
  }

  lemma ColdContainer(header: Byte)
    ensures OpenContainer(header, COLD) == (Writing(Known([header]), 1, 256), COLD)
    ensures Exactly(Writing(Known([header]), 1, 256), [header])
  {
    SmallSupplies(0);
    var (w, s1) := Start(COLD, CONTAINER_SIZE);
    FittingWrite(w, s1, [], [header]);
    assert [] + [header] == [header];
  }

  lemma TextUnpacked(c: Byte, rest: Bytes, table: seq<Value>)
    ensures UnpackValue(Text(c) + rest, table) == Ok(Unpacked(Str([c]), rest, table + [Str([c])]))
  {
    var input := Text(c) + rest;
    assert input[1..] == [c] + rest && Take([c] + rest, 1) == [c] && Drop([c] + rest, 1) == rest;
    assert UnpackBlob(0x41, [c] + rest, table) == Ok(Register(Str([c]), rest, table));
  }

  lemma CutBlobUnpacked(d: Bytes, kept: Bytes, table: seq<Value>)
    requires 0x100 <= |d| <= 0xffff && |kept| <= |d|
    ensures UnpackValue([0x92] + (LE(|d|, 2) + kept), table) == Ok(Unpacked(Data(kept), [], table + [Data(kept)]))
  {
    var after := LE(|d|, 2) + kept;
    ShortTextRead(after, |d|, kept, table);
    assert ([0x92] + after)[1..] == after;
    assert UnpackBlob(0x92, after, table) == UnpackText(false, 2, after, table);
  }

  /** A dictionary that announces its size fails as its pairs do. */
  lemma DictFails(count: nat, input: Bytes, table: seq<Value>, e: Opack.Error)
    requires 0 < count < 0xf && UnpackPairs(count, input, table) == Err(e)
    ensures UnpackValue([0xe0 + count] + input, table) == Err(e)
  {
    hide UnpackPairs, UnpackItems, UnpackEndlessItems, UnpackEndlessPairs, Collect;
    hide UnpackScalar, UnpackBlob, UnpackReference;
    assert ([0xe0 + count] + input)[1..] == input;
  }

  lemma PairUnpacked(count: nat, input: Bytes, table: seq<Value>, k: Unpacked, v: Unpacked)
    requires UnpackValue(input, table) == Ok(k) && UnpackValue(k.rest, k.table) == Ok(v)
    ensures UnpackPairs(count + 1, input, table) ==
            match UnpackPairs(count, v.rest, v.table)
            case Err(e) => Err(e)
            case Ok(more) => Ok(UnpackedPairs([Entry(k.value, v.value)] + more.pairs, more.rest, more.table))
  {
    hide UnpackValue;
  }

  lemma PairFails(count: nat, input: Bytes, table: seq<Value>, k: Unpacked, e: Opack.Error)
    requires UnpackValue(input, table) == Ok(k) && UnpackValue(k.rest, k.table) == Err(e)
    ensures UnpackPairs(count + 1, input, table) == Err(e)
  {
    hide UnpackValue;
  }

  lemma NothingUnpacked(table: seq<Value>)
    ensures UnpackValue([], table) == Err(Underrun)
  {
  }

  lemma NoPairs(count: nat, table: seq<Value>)
    ensures UnpackPairs(count + 1, [], table) == Err(Underrun)
  {
    hide UnpackValue;
    NothingUnpacked(table);
  }

  /** Two entries are announced, and the input ends in the first. */
  lemma CutInnerUnpacked(x: Byte, d: Bytes, kept: Bytes, table: seq<Value>)
    requires 0x100 <= |d| <= 0xffff && |kept| <= |d|
    ensures UnpackValue([0xe2] + (Text(x) + ([0x92] + (LE(|d|, 2) + kept))), table) == Err(Underrun)
  {
    hide UnpackValue, UnpackPairs, Text, LE;
    var blob := [0x92] + (LE(|d|, 2) + kept);
    var k := Unpacked(Str([x]), blob, table + [Str([x])]);
    var v := Unpacked(Data(kept), [], k.table + [Data(kept)]);
    TextUnpacked(x, blob, table);
    CutBlobUnpacked(d, kept, k.table);
    PairUnpacked(1, Text(x) + blob, table, k, v);
    NoPairs(0, v.table);
    DictFails(2, Text(x) + blob, table, Underrun);
  }

  lemma CutNestedUnpacked(a: Byte, x: Byte, d: Bytes, kept: Bytes)
    requires 0x100 <= |d| <= 0xffff && |kept| <= |d|
    ensures Decode([0xe1] + (Text(a) + ([0xe2] + (Text(x) + ([0x92] + (LE(|d|, 2) + kept)))))) == Err(Underrun)
  {
    hide UnpackValue, Text, LE;
    var inner := [0xe2] + (Text(x) + ([0x92] + (LE(|d|, 2) + kept)));
    CutInnerUnpacked(x, d, kept, [] + [Str([a])]);
    OneEntryFails(a, inner);
  }

  lemma OneEntryFails(a: Byte, inner: Bytes)
    requires UnpackValue(inner, [] + [Str([a])]) == Err(Underrun)
    ensures UnpackValue([0xe1] + (Text(a) + inner), []) == Err(Underrun)
  {
    hide UnpackValue, UnpackPairs, Text;
    TextUnpacked(a, inner, []);
    PairFails(0, Text(a) + inner, [], Unpacked(Str([a]), inner, [] + [Str([a])]), Underrun);
    DictFails(1, Text(a) + inner, [], Underrun);
  }

  /** No string repeats, and nothing that only the decoder lists is sent. */
  lemma NestedInSync(a: Byte, x: Byte, d: Bytes, y: Byte, n: nat)
    requires a != x && a != y && x != y && 507 <= |d| <= 1012 && n < 0x28
    ensures
      var v := Nested(a, x, d, y, n);
      OpackRoundTrip.WellFormed(v) && OpackRoundTrip.InRange(v) && OpackRoundTrip.ReferencesInSync(v)
  {
    var v, inner := Nested(a, x, d, y, n), Inner(x, d, y, n);
    InnerInRange(x, d, y, n);
    assert forall i | 0 <= i < |v.entries| :: OpackRoundTrip.EntryInRange(v.entries[i]);
    assert OpackRoundTrip.InRange(v);
    OpackRoundTrip.PackSucceedsInRange(v, []);
    assert PackEntries(v.entries, []).Ok? && PackEntry(v.entries[0], []).Ok?;
    InnerFollows(a, x, d, y, n);
    TextPacked(a, [], COLD);
    assert [] + [Text(a)] == [Text(a)] && v.entries[1..] == [];
    assert OpackRoundTrip.PackText(Str([a])) == Ok(Text(a));
    assert OpackRoundTrip.Follow(Str([a]), [], None) == OpackRoundTrip.Drift(true, None);
    assert OpackRoundTrip.FollowEntry(v.entries[0], [], None) == OpackRoundTrip.Drift(true, None);
    assert OpackRoundTrip.FollowEntries(v.entries, [], None) == OpackRoundTrip.Drift(true, None);
  }

  lemma InnerInRange(x: Byte, d: Bytes, y: Byte, n: nat)
    requires x != y && |d| <= 0xffff && n < 0x28
    ensures OpackRoundTrip.WellFormed(Inner(x, d, y, n)) && OpackRoundTrip.InRange(Inner(x, d, y, n))
  {
    assert forall i | 0 <= i < |Inner(x, d, y, n).entries| :: OpackRoundTrip.EntryInRange(Inner(x, d, y, n).entries[i]);
  }

  lemma InnerFollows(a: Byte, x: Byte, d: Bytes, y: Byte, n: nat)
    requires a != x && a != y && x != y && 507 <= |d| <= 1012 && n < 0x28
    ensures PackValue(Inner(x, d, y, n), [Text(a)]).Ok?
    ensures OpackRoundTrip.Follow(Inner(x, d, y, n), [Text(a)], None) == OpackRoundTrip.Drift(true, None)
  {
    hide Blob;
    var e1, e2 := Entry(Str([x]), Data(d)), Entry(Str([y]), Num(n));
    var table1, table2 := [Text(a)], [Text(a)] + [Text(x)] + [Blob(d)];
    OpackRoundTrip.PackSucceedsInRange(Inner(x, d, y, n), table1);
    OpackRoundTrip.PackEntrySucceedsInRange(e1, table1);
    OpackRoundTrip.PackEntrySucceedsInRange(e2, table2);
    BlobLength(d);
    TextPacked(x, table1, COLD);
    BlobPacked(d, table1 + [Text(x)], COLD);
    TextPacked(y, table2, COLD);
    TextFollows(x, table1);
    BlobFollows(d, table1 + [Text(x)]);
    TextFollows(y, table2);
    assert [e1, e2][1..] == [e2] && [e2][1..] == [];
    assert OpackRoundTrip.FollowEntry(e1, table1, None) == OpackRoundTrip.Drift(true, None);
    assert PackEntry(e1, table1).value.table == table2;
    assert OpackRoundTrip.FollowEntry(e2, table2, None) == OpackRoundTrip.Drift(true, None);
    assert OpackRoundTrip.FollowEntries([e2], table2, None) == OpackRoundTrip.Drift(true, None);
  }

  lemma TextFollows(c: Byte, table: seq<Bytes>)
    requires Text(c) !in table
    ensures PackValue(Str([c]), table).Ok?
    ensures OpackRoundTrip.Follow(Str([c]), table, None) == OpackRoundTrip.Drift(true, None)
  {
    TextPacked(c, table, NoPool);
    assert OpackRoundTrip.PackText(Str([c])) == Ok([0x40 + 1] + [c]) && [0x41] + [c] == Text(c);
  }

  lemma BlobFollows(d: Bytes, table: seq<Bytes>)
    requires 0x100 <= |d| <= 0xffff && Blob(d) !in table
    ensures PackValue(Data(d), table).Ok?
    ensures OpackRoundTrip.Follow(Data(d), table, None) == OpackRoundTrip.Drift(true, None)
  {
    BlobPacked(d, table, NoPool);
    assert OpackRoundTrip.PackText(Data(d)) == Ok(Blob(d));
  }

  /**
   The first encoding of a process, of a value with nothing repeated: the inner dictionary's writer
   leaves a buffer that is shorter than its bucket, the outer one gets it, and the last six bytes are
   lost. Decoding runs out of input.
   */
  lemma ColdPoolUnderruns(a: Byte, x: Byte, d: Bytes, y: Byte, n: nat, bytes: Bytes)
    requires a != x && a != y && x != y && 507 <= |d| <= 1012 && n < 0x28
    requires MayReturn(Nested(a, x, d, y, n), [], COLD, bytes)
    ensures Shaped(COLD)
    ensures
      var v := Nested(a, x, d, y, n);
      OpackRoundTrip.WellFormed(v) && OpackRoundTrip.InRange(v) && OpackRoundTrip.ReferencesInSync(v)
    ensures Decode(bytes) == Err(Underrun)
  {
    hide PackWith, Decode;
    NestedInSync(a, x, d, y, n);
    NestedPacked(a, x, d, y, n);
    var whole := [0xe1] + Text(a) + InnerBytes(x, d, y, n);
    var kept := d[..|d| - 3];
    KnownIsDetermined(Known(whole[..6 + |d|]), whole[..6 + |d|]);
    CutBytes(a, x, d, y, n);
    CutNestedUnpacked(a, x, d, kept);
  }

  lemma CutBytes(a: Byte, x: Byte, d: Bytes, y: Byte, n: nat)
    requires 507 <= |d| && n < 0x28
    ensures
      var whole := [0xe1] + Text(a) + InnerBytes(x, d, y, n);
      && |whole| == 12 + |d|
      && whole[..6 + |d|] == [0xe1] + (Text(a) + ([0xe2] + (Text(x) + ([0x92] + (LE(|d|, 2) + d[..|d| - 3])))))
  {
  }
}
