/**
 OPACK packing over its buffer pool (src/core/encoding/opack.ts, lines 49-53 and 252-427): writers
 grow into buffers out of the pool, which may be shorter than what was asked for. What does not fit
 is lost without an error, so the packed bytes are not always those that module Opack says.
 */
module OpackPool {
  import opened Results
  import opened ByteStrings
  import opened BufferPools
  import opened Buffers
  import opened Opack

  const OPACK_POOL: Config := Config([4, 8, 16, 32, 64, 128, 256, 512, 1024], 5, false)
  const CONTAINER_SIZE: nat := 256

  // ---- Bytes of which some are not known ----

  /** None is whatever a recycled or new buffer happens to hold. */
  type Cells = seq<Option<Byte>>

  function Known(bytes: Bytes): (r: Cells)
    ensures |r| == |bytes|
  {
    seq(|bytes|, i requires 0 <= i < |bytes| => Some(bytes[i]))
  }

  ghost predicate Shows(bytes: Bytes, cells: Cells) {
    |bytes| == |cells| && forall i | 0 <= i < |cells| && cells[i].Some? :: bytes[i] == cells[i].value
  }

  /** Cells that are not all known may show something else. */
  lemma KnownIsDetermined(cells: Cells, bytes: Bytes)
    ensures cells == Known(bytes) <==> forall shown | Shows(shown, cells) :: shown == bytes
  {
    if forall shown | Shows(shown, cells) :: shown == bytes {
      var zeros := seq(|cells|, i requires 0 <= i < |cells| => if cells[i].Some? then cells[i].value else 0);
      var ones := seq(|cells|, i requires 0 <= i < |cells| => if cells[i].Some? then cells[i].value else 1);
      assert Shows(zeros, cells) && Shows(ones, cells);
      forall i | 0 <= i < |cells| ensures cells[i] == Known(bytes)[i] {
        assert zeros[i] == ones[i] == bytes[i];
      }
    }
  }

  // ---- A writer's progress ----

  /** What `toBuffer` would return, and the numbers the writer goes by. */
  datatype Writing = Writing(content: Cells, offset: nat, capacity: nat)

  function Start(s: Supply, size: nat): (Writing, Supply) {
    var (length, s') := AcquireFrom(s, size);
    (Writing([], 0, length), s')
  }

  function Write(w: Writing, s: Supply, data: Cells): (r: (Writing, Supply))
    ensures r.0.offset == w.offset + |data| && |r.0.content| == Min(r.0.offset, r.0.capacity)
  {
    var (capacity, s') := RoomFor(s, w.capacity, w.offset, |data|);
    var content := seq(Min(w.offset + |data|, capacity), i requires 0 <= i < Min(w.offset + |data|, capacity) =>
      if i < |w.content| then w.content[i] else if i < w.offset then None else data[i - w.offset]);
    (Writing(content, w.offset + |data|, capacity), s')
  }

  ghost predicate Exactly(w: Writing, done: Bytes) {
    w.content == Known(done) && w.offset == |done| <= w.capacity
  }

  ghost predicate Spoilt(w: Writing, done: Bytes) {
    w.offset <= |done| && |w.content| == Min(w.offset, w.capacity) && !Exactly(w, done)
  }

  /** A write appends exactly its data if and only if the buffer it ends in is long enough. */
  lemma WriteIsExact(w: Writing, s: Supply, done: Bytes, data: Bytes)
    requires Exactly(w, done)
    ensures
      var (w', s') := Write(w, s, Known(data));
      if |done| + |data| <= w'.capacity then Exactly(w', done + data) else Spoilt(w', done + data)
  {
    var (w', s') := Write(w, s, Known(data));
    if |done| + |data| <= w'.capacity {
      assert w'.content == Known(done + data);
    }
  }

  /** Where two strings of one length differ. */
  lemma Difference(a: Cells, b: Cells) returns (i: nat)
    requires |a| == |b| && a != b
    ensures i < |a| && a[i] != b[i]
  {
    i :| 0 <= i < |a| && a[i] != b[i];
  }

  lemma NotExactlyAt(w: Writing, done: Bytes, i: nat)
    requires i < |done| && (i < |w.content| ==> w.content[i] != Some(done[i]))
    ensures !Exactly(w, done)
  {
    assert Known(done)[i] == Some(done[i]);
  }

  /** Spoilt stays spoilt, whatever is written next. */
  lemma SpoiltStays(w: Writing, s: Supply, done: Bytes, cells: Cells, data: Bytes)
    requires Spoilt(w, done) && |cells| <= |data|
    ensures Spoilt(Write(w, s, cells).0, done + data)
  {
    var w' := Write(w, s, cells).0;
    if w.offset == |done| {
      if |w.content| < |done| {
        NotExactlyAt(w', done + data, |w.content|);
      } else {
        var i := Difference(w.content, Known(done));
        NotExactlyAt(w', done + data, i);
      }
    }
  }

  /** Something wrong spoils what it is written to. */
  lemma WrongSpoils(w: Writing, s: Supply, done: Bytes, cells: Cells, data: Bytes)
    requires Exactly(w, done) && |cells| <= |data| && cells != Known(data)
    ensures Spoilt(Write(w, s, cells).0, done + data)
  {
    var w' := Write(w, s, cells).0;
    if |cells| == |data| {
      var i := Difference(cells, Known(data));
      NotExactlyAt(w', done + data, |done| + i);
    }
  }

  // ---- Packing ----

  datatype Pooled = Pooled(result: Outcome<Cells>, table: seq<Bytes>, supply: Supply)
  datatype PooledWriter = PooledWriter(result: Outcome<Writing>, table: seq<Bytes>, supply: Supply)

  function KnownResult(r: Outcome<Bytes>): Outcome<Cells> {
    match r
    case Ok(bytes) => Ok(Known(bytes))
    case Err(e) => Err(e)
  }

  /** Numbers and texts come out right; this is what their writers do to the pool. */
  function IntegerSupply(n: int, s: Supply): Supply {
    if 0 <= n < 0x28 then s else Start(s, 5).1
  }

  function BigIntSupply(n: int, s: Supply): Supply {
    if n < 0 || n > 0xffff_ffff_ffff_ffff then s else Start(s, 9).1
  }

  function FloatSupply(s: Supply): Supply {
    var (w, s1) := Start(s, 8);
    RoomFor(s1, w.capacity, 1, 8).1
  }

  function StringSupply(length: nat, s: Supply): Supply {
    if length <= 0x20 then AcquireFrom(s, 1 + length).1
    else
      var (w, s1) := Start(s, length + 3);
      if length > 0xffff then s1 else RoomFor(s1, w.capacity, if length <= 0xff then 2 else 3, length).1
  }

  function PackWith(v: Value, table: seq<Bytes>, s: Supply): Pooled
    decreases v, 1
  {
    match v
    case Null => Pooled(Ok(Known([0x04])), table, s)
    case Bool(b) => Pooled(Ok(Known([if b then 0x01 else 0x02])), table, s)
    case Big(n) => Pooled(KnownResult(PackBigInt(n)), table, BigIntSupply(n, s))
    case Num(n) => Pooled(KnownResult(PackInteger(n)), table, IntegerSupply(n, s))
    case Float(bits) => Pooled(Ok(Known([0x36] + bits)), table, FloatSupply(s))
    case Str(t) => PackTextWith(PackString(t), table, StringSupply(|t|, s))
    case Data(d) => PackTextWith(PackData(d), table, s)
    case Arr(items) =>
      var (w, s1) := OpenContainer(0xd0 + Min(|items|, 0xf), s);
      CloseContainer(PackItemsWith(items, table, w, s1), |items|)
    case Dict(entries) =>
      var (w, s1) := OpenContainer(0xe0 + Min(|entries|, 0xf), s);
      CloseContainer(PackEntriesWith(entries, table, w, s1), |entries|)
  }

  function PackTextWith(packed: Outcome<Bytes>, table: seq<Bytes>, s: Supply): Pooled {
    match packed
    case Err(e) => Pooled(Err(e), table, s)
    case Ok(bytes) =>
      var p := CheckAndReuseObject(bytes, table);
      Pooled(Ok(Known(p.bytes)), p.table, s)
  }

  function OpenContainer(header: Byte, s: Supply): (Writing, Supply) {
    var (w, s1) := Start(s, CONTAINER_SIZE);
    Write(w, s1, Known([header]))
  }

  function CloseContainer(p: PooledWriter, count: nat): Pooled {
    match p.result
    case Err(e) => Pooled(Err(e), p.table, p.supply)
    case Ok(w) =>
      var (w', s') := if count >= 0xf then Write(w, p.supply, Known([TERMINATOR])) else (w, p.supply);
      Pooled(Ok(w'.content), p.table, s')
  }

  function PackItemsWith(items: seq<Value>, table: seq<Bytes>, w: Writing, s: Supply): PooledWriter
    decreases items, 0
  {
    if items == [] then PooledWriter(Ok(w), table, s)
    else
      var p := PackWith(items[0], table, s);
      match p.result
      case Err(e) => PooledWriter(Err(e), p.table, p.supply)
      case Ok(cells) =>
        var (w', s') := Write(w, p.supply, cells);
        PackItemsWith(items[1..], p.table, w', s')
  }

  function PackEntriesWith(entries: seq<Entry>, table: seq<Bytes>, w: Writing, s: Supply): PooledWriter
    decreases entries, 0
  {
    if entries == [] then PooledWriter(Ok(w), table, s)
    else
      var p := PackEntryWith(entries[0], table, w, s);
      match p.result
      case Err(e) => p
      case Ok(w') => PackEntriesWith(entries[1..], p.table, w', p.supply)
  }

  /** Both halves are packed before either is written. */
  function PackEntryWith(e: Entry, table: seq<Bytes>, w: Writing, s: Supply): PooledWriter
    decreases e, 0
  {
    var k := PackWith(e.key, table, s);
    match k.result
    case Err(error) => PooledWriter(Err(error), k.table, k.supply)
    case Ok(key) =>
      var v := PackWith(e.value, k.table, k.supply);
      match v.result
      case Err(error) => PooledWriter(Err(error), v.table, v.supply)
      case Ok(value) =>
        var (w1, s1) := Write(w, v.supply, key);
        var (w2, s2) := Write(w1, s1, value);
        PooledWriter(Ok(w2), v.table, s2)
  }

  // ---- The pools there are ----

  /** All buffers are whole but for those filed under 1024, which have at least 513 bytes. */
  ghost predicate Shaped(s: Supply) {
    && s.Pool? && s.config == OPACK_POOL
    && forall b, i | b in s.waiting && 0 <= i < |s.waiting[b]| ::
         s.waiting[b][i] == b || (b == 1024 && 512 < s.waiting[b][i] <= 1024)
  }

  predicate Large(size: nat) {
    512 < size <= 1024
  }

  lemma BucketOf(size: nat)
    ensures
      var b := BucketSize(OPACK_POOL.sizeBuckets, size);
      && (size <= 512 ==> size <= b <= 512)
      && (Large(size) ==> b == 1024)
      && (size > 1024 ==> b == size)
  {
    hide BucketSize;
    if size <= 512 {
      SmallBucket(OPACK_POOL.sizeBuckets, size);
    } else if size > 1024 {
      BucketsFrom(OPACK_POOL.sizeBuckets, size);
    } else {
      LargeBucket(OPACK_POOL.sizeBuckets, size);
    }
  }

  /** The smallest bucket that is large enough. */
  lemma {:induction false} SmallBucket(buckets: seq<nat>, size: nat)
    requires 512 in buckets && size <= 512
    requires forall i, j | 0 <= i < j < |buckets| :: buckets[i] < buckets[j]
    ensures BucketSize(buckets, size) <= 512
  {
    if buckets[0] < size {
      assert 512 in buckets[1..];
      SmallBucket(buckets[1..], size);
    }
  }

  lemma {:induction false} LargeBucket(buckets: seq<nat>, size: nat)
    requires buckets != [] && buckets[|buckets| - 1] == 1024 && Large(size)
    requires forall i | 0 <= i < |buckets| - 1 :: buckets[i] <= 512
    ensures BucketSize(buckets, size) == 1024
  {
    if |buckets| > 1 {
      LargeBucket(buckets[1..], size);
    }
  }

  /** Only for large sizes may what comes out of the pool be shorter, and it has at least 513 bytes. */
  lemma AcquireShaped(s: Supply, size: nat)
    requires Shaped(s)
    ensures
      var (length, s') := AcquireFrom(s, size);
      && Shaped(s')
      && if Large(size) then 512 < length <= size else length == size
  {
    hide BucketSize;
    BucketOf(size);
  }

  lemma ReleaseShaped(s: Supply, length: nat)
    requires Shaped(s) && (length in {8, 256, 512} || length > 512)
    ensures Shaped(ReleaseTo(s, length))
  {
    hide BucketSize;
    BucketOf(length);
    assert BucketSize(OPACK_POOL.sizeBuckets, 8) == 8 && BucketSize(OPACK_POOL.sizeBuckets, 256) == 256
           && BucketSize(OPACK_POOL.sizeBuckets, 512) == 512 by {
      WholeBuckets();
    }
  }

  lemma WholeBuckets()
    ensures BucketSize(OPACK_POOL.sizeBuckets, 8) == 8 && BucketSize(OPACK_POOL.sizeBuckets, 256) == 256
    ensures BucketSize(OPACK_POOL.sizeBuckets, 512) == 512
  {
    hide BucketSize;
    BucketsFrom(OPACK_POOL.sizeBuckets, 8);
    BucketsFrom(OPACK_POOL.sizeBuckets, 256);
    BucketsFrom(OPACK_POOL.sizeBuckets, 512);
  }

  /** The capacities a container's writer goes through. */
  predicate ContainerCapacity(capacity: nat, offset: nat) {
    (capacity == 256 || capacity == 512 || capacity > 512) && (offset > capacity ==> capacity > 512)
  }

  /** The write that takes a container past 512 bytes must not end between 514 and 1024. */
  predicate CalmWrite(total: nat, n: nat) {
    total <= 512 < total + n ==> total + n == 513 || total + n > 1024
  }

  lemma RoomShaped(s: Supply, capacity: nat, offset: nat, n: nat)
    requires Shaped(s) && ContainerCapacity(capacity, offset)
    ensures
      var (c, s') := RoomFor(s, capacity, offset, n);
      && Shaped(s') && ContainerCapacity(c, offset + n)
      && (n == 1 ==> offset < c)
      && (offset <= capacity && CalmWrite(offset, n) ==> offset + n <= c)
  {
    if offset + n > capacity {
      var size := Max(2 * capacity, offset + n);
      AcquireShaped(s, size);
      ReleaseShaped(AcquireFrom(s, size).1, capacity);
    }
  }

  /** Exact for every pool: a write that is not calm is cut short by some of them. */
  lemma CalmWriteIsExact(capacity: nat, offset: nat, n: nat)
    requires capacity in {256, 512} && offset <= capacity
    ensures CalmWrite(offset, n) <==> forall s | Shaped(s) :: RoomFor(s, capacity, offset, n).0 >= offset + n
  {
    if CalmWrite(offset, n) {
      forall s | Shaped(s) ensures RoomFor(s, capacity, offset, n).0 >= offset + n {
        RoomShaped(s, capacity, offset, n);
      }
    } else {
      var s := Pool(OPACK_POOL, map[1024 := [513]]);
      assert Shaped(s);
      ShortRoom(s, capacity, offset, n);
    }
  }

  lemma ShortRoom(s: Supply, capacity: nat, offset: nat, n: nat)
    requires s.Pool? && s.config == OPACK_POOL && capacity <= 512
    requires offset <= capacity && !CalmWrite(offset, n)
    requires Waiting(s, 1024) != [] && Waiting(s, 1024)[|Waiting(s, 1024)| - 1] == 513
    ensures RoomFor(s, capacity, offset, n).0 == 513
  {
    hide BucketSize;
    BucketOf(Max(2 * capacity, offset + n));
  }
}
