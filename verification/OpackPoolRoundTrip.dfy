/**
 When OPACK packing survives its buffer pool: exactly when no container passes 512 bytes with a write
 that ends between 514 and 1024, whatever buffers the pool holds.
 */
module OpackPoolRoundTrip {
  import opened Results
  import opened ByteStrings
  import opened BufferPools
  import opened Buffers
  import opened Opack
  import opened OpackPool
  import OpackRoundTrip

  // ---- The condition ----

  /** Every container in a value goes past 512 bytes harmlessly, if at all. */
  predicate Calm(v: Value, table: seq<Bytes>)
    requires PackValue(v, table).Ok?
    decreases v, 1
  {
    match v
    case Arr(items) => CalmItems(items, table, 1)
    case Dict(entries) => CalmEntries(entries, table, 1)
    case _ => true
  }

  predicate CalmItems(items: seq<Value>, table: seq<Bytes>, total: nat)
    requires PackItems(items, table).Ok?
    decreases items, 0
  {
    items == [] ||
    var p := PackValue(items[0], table).value;
    && Calm(items[0], table) && CalmWrite(total, |p.bytes|)
    && CalmItems(items[1..], p.table, total + |p.bytes|)
  }

  predicate CalmEntries(entries: seq<Entry>, table: seq<Bytes>, total: nat)
    requires PackEntries(entries, table).Ok?
    decreases entries, 0
  {
    entries == [] ||
    var p := PackEntry(entries[0], table).value;
    && CalmEntry(entries[0], table, total)
    && CalmEntries(entries[1..], p.table, total + |p.bytes|)
  }

  predicate CalmEntry(e: Entry, table: seq<Bytes>, total: nat)
    requires PackEntry(e, table).Ok?
    decreases e, 0
  {
    var k := PackValue(e.key, table).value;
    var v := PackValue(e.value, k.table).value;
    && Calm(e.key, table) && Calm(e.value, k.table)
    && CalmWrite(total, |k.bytes|) && CalmWrite(total + |k.bytes|, |v.bytes|)
  }

  // ---- Calm values come out right ----

  /** A writer in the middle of a container. */
  ghost predicate Underway(w: Writing, done: Bytes) {
    ContainerCapacity(w.capacity, w.offset) && (Exactly(w, done) || Spoilt(w, done))
  }

  /** What packing over a pool owes: the same errors and table, and never more bytes. */
  ghost predicate Keeps(packed: Outcome<Packed>, p: Pooled) {
    && Shaped(p.supply)
    && match packed
       case Err(e) => p.result == Err(e)
       case Ok(q) => p.result.Ok? && p.table == q.table && |p.result.value| <= |q.bytes|
  }

  ghost predicate KeepsWriter(packed: Outcome<Packed>, done: Bytes, p: PooledWriter) {
    && Shaped(p.supply)
    && match packed
       case Err(e) => p.result == Err(e)
       case Ok(q) => p.result.Ok? && p.table == q.table && Underway(p.result.value, done + q.bytes)
  }

  ghost predicate Right(packed: Outcome<Packed>, p: Pooled) {
    packed.Ok? ==> p.result == Ok(Known(packed.value.bytes))
  }

  ghost predicate RightWriter(packed: Outcome<Packed>, done: Bytes, p: PooledWriter) {
    packed.Ok? ==> p.result.Ok? && Exactly(p.result.value, done + packed.value.bytes)
  }

  lemma WriteUnderway(w: Writing, s: Supply, done: Bytes, cells: Cells, data: Bytes)
    requires Shaped(s) && Underway(w, done) && |cells| <= |data|
    ensures
      var (w', s') := Write(w, s, cells);
      && Shaped(s') && Underway(w', done + data)
      && (Exactly(w, done) && cells == Known(data) && CalmWrite(|done|, |data|) ==> Exactly(w', done + data))
      && (Exactly(w, done) && cells != Known(data) ==> Spoilt(w', done + data))
      && (Spoilt(w, done) ==> Spoilt(w', done + data))
  {
    hide Exactly, Spoilt, Shaped, RoomFor;
    RoomShaped(s, w.capacity, w.offset, |cells|);
    if Exactly(w, done) {
      ExactlyMeans(w, done);
      if cells == Known(data) {
        WriteIsExact(w, s, done, data);
      } else {
        WrongSpoils(w, s, done, cells, data);
      }
    } else {
      SpoiltStays(w, s, done, cells, data);
    }
  }

  lemma ExactlyMeans(w: Writing, done: Bytes)
    requires Exactly(w, done)
    ensures w.offset == |done| <= w.capacity && w.content == Known(done) && !Spoilt(w, done)
  {
  }

  ghost function Joined(q: Packed, rest: Outcome<Packed>): Outcome<Packed> {
    match rest
    case Err(e) => Err(e)
    case Ok(r) => Ok(Packed(q.bytes + r.bytes, r.table))
  }

  /** What has been written since `done` and what comes after it. */
  lemma JoinedWriter(q: Packed, rest: Outcome<Packed>, done: Bytes, p: PooledWriter)
    ensures KeepsWriter(rest, done + q.bytes, p) <==> KeepsWriter(Joined(q, rest), done, p)
    ensures RightWriter(rest, done + q.bytes, p) <==> RightWriter(Joined(q, rest), done, p)
  {
    if rest.Ok? {
      assert (done + q.bytes) + rest.value.bytes == done + (q.bytes + rest.value.bytes);
    }
  }

  lemma NumberSupplies(n: int, s: Supply)
    requires Shaped(s)
    ensures Shaped(IntegerSupply(n, s)) && Shaped(BigIntSupply(n, s)) && Shaped(FloatSupply(s))
  {
    hide Shaped;
    AcquireShaped(s, 5);
    AcquireShaped(s, 9);
    AcquireShaped(s, 8);
    var s1 := Start(s, 8).1;
    AcquireShaped(s1, 16);
    ReleaseShaped(AcquireFrom(s1, 16).1, 8);
  }

  lemma StringSupplies(length: nat, s: Supply)
    requires Shaped(s)
    ensures Shaped(StringSupply(length, s))
  {
    hide Shaped;
    if length <= 0x20 {
      AcquireShaped(s, 1 + length);
    } else {
      var (w, s1) := Start(s, length + 3);
      AcquireShaped(s, length + 3);
      var header := if length <= 0xff then 2 else 3;
      if length <= 0xffff && header + length > w.capacity {
        var size := Max(2 * w.capacity, header + length);
        AcquireShaped(s1, size);
        ReleaseShaped(AcquireFrom(s1, size).1, w.capacity);
      }
    }
  }

  lemma Opened(header: Byte, s: Supply)
    requires Shaped(s)
    ensures
      var (w, s') := OpenContainer(header, s);
      Shaped(s') && Underway(w, [header]) && Exactly(w, [header])
  {
    hide Shaped;
    AcquireShaped(s, CONTAINER_SIZE);
    var (w, s1) := Start(s, CONTAINER_SIZE);
    assert Exactly(w, []);
    WriteUnderway(w, s1, [], Known([header]), [header]);
    assert [] + [header] == [header];
  }

  /** The terminator always fits. */
  lemma Closed(p: PooledWriter, packed: Outcome<Packed>, header: Byte, count: nat)
    requires KeepsWriter(packed, [header], p)
    ensures
      var whole := Ended(packed, header, count);
      Keeps(whole, CloseContainer(p, count))
      && (RightWriter(packed, [header], p) <==> Right(whole, CloseContainer(p, count)))
  {
    hide Shaped;
    if packed.Ok? {
      var w, done := p.result.value, [header] + packed.value.bytes;
      if count >= 0xf {
        WriteUnderway(w, p.supply, done, Known([TERMINATOR]), [TERMINATOR]);
        var w' := Write(w, p.supply, Known([TERMINATOR])).0;
        FinishedContent(w', done + [TERMINATOR]);
      } else {
        assert done + [] == done;
        FinishedContent(w, done);
      }
    }
  }

  ghost function Ended(packed: Outcome<Packed>, header: Byte, count: nat): Outcome<Packed> {
    match packed
    case Err(e) => Err(e)
    case Ok(q) => Ok(Packed([header] + q.bytes + Trailer(count), q.table))
  }

  lemma FinishedContent(w: Writing, done: Bytes)
    requires Underway(w, done)
    ensures |w.content| <= |done| && (w.content == Known(done) <==> Exactly(w, done))
  {
    if w.content == Known(done) {
      assert |w.content| == |done|;
    }
  }

  lemma {:induction false} PackKeeps(v: Value, table: seq<Bytes>, s: Supply)
    requires Shaped(s)
    ensures Keeps(PackValue(v, table), PackWith(v, table, s))
    ensures PackValue(v, table).Ok? && Calm(v, table) ==> Right(PackValue(v, table), PackWith(v, table, s))
    decreases v, 1
  {
    hide Shaped, RightWriter, KeepsWriter, PackItems, PackItemsWith, CalmItems, PackEntries, PackEntriesWith;
    hide CalmEntries, OpenContainer, CloseContainer, IntegerSupply, BigIntSupply, FloatSupply, StringSupply;
    match v
    case Null =>
    case Bool(_) =>
    case Num(n) => NumberSupplies(n, s);
    case Big(n) => NumberSupplies(n, s);
    case Float(_) => NumberSupplies(0, s);
    case Str(t) => StringSupplies(|t|, s);
    case Data(_) =>
    case Arr(items) => PackArrayKeeps(items, table, s);
    case Dict(entries) => PackDictKeeps(entries, table, s);
  }

  lemma {:induction false} PackArrayKeeps(items: seq<Value>, table: seq<Bytes>, s: Supply)
    requires Shaped(s)
    ensures
      var packed, p := PackValue(Arr(items), table), PackWith(Arr(items), table, s);
      Keeps(packed, p) && (packed.Ok? && CalmItems(items, table, 1) ==> Right(packed, p))
    decreases items, 1
  {
    hide Shaped, RightWriter, KeepsWriter, Keeps, Right, PackItems, PackItemsWith, CalmItems, OpenContainer;
    hide CloseContainer;
    var header: Byte := 0xd0 + Min(|items|, 0xf);
    var (w, s1) := OpenContainer(header, s);
    Opened(header, s);
    PackItemsKeeps(items, table, w, [header], s1);
    Closed(PackItemsWith(items, table, w, s1), PackItems(items, table), header, |items|);
  }

  lemma {:induction false} PackDictKeeps(entries: seq<Entry>, table: seq<Bytes>, s: Supply)
    requires Shaped(s)
    ensures
      var packed, p := PackValue(Dict(entries), table), PackWith(Dict(entries), table, s);
      Keeps(packed, p) && (packed.Ok? && CalmEntries(entries, table, 1) ==> Right(packed, p))
    decreases entries, 1
  {
    hide Shaped, RightWriter, KeepsWriter, Keeps, Right, PackEntries, PackEntriesWith, CalmEntries, OpenContainer;
    hide CloseContainer;
    var header: Byte := 0xe0 + Min(|entries|, 0xf);
    var (w, s1) := OpenContainer(header, s);
    Opened(header, s);
    PackEntriesKeeps(entries, table, w, [header], s1);
    Closed(PackEntriesWith(entries, table, w, s1), PackEntries(entries, table), header, |entries|);
  }

  lemma NothingMore(w: Writing, done: Bytes, table: seq<Bytes>, s: Supply)
    requires Shaped(s) && Underway(w, done)
    ensures KeepsWriter(Ok(Packed([], table)), done, PooledWriter(Ok(w), table, s))
    ensures Exactly(w, done) ==> RightWriter(Ok(Packed([], table)), done, PooledWriter(Ok(w), table, s))
  {
    assert done + [] == done;
  }

  lemma FailedWriter(packed: Outcome<Packed>, done: Bytes, p: PooledWriter)
    requires packed.Err? && Shaped(p.supply) && p.result == Err(packed.error)
    ensures
      forall data: Outcome<Packed> | data == Err(packed.error) ::
        KeepsWriter(data, done, p) && RightWriter(data, done, p)
  {
  }

  lemma WriterMeans(packed: Outcome<Packed>, done: Bytes, p: PooledWriter)
    requires KeepsWriter(packed, done, p)
    ensures Shaped(p.supply)
    ensures match packed
            case Err(e) => p.result == Err(e)
            case Ok(q) =>
              && p.result.Ok? && p.table == q.table && Underway(p.result.value, done + q.bytes)
              && (RightWriter(packed, done, p) <==> Exactly(p.result.value, done + q.bytes))
  {
  }

  lemma {:induction false} PackItemsKeeps(items: seq<Value>, table: seq<Bytes>, w: Writing, done: Bytes, s: Supply)
    requires Shaped(s) && Underway(w, done)
    ensures KeepsWriter(PackItems(items, table), done, PackItemsWith(items, table, w, s))
    ensures Exactly(w, done) && PackItems(items, table).Ok? && CalmItems(items, table, |done|) ==>
              RightWriter(PackItems(items, table), done, PackItemsWith(items, table, w, s))
    decreases items, 0
  {
    hide Shaped, Underway, Exactly, Spoilt, Write, KeepsWriter, RightWriter;
    if items == [] {
      NothingMore(w, done, table, s);
    } else {
      var packed, p := PackValue(items[0], table), PackWith(items[0], table, s);
      PackKeeps(items[0], table, s);
      if packed.Ok? {
        var q := packed.value;
        WriteUnderway(w, p.supply, done, p.result.value, q.bytes);
        var (w', s') := Write(w, p.supply, p.result.value);
        PackItemsKeeps(items[1..], q.table, w', done + q.bytes, s');
        JoinedWriter(q, PackItems(items[1..], q.table), done, PackItemsWith(items[1..], q.table, w', s'));
      } else {
        FailedWriter(packed, done, PackItemsWith(items, table, w, s));
      }
    }
  }

  lemma {:induction false} PackEntriesKeeps(entries: seq<Entry>, table: seq<Bytes>, w: Writing, done: Bytes, s: Supply)
    requires Shaped(s) && Underway(w, done)
    ensures KeepsWriter(PackEntries(entries, table), done, PackEntriesWith(entries, table, w, s))
    ensures Exactly(w, done) && PackEntries(entries, table).Ok? && CalmEntries(entries, table, |done|) ==>
              RightWriter(PackEntries(entries, table), done, PackEntriesWith(entries, table, w, s))
    decreases entries, 0
  {
    hide Shaped, Underway, Exactly, Spoilt, CalmEntry, PackEntry, PackEntryWith, KeepsWriter, RightWriter;
    if entries == [] {
      NothingMore(w, done, table, s);
    } else {
      var packed, p := PackEntry(entries[0], table), PackEntryWith(entries[0], table, w, s);
      PackEntryKeeps(entries[0], table, w, done, s);
      WriterMeans(packed, done, p);
      if packed.Ok? {
        var q := packed.value;
        PackEntriesKeeps(entries[1..], q.table, p.result.value, done + q.bytes, p.supply);
        JoinedWriter(q, PackEntries(entries[1..], q.table), done,
                     PackEntriesWith(entries[1..], q.table, p.result.value, p.supply));
      } else {
        FailedWriter(packed, done, PackEntriesWith(entries, table, w, s));
      }
    }
  }

  lemma {:induction false} PackEntryKeeps(e: Entry, table: seq<Bytes>, w: Writing, done: Bytes, s: Supply)
    requires Shaped(s) && Underway(w, done)
    ensures KeepsWriter(PackEntry(e, table), done, PackEntryWith(e, table, w, s))
    ensures Exactly(w, done) && PackEntry(e, table).Ok? && CalmEntry(e, table, |done|) ==>
              RightWriter(PackEntry(e, table), done, PackEntryWith(e, table, w, s))
    decreases e, 0
  {
    hide Shaped, Underway, Exactly, Write;
    var k := PackWith(e.key, table, s);
    PackKeeps(e.key, table, s);
    if PackValue(e.key, table).Ok? {
      var key := PackValue(e.key, table).value;
      var v := PackWith(e.value, key.table, k.supply);
      PackKeeps(e.value, key.table, k.supply);
      if PackValue(e.value, key.table).Ok? {
        var value := PackValue(e.value, key.table).value;
        WriteUnderway(w, v.supply, done, k.result.value, key.bytes);
        var (w1, s1) := Write(w, v.supply, k.result.value);
        WriteUnderway(w1, s1, done + key.bytes, v.result.value, value.bytes);
        assert (done + key.bytes) + value.bytes == done + (key.bytes + value.bytes);
      }
    }
  }

  // ---- Other values do not ----

  /** A pool with enough buffers under 1024, all as short as they come. */
  ghost predicate Deep(s: Supply, n: nat) {
    && Shaped(s) && |Waiting(s, 1024)| >= n
    && forall i | 0 <= i < |Waiting(s, 1024)| :: Waiting(s, 1024)[i] == 513
  }

  /** How often packing a value takes a buffer from under 1024, at the most. */
  function Pops(v: Value): nat
    decreases v, 1
  {
    match v
    case Str(_) => 1
    case Arr(items) => 1 + PopsOfItems(items)
    case Dict(entries) => 1 + PopsOfEntries(entries)
    case _ => 0
  }

  function PopsOfItems(items: seq<Value>): nat
    decreases items, 0
  {
    if items == [] then 0 else Pops(items[0]) + PopsOfItems(items[1..])
  }

  function PopsOfEntries(entries: seq<Entry>): nat
    decreases entries, 0
  {
    if entries == [] then 0 else PopsOfEntry(entries[0]) + PopsOfEntries(entries[1..])
  }

  function PopsOfEntry(e: Entry): nat
    decreases e, 0
  {
    Pops(e.key) + Pops(e.value)
  }

  /** A writer takes one such buffer in its life. */
  function Budget(capacity: nat): nat {
    if capacity <= 512 then 1 else 0
  }

  ghost predicate DeepCapacity(capacity: nat, offset: nat) {
    && (capacity in {256, 512, 513} || capacity > 1024)
    && ContainerCapacity(capacity, offset)
    && (offset <= 512 ==> capacity <= 512)
  }

  lemma AcquireDeep(s: Supply, n: nat, size: nat)
    requires Deep(s, n + if Large(size) then 1 else 0)
    ensures
      var (length, s') := AcquireFrom(s, size);
      Deep(s', n) && length == if Large(size) then 513 else size
  {
    hide BucketSize;
    BucketOf(size);
    AcquireShaped(s, size);
  }

  lemma ReleaseDeep(s: Supply, n: nat, length: nat)
    requires Deep(s, n) && (length in {8, 256, 512, 513} || length > 1024)
    ensures Deep(ReleaseTo(s, length), n)
  {
    hide BucketSize;
    BucketOf(length);
    ReleaseShaped(s, length);
  }

  lemma RoomDeep(s: Supply, n: nat, capacity: nat, offset: nat, k: nat)
    requires DeepCapacity(capacity, offset) && Deep(s, n + Budget(capacity))
    ensures
      var (c, s') := RoomFor(s, capacity, offset, k);
      && Deep(s', n + Budget(c)) && DeepCapacity(c, offset + k)
      && (offset <= capacity && !CalmWrite(offset, k) ==> c < offset + k)
  {
    hide Deep;
    if offset + k > capacity {
      var size := Max(2 * capacity, offset + k);
      assert Large(size) ==> capacity <= 512;
      Shallower(s, n + Budget(capacity), n + if Large(size) then 1 else 0);
      AcquireDeep(s, n, size);
      ReleaseDeep(AcquireFrom(s, size).1, n, capacity);
      if size <= 512 {
        AcquireDeep(s, n + 1, size);
        ReleaseDeep(AcquireFrom(s, size).1, n + 1, capacity);
      }
    }
  }

  lemma Shallower(s: Supply, n: nat, m: nat)
    requires Deep(s, n) && m <= n
    ensures Deep(s, m)
  {
  }

  lemma DeepString(length: nat, s: Supply, n: nat)
    requires Deep(s, n + 1)
    ensures Deep(StringSupply(length, s), n)
  {
    hide Deep;
    Shallower(s, n + 1, n);
    if length <= 0x20 {
      AcquireDeep(s, n, 1 + length);
    } else {
      var (w, s1) := Start(s, length + 3);
      AcquireDeep(s, n, length + 3);
      var header := if length <= 0xff then 2 else 3;
      if length <= 0xffff && header + length > w.capacity {
        var size := Max(2 * w.capacity, header + length);
        AcquireDeep(s1, n, size);
        ReleaseDeep(AcquireFrom(s1, size).1, n, w.capacity);
      }
    }
  }

  lemma DeepNumbers(m: int, s: Supply, n: nat)
    requires Deep(s, n)
    ensures Deep(IntegerSupply(m, s), n) && Deep(BigIntSupply(m, s), n) && Deep(FloatSupply(s), n)
  {
    hide Deep;
    AcquireDeep(s, n, 5);
    AcquireDeep(s, n, 9);
    AcquireDeep(s, n, 8);
    var s1 := Start(s, 8).1;
    AcquireDeep(s1, n, 16);
    ReleaseDeep(AcquireFrom(s1, 16).1, n, 8);
  }

  ghost predicate DeepWriter(w: Writing, s: Supply, n: nat) {
    DeepCapacity(w.capacity, w.offset) && Deep(s, n + Budget(w.capacity))
  }

  lemma DeepWrite(w: Writing, s: Supply, n: nat, done: Bytes, cells: Cells, data: Bytes)
    requires DeepWriter(w, s, n) && Underway(w, done) && |cells| <= |data|
    ensures
      var (w', s') := Write(w, s, cells);
      && DeepWriter(w', s', n) && Underway(w', done + data)
      && (Exactly(w', done + data) ==> Exactly(w, done) && cells == Known(data) && CalmWrite(|done|, |data|))
  {
    hide Exactly, Spoilt, RoomFor, Shaped;
    RoomDeep(s, n, w.capacity, w.offset, |cells|);
    DeepIsShaped(s, n + Budget(w.capacity));
    WriteUnderway(w, s, done, cells, data);
    var w' := Write(w, s, cells).0;
    if Exactly(w', done + data) {
      ExactlyMeans(w', done + data);
      if Exactly(w, done) {
        ExactlyMeans(w, done);
      }
    }
  }

  lemma DeepIsShaped(s: Supply, n: nat)
    requires Deep(s, n)
    ensures Shaped(s)
  {
  }

  lemma DeepOpened(header: Byte, s: Supply, n: nat)
    requires Deep(s, n + 1)
    ensures
      var (w, s') := OpenContainer(header, s);
      DeepWriter(w, s', n) && Underway(w, [header]) && Exactly(w, [header])
  {
    hide Deep, Shaped;
    AcquireDeep(s, n + 1, CONTAINER_SIZE);
    var (w, s1) := Start(s, CONTAINER_SIZE);
    DeepIsShaped(s, n + 1);
    Opened(header, s);
    assert Exactly(w, []);
    DeepWrite(w, s1, n, [], Known([header]), [header]);
  }

  lemma DeepClosed(p: PooledWriter, count: nat, n: nat)
    requires p.result.Ok? && DeepWriter(p.result.value, p.supply, n)
    ensures Deep(CloseContainer(p, count).supply, n)
  {
    hide Deep;
    var w := p.result.value;
    Shallower(p.supply, n + Budget(w.capacity), n);
    RoomDeep(p.supply, n, w.capacity, w.offset, 1);
    var (c, s') := RoomFor(p.supply, w.capacity, w.offset, 1);
    Shallower(s', n + Budget(c), n);
  }

  /** Over such a pool, only calm values come out right. */
  lemma {:induction false} DeepPack(v: Value, table: seq<Bytes>, s: Supply, n: nat)
    requires Deep(s, Pops(v) + n) && PackValue(v, table).Ok?
    ensures Deep(PackWith(v, table, s).supply, n)
    ensures Right(PackValue(v, table), PackWith(v, table, s)) ==> Calm(v, table)
    decreases v, 1
  {
    hide Deep, DeepWriter, RightWriter, KeepsWriter, Underway, Exactly, PackItems, PackItemsWith, CalmItems;
    hide PackEntries, PackEntriesWith, CalmEntries, PopsOfItems, PopsOfEntries;
    DeepIsShaped(s, Pops(v) + n);
    match v
    case Null =>
    case Bool(_) =>
    case Num(m) => DeepNumbers(m, s, n);
    case Big(m) => DeepNumbers(m, s, n);
    case Float(_) => DeepNumbers(0, s, n);
    case Str(t) =>
      DeepString(|t|, s, n);
    case Data(_) =>
    case Arr(items) => DeepPackArray(items, table, s, n);
    case Dict(entries) => DeepPackDict(entries, table, s, n);
  }

  lemma DeepEnd(p: PooledWriter, packed: Outcome<Packed>, header: Byte, count: nat, n: nat)
    requires KeepsWriter(packed, [header], p) && p.result.Ok? && DeepWriter(p.result.value, p.supply, n)
    ensures Deep(CloseContainer(p, count).supply, n)
    ensures Right(Ended(packed, header, count), CloseContainer(p, count)) <==> RightWriter(packed, [header], p)
  {
    hide Deep, DeepWriter, KeepsWriter, RightWriter, Right;
    Closed(p, packed, header, count);
    DeepClosed(p, count, n);
  }

  lemma {:induction false} DeepPackArray(items: seq<Value>, table: seq<Bytes>, s: Supply, n: nat)
    requires Deep(s, Pops(Arr(items)) + n) && PackItems(items, table).Ok?
    ensures Deep(PackWith(Arr(items), table, s).supply, n)
    ensures Right(PackValue(Arr(items), table), PackWith(Arr(items), table, s)) ==> CalmItems(items, table, 1)
    decreases items, 1
  {
    hide Deep, DeepWriter, RightWriter, KeepsWriter, Underway, Exactly, PackItems, PackItemsWith, CalmItems,
        OpenContainer, Shaped;
    var header: Byte := 0xd0 + Min(|items|, 0xf);
    var (w, s1) := OpenContainer(header, s);
    DeepIsShaped(s, Pops(Arr(items)) + n);
    DeepOpened(header, s, PopsOfItems(items) + n);
    Opened(header, s);
    DeepPackItems(items, table, w, [header], s1, n);
    PackItemsKeeps(items, table, w, [header], s1);
    DeepEnd(PackItemsWith(items, table, w, s1), PackItems(items, table), header, |items|, n);
  }

  lemma {:induction false} DeepPackDict(entries: seq<Entry>, table: seq<Bytes>, s: Supply, n: nat)
    requires Deep(s, Pops(Dict(entries)) + n) && PackEntries(entries, table).Ok?
    ensures Deep(PackWith(Dict(entries), table, s).supply, n)
    ensures Right(PackValue(Dict(entries), table), PackWith(Dict(entries), table, s)) ==> CalmEntries(entries, table, 1)
    decreases entries, 1
  {
    hide Deep, DeepWriter, RightWriter, KeepsWriter, Underway, Exactly, PackEntries, PackEntriesWith, CalmEntries,
        OpenContainer, Shaped;
    var header: Byte := 0xe0 + Min(|entries|, 0xf);
    var (w, s1) := OpenContainer(header, s);
    DeepIsShaped(s, Pops(Dict(entries)) + n);
    DeepOpened(header, s, PopsOfEntries(entries) + n);
    Opened(header, s);
    DeepPackEntries(entries, table, w, [header], s1, n);
    PackEntriesKeeps(entries, table, w, [header], s1);
    DeepEnd(PackEntriesWith(entries, table, w, s1), PackEntries(entries, table), header, |entries|, n);
  }

  lemma {:induction false} DeepPackItems(items: seq<Value>, table: seq<Bytes>, w: Writing, done: Bytes, s: Supply,
      n: nat)
    requires PackItems(items, table).Ok? && Underway(w, done)
    requires DeepWriter(w, s, PopsOfItems(items) + n)
    ensures
      var p := PackItemsWith(items, table, w, s);
      && p.result.Ok? && DeepWriter(p.result.value, p.supply, n)
      && (RightWriter(PackItems(items, table), done, p) ==> Exactly(w, done) && CalmItems(items, table, |done|))
    decreases items, 0
  {
    hide Underway, Exactly, Spoilt, Write, KeepsWriter, RightWriter, DeepWriter, Shaped, CalmWrite, Pops, PackWith,
        PackValue, Calm;
    if items == [] {
      NothingRight(w, done, table, s);
    } else {
      var p, q := PackWith(items[0], table, s), PackValue(items[0], table).value;
      DeepPackItem(items[0], table, w, done, s, PopsOfItems(items[1..]) + n);
      var (w', s') := Write(w, p.supply, p.result.value);
      DeepPackItems(items[1..], q.table, w', done + q.bytes, s', n);
      JoinedWriter(q, PackItems(items[1..], q.table), done, PackItemsWith(items[1..], q.table, w', s'));
    }
  }

  lemma {:induction false} DeepPackItem(v: Value, table: seq<Bytes>, w: Writing, done: Bytes, s: Supply, n: nat)
    requires PackValue(v, table).Ok? && Underway(w, done)
    requires DeepWriter(w, s, Pops(v) + n)
    ensures
      var p, q := PackWith(v, table, s), PackValue(v, table).value;
      && p.result.Ok? && p.table == q.table && |p.result.value| <= |q.bytes|
      && var (w', s') := Write(w, p.supply, p.result.value);
         && DeepWriter(w', s', n) && Underway(w', done + q.bytes)
         && (Exactly(w', done + q.bytes) ==> Exactly(w, done) && Calm(v, table) && CalmWrite(|done|, |q.bytes|))
    decreases v, 2
  {
    hide Underway, Exactly, Spoilt, Write, Deep, Shaped, CalmWrite, Pops, Budget, PackWith, PackValue, Calm;
    var reserved := Budget(w.capacity) + n;
    DeepPack(v, table, s, reserved);
    DeepIsShaped(s, Pops(v) + reserved);
    PackKeeps(v, table, s);
    DeepWrite(w, PackWith(v, table, s).supply, n, done, PackWith(v, table, s).result.value,
        PackValue(v, table).value.bytes);
  }

  lemma NothingRight(w: Writing, done: Bytes, table: seq<Bytes>, s: Supply)
    ensures RightWriter(Ok(Packed([], table)), done, PooledWriter(Ok(w), table, s)) <==> Exactly(w, done)
  {
    assert done + [] == done;
  }

  lemma {:induction false} DeepPackEntries(
    entries: seq<Entry>, table: seq<Bytes>, w: Writing, done: Bytes, s: Supply, n: nat)
    requires PackEntries(entries, table).Ok? && Underway(w, done)
    requires DeepWriter(w, s, PopsOfEntries(entries) + n)
    ensures
      var p := PackEntriesWith(entries, table, w, s);
      && p.result.Ok? && DeepWriter(p.result.value, p.supply, n)
      && (RightWriter(PackEntries(entries, table), done, p) ==> Exactly(w, done) && CalmEntries(entries, table, |done|))
    decreases entries, 0
  {
    hide Underway, Exactly, Spoilt, KeepsWriter, RightWriter, Deep, Shaped, PackEntry, PackEntryWith, CalmEntry,
        DeepWriter;
    if entries == [] {
      NothingRight(w, done, table, s);
    } else {
      var later := PopsOfEntries(entries[1..]) + n;
      var p, q := PackEntryWith(entries[0], table, w, s), PackEntry(entries[0], table).value;
      DeepPackEntry(entries[0], table, w, done, s, later);
      DeepPackEntries(entries[1..], q.table, p.result.value, done + q.bytes, p.supply, n);
      JoinedWriter(q, PackEntries(entries[1..], q.table), done,
                   PackEntriesWith(entries[1..], q.table, p.result.value, p.supply));
    }
  }

  lemma {:induction false} DeepPackEntry(e: Entry, table: seq<Bytes>, w: Writing, done: Bytes, s: Supply, n: nat)
    requires PackEntry(e, table).Ok? && Underway(w, done)
    requires DeepWriter(w, s, PopsOfEntry(e) + n)
    ensures
      var p, q := PackEntryWith(e, table, w, s), PackEntry(e, table).value;
      && p.result.Ok? && p.table == q.table && DeepWriter(p.result.value, p.supply, n)
      && Underway(p.result.value, done + q.bytes)
      && (Exactly(p.result.value, done + q.bytes) ==> Exactly(w, done) && CalmEntry(e, table, |done|))
    decreases e, 0
  {
    hide Underway, Exactly, Spoilt, Write, Deep, Shaped, CalmWrite, Pops, Budget, PackWith, PackValue, Calm;
    var reserved := Budget(w.capacity) + n;
    var k, key := PackWith(e.key, table, s), PackValue(e.key, table).value;
    DeepPack(e.key, table, s, Pops(e.value) + reserved);
    DeepIsShaped(s, Pops(e.key) + Pops(e.value) + reserved);
    PackKeeps(e.key, table, s);
    var v, value := PackWith(e.value, key.table, k.supply), PackValue(e.value, key.table).value;
    DeepPack(e.value, key.table, k.supply, reserved);
    PackKeeps(e.value, key.table, k.supply);
    DeepTwoWrites(w, v.supply, n, done, k.result.value, key.bytes, v.result.value, value.bytes);
  }

  lemma DeepTwoWrites(
    w: Writing, s: Supply, n: nat, done: Bytes, a: Cells, key: Bytes, b: Cells, value: Bytes)
    requires DeepWriter(w, s, n) && Underway(w, done) && |a| <= |key| && |b| <= |value|
    ensures
      var (w1, s1) := Write(w, s, a);
      var (w2, s2) := Write(w1, s1, b);
      && DeepWriter(w2, s2, n) && Underway(w2, done + (key + value))
      && (Exactly(w2, done + (key + value)) ==>
            && Exactly(w, done) && a == Known(key) && b == Known(value)
            && CalmWrite(|done|, |key|) && CalmWrite(|done| + |key|, |value|))
  {
    hide Underway, Exactly, Spoilt, Write, DeepWriter;
    DeepWrite(w, s, n, done, a, key);
    var (w1, s1) := Write(w, s, a);
    DeepWrite(w1, s1, n, done + key, b, value);
    assert (done + key) + value == done + (key + value);
  }

  // ---- The condition is exact ----

  /** What packing a value over a pool may return. */
  ghost predicate MayReturn(v: Value, table: seq<Bytes>, s: Supply, bytes: Bytes) {
    var r := PackWith(v, table, s).result;
    r.Ok? && Shows(bytes, r.value)
  }

  /**
   Over all pools of that shape, of any number of buffers, the right bytes are returned if and only if the value
   is calm.
   */
  lemma CalmIsExact(v: Value, table: seq<Bytes>)
    requires PackValue(v, table).Ok?
    ensures Calm(v, table) <==>
            forall s, bytes | Shaped(s) && MayReturn(v, table, s, bytes) :: bytes == PackValue(v, table).value.bytes
  {
    hide PackWith, Shaped, Calm, Deep;
    var right := PackValue(v, table).value.bytes;
    if Calm(v, table) {
      forall s, bytes | Shaped(s) && MayReturn(v, table, s, bytes) ensures bytes == right {
        PackKeeps(v, table, s);
        KnownIsDetermined(Known(right), right);
      }
    } else {
      var s := DeepPool(Pops(v));
      var bytes := DeepPoolSpoils(v, table, s);
    }
  }

  lemma DeepPool(n: nat) returns (s: Supply)
    ensures Deep(s, n) && (n <= OPACK_POOL.maxPerBucket ==> Keepable(s))
  {
    s := Pool(OPACK_POOL, map[1024 := seq(n, _ => 513)]);
  }

  /** No bucket holds more buffers than the pool keeps. */
  ghost predicate Keepable(s: Supply) {
    s.Pool? && forall b | b in s.waiting :: |s.waiting[b]| <= s.config.maxPerBucket
  }

  /** The pool of the encoder never holds more. */
  lemma StaysKeepable(s: Supply, n: nat)
    requires Keepable(s)
    ensures Keepable(AcquireFrom(s, n).1) && Keepable(ReleaseTo(s, n))
  {
  }

  /** Over the pools there can be: the same for values with no more than five strings and containers in them. */
  lemma CalmIsExactForFew(v: Value, table: seq<Bytes>)
    requires PackValue(v, table).Ok? && Pops(v) <= OPACK_POOL.maxPerBucket
    ensures
      Calm(v, table) <==>
        forall s, bytes | Shaped(s) && Keepable(s) && MayReturn(v, table, s, bytes) ::
          bytes == PackValue(v, table).value.bytes
  {
    hide PackWith, Calm, Shaped;
    if Calm(v, table) {
      CalmIsExact(v, table);
    } else {
      var s := DeepPool(Pops(v));
      var bytes := DeepPoolSpoils(v, table, s);
    }
  }

  lemma DeepPoolSpoils(v: Value, table: seq<Bytes>, s: Supply) returns (bytes: Bytes)
    requires PackValue(v, table).Ok? && !Calm(v, table) && Deep(s, Pops(v))
    ensures Shaped(s) && MayReturn(v, table, s, bytes) && bytes != PackValue(v, table).value.bytes
  {
    hide PackWith, Shaped, Calm, Deep;
    DeepIsShaped(s, Pops(v));
    DeepPack(v, table, s, 0);
    PackKeeps(v, table, s);
    var cells := PackWith(v, table, s).result.value;
    KnownIsDetermined(cells, PackValue(v, table).value.bytes);
    bytes :| Shows(bytes, cells) && bytes != PackValue(v, table).value.bytes;
  }

  /** Enough for a caller to look at: no more than 512 bytes in all. */
  lemma {:induction false} SmallIsCalm(v: Value, table: seq<Bytes>)
    requires PackValue(v, table).Ok? && |PackValue(v, table).value.bytes| <= 512
    ensures Calm(v, table)
    decreases v, 1
  {
    match v
    case Arr(items) => SmallItemsAreCalm(items, table, 1);
    case Dict(entries) => SmallEntriesAreCalm(entries, table, 1);
    case _ =>
  }

  lemma {:induction false} SmallItemsAreCalm(items: seq<Value>, table: seq<Bytes>, total: nat)
    requires PackItems(items, table).Ok? && total + |PackItems(items, table).value.bytes| <= 512
    ensures CalmItems(items, table, total)
    decreases items, 0
  {
    if items != [] {
      SmallIsCalm(items[0], table);
      var p := PackValue(items[0], table).value;
      SmallItemsAreCalm(items[1..], p.table, total + |p.bytes|);
    }
  }

  lemma {:induction false} SmallEntriesAreCalm(entries: seq<Entry>, table: seq<Bytes>, total: nat)
    requires PackEntries(entries, table).Ok? && total + |PackEntries(entries, table).value.bytes| <= 512
    ensures CalmEntries(entries, table, total)
    decreases entries, 0
  {
    if entries != [] {
      SmallEntryIsCalm(entries[0], table, total);
      var p := PackEntry(entries[0], table).value;
      SmallEntriesAreCalm(entries[1..], p.table, total + |p.bytes|);
    }
  }

  lemma {:induction false} SmallEntryIsCalm(e: Entry, table: seq<Bytes>, total: nat)
    requires PackEntry(e, table).Ok? && total + |PackEntry(e, table).value.bytes| <= 512
    ensures CalmEntry(e, table, total)
    decreases e, 0
  {
    SmallIsCalm(e.key, table);
    SmallIsCalm(e.value, PackValue(e.key, table).value.table);
  }

  /** Over any pool, a calm value comes back if and only if its references are in sync. */
  lemma PooledRoundTrip(v: Value, s: Supply, bytes: Bytes)
    requires OpackRoundTrip.WellFormed(v) && OpackRoundTrip.InRange(v) && !v.Null?
    requires Shaped(s) && MayReturn(v, [], s, bytes)
    ensures PackValue(v, []).Ok?
    ensures Calm(v, []) ==> (Decode(bytes) == Ok(v) <==> OpackRoundTrip.ReferencesInSync(v))
  {
    OpackRoundTrip.PackSucceedsInRange(v, []);
    if Calm(v, []) {
      CalmIsExact(v, []);
      OpackRoundTrip.RoundTrip(v);
    }
  }
}
