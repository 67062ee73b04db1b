/**
 BufferPool (src/core/encoding/buffer-utils.ts, lines 14-78): buffers waiting in buckets. A buffer is
 filed under the smallest bucket it fits in and may be shorter than that, so what `acquire` returns
 may be shorter than what was asked for.
 */
module BufferPools {
  import opened ByteStrings

  /** `subarray(0, length)` of an array. */
  datatype Slice = Slice(memory: array<Byte>, length: nat) {
    predicate Valid() {
      length <= memory.Length
    }
  }

  function BucketSize(buckets: seq<nat>, size: nat): (b: nat)
    ensures b >= size
  {
    if buckets == [] then size
    else if size <= buckets[0] then buckets[0]
    else BucketSize(buckets[1..], size)
  }

  /** A size that is a bucket, with only smaller ones before it, or larger than all of them. */
  lemma {:induction false} BucketsFrom(buckets: seq<nat>, size: nat)
    requires forall i, j | 0 <= i < j < |buckets| :: buckets[i] < buckets[j]
    requires size in buckets || forall i | 0 <= i < |buckets| :: buckets[i] < size
    ensures BucketSize(buckets, size) == size
  {
    if buckets != [] && buckets[0] < size {
      assert size in buckets ==> size in buckets[1..];
      BucketsFrom(buckets[1..], size);
    }
  }

  /** Of ascending buckets the smallest that fits, and the size itself beyond the last. */
  lemma {:induction false} BucketIs(buckets: seq<nat>, size: nat)
    requires forall i, j | 0 <= i < j < |buckets| :: buckets[i] < buckets[j]
    ensures
      var b := BucketSize(buckets, size);
      && (forall i | 0 <= i < |buckets| && buckets[i] >= size :: b <= buckets[i])
      && (if exists i :: 0 <= i < |buckets| && buckets[i] >= size then b in buckets else b == size)
  {
    if buckets != [] && buckets[0] < size {
      BucketIs(buckets[1..], size);
      assert buckets == [buckets[0]] + buckets[1..];
      assert forall i | 0 < i < |buckets| :: buckets[i] == buckets[1..][i - 1];
    }
  }

  // ---- What a pool holds: the lengths of its buffers ----

  datatype Config = Config(sizeBuckets: seq<nat>, maxPerBucket: nat, clearOnRelease: bool)

  /** Where a writer gets its memory: new, or from a pool, whose waiting buffers are listed oldest first. */
  datatype Supply = NoPool | Pool(config: Config, waiting: map<nat, seq<nat>>)

  function Waiting(s: Supply, bucket: nat): seq<nat> {
    if s.Pool? && bucket in s.waiting then s.waiting[bucket] else []
  }

  /** The length of the buffer that `acquire(size)` returns, and what is left. */
  function AcquireFrom(s: Supply, size: nat): (r: (nat, Supply))
    ensures r.0 <= size
  {
    if s.NoPool? then (size, s)
    else
      var bucket := BucketSize(s.config.sizeBuckets, size);
      var lengths := Waiting(s, bucket);
      if lengths == [] then (size, s)
      else (Min(size, lengths[|lengths| - 1]), s.(waiting := s.waiting[bucket := lengths[..|lengths| - 1]]))
  }

  function ReleaseTo(s: Supply, length: nat): Supply {
    if s.NoPool? then s
    else
      var bucket := BucketSize(s.config.sizeBuckets, length);
      var lengths := Waiting(s, bucket);
      s.(waiting := s.waiting[bucket := if |lengths| < s.config.maxPerBucket then lengths + [length] else lengths])
  }

  /** What was given back last is handed out next, cut to the size; a full bucket takes nothing more. */
  lemma ReleasedIsNext(s: Supply, length: nat, size: nat)
    requires s.Pool? && BucketSize(s.config.sizeBuckets, length) == BucketSize(s.config.sizeBuckets, size)
    ensures
      var bucket := BucketSize(s.config.sizeBuckets, size);
      var (got, after) := AcquireFrom(ReleaseTo(s, length), size);
      && (|Waiting(s, bucket)| < s.config.maxPerBucket ==>
            got == Min(size, length) && Waiting(after, bucket) == Waiting(s, bucket))
      && (|Waiting(s, bucket)| >= s.config.maxPerBucket ==> Waiting(ReleaseTo(s, length), bucket) == Waiting(s, bucket))
      && forall b | b != bucket :: Waiting(after, b) == Waiting(s, b)
  {
    hide BucketSize;
    var bucket := BucketSize(s.config.sizeBuckets, size);
    assert (Waiting(s, bucket) + [length])[..|Waiting(s, bucket)|] == Waiting(s, bucket);
  }

  // ---- The buckets of a pool ----

  type Buckets = map<nat, seq<Slice>>

  function InBucket(pools: Buckets, bucket: nat): seq<Slice> {
    if bucket in pools then pools[bucket] else []
  }

  /** The memory of the waiting buffers. */
  ghost function MemoriesOf(pools: Buckets): set<array<Byte>> {
    set bucket, i | bucket in pools && 0 <= i < |pools[bucket]| :: pools[bucket][i].memory
  }

  /** No two waiting buffers share memory. */
  ghost predicate Separate(pools: Buckets) {
    && (forall b, i | b in pools && 0 <= i < |pools[b]| :: pools[b][i].Valid())
    && (forall b, i, j | b in pools && 0 <= i < j < |pools[b]| :: pools[b][i].memory != pools[b][j].memory)
    && (forall a, b, i, j | a in pools && b in pools && a != b && 0 <= i < |pools[a]| && 0 <= j < |pools[b]| ::
          pools[a][i].memory != pools[b][j].memory)
  }

  /** Every waiting buffer is the whole of its memory and exactly of its bucket's size. */
  ghost predicate Whole(pools: Buckets) {
    forall b, i | b in pools && 0 <= i < |pools[b]| :: pools[b][i].length == pools[b][i].memory.Length == b
  }

  function LengthsIn(slices: seq<Slice>): (r: seq<nat>)
    ensures |r| == |slices|
  {
    seq(|slices|, i requires 0 <= i < |slices| => slices[i].length)
  }

  function LengthsOf(pools: Buckets): map<nat, seq<nat>> {
    map bucket | bucket in pools :: LengthsIn(pools[bucket])
  }

  /** A bucket without its newest buffer. */
  lemma Popped(pools: Buckets, bucket: nat)
    requires Separate(pools) && InBucket(pools, bucket) != []
    ensures
      var pool := pools[bucket];
      var rest := pools[bucket := pool[..|pool| - 1]];
      && Separate(rest)
      && MemoriesOf(rest) == MemoriesOf(pools) - {pool[|pool| - 1].memory}
      && pool[|pool| - 1].memory in MemoriesOf(pools)
      && (Whole(pools) ==> Whole(rest))
      && LengthsOf(rest) == LengthsOf(pools)[bucket := LengthsOf(pools)[bucket][..|pool| - 1]]
  {
    hide MemoriesOf;
    var pool := pools[bucket];
    PoppedMemories(pools, bucket);
    assert LengthsIn(pool[..|pool| - 1]) == LengthsIn(pool)[..|pool| - 1];
  }

  lemma PoppedMemories(pools: Buckets, bucket: nat)
    requires Separate(pools) && InBucket(pools, bucket) != []
    ensures
      var pool := pools[bucket];
      && MemoriesOf(pools[bucket := pool[..|pool| - 1]]) == MemoriesOf(pools) - {pool[|pool| - 1].memory}
      && pool[|pool| - 1].memory in MemoriesOf(pools)
  {
    var pool := pools[bucket];
    var last := pool[|pool| - 1];
    var rest := pools[bucket := pool[..|pool| - 1]];
    forall b, i | b in pools && 0 <= i < |pools[b]| && pools[b][i].memory != last.memory
      ensures pools[b][i].memory in MemoriesOf(rest)
    {
      assert b in rest && i < |rest[b]| && rest[b][i] == pools[b][i];
    }
    forall b, i | b in rest && 0 <= i < |rest[b]|
      ensures rest[b][i].memory in MemoriesOf(pools) && rest[b][i].memory != last.memory
    {
      assert b in pools && i < |pools[b]| && rest[b][i] == pools[b][i];
    }
  }

  /** A bucket with one more. */
  lemma Pushed(pools: Buckets, bucket: nat, buffer: Slice)
    requires Separate(pools) && buffer.Valid() && buffer.memory !in MemoriesOf(pools)
    ensures
      var after := pools[bucket := InBucket(pools, bucket) + [buffer]];
      && Separate(after)
      && MemoriesOf(after) == MemoriesOf(pools) + {buffer.memory}
      && (Whole(pools) && buffer.length == buffer.memory.Length == bucket ==> Whole(after))
      && LengthsOf(after) == LengthsOf(pools)[bucket := LengthsIn(InBucket(pools, bucket)) + [buffer.length]]
  {
    hide MemoriesOf;
    PushedMemories(pools, bucket, buffer);
    PushedSeparate(pools, bucket, buffer);
    var pool := InBucket(pools, bucket);
    assert LengthsIn(pool + [buffer]) == LengthsIn(pool) + [buffer.length];
  }

  lemma PushedMemories(pools: Buckets, bucket: nat, buffer: Slice)
    ensures MemoriesOf(pools[bucket := InBucket(pools, bucket) + [buffer]]) == MemoriesOf(pools) + {buffer.memory}
  {
    var after := pools[bucket := InBucket(pools, bucket) + [buffer]];
    forall b, i | b in pools && 0 <= i < |pools[b]| ensures pools[b][i].memory in MemoriesOf(after) {
      assert b in after && i < |after[b]| && after[b][i] == pools[b][i];
    }
    var last := |after[bucket]| - 1;
    assert bucket in after && 0 <= last < |after[bucket]| && after[bucket][last] == buffer;
    forall b, i | b in after && 0 <= i < |after[b]| ensures after[b][i].memory in MemoriesOf(pools) + {buffer.memory} {
      if (b, i) != (bucket, last) {
        assert b in pools && i < |pools[b]| && after[b][i] == pools[b][i];
      }
    }
  }

  lemma PushedSeparate(pools: Buckets, bucket: nat, buffer: Slice)
    requires Separate(pools) && buffer.Valid()
    requires buffer.memory !in MemoriesOf(pools)
    ensures Separate(pools[bucket := InBucket(pools, bucket) + [buffer]])
  {
    forall b, i | b in pools && 0 <= i < |pools[b]| ensures pools[b][i].memory != buffer.memory {
      assert pools[b][i].memory in MemoriesOf(pools);
    }
    hide MemoriesOf;
  }

  /** A full bucket, which the source also sets. */
  lemma Unchanged(pools: Buckets, bucket: nat)
    ensures
      var after := pools[bucket := InBucket(pools, bucket)];
      && (Separate(pools) ==> Separate(after)) && MemoriesOf(after) == MemoriesOf(pools)
      && (Whole(pools) ==> Whole(after))
      && LengthsOf(after) == LengthsOf(pools)[bucket := LengthsIn(InBucket(pools, bucket))]
  {
    var after := pools[bucket := InBucket(pools, bucket)];
    forall b, i | b in pools && 0 <= i < |pools[b]| ensures pools[b][i].memory in MemoriesOf(after) {
      assert b in after && i < |after[b]| && after[b][i] == pools[b][i];
    }
    hide MemoriesOf;
  }

  // ---- The pool ----

  class BufferPool {
    const config: Config
    var pools: Buckets

    ghost function Memories(): set<array<Byte>>
      reads this
    {
      MemoriesOf(pools)
    }

    ghost predicate Valid()
      reads this
    {
      Separate(pools)
    }

    ghost predicate AllWhole()
      reads this
    {
      Whole(pools)
    }

    ghost predicate Exact(size: nat) {
      BucketSize(config.sizeBuckets, size) == size
    }

    ghost function Supplies(): Supply
      reads this
    {
      Pool(config, LengthsOf(pools))
    }

    constructor (config: Config)
      ensures this.config == config
      ensures Valid() && AllWhole() && Memories() == {} && Supplies() == Pool(config, map[])
    {
      this.config := config;
      pools := map[];
    }

    /** Memory that nobody else holds: the bucket's newest buffer, cut to the size but perhaps shorter, or new. */
    method Acquire(size: nat) returns (buffer: Slice)
      requires Valid()
      modifies this
      ensures Valid() && buffer.Valid()
      ensures (buffer.length, Supplies()) == AcquireFrom(old(Supplies()), size)
      ensures Memories() == old(Memories()) - {buffer.memory}
      ensures fresh(buffer.memory) || buffer.memory in old(Memories())
      ensures
        var bucket := BucketSize(config.sizeBuckets, size);
        var pool := old(InBucket(pools, bucket));
        if pool == [] then fresh(buffer.memory) && buffer.length == buffer.memory.Length == size && pools == old(pools)
        else
          && buffer == Slice(pool[|pool| - 1].memory, Min(size, pool[|pool| - 1].length))
          && pools == old(pools)[bucket := pool[..|pool| - 1]]
      ensures old(AllWhole()) ==>
                AllWhole() && buffer.length == size && (Exact(size) ==> buffer.memory.Length == size)
    {
      hide MemoriesOf, Separate, LengthsOf, BucketSize;
      var bucketSize := BucketSize(config.sizeBuckets, size);
      InBucketLengths(pools, bucketSize);
      if bucketSize in pools && |pools[bucketSize]| > 0 {
        Popped(pools, bucketSize);
        var pool := pools[bucketSize];
        var popped := pool[|pool| - 1];
        LastIsValid(pools, bucketSize);
        buffer := Slice(popped.memory, Min(size, popped.length));
        pools := pools[bucketSize := pool[..|pool| - 1]];
      } else {
        var memory := new Byte[size];
        buffer := Slice(memory, size);
        NotWaiting(pools, memory);
      }
    }

    /** Filed under the smallest bucket it fits in, unless that is full. */
    method Release(buffer: Slice)
      requires Valid() && buffer.Valid() && buffer.memory !in Memories()
      modifies this, buffer.memory
      ensures Valid() && old(Memories()) <= Memories() <= old(Memories()) + {buffer.memory}
      ensures Supplies() == ReleaseTo(old(Supplies()), buffer.length)
      ensures old(AllWhole()) && Exact(buffer.length) && buffer.length == buffer.memory.Length ==> AllWhole()
      ensures
        var bucket := BucketSize(config.sizeBuckets, buffer.length);
        var pool := old(InBucket(pools, bucket));
        if |pool| < config.maxPerBucket then
          && pools == old(pools)[bucket := pool + [buffer]]
          && (config.clearOnRelease ==> buffer.memory[..buffer.length] == Zeros(buffer.length))
        else pools == old(pools)[bucket := pool]
    {
      hide MemoriesOf, Separate, LengthsOf, BucketSize;
      var bucketSize := BucketSize(config.sizeBuckets, buffer.length);
      InBucketLengths(pools, bucketSize);
      var pool := if bucketSize in pools then pools[bucketSize] else [];
      Pushed(pools, bucketSize, buffer);
      Unchanged(pools, bucketSize);
      if |pool| < config.maxPerBucket {
        if config.clearOnRelease {
          forall i | 0 <= i < buffer.length {
            buffer.memory[i] := 0;
          }
        }
        pools := pools[bucketSize := pool + [buffer]];
      } else {
        pools := pools[bucketSize := pool];
      }
    }
  }

  lemma InBucketLengths(pools: Buckets, bucket: nat)
    ensures LengthsIn(InBucket(pools, bucket)) == if bucket in LengthsOf(pools) then LengthsOf(pools)[bucket] else []
  {
  }

  lemma LastIsValid(pools: Buckets, bucket: nat)
    requires Separate(pools) && InBucket(pools, bucket) != []
    ensures pools[bucket][|pools[bucket]| - 1].Valid()
  {
  }

  lemma NotWaiting(pools: Buckets, memory: array<Byte>)
    requires forall b, i | b in pools && 0 <= i < |pools[b]| :: pools[b][i].memory != memory
    ensures memory !in MemoriesOf(pools)
  {
  }
}
