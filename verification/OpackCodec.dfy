/**
 The OPACK decoder (src/core/encoding/opack.ts, lines 429-690): recursion over a shared object list,
 with loops that advance a reader. Each method computes what module Opack says. At the end encoder
 and decoder are run one after the other.
 */
module OpackCodec {
  import opened Results
  import opened ByteStrings
  import opened BufferPools
  import opened Buffers
  import opened OpackPool
  import opened OpackPoolRoundTrip
  import opened OpackEncoder
  import Opack
  import OpackRoundTrip

  /** One encoding, over the pool as earlier ones have left it. */
  method Encode(v: Value, pool: BufferPool) returns (r: Outcome<Bytes>)
    requires pool.Valid() && Shaped(pool.Supplies()) && OpackRoundTrip.WellFormed(v)
    modifies pool, pool.Memories()
    ensures pool.Valid() && Shaped(pool.Supplies())
    ensures !v.Null? ==>
              var p := PackWith(v, [], old(pool.Supplies()));
              && pool.Supplies() == p.supply
              && if p.result.Ok? then r.Ok? && Shows(r.value, p.result.value) else r == Err(p.result.error)
    ensures r.Ok? <==> Opack.Encode(v).Ok?
    ensures r.Ok? && Calm(v, []) ==> r == Opack.Encode(v)
    ensures r.Err? ==> r == Opack.Encode(v)
  {
    hide PackWith, Shows, Shaped, Opack.PackValue, Calm;
    if v.Null? {
      return Err(Opack.NullRoot);
    }
    ghost var s := pool.Supplies();
    PackKeeps(v, [], s);
    var encoder := new Encoder(pool);
    r := encoder.PackValue(v);
    if r.Ok? && Calm(v, []) {
      KnownIsDetermined(PackWith(v, [], s).result.value, Opack.PackValue(v, []).value.bytes);
    }
  }

  class Decoder {
    const reader: BufferReader
    var objectList: seq<Value>

    constructor (data: Bytes)
      ensures objectList == [] && fresh(reader) && reader.Rest() == data
    {
      reader := new BufferReader(data);
      objectList := [];
    }

    method Register(value: Value) returns (r: Outcome<Value>)
      modifies this
      ensures r == Ok(value) && objectList == old(objectList) + [value]
    {
      objectList := objectList + [value];
      r := Ok(value);
    }

    method ReadByte() returns (b: Byte)
      requires reader.HasMore()
      modifies reader
      ensures b == old(reader.Rest())[0] && reader.Rest() == old(reader.Rest())[1..]
    {
      ghost var input := reader.Rest();
      var read := reader.ReadUIntLE(1);
      assert input[..1][1..] == [];
      b := read.value;
    }

    method ReadLE(width: nat) returns (r: Outcome<nat>)
      requires width > 0
      modifies reader
      ensures match Opack.ReadLE(old(reader.Rest()), width)
              case Ok(p) => r == Ok(p.0) && reader.Rest() == p.1
              case Err(e) => r == Err(e)
    {
      var n := reader.ReadUIntLE(width);
      r := if n.Ok? then Ok(n.value) else Err(Opack.ReadPastEnd);
    }

    method UnpackSizedInteger(size: nat) returns (r: Outcome<Value>)
      requires size > 0
      modifies this, reader
      ensures Unpacks(Opack.UnpackSizedInteger(size, old(reader.Rest()), old(objectList)), r, reader.Rest(), objectList)
    {
      var n :- ReadLE(size);
      r := Register(if size >= 8 then Opack.Big(n) else Opack.Num(n));
    }

    method UnpackText(str: bool, lengthSize: nat) returns (r: Outcome<Value>)
      requires lengthSize > 0
      modifies this, reader
      ensures Unpacks(Opack.UnpackText(str, lengthSize, old(reader.Rest()), old(objectList)), r, reader.Rest(),
          objectList)
    {
      hide Opack.ReadLE, Opack.ToDouble;
      var len :- ReadLE(lengthSize);
      var bytes := reader.ReadBuffer(if lengthSize == 8 then Opack.ToDouble(len) else len);
      r := Register(if str then Opack.Str(bytes) else Opack.Data(bytes));
    }

    method UnpackFloat(size: nat) returns (r: Outcome<Value>)
      modifies this, reader
      ensures Unpacks(Opack.UnpackFloat(size, old(reader.Rest()), old(objectList)), r, reader.Rest(), objectList)
    {
      var bytes := reader.ReadBuffer(size);
      if |bytes| < size {
        return Err(Opack.ReadPastEnd);
      }
      r := Register(Opack.Float(bytes));
    }

    method UnpackNullTerminated() returns (r: Outcome<Value>)
      modifies this, reader
      ensures
        var (s, more) := Opack.UntilZero(old(reader.Rest()));
        Unpacks(Ok(Opack.Register(Opack.Str(s), more, old(objectList))), r, reader.Rest(), objectList)
    {
      hide Opack.UntilZero;
      var bytes: Bytes := [];
      ghost var input := reader.Rest();
      var stopped := false;
      assert PrependText([], Opack.UntilZero(input)).0 == Opack.UntilZero(input).0;
      while reader.HasMore() && !stopped
        invariant objectList == old(objectList)
        invariant Opack.UntilZero(input) == if stopped then (bytes, reader.Rest())
            else PrependText(bytes, Opack.UntilZero(reader.Rest()))
        decreases |reader.Rest()|
      {
        TextStep(bytes, reader.Rest());
        var b := ReadByte();
        if b == 0 {
          stopped := true;
        } else {
          bytes := bytes + [b];
        }
      }
      if !stopped {
        TextEnd(bytes);
      }
      r := Register(Opack.Str(bytes));
    }

    method Dereference(index: nat) returns (r: Outcome<Value>)
      ensures Unpacks(Opack.Dereference(index, reader.Rest(), objectList), r, reader.Rest(), objectList)
    {
      if index >= |objectList| {
        return Err(Opack.BadReference);
      }
      r := Ok(objectList[index]);
    }

    method UnpackScalar(b: Byte) returns (r: Outcome<Value>)
      requires b < 0x40
      modifies this, reader
      ensures Unpacks(Opack.UnpackScalar(b, old(reader.Rest()), old(objectList)), r, reader.Rest(), objectList)
    {
      if b == 0x00 {
        r := Err(Opack.Reserved);
      } else if b == 0x01 || b == 0x02 {
        r := Ok(Opack.Bool(b == 0x01));
      } else if b == 0x03 || b == 0x04 {
        r := Ok(Opack.Null);
      } else if b == 0x05 {
        var bytes := reader.ReadBuffer(16);
        r := Register(Opack.Str(Opack.UuidText(bytes)));
      } else if b == 0x06 {
        var n :- ReadLE(8);
        r := Register(Opack.Num(Opack.ToDouble(n)));
      } else if b == 0x07 {
        r := Ok(Opack.Num(-1));
      } else if b <= 0x2f {
        r := Ok(Opack.Num(b - 0x08));
      } else if b <= 0x34 {
        r := UnpackSizedInteger(match b - 0x30 case 0 => 1 case 1 => 2 case 2 => 4 case 3 => 8 case _ => 16);
      } else if b == 0x35 {
        r := UnpackFloat(4);
      } else if b == 0x36 {
        r := UnpackFloat(8);
      } else {
        r := Err(Opack.NotImplemented);
      }
    }

    method UnpackBlob(b: Byte) returns (r: Outcome<Value>)
      requires 0x40 <= b < 0xa0
      modifies this, reader
      ensures Unpacks(Opack.UnpackBlob(b, old(reader.Rest()), old(objectList)), r, reader.Rest(), objectList)
    {
      hide Opack.UnpackText, Opack.UntilZero;
      if b <= 0x60 {
        var bytes := reader.ReadBuffer(b - 0x40);
        r := Register(Opack.Str(bytes));
      } else if b <= 0x64 {
        r := UnpackText(true, b - 0x60);
      } else if 0x70 <= b <= 0x90 {
        var bytes := reader.ReadBuffer(b - 0x70);
        r := Register(Opack.Data(bytes));
      } else if b == 0x6f {
        r := UnpackNullTerminated();
      } else if 0x91 <= b <= 0x94 {
        r := UnpackText(false, match b - 0x91 case 0 => 1 case 1 => 2 case 2 => 4 case _ => 8);
      } else {
        r := Err(Opack.NotImplemented);
      }
    }

    method UnpackReference(b: Byte) returns (r: Outcome<Value>)
      requires 0xa0 <= b
      modifies reader
      ensures Unpacks(Opack.UnpackReference(b, old(reader.Rest()), old(objectList)), r, reader.Rest(), objectList)
    {
      if b <= 0xc0 {
        r := Dereference(b - 0xa0);
      } else if b == 0xc3 {
        r := Err(Opack.BadReferenceSize);
      } else if b <= 0xc4 {
        var index :- ReadLE(b - 0xc0);
        r := Dereference(index);
      } else {
        r := Err(Opack.NotImplemented);
      }
    }

    method UnpackValue() returns (r: Outcome<Value>)
      modifies this, reader
      ensures Unpacks(Opack.UnpackValue(old(reader.Rest()), old(objectList)), r, reader.Rest(), objectList)
      decreases |reader.Rest()|, 1
    {
      hide Opack.UnpackScalar, Opack.UnpackBlob, Opack.UnpackReference, Opack.Collect;
      hide Opack.UnpackItems, Opack.UnpackEndlessItems, Opack.UnpackPairs, Opack.UnpackEndlessPairs;
      if !reader.HasMore() {
        return Err(Opack.Underrun);
      }
      var b := ReadByte();
      if b == 0xdf {
        var items :- UnpackEndlessItems();
        r := Ok(Opack.Arr(items));
      } else if 0xd0 <= b < 0xdf {
        var items :- UnpackItems(b - 0xd0);
        r := Ok(Opack.Arr(items));
      } else if b == 0xef {
        var entries :- UnpackEndlessEntries();
        r := Ok(Opack.Dict(entries));
      } else if 0xe0 <= b < 0xef {
        var entries :- UnpackEntries(b - 0xe0);
        r := Ok(Opack.Dict(entries));
      } else if b < 0x40 {
        r := UnpackScalar(b);
      } else if b < 0xa0 {
        r := UnpackBlob(b);
      } else {
        r := UnpackReference(b);
      }
    }

    method UnpackItems(count: nat) returns (r: Outcome<seq<Value>>)
      modifies this, reader
      ensures UnpacksItems(Opack.UnpackItems(count, old(reader.Rest()), old(objectList)), r, reader.Rest(), objectList)
      decreases |reader.Rest()|, 2
    {
      hide Opack.UnpackValue, Opack.UnpackItems;
      ghost var whole := Opack.UnpackItems(count, reader.Rest(), objectList);
      r := Ok([]);
      ItemsPrependNothing(whole);
      ghost var bound := |reader.Rest()|;
      for i := 0 to count
        invariant |reader.Rest()| <= bound
        invariant r.Ok? && whole == PrependItems(r.value, Opack.UnpackItems(count - i, reader.Rest(), objectList))
      {
        ItemsStep(r.value, count - i, reader.Rest(), objectList);
        var item :- UnpackValue();
        r := Ok(r.value + [item]);
      }
      ItemsEnd(r.value, reader.Rest(), objectList);
    }

    method UnpackEndlessItems() returns (r: Outcome<seq<Value>>)
      modifies this, reader
      ensures UnpacksItems(Opack.UnpackEndlessItems(old(reader.Rest()), old(objectList)), r, reader.Rest(), objectList)
      decreases |reader.Rest()|, 2
    {
      hide Opack.UnpackValue, Opack.UnpackEndlessItems;
      ghost var whole := Opack.UnpackEndlessItems(reader.Rest(), objectList);
      r := Ok([]);
      ItemsPrependNothing(whole);
      ghost var bound := |reader.Rest()|;
      while reader.HasMore() && reader.Rest()[0] != 0x03
        invariant |reader.Rest()| <= bound
        invariant r.Ok? && whole == PrependItems(r.value, Opack.UnpackEndlessItems(reader.Rest(), objectList))
        decreases |reader.Rest()|
      {
        EndlessItemsStep(r.value, reader.Rest(), objectList);
        var item :- UnpackValue();
        r := Ok(r.value + [item]);
      }
      EndlessItemsEnd(r.value, reader.Rest(), objectList);
      if reader.HasMore() {
        reader.Skip(1);
      }
    }

    method UnpackEntry() returns (r: Outcome<Entry>)
      modifies this, reader
      ensures
        match EntryOf(old(reader.Rest()), old(objectList))
        case Ok(u) => r.Ok? && u.pairs == [r.value] && reader.Rest() == u.rest && objectList == u.table
        case Err(e) => r == Err(e)
      decreases |reader.Rest()|, 2
    {
      var key :- UnpackValue();
      var value :- UnpackValue();
      r := Ok(Opack.Entry(key, value));
    }

    /** One pass of a dictionary loop: `result[key] = value`. */
    method AssignEntry(
      result: seq<Entry>, ghost whole: Outcome<Opack.UnpackedPairs>, ghost pairs: seq<Entry>, ghost left: Option<nat>)
      returns (r: Outcome<seq<Entry>>, ghost pairs': seq<Entry>)
      requires result == Opack.Collect(pairs)
      requires left != Some(0) && (left.None? ==> reader.HasMore() && reader.Rest()[0] != 0x03)
      requires PairsLeft(whole, pairs, left, reader.Rest(), objectList)
      modifies this, reader
      ensures r.Err? ==> whole == Err(r.error)
      ensures r.Ok? ==>
                && |reader.Rest()| < old(|reader.Rest()|)
                && r.value == Opack.Collect(pairs')
                && PairsLeft(whole, pairs', OneFewer(left), reader.Rest(), objectList)
      decreases |reader.Rest()|, 3
    {
      PairsStep(whole, pairs, left, reader.Rest(), objectList);
      pairs' := pairs;
      var e :- UnpackEntry();
      CollectOneMore(pairs, e);
      pairs' := pairs + [e];
      r := Ok(Opack.SetKey(result, e));
    }

    method UnpackEntries(count: nat) returns (r: Outcome<seq<Entry>>)
      modifies this, reader
      ensures UnpacksEntries(Opack.UnpackPairs(count, old(reader.Rest()), old(objectList)), r, reader.Rest(),
          objectList)
      decreases |reader.Rest()|, 4
    {
      hide Opack.UnpackValue;
      ghost var whole, pairs := Opack.UnpackPairs(count, reader.Rest(), objectList), [];
      PairsPrependNothing(whole);
      var result: seq<Entry> := [];
      ghost var bound := |reader.Rest()|;
      for i := 0 to count
        invariant |reader.Rest()| <= bound
        invariant result == Opack.Collect(pairs)
        invariant PairsLeft(whole, pairs, Some(count - i), reader.Rest(), objectList)
      {
        var step: Outcome<seq<Entry>>;
        step, pairs := AssignEntry(result, whole, pairs, Some(count - i));
        result :- step;
      }
      assert pairs + [] == pairs;
      r := Ok(result);
    }

    method UnpackEndlessEntries() returns (r: Outcome<seq<Entry>>)
      modifies this, reader
      ensures UnpacksEntries(Opack.UnpackEndlessPairs(old(reader.Rest()), old(objectList)), r, reader.Rest(),
          objectList)
      decreases |reader.Rest()|, 4
    {
      hide Opack.UnpackEndlessPairs, PairsLeft, Opack.Collect;
      ghost var whole, pairs := Opack.UnpackEndlessPairs(reader.Rest(), objectList), [];
      PairsStart(whole, None, reader.Rest(), objectList);
      var result: seq<Entry> := [];
      ghost var bound := |reader.Rest()|;
      while reader.HasMore() && reader.Rest()[0] != 0x03
        invariant |reader.Rest()| <= bound
        invariant result == Opack.Collect(pairs)
        invariant PairsLeft(whole, pairs, None, reader.Rest(), objectList)
        decreases |reader.Rest()|
      {
        var step: Outcome<seq<Entry>>;
        step, pairs := AssignEntry(result, whole, pairs, None);
        result :- step;
      }
      EndlessPairsEnd(whole, pairs, reader.Rest(), objectList);
      if reader.HasMore() {
        reader.Skip(1);
      }
      r := Ok(result);
    }
  }

  method Decode(data: Bytes) returns (r: Outcome<Value>)
    ensures r == Opack.Decode(data)
  {
    var decoder := new Decoder(data);
    var v :- decoder.UnpackValue();
    r := if v.Null? then Err(Opack.NullRoot) else Ok(v);
  }

  /** Encode and Decode, run one after the other, over whatever pool there is. */
  method EncodeThenDecode(v: Value, pool: BufferPool) returns (r: Outcome<Value>)
    requires pool.Valid() && Shaped(pool.Supplies())
    requires OpackRoundTrip.WellFormed(v) && OpackRoundTrip.InRange(v) && !v.Null?
    modifies pool, pool.Memories()
    ensures pool.Valid() && Shaped(pool.Supplies()) && Opack.PackValue(v, []).Ok?
    ensures Calm(v, []) ==> (r == Ok(v) <==> OpackRoundTrip.ReferencesInSync(v))
  {
    hide PackWith, Shaped, Opack.PackValue, Calm;
    OpackRoundTrip.RoundTrip(v);
    OpackRoundTrip.PackSucceedsInRange(v, []);
    var bytes := Encode(v, pool);
    r := Decode(bytes.value);
  }

  // ---- Loop invariants of the decoder ----

  /** What an unpacking method owes: the value, the reader's rest and the object list, or the same error. */
  ghost predicate Unpacks(expected: Outcome<Opack.Unpacked>, r: Outcome<Value>, rest: Bytes, objectList: seq<Value>) {
    match expected
    case Ok(u) => r == Ok(u.value) && rest == u.rest && objectList == u.table
    case Err(e) => r == Err(e)
  }

  ghost predicate UnpacksItems(
    expected: Outcome<Opack.UnpackedItems>, r: Outcome<seq<Value>>, rest: Bytes, objectList: seq<Value>) {
    match expected
    case Ok(u) => r == Ok(u.items) && rest == u.rest && objectList == u.table
    case Err(e) => r == Err(e)
  }

  ghost predicate UnpacksEntries(
    expected: Outcome<Opack.UnpackedPairs>, r: Outcome<seq<Entry>>, rest: Bytes, objectList: seq<Value>) {
    match expected
    case Ok(u) => r == Ok(Opack.Collect(u.pairs)) && rest == u.rest && objectList == u.table
    case Err(e) => r == Err(e)
  }

  /** One key and one value. */
  ghost function EntryOf(input: Bytes, table: seq<Value>): (r: Outcome<Opack.UnpackedPairs>)
    ensures r.Ok? ==> |r.value.pairs| == 1
  {
    var k :- Opack.UnpackValue(input, table);
    var v :- Opack.UnpackValue(k.rest, k.table);
    Ok(Opack.UnpackedPairs([Opack.Entry(k.value, v.value)], v.rest, v.table))
  }

  function OneFewer(left: Option<nat>): Option<nat>
    requires left != Some(0)
  {
    match left
    case None => None
    case Some(n) => Some(n - 1)
  }

  /** A loop that has read `done` and has `left` pairs to go, or reads to the terminator. */
  ghost predicate PairsLeft(
    whole: Outcome<Opack.UnpackedPairs>, done: seq<Entry>, left: Option<nat>, input: Bytes, table: seq<Value>) {
    whole == PrependPairs(done, if left.Some? then Opack.UnpackPairs(left.value, input, table)
                                else Opack.UnpackEndlessPairs(input, table))
  }

  lemma PairsStep(
    whole: Outcome<Opack.UnpackedPairs>, done: seq<Entry>, left: Option<nat>, input: Bytes, table: seq<Value>)
    requires left != Some(0) && (left.None? ==> input != [] && input[0] != 0x03)
    requires PairsLeft(whole, done, left, input, table)
    ensures match EntryOf(input, table)
            case Err(e) => whole == Err(e)
            case Ok(u) => PairsLeft(whole, done + u.pairs, OneFewer(left), u.rest, u.table)
  {
    var entry := EntryOf(input, table);
    if entry.Ok? {
      var u := entry.value;
      assert u.pairs == [u.pairs[0]];
      PairsPrependTwice(done, u.pairs[0], if left.Some? then Opack.UnpackPairs(left.value - 1, u.rest, u.table)
                                          else Opack.UnpackEndlessPairs(u.rest, u.table));
    }
  }

  lemma PairsStart(whole: Outcome<Opack.UnpackedPairs>, left: Option<nat>, input: Bytes, table: seq<Value>)
    requires left.None? && whole == Opack.UnpackEndlessPairs(input, table)
    ensures PairsLeft(whole, [], left, input, table) && Opack.Collect([]) == []
  {
    PairsPrependNothing(whole);
  }

  lemma EndlessPairsEnd(whole: Outcome<Opack.UnpackedPairs>, done: seq<Entry>, input: Bytes, table: seq<Value>)
    requires input == [] || input[0] == 0x03
    requires PairsLeft(whole, done, None, input, table)
    ensures whole == Ok(Opack.UnpackedPairs(done, Drop(input, 1), table))
  {
    assert done + [] == done;
  }

  lemma ItemsStep(done: seq<Value>, count: nat, input: Bytes, table: seq<Value>)
    requires count > 0
    ensures
      var whole, item := PrependItems(done, Opack.UnpackItems(count, input, table)), Opack.UnpackValue(input, table);
      if item.Err? then whole == Err(item.error)
      else whole == PrependItems(done + [item.value.value],
          Opack.UnpackItems(count - 1, item.value.rest, item.value.table))
  {
    hide Opack.UnpackValue;
    var item := Opack.UnpackValue(input, table);
    if item.Ok? {
      ItemsPrependTwice(done, item.value.value, Opack.UnpackItems(count - 1, item.value.rest, item.value.table));
    }
  }

  lemma ItemsEnd(done: seq<Value>, input: Bytes, table: seq<Value>)
    ensures PrependItems(done, Opack.UnpackItems(0, input, table)) == Ok(Opack.UnpackedItems(done, input, table))
  {
    assert done + [] == done;
  }

  lemma EndlessItemsStep(done: seq<Value>, input: Bytes, table: seq<Value>)
    requires input != [] && input[0] != 0x03
    ensures
      var whole, item := PrependItems(done, Opack.UnpackEndlessItems(input, table)), Opack.UnpackValue(input, table);
      if item.Err? then whole == Err(item.error)
      else whole == PrependItems(done + [item.value.value], Opack.UnpackEndlessItems(item.value.rest, item.value.table))
  {
    hide Opack.UnpackValue;
    var item := Opack.UnpackValue(input, table);
    if item.Ok? {
      ItemsPrependTwice(done, item.value.value, Opack.UnpackEndlessItems(item.value.rest, item.value.table));
    }
  }

  lemma EndlessItemsEnd(done: seq<Value>, input: Bytes, table: seq<Value>)
    requires input == [] || input[0] == 0x03
    ensures PrependItems(done, Opack.UnpackEndlessItems(input, table))
        == Ok(Opack.UnpackedItems(done, Drop(input, 1), table))
  {
    assert done + [] == done;
  }

  ghost function PrependText(done: Bytes, text: (Bytes, Bytes)): (Bytes, Bytes) {
    (done + text.0, text.1)
  }

  lemma TextStep(done: Bytes, rest: Bytes)
    requires rest != []
    ensures
      PrependText(done, Opack.UntilZero(rest))
      == if rest[0] == 0 then (done, rest[1..]) else PrependText(done + [rest[0]], Opack.UntilZero(rest[1..]))
  {
    if rest[0] == 0 {
      assert done + [] == done;
    } else {
      var s := Opack.UntilZero(rest[1..]).0;
      assert done + ([rest[0]] + s) == (done + [rest[0]]) + s;
    }
  }

  lemma TextEnd(done: Bytes)
    ensures PrependText(done, Opack.UntilZero([])) == (done, [])
  {
    assert done + [] == done;
  }

  lemma CollectOneMore(pairs: seq<Entry>, e: Entry)
    ensures Opack.Collect(pairs + [e]) == Opack.SetKey(Opack.Collect(pairs), e)
  {
    assert (pairs + [e])[..|pairs|] == pairs;
  }

  ghost function PrependItems(done: seq<Value>, rest: Outcome<Opack.UnpackedItems>): Outcome<Opack.UnpackedItems> {
    match rest
    case Ok(u) => Ok(u.(items := done + u.items))
    case Err(e) => Err(e)
  }

  ghost function PrependPairs(done: seq<Entry>, rest: Outcome<Opack.UnpackedPairs>): Outcome<Opack.UnpackedPairs> {
    match rest
    case Ok(u) => Ok(u.(pairs := done + u.pairs))
    case Err(e) => Err(e)
  }

  lemma ItemsPrependNothing(rest: Outcome<Opack.UnpackedItems>)
    ensures PrependItems([], rest) == rest
  {
    if rest.Ok? {
      assert [] + rest.value.items == rest.value.items;
    }
  }

  lemma ItemsPrependTwice(done: seq<Value>, v: Value, rest: Outcome<Opack.UnpackedItems>)
    ensures PrependItems(done, PrependItems([v], rest)) == PrependItems(done + [v], rest)
  {
    if rest.Ok? {
      assert done + ([v] + rest.value.items) == (done + [v]) + rest.value.items;
    }
  }

  lemma PairsPrependNothing(rest: Outcome<Opack.UnpackedPairs>)
    ensures PrependPairs([], rest) == rest
  {
    if rest.Ok? {
      assert [] + rest.value.pairs == rest.value.pairs;
    }
  }

  lemma PairsPrependTwice(done: seq<Entry>, e: Entry, rest: Outcome<Opack.UnpackedPairs>)
    ensures PrependPairs(done, PrependPairs([e], rest)) == PrependPairs(done + [e], rest)
  {
    if rest.Ok? {
      assert done + ([e] + rest.value.pairs) == (done + [e]) + rest.value.pairs;
    }
  }
}
