/**
 The OPACK wire format (src/core/encoding/opack.ts) as functions: what packing a value appends
 and does to the encoder's object list, and what unpacking a byte string yields and does to the
 decoder's. The encoder lists packed bytes, the decoder lists values.
 */
module Opack {
  import opened Results
  import opened ByteStrings

  /**
   A JavaScript value. Strings are their UTF-8 bytes and a float is its raw bytes; a dictionary
   is its entries in insertion order.
   */
  datatype Value =
    | Null
    | Bool(b: bool)
    | Num(n: int)
    | Big(big: int)
    | Float(bits: Bytes)
    | Str(utf8: Bytes)
    | Data(data: Bytes)
    | Arr(items: seq<Value>)
    | Dict(entries: seq<Entry>)

  datatype Entry = Entry(key: Value, value: Value)

  datatype Error =
    | IntegerRange
    | BigIntRange
    | TooLong
    | Underrun
    | ReadPastEnd
    | Reserved
    | NotImplemented
    | BadReference
    | BadReferenceSize
    | NullRoot

  type Outcome<+T> = Result<T, Error>

  // ---- Encoder ----

  function PackInteger(n: int): Outcome<Bytes> {
    if 0 <= n < 0x28 then Ok([n + 0x08])
    else if 0 <= n <= 0xff then Ok([0x30] + LE(n, 1))
    else if 0 <= n <= 0xffff then Ok([0x31] + LE(n, 2))
    else if 0 <= n <= 0xffff_ffff then Ok([0x32] + LE(n, 4))
    else Err(IntegerRange)
  }

  function PackBigInt(n: int): Outcome<Bytes> {
    if n < 0 || n > 0xffff_ffff_ffff_ffff then Err(BigIntRange)
    else Ok([0x33] + LE(n, 8))
  }

  function PackString(s: Bytes): Outcome<Bytes> {
    if |s| <= 0x20 then Ok([0x40 + |s|] + s)
    else if |s| <= 0xff then Ok([0x61, |s|] + s)
    else if |s| <= 0xffff then Ok([0x62] + LE(|s|, 2) + s)
    else Err(TooLong)
  }

  function PackData(s: Bytes): Outcome<Bytes> {
    if |s| <= 0x20 then Ok([0x70 + |s|] + s)
    else if |s| <= 0xff then Ok([0x91, |s|] + s)
    else if |s| <= 0xffff then Ok([0x92] + LE(|s|, 2) + s)
    else Err(TooLong)
  }

  /** `objectList.findIndex(...)`, None for -1. */
  function FindIndex(table: seq<Bytes>, packed: Bytes): (r: Option<nat>)
    ensures r.Some? ==> r.value < |table| && table[r.value] == packed && packed !in table[..r.value]
    ensures r.None? ==> packed !in table
  {
    if table == [] then None
    else if table[0] == packed then Some(0)
    else
      match FindIndex(table[1..], packed)
      case None => None
      case Some(i) => assert table[..i + 1] == [table[0]] + table[1..][..i]; Some(i + 1)
  }

  datatype Packed = Packed(bytes: Bytes, table: seq<Bytes>)

  /** A repeated string or byte string becomes a reference to its first occurrence. */
  function CheckAndReuseObject(packed: Bytes, table: seq<Bytes>): Packed {
    if |packed| <= 1 then Packed(packed, table)
    else
      match FindIndex(table, packed)
      case Some(i) =>
        if i < 0x21 then Packed([0xa0 + i], table)
        else if i <= 0xff then Packed([0xc1, i], table)
        else if i <= 0xffff then Packed([0xc2] + LE(i, 2), table)
        else if i <= 0xffff_ffff then Packed([0xc3] + LE(i, 4), table)
        else Packed(packed, table + [packed])
      case None => Packed(packed, table + [packed])
  }

  const TERMINATOR: Byte := 0x03

  function PackValue(v: Value, table: seq<Bytes>): Outcome<Packed>
    decreases v, 1
  {
    match v
    case Null => Ok(Packed([0x04], table))
    case Bool(b) => Ok(Packed([if b then 0x01 else 0x02], table))
    case Big(n) =>
      var packed :- PackBigInt(n);
      Ok(Packed(packed, table))
    case Num(n) =>
      var packed :- PackInteger(n);
      Ok(Packed(packed, table))
    case Float(bits) => Ok(Packed([0x36] + bits, table))
    case Str(s) =>
      var packed :- PackString(s);
      Ok(CheckAndReuseObject(packed, table))
    case Data(d) =>
      var packed :- PackData(d);
      Ok(CheckAndReuseObject(packed, table))
    case Arr(items) =>
      var p :- PackItems(items, table);
      Ok(Packed([0xd0 + Min(|items|, 0xf)] + p.bytes + Trailer(|items|), p.table))
    case Dict(entries) =>
      var p :- PackEntries(entries, table);
      Ok(Packed([0xe0 + Min(|entries|, 0xf)] + p.bytes + Trailer(|entries|), p.table))
  }

  /** Arrays and dictionaries of 15 and more elements are closed by a terminator. */
  function Trailer(count: nat): Bytes {
    if count >= 0xf then [TERMINATOR] else []
  }

  function PackItems(items: seq<Value>, table: seq<Bytes>): Outcome<Packed>
    decreases items, 0
  {
    if items == [] then Ok(Packed([], table))
    else
      var p :- PackValue(items[0], table);
      var q :- PackItems(items[1..], p.table);
      Ok(Packed(p.bytes + q.bytes, q.table))
  }

  function PackEntries(entries: seq<Entry>, table: seq<Bytes>): Outcome<Packed>
    decreases entries, 0
  {
    if entries == [] then Ok(Packed([], table))
    else
      var p :- PackEntry(entries[0], table);
      var q :- PackEntries(entries[1..], p.table);
      Ok(Packed(p.bytes + q.bytes, q.table))
  }

  function PackEntry(e: Entry, table: seq<Bytes>): Outcome<Packed>
    decreases e, 0
  {
    var k :- PackValue(e.key, table);
    var v :- PackValue(e.value, k.table);
    Ok(Packed(k.bytes + v.bytes, v.table))
  }

  /** `OPACK.encode`; `Object.keys` of null throws before anything is packed. */
  function Encode(v: Value): Outcome<Bytes> {
    if v.Null? then Err(NullRoot)
    else
      var p :- PackValue(v, []);
      Ok(p.bytes)
  }

  // ---- Decoder ----

  /**
   What unpacking leaves behind. `rest` is the unread input: a reader whose offset has run past
   the end of its buffer behaves like one with nothing left.
   */
  datatype Unpacked = Unpacked(value: Value, rest: Bytes, table: seq<Value>)

  /** Values go into the decoder's object list, except null, which 0x05 to 0x94 never produce. */
  function Register(value: Value, rest: Bytes, table: seq<Value>): Unpacked {
    Unpacked(value, rest, table + [value])
  }

  /** A fixed-width little-endian read throws when the buffer is too short. */
  function ReadLE(rest: Bytes, k: nat): (r: Outcome<(nat, Bytes)>)
    ensures r.Ok? ==> |r.value.1| == |rest| - k
  {
    if |rest| < k then Err(ReadPastEnd)
    else Ok((FromLE(rest[..k]), rest[k..]))
  }

  function HexDigit(n: nat): Byte
    requires n < 16
  {
    if n < 10 then 48 + n else 87 + n
  }

  function Hex(s: Bytes): Bytes {
    if s == [] then [] else [HexDigit(s[0] / 16), HexDigit(s[0] % 16)] + Hex(s[1..])
  }

  /** Five groups of hex digits joined by '-' (45). */
  function UuidText(s: Bytes): Bytes {
    var hex := Hex(s);
    Take(hex, 8) + [45] + Take(Drop(hex, 8), 4) + [45] + Take(Drop(hex, 12), 4) + [45]
    + Take(Drop(hex, 16), 4) + [45] + Take(Drop(hex, 20), 12)
  }

  /** `Number(bigint)`: 53 significant bits, ties to even. */
  function ToDouble(n: nat): nat {
    RoundTo53Bits(n, 1)
  }

  function RoundTo53Bits(n: nat, unit: nat): nat
    requires unit > 0
    decreases n - unit
  {
    if n >= 0x20_0000_0000_0000 * unit then RoundTo53Bits(n, 2 * unit)
    else
      var q, r := n / unit, n % unit;
      if 2 * r > unit || (2 * r == unit && q % 2 == 1) then (q + 1) * unit else q * unit
  }

  /** The bytes up to a zero byte, and what follows it. */
  function UntilZero(rest: Bytes): (r: (Bytes, Bytes))
    ensures |r.1| <= |rest|
  {
    if rest == [] then ([], [])
    else if rest[0] == 0 then ([], rest[1..])
    else var (s, more) := UntilZero(rest[1..]); ([rest[0]] + s, more)
  }

  function Dereference(index: nat, rest: Bytes, table: seq<Value>): Outcome<Unpacked> {
    if index >= |table| then Err(BadReference)
    else Ok(Unpacked(table[index], rest, table))
  }

  function UnpackSizedInteger(size: nat, rest: Bytes, table: seq<Value>): (r: Outcome<Unpacked>)
    ensures r.Ok? ==> |r.value.rest| <= |rest|
  {
    var (n, more) :- ReadLE(rest, size);
    Ok(Register(if size >= 8 then Big(n) else Num(n), more, table))
  }

  function UnpackText(str: bool, lengthSize: nat, rest: Bytes, table: seq<Value>): (r: Outcome<Unpacked>)
    ensures r.Ok? ==> |r.value.rest| <= |rest|
  {
    var (len, more) :- ReadLE(rest, lengthSize);
    var n := if lengthSize == 8 then ToDouble(len) else len;
    Ok(Register(if str then Str(Take(more, n)) else Data(Take(more, n)), Drop(more, n), table))
  }

  function UnpackFloat(size: nat, rest: Bytes, table: seq<Value>): (r: Outcome<Unpacked>)
    ensures r.Ok? ==> |r.value.rest| <= |rest|
  {
    if |rest| < size then Err(ReadPastEnd)
    else Ok(Register(Float(rest[..size]), rest[size..], table))
  }

  /** 0x00 to 0x3f: constants and numbers. */
  function UnpackScalar(b: Byte, rest: Bytes, table: seq<Value>): (r: Outcome<Unpacked>)
    ensures r.Ok? ==> |r.value.rest| <= |rest|
  {
    if b == 0x00 then Err(Reserved)
    else if b == 0x01 then Ok(Unpacked(Bool(true), rest, table))
    else if b == 0x02 then Ok(Unpacked(Bool(false), rest, table))
    else if b == 0x03 || b == 0x04 then Ok(Unpacked(Null, rest, table))
    else if b == 0x05 then Ok(Register(Str(UuidText(Take(rest, 16))), Drop(rest, 16), table))
    else if b == 0x06 then
      var (n, more) :- ReadLE(rest, 8);
      Ok(Register(Num(ToDouble(n)), more, table))
    else if b == 0x07 then Ok(Unpacked(Num(-1), rest, table))
    else if b <= 0x2f then Ok(Unpacked(Num(b - 0x08), rest, table))
    else if b == 0x30 then UnpackSizedInteger(1, rest, table)
    else if b == 0x31 then UnpackSizedInteger(2, rest, table)
    else if b == 0x32 then UnpackSizedInteger(4, rest, table)
    else if b == 0x33 then UnpackSizedInteger(8, rest, table)
    else if b == 0x34 then UnpackSizedInteger(16, rest, table)
    else if b == 0x35 then UnpackFloat(4, rest, table)
    else if b == 0x36 then UnpackFloat(8, rest, table)
    else Err(NotImplemented)
  }

  /** 0x40 to 0x9f: strings and byte strings. */
  function UnpackBlob(b: Byte, rest: Bytes, table: seq<Value>): (r: Outcome<Unpacked>)
    ensures r.Ok? ==> |r.value.rest| <= |rest|
  {
    if 0x40 <= b <= 0x60 then
      Ok(Register(Str(Take(rest, b - 0x40)), Drop(rest, b - 0x40), table))
    else if 0x61 <= b <= 0x64 then UnpackText(true, b - 0x60, rest, table)
    else if 0x70 <= b <= 0x90 then
      Ok(Register(Data(Take(rest, b - 0x70)), Drop(rest, b - 0x70), table))
    else if b == 0x6f then
      var (s, more) := UntilZero(rest);
      Ok(Register(Str(s), more, table))
    else if b == 0x91 then UnpackText(false, 1, rest, table)
    else if b == 0x92 then UnpackText(false, 2, rest, table)
    else if b == 0x93 then UnpackText(false, 4, rest, table)
    else if b == 0x94 then UnpackText(false, 8, rest, table)
    else Err(NotImplemented)
  }

  /** 0xa0 to 0xcf: references. */
  function UnpackReference(b: Byte, rest: Bytes, table: seq<Value>): (r: Outcome<Unpacked>)
    ensures r.Ok? ==> |r.value.rest| <= |rest|
  {
    if 0xa0 <= b <= 0xc0 then Dereference(b - 0xa0, rest, table)
    else if b == 0xc1 || b == 0xc2 || b == 0xc4 then
      var (index, more) :- ReadLE(rest, b - 0xc0);
      Dereference(index, more, table)
    else if b == 0xc3 then Err(BadReferenceSize)
    else Err(NotImplemented)
  }

  datatype UnpackedItems = UnpackedItems(items: seq<Value>, rest: Bytes, table: seq<Value>)
  datatype UnpackedPairs = UnpackedPairs(pairs: seq<Entry>, rest: Bytes, table: seq<Value>)

  function UnpackValue(input: Bytes, table: seq<Value>): (r: Outcome<Unpacked>)
    ensures r.Ok? ==> |r.value.rest| < |input|
    decreases |input|, 0
  {
    if input == [] then Err(Underrun)
    else
      var b, rest := input[0], input[1..];
      if 0xd0 <= b <= 0xdf then
        var u :- if b == 0xdf then UnpackEndlessItems(rest, table) else UnpackItems(b - 0xd0, rest, table);
        Ok(Unpacked(Arr(u.items), u.rest, u.table))
      else if 0xe0 <= b <= 0xef then
        var u :- if b == 0xef then UnpackEndlessPairs(rest, table) else UnpackPairs(b - 0xe0, rest, table);
        Ok(Unpacked(Dict(Collect(u.pairs)), u.rest, u.table))
      else if b < 0x40 then UnpackScalar(b, rest, table)
      else if b < 0xa0 then UnpackBlob(b, rest, table)
      else UnpackReference(b, rest, table)
  }

  function UnpackItems(count: nat, input: Bytes, table: seq<Value>): (r: Outcome<UnpackedItems>)
    ensures r.Ok? ==> |r.value.rest| <= |input|
    decreases |input|, 1
  {
    if count == 0 then Ok(UnpackedItems([], input, table))
    else
      var u :- UnpackValue(input, table);
      var more :- UnpackItems(count - 1, u.rest, u.table);
      Ok(UnpackedItems([u.value] + more.items, more.rest, more.table))
  }

  /** Reads to the terminator, or to the end of the input. */
  function UnpackEndlessItems(input: Bytes, table: seq<Value>): (r: Outcome<UnpackedItems>)
    ensures r.Ok? ==> |r.value.rest| <= |input|
    decreases |input|, 1
  {
    if input == [] then Ok(UnpackedItems([], [], table))
    else if input[0] == TERMINATOR then Ok(UnpackedItems([], input[1..], table))
    else
      var u :- UnpackValue(input, table);
      var more :- UnpackEndlessItems(u.rest, u.table);
      Ok(UnpackedItems([u.value] + more.items, more.rest, more.table))
  }

  function UnpackPairs(count: nat, input: Bytes, table: seq<Value>): (r: Outcome<UnpackedPairs>)
    ensures r.Ok? ==> |r.value.rest| <= |input|
    decreases |input|, 1
  {
    if count == 0 then Ok(UnpackedPairs([], input, table))
    else
      var k :- UnpackValue(input, table);
      var v :- UnpackValue(k.rest, k.table);
      var more :- UnpackPairs(count - 1, v.rest, v.table);
      Ok(UnpackedPairs([Entry(k.value, v.value)] + more.pairs, more.rest, more.table))
  }

  function UnpackEndlessPairs(input: Bytes, table: seq<Value>): (r: Outcome<UnpackedPairs>)
    ensures r.Ok? ==> |r.value.rest| <= |input|
    decreases |input|, 1
  {
    if input == [] then Ok(UnpackedPairs([], [], table))
    else if input[0] == TERMINATOR then Ok(UnpackedPairs([], input[1..], table))
    else
      var k :- UnpackValue(input, table);
      var v :- UnpackValue(k.rest, k.table);
      var more :- UnpackEndlessPairs(v.rest, v.table);
      Ok(UnpackedPairs([Entry(k.value, v.value)] + more.pairs, more.rest, more.table))
  }

  /** `result[key] = value`: a known key keeps its place and takes the new value. */
  function SetKey(entries: seq<Entry>, e: Entry): (r: seq<Entry>) {
    if entries == [] then [e]
    else if entries[0].key == e.key then [e] + entries[1..]
    else [entries[0]] + SetKey(entries[1..], e)
  }

  /** The object after all assignments, the last pair assigned last. */
  function Collect(pairs: seq<Entry>): seq<Entry> {
    if pairs == [] then [] else SetKey(Collect(pairs[..|pairs| - 1]), pairs[|pairs| - 1])
  }

  /** `OPACK.decode`: trailing bytes are ignored, and a null root makes `Object.keys` throw. */
  function Decode(input: Bytes): Outcome<Value> {
    var u :- UnpackValue(input, []);
    if u.value.Null? then Err(NullRoot) else Ok(u.value)
  }
}
