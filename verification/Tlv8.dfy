/**
 TLV8 (src/core/encoding/tlv8.ts, lines 126-341): items of a type byte, a length byte and a value;
 longer values are split into consecutive items of the same type.
 */
module Tlv8 {
  import opened Results
  import opened ByteStrings
  import opened BufferPools
  import opened Buffers

  const MAX_FRAGMENT: nat := 255

  datatype Item = Item(kind: Byte, value: Bytes)

  /** One property of a record, in the record's order. */
  datatype Property = Property(key: int, value: Bytes)

  datatype TlvError = InvalidType(key: int)

  // ---- Encoding ----

  function Fragments(kind: Byte, value: Bytes): Bytes
    decreases |value|
  {
    if value == [] then []
    else
      [kind, Min(MAX_FRAGMENT, |value|)] + Take(value, MAX_FRAGMENT) + Fragments(kind, Drop(value, MAX_FRAGMENT))
  }

  function EncodeItem(kind: Byte, value: Bytes): Bytes {
    if value == [] then [kind, 0] else Fragments(kind, value)
  }

  predicate ValidKey(key: int) {
    0 <= key <= 255
  }

  function Encode(key: int, value: Bytes): Result<Bytes, TlvError> {
    if ValidKey(key) then Ok(EncodeItem(key, value)) else Err(InvalidType(key))
  }

  function EncodeObject(properties: seq<Property>): Result<Bytes, TlvError>
    decreases |properties|
  {
    if properties == [] then Ok([])
    else
      match Encode(properties[0].key, properties[0].value)
      case Err(e) => Err(e)
      case Ok(first) =>
        match EncodeObject(properties[1..])
        case Err(e) => Err(e)
        case Ok(rest) => Ok(first + rest)
  }

  function CeilDiv(n: nat, d: nat): nat
    requires d > 0
  {
    (n + d - 1) / d
  }

  function Estimate(value: Bytes): nat {
    |value| + CeilDiv(|value|, MAX_FRAGMENT) * 2
  }

  function EstimateObject(properties: seq<Property>): nat {
    if properties == [] then 0 else Estimate(properties[0].value) + EstimateObject(properties[1..])
  }

  function EmptyValues(properties: seq<Property>): nat {
    if properties == [] then 0 else (if properties[0].value == [] then 1 else 0) + EmptyValues(properties[1..])
  }

  lemma {:induction false} FragmentsSize(kind: Byte, value: Bytes)
    ensures |Fragments(kind, value)| == Estimate(value)
    decreases |value|
  {
    if value != [] {
      FragmentsSize(kind, Drop(value, MAX_FRAGMENT));
    }
  }

  /** The precomputed sizes: exact for one value; two bytes short for every empty value of a record. */
  lemma {:induction false} EstimatesAre(properties: seq<Property>)
    requires EncodeObject(properties).Ok?
    ensures |EncodeObject(properties).value| == EstimateObject(properties) + 2 * EmptyValues(properties)
    decreases |properties|
  {
    if properties != [] {
      EstimatesAre(properties[1..]);
      FragmentsSize(properties[0].key, properties[0].value);
    }
  }

  lemma {:induction false} EncodesExactlyValidKeys(properties: seq<Property>)
    ensures EncodeObject(properties).Ok? <==> forall p | p in properties :: ValidKey(p.key)
    decreases |properties|
  {
    if properties != [] {
      EncodesExactlyValidKeys(properties[1..]);
    }
  }

  /**
   An item, byte for byte: fragment j of a value starts at 257 j, with the type, the number of bytes that
   follow, and the bytes of the value from 255 j on. An empty value has one fragment.
   */
  lemma ItemBytes(key: int, value: Bytes, j: nat)
    requires 0 <= key <= 255 && (255 * j < |value| || (j == 0 && value == []))
    ensures
      var encoded, from, n := Encode(key, value).value, 257 * j, Min(255, |value| - 255 * j);
      && Encode(key, value).Ok? && from + 2 + n <= |encoded|
      && encoded[from] == key && encoded[from + 1] == n
      && encoded[from + 2..from + 2 + n] == value[255 * j..255 * j + n]
  {
    if value != [] {
      FragmentBytes(key, value, j);
    }
  }

  /** Type, length and bytes of a fragment stand at some place. */
  ghost predicate FragmentAt(encoded: Bytes, from: nat, kind: Byte, part: Bytes) {
    && from + 2 + |part| <= |encoded| && encoded[from] == kind && encoded[from + 1] == |part|
    && encoded[from + 2..from + 2 + |part|] == part
  }

  lemma {:induction false} FragmentBytes(kind: Byte, value: Bytes, j: nat)
    requires 255 * j < |value|
    ensures FragmentAt(Fragments(kind, value), 257 * j, kind, value[255 * j..255 * j + Min(255, |value| - 255 * j)])
    decreases j
  {
    hide Fragments, FragmentAt;
    FirstFragment(kind, value);
    if j > 0 {
      var rest := Drop(value, 255);
      var from, n := 255 * (j - 1), Min(255, |value| - 255 * j);
      FragmentBytes(kind, rest, j - 1);
      LaterFragment(Fragments(kind, value), Fragments(kind, rest), 257 * (j - 1), kind, rest[from..from + n]);
      assert rest[from..from + n] == value[255 * j..255 * j + n];
    }
  }

  lemma LaterFragment(encoded: Bytes, tail: Bytes, from: nat, kind: Byte, part: Bytes)
    requires |encoded| >= 257 && encoded[257..] == tail && FragmentAt(tail, from, kind, part)
    ensures FragmentAt(encoded, 257 + from, kind, part)
  {
    assert tail[from + 2..from + 2 + |part|] == encoded[257 + from + 2..257 + from + 2 + |part|];
  }

  lemma FirstFragment(kind: Byte, value: Bytes)
    requires value != []
    ensures FragmentAt(Fragments(kind, value), 0, kind, value[..Min(255, |value|)])
    ensures |value| > 255 ==>
              |Fragments(kind, value)| >= 257 && Fragments(kind, value)[257..] == Fragments(kind, Drop(value, 255))
  {
    var n, rest := Min(255, |value|), Fragments(kind, Drop(value, MAX_FRAGMENT));
    var encoded := [kind, n] + value[..n] + rest;
    assert encoded == Fragments(kind, value);
    hide Fragments;
    assert encoded[2..2 + n] == value[..n] && encoded[2 + n..] == rest;
  }

  // ---- Decoding ----

  datatype Decoded = Decoded(items: seq<Item>, rest: Bytes)

  predicate StartsWithItem(data: Bytes) {
    |data| >= 2 && |data| - 2 >= data[1]
  }

  function ItemEnd(data: Bytes): (end: nat)
    requires StartsWithItem(data)
    ensures 2 <= end <= |data|
  {
    2 + data[1] as nat
  }

  /** All complete items, and what is left from the first incomplete one. */
  function DecodeItems(data: Bytes): (r: Decoded)
    ensures |r.rest| <= |data|
    decreases |data|
  {
    if !StartsWithItem(data) then Decoded([], data)
    else
      var end := ItemEnd(data);
      var more := DecodeItems(data[end..]);
      Decoded([Item(data[0], data[2..end])] + more.items, more.rest)
  }

  type TlvData = map<Byte, Bytes>

  /** Repeated types are concatenated. */
  function Add(m: TlvData, item: Item): TlvData {
    m[item.kind := (if item.kind in m then m[item.kind] else []) + item.value]
  }

  function AddAll(m: TlvData, items: seq<Item>): TlvData
    decreases |items|
  {
    if items == [] then m else AddAll(Add(m, items[0]), items[1..])
  }

  function DecodeObject(data: Bytes): TlvData {
    AddAll(map[], DecodeItems(data).items)
  }

  datatype Problem =
    | IncompleteHeader(offset: nat)
    | IncompleteValue(offset: nat, need: nat)
    | NothingComplete

  datatype Attempt = Attempt(data: TlvData, isComplete: bool, bytesProcessed: nat, errors: seq<Problem>)

  /** What is wrong with an incomplete item at an offset. */
  function Problems(rest: Bytes, offset: nat): seq<Problem> {
    if rest == [] then []
    else if |rest| < 2 then [IncompleteHeader(offset)]
    else [IncompleteValue(offset + 2, rest[1])]
  }

  function TryDecodeObject(data: Bytes): Attempt {
    var d := DecodeItems(data);
    var done := |data| - |d.rest|;
    Attempt(AddAll(map[], d.items), done == |data|, done,
            Problems(d.rest, done) + if done != |data| && done == 0 then [NothingComplete] else [])
  }

  // ---- Round trip ----

  lemma ItemInFront(kind: Byte, chunk: Bytes, more: Bytes)
    requires |chunk| <= MAX_FRAGMENT
    ensures
      var rest := DecodeItems(more);
      DecodeItems([kind, |chunk|] + chunk + more) == Decoded([Item(kind, chunk)] + rest.items, rest.rest)
  {
    var data := [kind, |chunk|] + chunk + more;
    assert data[2..2 + |chunk|] == chunk && data[2 + |chunk|..] == more;
  }

  /** The items of one value concatenate to it. */
  lemma {:induction false} FragmentsDecode(kind: Byte, value: Bytes, more: Bytes, m: TlvData)
    ensures
      var all, rest := DecodeItems(Fragments(kind, value) + more), DecodeItems(more);
      && all.rest == rest.rest
      && AddAll(m, all.items) == AddAll(if value == [] then m else Add(m, Item(kind, value)), rest.items)
    decreases |value|
  {
    if value == [] {
      assert [] + more == more;
    } else {
      var chunk, later := Take(value, MAX_FRAGMENT), Drop(value, MAX_FRAGMENT);
      var fragments := Fragments(kind, later);
      assert Fragments(kind, value) + more == [kind, |chunk|] + chunk + (fragments + more);
      ItemInFront(kind, chunk, fragments + more);
      var first := Item(kind, chunk);
      FragmentsDecode(kind, later, more, Add(m, first));
      AddTwice(m, kind, chunk, later);
      var all := DecodeItems(fragments + more).items;
      assert ([first] + all)[1..] == all;
    }
  }

  lemma AddTwice(m: TlvData, kind: Byte, a: Bytes, b: Bytes)
    ensures Add(Add(m, Item(kind, a)), Item(kind, b)) == Add(m, Item(kind, a + b))
    ensures b == [] ==> Add(m, Item(kind, a)) == Add(m, Item(kind, a + b))
  {
    var before := if kind in m then m[kind] else [];
    assert (before + a) + b == before + (a + b);
    assert b == [] ==> a + b == a;
  }

  lemma ItemDecodes(kind: Byte, value: Bytes, more: Bytes, m: TlvData)
    ensures
      var all, rest := DecodeItems(EncodeItem(kind, value) + more), DecodeItems(more);
      && all.rest == rest.rest
      && AddAll(m, all.items) == AddAll(Add(m, Item(kind, value)), rest.items)
  {
    if value == [] {
      ItemInFront(kind, [], more);
      assert [kind, 0] + [] + more == [kind, 0] + more;
      var rest := DecodeItems(more).items;
      assert ([Item(kind, [])] + rest)[1..] == rest;
    } else {
      FragmentsDecode(kind, value, more, m);
    }
  }

  /** The record that a list of properties is. */
  function ToMap(properties: seq<Property>, m: TlvData): TlvData
    requires forall p | p in properties :: ValidKey(p.key)
    decreases |properties|
  {
    if properties == [] then m
    else
      assert properties[0] in properties && ValidKey(properties[0].key);
      ToMap(properties[1..], m[properties[0].key := properties[0].value])
  }

  ghost predicate DistinctKeys(properties: seq<Property>) {
    forall i, j | 0 <= i < j < |properties| :: properties[i].key != properties[j].key
  }

  lemma {:induction false} ObjectDecodes(properties: seq<Property>, m: TlvData)
    requires forall p | p in properties :: ValidKey(p.key) && p.key !in m
    requires DistinctKeys(properties) && EncodeObject(properties).Ok?
    ensures
      var d := DecodeItems(EncodeObject(properties).value);
      d.rest == [] && AddAll(m, d.items) == ToMap(properties, m)
    decreases |properties|
  {
    if properties != [] {
      var p, rest := properties[0], properties[1..];
      assert p in properties;
      var after := EncodeObject(rest).value;
      ItemDecodes(p.key, p.value, after, m);
      assert [] + p.value == p.value;
      assert Add(m, Item(p.key, p.value)) == m[p.key := p.value];
      forall q | q in rest ensures ValidKey(q.key) && q.key !in m[p.key := p.value] {
        var i :| 0 <= i < |rest| && rest[i] == q;
        assert properties[i + 1] == q && properties[0].key != properties[i + 1].key;
      }
      ObjectDecodes(rest, m[p.key := p.value]);
    }
  }

  /** Every record whose keys are types comes back, whatever its values and its order; no other is encoded. */
  lemma RoundTrip(properties: seq<Property>)
    requires DistinctKeys(properties)
    ensures EncodeObject(properties).Ok? <==> forall p | p in properties :: ValidKey(p.key)
    ensures EncodeObject(properties).Ok? ==>
              var data := EncodeObject(properties).value;
              && DecodeObject(data) == ToMap(properties, map[])
              && TryDecodeObject(data) == Attempt(ToMap(properties, map[]), true, |data|, [])
  {
    EncodesExactlyValidKeys(properties);
    if EncodeObject(properties).Ok? {
      ObjectDecodes(properties, map[]);
    }
  }

  lemma {:induction false} ToMapIs(properties: seq<Property>, m: TlvData)
    requires forall p | p in properties :: ValidKey(p.key)
    requires DistinctKeys(properties)
    ensures
      var r := ToMap(properties, m);
      && (forall p | p in properties :: p.key in r && r[p.key] == p.value)
      && forall k: Byte | forall p | p in properties :: p.key != k :: k in r <==> k in m
    ensures forall k: Byte | k in m && (forall p | p in properties :: p.key != k) :: ToMap(properties, m)[k] == m[k]
    decreases |properties|
  {
    if properties != [] {
      var p, rest := properties[0], properties[1..];
      assert p in properties;
      var m' := m[p.key := p.value];
      ToMapIs(rest, m');
      forall q | q in rest ensures q.key != p.key {
        var i :| 0 <= i < |rest| && rest[i] == q;
        assert properties[i + 1] == q && properties[0].key != properties[i + 1].key;
      }
      assert forall q | q in properties :: q == p || q in rest;
      }
  }

  // ---- Input that may stop anywhere ----

  ghost predicate Whole(data: Bytes) {
    DecodeItems(data).rest == []
  }

  lemma ItemFirst(data: Bytes)
    requires StartsWithItem(data)
    ensures
      var end := ItemEnd(data);
      var more := DecodeItems(data[end..]);
      DecodeItems(data) == Decoded([Item(data[0], data[2..end])] + more.items, more.rest)
  {
  }

  lemma SameItem(data: Bytes, other: Bytes)
    requires StartsWithItem(data) && ItemEnd(data) <= |other| && data[..ItemEnd(data)] == other[..ItemEnd(data)]
    ensures StartsWithItem(other) && ItemEnd(other) == ItemEnd(data)
    ensures other[0] == data[0] && other[2..ItemEnd(data)] == data[2..ItemEnd(data)]
  {
    var end := ItemEnd(data);
    assert other[1] == other[..end][1] && other[0] == other[..end][0];
    assert other[2..end] == other[..end][2..] && data[2..end] == data[..end][2..];
  }

  /** More input continues where decoding stopped. */
  lemma {:induction false} DecodeMore(first: Bytes, more: Bytes)
    ensures
      var d := DecodeItems(first);
      var later := DecodeItems(d.rest + more);
      DecodeItems(first + more) == Decoded(d.items + later.items, later.rest)
    decreases |first|
  {
    hide DecodeItems;
    var d := DecodeItems(first);
    var later := DecodeItems(d.rest + more);
    if StartsWithItem(first) {
      var end := ItemEnd(first);
      assert (first + more)[..end] == first[..end] && (first + more)[end..] == first[end..] + more;
      SameItem(first, first + more);
      ItemFirst(first);
      ItemFirst(first + more);
      DecodeMore(first[end..], more);
      var tail := DecodeItems(first[end..]).items;
      assert [Item(first[0], first[2..end])] + (tail + later.items) == d.items + later.items;
    } else {
      NoItem(first);
      assert [] + later.items == later.items;
    }
  }

  lemma {:induction false} RestIsSuffix(data: Bytes)
    ensures
      var r := DecodeItems(data).rest;
      && !StartsWithItem(r)
      && data[|data| - |r|..] == r
      && DecodeItems(data[..|data| - |r|]) == Decoded(DecodeItems(data).items, [])
    decreases |data|
  {
    hide DecodeItems;
    var r := DecodeItems(data).rest;
    if StartsWithItem(data) {
      var end := ItemEnd(data);
      ItemFirst(data);
      RestIsSuffix(data[end..]);
      var whole := data[..|data| - |r|];
      assert whole[..end] == data[..end];
      assert data[end..][..|whole| - end] == whole[end..];
      SameItem(data, whole);
      ItemFirst(whole);
    } else {
      NoItem(data);
      NoItem([]);
      assert data[..0] == [];
    }
  }

  /** The same data as `decodeObject` on every input, and the longest prefix made of whole items. */
  lemma TryDecodesLongestPrefix(data: Bytes)
    ensures
      var t := TryDecodeObject(data);
      && t.data == DecodeObject(data) == DecodeObject(data[..t.bytesProcessed])
      && t.bytesProcessed <= |data| && Whole(data[..t.bytesProcessed])
      && (forall n | t.bytesProcessed < n <= |data| :: !Whole(data[..n]))
      && (t.isComplete <==> Whole(data)) && (t.isComplete <==> t.errors == [])
  {
    hide DecodeItems, AddAll;
    var d := DecodeItems(data);
    var done := |data| - |d.rest|;
    RestIsSuffix(data);
    NoItem(d.rest);
    assert data[..|data|] == data;
    forall n | done < n <= |data| ensures !Whole(data[..n]) {
      var piece := data[done..n];
      DecodeMore(data[..done], piece);
      assert data[..done] + piece == data[..n];
      assert [] + piece == piece;
      assert piece == d.rest[..n - done];
      NoItem(piece);
    }
  }

  lemma NoItem(data: Bytes)
    requires !StartsWithItem(data)
    ensures DecodeItems(data) == Decoded([], data)
  {
  }

  // ---- The loops ----

  /** If there is room, the writer keeps its buffer. */
  method WriteFragments(writer: BufferWriter, kind: Byte, value: Bytes)
    requires writer.Valid() && writer.pool == null
    modifies writer`buffer, writer`offset, writer.buffer.memory
    ensures writer.Valid() && writer.Contents() == old(writer.Contents()) + Fragments(kind, value)
    ensures writer.buffer == old(writer.buffer) || fresh(writer.buffer.memory)
    ensures old(writer.offset) + |Fragments(kind, value)| <= old(writer.buffer.length) ==>
        writer.buffer == old(writer.buffer)
  {
    hide Fragments;
    var offset := 0;
    ghost var whole, done: Bytes := Fragments(kind, value), [];
    assert value[0..] == value && [] + whole == whole;
    while offset < |value|
      invariant 0 <= offset <= |value|
      invariant writer.Valid() && writer.Contents() == old(writer.Contents()) + done
      invariant whole == done + Fragments(kind, value[offset..])
      invariant writer.buffer == old(writer.buffer) || fresh(writer.buffer.memory)
      invariant old(writer.offset) + |whole| <= old(writer.buffer.length) ==> writer.buffer == old(writer.buffer)
    {
      FragmentStep(kind, value, offset, done);
      WriteFragment(writer, kind, value[offset..offset + Min(MAX_FRAGMENT, |value| - offset)]);
      ghost var chunk := value[offset..offset + Min(MAX_FRAGMENT, |value| - offset)];
      done := done + ([kind, |chunk|] + chunk);
      offset := offset + Min(MAX_FRAGMENT, |value| - offset);
    }
    NoFragments(kind, value[offset..]);
    assert done + [] == done;
  }

  lemma NoFragments(kind: Byte, value: Bytes)
    requires value == []
    ensures Fragments(kind, value) == []
  {
  }

  lemma FragmentStep(kind: Byte, value: Bytes, offset: nat, done: Bytes)
    requires offset < |value|
    ensures
      var chunk := value[offset..offset + Min(MAX_FRAGMENT, |value| - offset)];
      done + Fragments(kind, value[offset..])
      == (done + ([kind, |chunk|] + chunk)) + Fragments(kind, value[offset + |chunk|..])
  {
    var rest := value[offset..];
    var chunk := value[offset..offset + Min(MAX_FRAGMENT, |rest|)];
    assert Take(rest, MAX_FRAGMENT) == chunk && Drop(rest, MAX_FRAGMENT) == value[offset + |chunk|..];
    var more := Fragments(kind, value[offset + |chunk|..]);
    assert done + ([kind, |chunk|] + chunk + more) == (done + ([kind, |chunk|] + chunk)) + more;
  }

  method WriteFragment(writer: BufferWriter, kind: Byte, chunk: Bytes)
    requires writer.Valid() && writer.pool == null && |chunk| <= MAX_FRAGMENT
    modifies writer`buffer, writer`offset, writer.buffer.memory
    ensures writer.Valid() && writer.Contents() == old(writer.Contents()) + ([kind, |chunk|] + chunk)
    ensures writer.buffer == old(writer.buffer) || fresh(writer.buffer.memory)
    ensures old(writer.offset) + 2 + |chunk| <= old(writer.buffer.length) ==> writer.buffer == old(writer.buffer)
  {
    hide RoomFor, Written;
    var ok := writer.WriteUInt8(kind);
    ok := writer.WriteUInt8(|chunk|);
    writer.WriteBuffer(chunk);
  }

  /** The size computed up front is exact, so the writer ends with the buffer it started with. */
  method EncodeBytes(key: int, value: Bytes) returns (r: Result<Bytes, TlvError>, ghost reallocated: bool)
    ensures r == Encode(key, value)
    ensures !reallocated
  {
    reallocated := false;
    if key < 0 || key > 255 {
      return Err(InvalidType(key)), false;
    }
    if |value| == 0 {
      return Ok([key, 0]), false;
    }
    var writer := new BufferWriter(Estimate(value));
    ghost var buffer := writer.buffer;
    FragmentsSize(key, value);
    WriteFragments(writer, key, value);
    reallocated := writer.buffer != buffer;
    assert [] + Fragments(key, value) == Fragments(key, value);
    r := Ok(writer.Contents());
  }

  /** The writer grows exactly when some value is empty. */
  method EncodeObjectBytes(properties: seq<Property>) returns (r: Result<Bytes, TlvError>, ghost reallocated: bool)
    ensures r == EncodeObject(properties)
    ensures r.Ok? ==> (reallocated <==> EmptyValues(properties) > 0)
  {
    hide EncodeObject, Encode, EncodeItem;
    var estimatedSize := EstimateAll(properties);
    var writer := new BufferWriter(estimatedSize);
    ghost var buffer, whole := writer.buffer, EncodeObject(properties);
    reallocated := false;
    assert properties[0..] == properties;
    After([], whole);
    for i := 0 to |properties|
      invariant writer.Valid() && writer.pool == null && fresh(writer) && fresh(writer.buffer.memory)
      invariant whole == Following(writer.Contents(), EncodeObject(properties[i..]))
      invariant whole.Ok? && |whole.value| <= buffer.length ==> writer.buffer == buffer
    {
      var p := properties[i];
      ObjectStep(writer.Contents(), properties, i);
      if p.key < 0 || p.key > 255 {
        return Err(InvalidType(p.key)), false;
      }
      WriteItem(writer, p.key, p.value);
    }
    NoProperties(properties[|properties|..], writer.Contents());
    EstimatesAre(properties);
    reallocated := writer.buffer != buffer;
    r := Ok(writer.Contents());
  }

  method EstimateAll(properties: seq<Property>) returns (estimatedSize: nat)
    ensures estimatedSize == EstimateObject(properties)
  {
    estimatedSize := 0;
    assert properties[0..] == properties;
    for i := 0 to |properties|
      invariant estimatedSize + EstimateObject(properties[i..]) == EstimateObject(properties)
    {
      assert properties[i..][1..] == properties[i + 1..];
      estimatedSize := estimatedSize + Estimate(properties[i].value);
    }
  }

  method WriteItem(writer: BufferWriter, kind: Byte, value: Bytes)
    requires writer.Valid() && writer.pool == null
    modifies writer`buffer, writer`offset, writer.buffer.memory
    ensures writer.Valid() && writer.Contents() == old(writer.Contents()) + EncodeItem(kind, value)
    ensures writer.buffer == old(writer.buffer) || fresh(writer.buffer.memory)
    ensures old(writer.offset) + |EncodeItem(kind, value)| <= old(writer.buffer.length) ==>
        writer.buffer == old(writer.buffer)
  {
    if |value| == 0 {
      ghost var before := writer.Contents();
      var ok := writer.WriteUInt8(kind);
      ok := writer.WriteUInt8(0);
      assert (before + [kind]) + [0] == before + [kind, 0];
    } else {
      WriteFragments(writer, kind, value);
    }
  }

  ghost function Following(done: Bytes, rest: Result<Bytes, TlvError>): Result<Bytes, TlvError> {
    match rest
    case Err(e) => Err(e)
    case Ok(more) => Ok(done + more)
  }

  lemma After(done: Bytes, rest: Result<Bytes, TlvError>)
    ensures done == [] ==> Following(done, rest) == rest
  {
    if rest.Ok? {
      assert [] + rest.value == rest.value;
    }
  }

  lemma NoProperties(properties: seq<Property>, done: Bytes)
    requires properties == []
    ensures Following(done, EncodeObject(properties)) == Ok(done)
  {
    assert done + [] == done;
  }

  lemma ObjectStep(done: Bytes, properties: seq<Property>, i: nat)
    requires i < |properties|
    ensures
      var p, whole := properties[i], Following(done, EncodeObject(properties[i..]));
      if ValidKey(p.key) then whole == Following(done + EncodeItem(p.key, p.value), EncodeObject(properties[i + 1..]))
      else whole == Err(InvalidType(p.key))
  {
    var rest := properties[i..];
    assert rest[1..] == properties[i + 1..];
    var p, more := properties[i], EncodeObject(properties[i + 1..]);
    if ValidKey(p.key) && more.Ok? {
      assert done + (EncodeItem(p.key, p.value) + more.value) == (done + EncodeItem(p.key, p.value)) + more.value;
    }
  }

  method ReadUInt8(reader: BufferReader) returns (b: Byte)
    requires reader.Rest() != []
    modifies reader
    ensures b == old(reader.Rest())[0] && reader.Rest() == old(reader.Rest())[1..]
    ensures reader.offset == old(reader.offset) + 1
  {
    var r := reader.ReadUIntLE(1);
    OneByte(old(reader.Rest())[..1]);
    b := r.value;
  }

  lemma OneByte(s: Bytes)
    requires |s| == 1
    ensures FromLE(s) == s[0]
  {
    assert s[1..] == [];
  }

  /** One item, or the position is put back and nothing is read. */
  method ReadItem(reader: BufferReader) returns (r: Option<Item>)
    modifies reader
    ensures
      var rest := old(reader.Rest());
      if StartsWithItem(rest) then
        && r == Some(Item(rest[0], rest[2..ItemEnd(rest)])) && reader.Rest() == rest[ItemEnd(rest)..]
        && reader.offset == old(reader.offset) + ItemEnd(rest)
      else r.None? && reader.offset == old(reader.offset)
  {
    hide FromLE;
    var startPos := reader.offset;
    ghost var data := reader.Rest();
    if |reader.buffer| - reader.offset < 2 {
      return None;
    }
    var kind := ReadUInt8(reader);
    var length := ReadUInt8(reader);
    assert data[1..][1..] == data[2..];
    if |reader.buffer| - reader.offset < length {
      reader.offset := startPos;
      return None;
    }
    var value := reader.ReadBuffer(length);
    assert data[2..][..length] == data[2..ItemEnd(data)] && data[2..][length..] == data[ItemEnd(data)..];
    r := Some(Item(kind, value));
  }

  lemma DecodeStep(rest: Bytes, done: seq<Item>, m: TlvData)
    ensures
      if StartsWithItem(rest) then
        var item, more := Item(rest[0], rest[2..ItemEnd(rest)]), DecodeItems(rest[ItemEnd(rest)..]);
        && done + DecodeItems(rest).items == (done + [item]) + more.items
        && DecodeItems(rest).rest == more.rest
        && AddAll(m, DecodeItems(rest).items) == AddAll(Add(m, item), more.items)
      else
        && done + DecodeItems(rest).items == done && DecodeItems(rest).rest == rest
        && AddAll(m, DecodeItems(rest).items) == m
  {
    if StartsWithItem(rest) {
      assert DecodeItems(rest).items[1..] == DecodeItems(rest[ItemEnd(rest)..]).items;
    }
  }

  method DecodeItemList(data: Bytes) returns (items: seq<Item>)
    ensures items == DecodeItems(data).items
  {
    hide DecodeItems;
    var reader := new BufferReader(data);
    items := [];
    ghost var whole := DecodeItems(data).items;
    assert items + whole == whole;
    while reader.HasMore()
      invariant fresh(reader) && reader.buffer == data
      invariant whole == items + DecodeItems(reader.Rest()).items
      decreases |reader.Rest()|
    {
      DecodeStep(reader.Rest(), items, map[]);
      var item := ReadItem(reader);
      if item.None? {
        return;
      }
      items := items + [item.value];
    }
    DecodeStep(reader.Rest(), items, map[]);
  }

  method DecodeObjectData(data: Bytes) returns (r: TlvData)
    ensures r == DecodeObject(data)
  {
    var items := DecodeItemList(data);
    r := map[];
    for i := 0 to |items|
      invariant AddAll(map[], items) == AddAll(r, items[i..])
    {
      assert items[i..][1..] == items[i + 1..];
      r := r[items[i].kind := (if items[i].kind in r then r[items[i].kind] else []) + items[i].value];
    }
  }

  lemma IncompleteAt(data: Bytes, offset: nat)
    requires offset < |data|
    ensures Problems(Drop(data, offset), offset) ==
            if |data| - offset < 2 then [IncompleteHeader(offset)] else [IncompleteValue(offset + 2, data[offset + 1])]
  {
  }

  method TryDecodeObjectData(data: Bytes) returns (r: Attempt)
    ensures r == TryDecodeObject(data)
  {
    hide DecodeItems, AddAll, Add, Problems, StartsWithItem, ItemEnd;
    var reader := new BufferReader(data);
    var result: TlvData := map[];
    var errors := [];
    ghost var whole := DecodeItems(data);
    while reader.HasMore()
      invariant fresh(reader) && reader.buffer == data
      invariant reader.offset + |reader.Rest()| == |data|
      invariant AddAll(map[], whole.items) == AddAll(result, DecodeItems(reader.Rest()).items)
      invariant whole.rest == DecodeItems(reader.Rest()).rest
      decreases |reader.Rest()|
    {
      DecodeStep(reader.Rest(), [], result);
      IncompleteAt(data, reader.offset);
      var item := ReadItem(reader);
      if item.None? {
        errors := if |data| - reader.offset < 2 then [IncompleteHeader(reader.offset)]
                  else [IncompleteValue(reader.offset + 2, data[reader.offset + 1])];
        break;
      }
      result := Add(result, item.value);
    }
    Finished(reader.Rest(), reader.offset, result);
    var bytesProcessed := reader.offset;
    var isComplete := bytesProcessed == |data|;
    if !isComplete && bytesProcessed == 0 {
      errors := errors + [NothingComplete];
    }
    r := Attempt(result, isComplete, bytesProcessed, errors);
  }

  lemma Finished(rest: Bytes, offset: nat, m: TlvData)
    ensures rest == [] ==> !StartsWithItem(rest) && Problems(rest, offset) == []
    ensures !StartsWithItem(rest) ==>
              DecodeItems(rest) == Decoded([], rest) && AddAll(m, DecodeItems(rest).items) == m
  {
  }
}
