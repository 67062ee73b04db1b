/**
 The OPACK bytes by number: what every kind of value is packed to, and what every tag byte is read as
 (src/core/encoding/opack.ts, lines 130-427 and 429-690).
 */
module OpackWire {
  import opened Results
  import opened ByteStrings
  import opened Opack

  // ---- What is written ----

  lemma ConstantBytes(table: seq<Bytes>)
    ensures PackValue(Null, table) == Ok(Packed([0x04], table))
    ensures PackValue(Bool(true), table) == Ok(Packed([0x01], table))
    ensures PackValue(Bool(false), table) == Ok(Packed([0x02], table))
  {
  }

  /** A number up to 39 is one byte; a larger one follows its tag in one, two or four. */
  lemma NumberBytes(n: int, table: seq<Bytes>)
    ensures
      var r := PackValue(Num(n), table);
      if n < 0 || n > 0xffff_ffff then r == Err(IntegerRange)
      else
        && r.Ok? && r.value.table == table && r.value.bytes != []
        && var tag, rest := r.value.bytes[0], r.value.bytes[1..];
           if n < 40 then tag as int == 8 + n && rest == []
           else
             && FromLE(rest) == n
             && if n <= 0xff then tag == 0x30 && |rest| == 1
                else if n <= 0xffff then tag == 0x31 && |rest| == 2
                else tag == 0x32 && |rest| == 4
  {
    Pow256Values();
    if 40 <= n <= 0xffff_ffff {
      LERoundTrip(n, if n <= 0xff then 1 else if n <= 0xffff then 2 else 4);
    }
  }

  lemma BigBytes(n: int, table: seq<Bytes>)
    ensures
      var r := PackValue(Big(n), table);
      if n < 0 || n > 0xffff_ffff_ffff_ffff then r == Err(BigIntRange)
      else
        && r.Ok? && r.value.table == table && |r.value.bytes| == 9
        && r.value.bytes[0] == 0x33 && FromLE(r.value.bytes[1..]) == n
  {
    Pow256Values();
    if 0 <= n <= 0xffff_ffff_ffff_ffff {
      LERoundTrip(n, 8);
    }
  }

  lemma FloatBytes(bits: Bytes, table: seq<Bytes>)
    ensures PackValue(Float(bits), table) == Ok(Packed([0x36] + bits, table))
  {
  }

  /** Strings and byte strings: tag and length in one byte up to 32, then in a byte or two of their own. */
  lemma TextBytes(s: Bytes)
    ensures
      var n, str, data := |s|, PackString(s), PackData(s);
      if n > 0xffff then str == Err(TooLong) && data == Err(TooLong)
      else if n <= 32 then str == Ok([0x40 + n] + s) && data == Ok([0x70 + n] + s)
      else if n <= 0xff then str == Ok([0x61, n] + s) && data == Ok([0x91, n] + s)
      else str == Ok([0x62, n % 256, n / 256] + s) && data == Ok([0x92, n % 256, n / 256] + s)
  {
    if 0xff < |s| <= 0xffff {
      assert LE(|s|, 2) == [|s| % 256] + LE(|s| / 256, 1) == [|s| % 256, |s| / 256];
      assert [0x62] + LE(|s|, 2) == [0x62, |s| % 256, |s| / 256];
      assert [0x92] + LE(|s|, 2) == [0x92, |s| % 256, |s| / 256];
    }
  }

  /** The first time a string is sent as it is and listed; after that, as the number of its place. */
  lemma ReferenceBytes(packed: Bytes, table: seq<Bytes>, i: nat)
    requires |packed| > 1 && i <= |table| && packed !in table[..i] && (i < |table| ==> table[i] == packed)
    ensures
      var r := CheckAndReuseObject(packed, table);
      if i == |table| then r == Packed(packed, table + [packed])
      else if i <= 0x20 then r == Packed([0xa0 + i], table)
      else if i <= 0xff then r == Packed([0xc1, i], table)
      else if i <= 0xffff then r == Packed([0xc2, i % 256, i / 256], table)
      else if i <= 0xffff_ffff then
        |r.bytes| == 5 && r.bytes[0] == 0xc3 && FromLE(r.bytes[1..]) == i && r.table == table
      else r == Packed(packed, table + [packed])
  {
    Pow256Values();
    if i < |table| {
      if 0xff < i <= 0xffff {
        assert LE(i, 2) == [i % 256] + LE(i / 256, 1) == [i % 256, i / 256];
      } else if 0xffff < i <= 0xffff_ffff {
        LERoundTrip(i, 4);
      }
    }
  }

  /** Strings and byte strings go through that list. */
  lemma TextIsReused(s: Bytes, table: seq<Bytes>)
    requires |s| <= 0xffff
    ensures PackValue(Str(s), table) == Ok(CheckAndReuseObject(PackString(s).value, table))
    ensures PackValue(Data(s), table) == Ok(CheckAndReuseObject(PackData(s).value, table))
  {
  }

  /** Counted up to 14 elements; from 15 on, open and closed by 0x03. */
  lemma ArrayBytes(items: seq<Value>, table: seq<Bytes>)
    requires PackItems(items, table).Ok?
    ensures
      var n, body := |items|, PackItems(items, table).value;
      PackValue(Arr(items), table) ==
        Ok(Packed(if n < 15 then [0xd0 + n] + body.bytes else [0xdf] + body.bytes + [0x03], body.table))
  {
    hide PackItems;
    var bytes := PackItems(items, table).value.bytes;
    assert [0xd0 + Min(|items|, 0xf)] + bytes + [] == [0xd0 + Min(|items|, 0xf)] + bytes;
  }

  lemma DictBytes(entries: seq<Entry>, table: seq<Bytes>)
    requires PackEntries(entries, table).Ok?
    ensures
      var n, body := |entries|, PackEntries(entries, table).value;
      PackValue(Dict(entries), table) ==
        Ok(Packed(if n < 15 then [0xe0 + n] + body.bytes else [0xef] + body.bytes + [0x03], body.table))
  {
    hide PackEntries;
    var bytes := PackEntries(entries, table).value.bytes;
    assert [0xe0 + Min(|entries|, 0xf)] + bytes + [] == [0xe0 + Min(|entries|, 0xf)] + bytes;
  }

  /** Elements one after the other; keys in front of their values; the list is handed on. */
  lemma {:induction false} ItemsInOrder(a: seq<Value>, v: Value, table: seq<Bytes>)
    ensures
      var front := PackItems(a, table);
      PackItems(a + [v], table) ==
        match front
        case Err(e) => Err(e)
        case Ok(p) =>
          match PackValue(v, p.table)
          case Err(e) => Err(e)
          case Ok(q) => Ok(Packed(p.bytes + q.bytes, q.table))
    decreases |a|
  {
    hide PackValue;
    if a == [] {
      assert [] + [v] == [v] && [v][1..] == [];
      if PackValue(v, table).Ok? {
        var q := PackValue(v, table).value;
        assert q.bytes + [] == q.bytes && [] + q.bytes == q.bytes;
      }
    } else {
      assert (a + [v])[1..] == a[1..] + [v];
      if PackValue(a[0], table).Ok? {
        var first := PackValue(a[0], table).value;
        ItemsInOrder(a[1..], v, first.table);
        Regroup(first, PackItems(a[1..], first.table), v);
      }
    }
  }

  lemma Regroup(first: Packed, more: Outcome<Packed>, v: Value)
    ensures more.Ok? && PackValue(v, more.value.table).Ok? ==>
              var q := PackValue(v, more.value.table).value;
              first.bytes + (more.value.bytes + q.bytes) == (first.bytes + more.value.bytes) + q.bytes
  {
  }

  lemma {:induction false} EntriesInOrder(a: seq<Entry>, e: Entry, table: seq<Bytes>)
    ensures
      var front := PackEntries(a, table);
      PackEntries(a + [e], table) ==
        match front
        case Err(err) => Err(err)
        case Ok(p) =>
          match PackEntry(e, p.table)
          case Err(err) => Err(err)
          case Ok(q) => Ok(Packed(p.bytes + q.bytes, q.table))
    decreases |a|
  {
    hide PackEntry;
    if a == [] {
      assert [] + [e] == [e] && [e][1..] == [];
      if PackEntry(e, table).Ok? {
        var q := PackEntry(e, table).value;
        assert q.bytes + [] == q.bytes && [] + q.bytes == q.bytes;
      }
    } else {
      assert (a + [e])[1..] == a[1..] + [e];
      if PackEntry(a[0], table).Ok? {
        var first := PackEntry(a[0], table).value;
        EntriesInOrder(a[1..], e, first.table);
        RegroupEntries(first, PackEntries(a[1..], first.table), e);
      }
    }
  }

  lemma RegroupEntries(first: Packed, more: Outcome<Packed>, e: Entry)
    ensures more.Ok? && PackEntry(e, more.value.table).Ok? ==>
              var q := PackEntry(e, more.value.table).value;
              first.bytes + (more.value.bytes + q.bytes) == (first.bytes + more.value.bytes) + q.bytes
  {
  }

  lemma KeyBeforeValue(e: Entry, table: seq<Bytes>, k: Packed, v: Packed)
    requires PackValue(e.key, table) == Ok(k) && PackValue(e.value, k.table) == Ok(v)
    ensures PackEntry(e, table) == Ok(Packed(k.bytes + v.bytes, v.table))
  {
    hide PackValue;
  }

  // ---- What is read ----

  /** A value that is not listed, and one that is. */
  ghost predicate Reads(input: Bytes, table: seq<Value>, v: Value, rest: Bytes) {
    UnpackValue(input, table) == Ok(Unpacked(v, rest, table))
  }

  ghost predicate ReadsAndLists(input: Bytes, table: seq<Value>, v: Value, rest: Bytes) {
    UnpackValue(input, table) == Ok(Unpacked(v, rest, table + [v]))
  }

  lemma Tag(tag: Byte, body: Bytes)
    ensures ([tag] + body)[0] == tag && ([tag] + body)[1..] == body
  {
  }

  /** 0x01 to 0x04 and 0x07 to 0x2f stand for themselves; nothing at all, 0x00 and some others are errors. */
  lemma ReadsConstant(tag: Byte, rest: Bytes, table: seq<Value>)
    ensures UnpackValue([], table) == Err(Underrun)
    ensures tag == 0x00 ==> UnpackValue([tag] + rest, table) == Err(Reserved)
    ensures tag == 0x01 ==> Reads([tag] + rest, table, Bool(true), rest)
    ensures tag == 0x02 ==> Reads([tag] + rest, table, Bool(false), rest)
    ensures tag == 0x03 || tag == 0x04 ==> Reads([tag] + rest, table, Null, rest)
    ensures 0x07 <= tag <= 0x2f ==> Reads([tag] + rest, table, Num(tag - 8), rest)
    ensures tag in {0x37, 0x38, 0x39, 0x3a, 0x3b, 0x3c, 0x3d, 0x3e, 0x3f} || 0x65 <= tag <= 0x6e ||
              0x95 <= tag <= 0x9f || tag == 0xc5 || 0xc6 <= tag <= 0xcf || tag >= 0xf0 ==>
              UnpackValue([tag] + rest, table) == Err(NotImplemented)
    ensures tag == 0xc3 ==> UnpackValue([tag] + rest, table) == Err(BadReferenceSize)
  {
    Tag(tag, rest);
  }

  /** 0x30 to 0x34: numbers of 1, 2, 4, 8 and 16 bytes, those from 8 on big; 0x35 and 0x36: floats of 4 and 8. */
  lemma ReadsNumber(tag: Byte, digits: Bytes, rest: Bytes, table: seq<Value>)
    requires 0x30 <= tag <= 0x36
    requires |digits| == match tag case 0x30 => 1 case 0x31 => 2 case 0x32 => 4 case 0x33 => 8
                                   case 0x34 => 16 case 0x35 => 4 case _ => 8
    ensures
      ReadsAndLists([tag] + (digits + rest), table,
                    if tag <= 0x32 then Num(FromLE(digits))
                    else if tag <= 0x34 then Big(FromLE(digits))
                    else Float(digits),
                    rest)
  {
    Tag(tag, digits + rest);
    assert (digits + rest)[..|digits|] == digits && (digits + rest)[|digits|..] == rest;
  }

  /** Short strings and byte strings hold their length in the tag; what is not there is left out. */
  lemma ReadsShortText(n: nat, s: Bytes, rest: Bytes, table: seq<Value>)
    requires n <= 32 && (|s| == n || (|s| < n && rest == []))
    ensures ReadsAndLists([0x40 + n] + (s + rest), table, Str(s), rest)
    ensures ReadsAndLists([0x70 + n] + (s + rest), table, Data(s), rest)
  {
    hide UnpackScalar, UnpackReference;
    Tag(0x40 + n, s + rest);
    Tag(0x70 + n, s + rest);
    assert Take(s + rest, n) == s && Drop(s + rest, n) == rest;
  }

  /** Longer ones hold it in 1, 2, 3 or 4 bytes (0x61 to 0x64), or in 1, 2, 4 or 8 (0x91 to 0x94). */
  lemma ReadsLongText(tag: Byte, size: Bytes, s: Bytes, rest: Bytes, table: seq<Value>)
    requires 0x61 <= tag <= 0x64 || 0x91 <= tag <= 0x94
    requires |size| == match tag case 0x61 => 1 case 0x62 => 2 case 0x63 => 3 case 0x64 => 4
                                 case 0x91 => 1 case 0x92 => 2 case 0x93 => 4 case _ => 8
    requires FromLE(size) < 0x20_0000_0000_0000
    requires |s| == FromLE(size) || (|s| < FromLE(size) && rest == [])
    ensures ReadsAndLists([tag] + (size + (s + rest)), table, if tag < 0x70 then Str(s) else Data(s), rest)
  {
    hide UnpackText, UnpackScalar, UnpackReference, FromLE;
    var input := size + (s + rest);
    Tag(tag, input);
    ReadsField(tag < 0x70, size, s, rest, table);
    LongTextTag(tag, input, table, |size|);
  }

  lemma LongTextTag(tag: Byte, input: Bytes, table: seq<Value>, k: nat)
    requires 0x61 <= tag <= 0x64 || 0x91 <= tag <= 0x94
    requires k == match tag case 0x61 => 1 case 0x62 => 2 case 0x63 => 3 case 0x64 => 4
                            case 0x91 => 1 case 0x92 => 2 case 0x93 => 4 case _ => 8
    ensures UnpackBlob(tag, input, table) == UnpackText(tag < 0x70, k, input, table)
  {
    hide UnpackText;
  }

  lemma ReadsField(str: bool, size: Bytes, s: Bytes, rest: Bytes, table: seq<Value>)
    requires FromLE(size) < 0x20_0000_0000_0000
    requires |s| == FromLE(size) || (|s| < FromLE(size) && rest == [])
    ensures UnpackText(str, |size|, size + (s + rest), table)
         == Ok(Register(if str then Str(s) else Data(s), rest, table))
  {
    hide FromLE;
    var input := size + (s + rest);
    assert input[..|size|] == size && input[|size|..] == s + rest;
    assert Take(s + rest, FromLE(size)) == s && Drop(s + rest, FromLE(size)) == rest;
  }

  /** 0x6f: up to the next zero byte. */
  lemma {:induction false} ReadsToZero(s: Bytes, rest: Bytes)
    requires 0 !in s
    ensures UntilZero(s + [0] + rest) == (s, rest)
  {
    if s == [] {
      assert ([0] + rest)[1..] == rest && [] + [0] + rest == [0] + rest;
    } else {
      assert (s + [0] + rest)[1..] == s[1..] + [0] + rest;
      ReadsToZero(s[1..], rest);
      assert [s[0]] + s[1..] == s;
    }
  }

  lemma ReadsZeroTerminated(s: Bytes, rest: Bytes, table: seq<Value>)
    requires 0 !in s
    ensures ReadsAndLists([0x6f] + (s + [0] + rest), table, Str(s), rest)
  {
    hide UntilZero;
    Tag(0x6f, s + [0] + rest);
    ReadsToZero(s, rest);
  }

  /** 0xa0 to 0xc0 name a place in the list; 0xc1, 0xc2 and 0xc4 do in 1, 2 and 4 bytes. */
  lemma ReadsReference(tag: Byte, index: Bytes, rest: Bytes, table: seq<Value>)
    requires 0xa0 <= tag <= 0xc2 || tag == 0xc4
    requires |index| == match tag case 0xc1 => 1 case 0xc2 => 2 case 0xc4 => 4 case _ => 0
    ensures
      var i := if tag <= 0xc0 then tag - 0xa0 else FromLE(index);
      if i < |table| then Reads([tag] + (index + rest), table, table[i], rest)
      else UnpackValue([tag] + (index + rest), table) == Err(BadReference)
  {
    hide UnpackScalar, UnpackBlob, FromLE;
    Tag(tag, index + rest);
    assert (index + rest)[..|index|] == index && (index + rest)[|index|..] == rest;
  }

  /** 0xd0 to 0xde and 0xe0 to 0xee announce how much follows; 0xdf and 0xef go to the terminator. */
  lemma ReadsContainer(tag: Byte, body: Bytes, table: seq<Value>)
    requires 0xd0 <= tag <= 0xef
    ensures
      0xd0 <= tag <= 0xdf ==>
        var u := if tag == 0xdf then UnpackEndlessItems(body, table) else UnpackItems(tag - 0xd0, body, table);
        UnpackValue([tag] + body, table)
        == if u.Ok? then Ok(Unpacked(Arr(u.value.items), u.value.rest, u.value.table)) else Err(u.error)
    ensures
      0xe0 <= tag <= 0xef ==>
        var u := if tag == 0xef then UnpackEndlessPairs(body, table) else UnpackPairs(tag - 0xe0, body, table);
        UnpackValue([tag] + body, table)
        == if u.Ok? then Ok(Unpacked(Dict(Collect(u.value.pairs)), u.value.rest, u.value.table)) else Err(u.error)
  {
    hide UnpackItems, UnpackEndlessItems, UnpackPairs, UnpackEndlessPairs, Collect;
    hide UnpackScalar, UnpackBlob, UnpackReference;
    Tag(tag, body);
  }

  // ---- Keys that come twice ----

  function KeysOf(entries: seq<Entry>): seq<Value> {
    seq(|entries|, i requires 0 <= i < |entries| => entries[i].key)
  }

  /** The value under a key, where it stands first. */
  function ValueUnder(entries: seq<Entry>, key: Value): Option<Value> {
    if entries == [] then None
    else if entries[0].key == key then Some(entries[0].value)
    else ValueUnder(entries[1..], key)
  }

  /** The value of the last pair with a key. */
  function LastValue(pairs: seq<Entry>, key: Value): Option<Value> {
    if pairs == [] then None
    else if pairs[|pairs| - 1].key == key then Some(pairs[|pairs| - 1].value)
    else LastValue(pairs[..|pairs| - 1], key)
  }

  lemma {:induction false} SetKeyIs(entries: seq<Entry>, e: Entry, key: Value)
    ensures ValueUnder(SetKey(entries, e), key) == if key == e.key then Some(e.value) else ValueUnder(entries, key)
    ensures KeysOf(SetKey(entries, e)) == KeysOf(entries) + if e.key in KeysOf(entries) then [] else [e.key]
  {
    hide KeysOf;
    if entries == [] {
      assert [e][1..] == [];
      KeysOfFirst(e, []);
    } else {
      KeysOfFirst(entries[0], entries[1..]);
      assert entries == [entries[0]] + entries[1..];
      if entries[0].key != e.key {
        SetKeyIs(entries[1..], e, key);
        var after := SetKey(entries[1..], e);
        assert ([entries[0]] + after)[1..] == after;
        KeysOfFirst(entries[0], after);
      } else {
        KeysOfFirst(e, entries[1..]);
        assert ([e] + entries[1..])[1..] == entries[1..];
      }
    }
  }

  lemma KeysOfFirst(e: Entry, rest: seq<Entry>)
    ensures KeysOf([]) == []
    ensures KeysOf([e] + rest) == [e.key] + KeysOf(rest)
    ensures KeysOf([e]) == [e.key]
  {
  }

  /** A key that comes again keeps its place and takes the later value. */
  lemma {:induction false} LaterValueWins(pairs: seq<Entry>, key: Value)
    ensures ValueUnder(Collect(pairs), key) == LastValue(pairs, key)
    ensures key in KeysOf(Collect(pairs)) <==> key in KeysOf(pairs)
    ensures
      pairs != [] ==>
        var e, before := pairs[|pairs| - 1], Collect(pairs[..|pairs| - 1]);
        KeysOf(Collect(pairs)) == KeysOf(before) + if e.key in KeysOf(before) then [] else [e.key]
  {
    hide SetKey;
    if pairs != [] {
      var e, init := pairs[|pairs| - 1], pairs[..|pairs| - 1];
      LaterValueWins(init, key);
      SetKeyIs(Collect(init), e, key);
      assert KeysOf(pairs) == KeysOf(init) + [e.key];
    }
  }

  // ---- Identifiers and dates ----

  /** 0x05: 16 bytes as hexadecimal digits in groups of 8, 4, 4, 4 and 12. */
  lemma ReadsUuid(id: Bytes, rest: Bytes, table: seq<Value>)
    requires |id| == 16
    ensures ReadsAndLists([0x05] + (id + rest), table, Str(UuidText(id)), rest)
    ensures
      var text := UuidText(id);
      && |text| == 36 && text[8] == text[13] == text[18] == text[23] == 0x2d
      && text[..8] == Hex(id[..4]) && text[9..13] == Hex(id[4..6]) && text[14..18] == Hex(id[6..8])
      && text[19..23] == Hex(id[8..10]) && text[24..] == Hex(id[10..])
  {
    hide UnpackScalar;
    Tag(0x05, id + rest);
    assert Take(id + rest, 16) == id && Drop(id + rest, 16) == rest;
    ReadsUuidTag(id + rest, table);
    UuidGroups(id);
  }

  lemma ReadsUuidTag(body: Bytes, table: seq<Value>)
    ensures UnpackScalar(0x05, body, table) == Ok(Register(Str(UuidText(Take(body, 16))), Drop(body, 16), table))
  {
  }

  lemma UuidGroups(id: Bytes)
    requires |id| == 16
    ensures
      var text := UuidText(id);
      && |text| == 36 && text[8] == text[13] == text[18] == text[23] == 0x2d
      && text[..8] == Hex(id[..4]) && text[9..13] == Hex(id[4..6]) && text[14..18] == Hex(id[6..8])
      && text[19..23] == Hex(id[8..10]) && text[24..] == Hex(id[10..])
  {
    hide Hex, UuidText;
    HexSplit(id, 4);
    HexSplit(id[4..], 2);
    HexSplit(id[6..], 2);
    HexSplit(id[8..], 2);
    assert id[4..][2..] == id[6..] && id[6..][2..] == id[8..] && id[8..][2..] == id[10..];
    assert id[4..][..2] == id[4..6] && id[6..][..2] == id[6..8] && id[8..][..2] == id[8..10];
    HexSize(id[10..]);
    GroupsJoined(id, Hex(id[..4]), Hex(id[4..6]), Hex(id[6..8]), Hex(id[8..10]), Hex(id[10..]));
  }

  lemma GroupsJoined(id: Bytes, a: Bytes, b: Bytes, c: Bytes, d: Bytes, e: Bytes)
    requires Hex(id) == a + (b + (c + (d + e)))
    requires |a| == 8 && |b| == 4 && |c| == 4 && |d| == 4 && |e| == 12
    ensures UuidText(id) == a + [45] + b + [45] + c + [45] + d + [45] + e
  {
    hide Hex;
    var bs, cs, ds := b + (c + (d + e)), c + (d + e), d + e;
    assert Take(a + bs, 8) == a && Drop(a + bs, 8) == bs;
    assert Drop(a + bs, 12) == cs && Drop(a + bs, 16) == ds && Drop(a + bs, 20) == e;
    assert Take(bs, 4) == b && Take(cs, 4) == c && Take(ds, 4) == d && Take(e, 12) == e;
  }

  lemma {:induction false} HexSize(s: Bytes)
    ensures |Hex(s)| == 2 * |s|
  {
    if s != [] {
      HexSize(s[1..]);
    }
  }

  lemma {:induction false} HexSplit(s: Bytes, n: nat)
    requires n <= |s|
    ensures Hex(s) == Hex(s[..n]) + Hex(s[n..]) && |Hex(s[..n])| == 2 * n
  {
    if n > 0 {
      HexSplit(s[1..], n - 1);
      assert s[..n][1..] == s[1..][..n - 1] && s[1..][n - 1..] == s[n..];
    }
  }

  /** Two lower-case digits for every byte. */
  lemma {:induction false} HexAt(s: Bytes, i: nat)
    requires i < |s|
    ensures |Hex(s)| == 2 * |s|
    ensures Hex(s)[2 * i] == ("0123456789abcdef"[s[i] / 16]) as int
    ensures Hex(s)[2 * i + 1] == ("0123456789abcdef"[s[i] % 16]) as int
  {
    HexSize(s);
    if i > 0 {
      HexAt(s[1..], i - 1);
    }
  }

  /** 0x06: eight bytes as a number, which is exact below 2^53. */
  lemma ReadsDate(digits: Bytes, rest: Bytes, table: seq<Value>)
    requires |digits| == 8 && FromLE(digits) < 0x20_0000_0000_0000
    ensures ReadsAndLists([0x06] + (digits + rest), table, Num(FromLE(digits)), rest)
  {
    hide FromLE;
    Tag(0x06, digits + rest);
    assert (digits + rest)[..8] == digits && (digits + rest)[8..] == rest;
  }

  /** How a number of more than 53 bits becomes a double: the nearest one, and of two the one that is even. */
  ghost predicate IsNearestDouble(n: nat, r: nat, unit: nat) {
    && unit > 0 && r % unit == 0
    && (unit == 1 || 0x10_0000_0000_0000 * unit <= n) && n < 0x20_0000_0000_0000 * unit
    && -(unit as int) <= 2 * (r as int - n as int) <= unit
    && (unit > 1 && 2 * (r as int - n as int) in {unit as int, -(unit as int)} ==> r / unit % 2 == 0)
  }

  /** Numbers that a double holds are kept, and the others are rounded. */
  lemma DoublesAreNearest(n: nat) returns (unit: nat)
    ensures n < 0x20_0000_0000_0000 ==> Opack.ToDouble(n) == n
    ensures IsNearestDouble(n, Opack.ToDouble(n), unit)
  {
    unit := RoundsToNearest(n, 1);
  }

  lemma {:induction false} RoundsToNearest(n: nat, from: nat) returns (unit: nat)
    requires from > 0 && (from == 1 || 0x10_0000_0000_0000 * from <= n)
    ensures IsNearestDouble(n, Opack.RoundTo53Bits(n, from), unit)
    decreases n - from
  {
    hide IsNearestDouble;
    if n >= 0x20_0000_0000_0000 * from {
      unit := RoundsToNearest(n, 2 * from);
    } else {
      unit := from;
      RoundedOnce(n, unit);
    }
  }

  lemma RoundedOnce(n: nat, unit: nat)
    requires unit > 0 && (unit == 1 || 0x10_0000_0000_0000 * unit <= n) && n < 0x20_0000_0000_0000 * unit
    ensures IsNearestDouble(n, Opack.RoundTo53Bits(n, unit), unit)
  {
    var q, r, rounded := n / unit, n % unit, Opack.RoundTo53Bits(n, unit);
    WholeAndRest(n, q, r, unit);
    var up := 2 * r > unit || (2 * r == unit && q % 2 == 1);
    var times := if up then q + 1 else q;
    assert rounded == times * unit;
    QuotientIs(rounded, unit, times, 0);
    assert rounded - n == if up then unit - r else -r;
  }

  lemma WholeAndRest(n: nat, q: nat, r: nat, unit: nat)
    requires unit > 0 && q == n / unit && r == n % unit
    ensures n == q * unit + r && (q + 1) * unit == q * unit + unit
    ensures q * unit % unit == 0 && (q + 1) * unit % unit == 0
  {
    Multiple(q, unit);
    Multiple(q + 1, unit);
  }

  lemma Multiple(q: nat, unit: nat)
    requires unit > 0
    ensures q * unit % unit == 0
  {
    QuotientIs(q * unit, unit, q, 0);
  }

  // ---- The edges ----

  /** Null cannot be sent or received as a whole; an open container may end with the input. */
  lemma NullRootIsRefused(rest: Bytes)
    ensures Encode(Null) == Err(NullRoot)
    ensures Decode([0x03] + rest) == Err(NullRoot) && Decode([0x04] + rest) == Err(NullRoot)
  {
    ReadsConstant(0x03, rest, []);
    ReadsConstant(0x04, rest, []);
  }

  lemma OpenContainersEnd(rest: Bytes, table: seq<Value>)
    ensures UnpackEndlessItems([], table) == Ok(UnpackedItems([], [], table))
    ensures UnpackEndlessPairs([], table) == Ok(UnpackedPairs([], [], table))
    ensures UnpackEndlessItems([0x03] + rest, table) == Ok(UnpackedItems([], rest, table))
    ensures UnpackEndlessPairs([0x03] + rest, table) == Ok(UnpackedPairs([], rest, table))
  {
    assert ([0x03] + rest)[1..] == rest;
  }
}
