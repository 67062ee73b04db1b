/**
 What comes back when an encoding is decoded.

 The two object lists are filled by different rules: the decoder also lists sized integers,
 big integers, floats and empty strings, so references drift once one of those has been sent.
 Echo says what the decoder makes of each value, whatever the lists hold; the theorems are that
 decoding computes Echo, and exactly when Echo is the identity.
 */
module OpackRoundTrip {
  import opened Results
  import opened ByteStrings
  import opened Opack

  /** What every JavaScript value satisfies: 8-byte floats and distinct string keys. */
  ghost predicate WellFormed(v: Value) {
    match v
    case Float(bits) => |bits| == 8
    case Arr(items) => forall i | 0 <= i < |items| :: WellFormed(items[i])
    case Dict(entries) =>
      && DistinctKeys(entries)
      && forall i | 0 <= i < |entries| :: EntryWellFormed(entries[i])
    case _ => true
  }

  ghost predicate EntryWellFormed(e: Entry) {
    e.key.Str? && WellFormed(e.value)
  }

  ghost predicate DistinctKeys(entries: seq<Entry>) {
    forall i, j | 0 <= i < j < |entries| :: entries[i].key != entries[j].key
  }

  // ---- Echo ----

  datatype Seen = Seen(value: Value, table: seq<Value>)
  datatype SeenItems = SeenItems(items: seq<Value>, table: seq<Value>)
  datatype SeenPairs = SeenPairs(pairs: seq<Entry>, table: seq<Value>)

  /** The packed form of a string or byte string. */
  function PackText(v: Value): Outcome<Bytes>
    requires v.Str? || v.Data?
  {
    if v.Str? then PackString(v.utf8) else PackData(v.data)
  }

  ghost function EchoText(v: Value, packed: Bytes, sent: seq<Bytes>, seen: seq<Value>): Outcome<Seen> {
    var found := FindIndex(sent, packed);
    if |packed| <= 1 || found.None? || found.value > 0xffff_ffff then Ok(Seen(v, seen + [v]))
    else if found.value > 0xffff then Err(BadReferenceSize)
    else if found.value >= |seen| then Err(BadReference)
    else Ok(Seen(seen[found.value], seen))
  }

  ghost function Echo(v: Value, sent: seq<Bytes>, seen: seq<Value>): Outcome<Seen>
    requires PackValue(v, sent).Ok?
    decreases v, 1
  {
    match v
    case Null => Ok(Seen(v, seen))
    case Bool(_) => Ok(Seen(v, seen))
    case Num(n) => Ok(Seen(v, if n < 0x28 then seen else seen + [v]))
    case Big(_) => Ok(Seen(v, seen + [v]))
    case Float(_) => Ok(Seen(v, seen + [v]))
    case Str(_) => EchoText(v, PackText(v).value, sent, seen)
    case Data(_) => EchoText(v, PackText(v).value, sent, seen)
    case Arr(items) =>
      var s :- EchoItems(items, sent, seen);
      Ok(Seen(Arr(s.items), s.table))
    case Dict(entries) =>
      var s :- EchoEntries(entries, sent, seen);
      Ok(Seen(Dict(Collect(s.pairs)), s.table))
  }

  ghost function EchoItems(items: seq<Value>, sent: seq<Bytes>, seen: seq<Value>): Outcome<SeenItems>
    requires PackItems(items, sent).Ok?
    decreases items, 0
  {
    if items == [] then Ok(SeenItems([], seen))
    else
      var s :- Echo(items[0], sent, seen);
      var more :- EchoItems(items[1..], PackValue(items[0], sent).value.table, s.table);
      Ok(SeenItems([s.value] + more.items, more.table))
  }

  ghost function EchoEntries(entries: seq<Entry>, sent: seq<Bytes>, seen: seq<Value>): Outcome<SeenPairs>
    requires PackEntries(entries, sent).Ok?
    decreases entries, 0
  {
    if entries == [] then Ok(SeenPairs([], seen))
    else
      var s :- EchoEntry(entries[0], sent, seen);
      var more :- EchoEntries(entries[1..], PackEntry(entries[0], sent).value.table, s.table);
      Ok(SeenPairs(s.pairs + more.pairs, more.table))
  }

  ghost function EchoEntry(e: Entry, sent: seq<Bytes>, seen: seq<Value>): (r: Outcome<SeenPairs>)
    requires PackEntry(e, sent).Ok?
    ensures r.Ok? ==> |r.value.pairs| == 1
    decreases e, 0
  {
    var k :- Echo(e.key, sent, seen);
    var v :- Echo(e.value, PackValue(e.key, sent).value.table, k.table);
    Ok(SeenPairs([Entry(k.value, v.value)], v.table))
  }

  // ---- Decoding computes Echo ----

  ghost predicate Decodes(input: Bytes, seen: seq<Value>, echo: Outcome<Seen>, rest: Bytes) {
    UnpackValue(input, seen) ==
      match echo
      case Ok(s) => Ok(Unpacked(s.value, rest, s.table))
      case Err(e) => Err(e)
  }

  ghost predicate DecodesItems(u: Outcome<UnpackedItems>, echo: Outcome<SeenItems>, rest: Bytes) {
    u == match echo
      case Ok(s) => Ok(UnpackedItems(s.items, rest, s.table))
      case Err(e) => Err(e)
  }

  ghost predicate DecodesPairs(u: Outcome<UnpackedPairs>, echo: Outcome<SeenPairs>, rest: Bytes) {
    u == match echo
      case Ok(s) => Ok(UnpackedPairs(s.pairs, rest, s.table))
      case Err(e) => Err(e)
  }

  lemma LEOfPrefix(n: nat, k: nat, rest: Bytes)
    requires n < Pow256(k)
    ensures ReadLE(LE(n, k) + rest, k) == Ok((n, rest))
  {
    LERoundTrip(n, k);
    assert (LE(n, k) + rest)[..k] == LE(n, k);
    assert (LE(n, k) + rest)[k..] == rest;
  }

  lemma TakeDropPrefix<T>(s: seq<T>, rest: seq<T>)
    ensures Take(s + rest, |s|) == s && Drop(s + rest, |s|) == rest
  {
  }

  lemma NumberDecodes(v: Value, sent: seq<Bytes>, seen: seq<Value>, rest: Bytes)
    requires v.Num? || v.Big? || v.Float?
    requires WellFormed(v) && PackValue(v, sent).Ok?
    ensures Decodes(PackValue(v, sent).value.bytes + rest, seen, Echo(v, sent, seen), rest)
  {
    Pow256Values();
    var bytes := PackValue(v, sent).value.bytes;
    var input := bytes + rest;
    assert input[0] == bytes[0] && input[1..] == bytes[1..] + rest;
    match v
    case Num(n) =>
      if 0x28 <= n {
        var k := if n <= 0xff then 1 else if n <= 0xffff then 2 else 4;
        assert bytes[1..] == LE(n, k);
        LEOfPrefix(n, k, rest);
      }
    case Big(n) =>
      assert bytes[1..] == LE(n, 8);
      LEOfPrefix(n, 8, rest);
    case Float(bits) =>
      assert bytes[1..] == bits;
      TakeDropPrefix(bits, rest);
  }

  ghost function TextOf(v: Value): Bytes
    requires v.Str? || v.Data?
  {
    if v.Str? then v.utf8 else v.data
  }

  lemma ShortTextDecodes(tag: Byte, str: bool, s: Bytes, rest: Bytes, seen: seq<Value>)
    requires |s| <= 0x20
    requires tag == (if str then 0x40 else 0x70) + |s|
    ensures UnpackValue([tag] + s + rest, seen) == Ok(Register(if str then Str(s) else Data(s), rest, seen))
  {
    TakeDropPrefix(s, rest);
    var input := [tag] + s + rest;
    assert input[0] == tag && input[1..] == s + rest;
    assert UnpackValue(input, seen) == UnpackBlob(tag, s + rest, seen);
  }

  lemma TaggedTextDecodes(tag: Byte, str: bool, k: nat, s: Bytes, rest: Bytes, seen: seq<Value>)
    requires |s| < Pow256(k)
    requires tag == (if str then 0x60 else 0x90) + k && 1 <= k <= 2
    ensures UnpackValue([tag] + (LE(|s|, k) + (s + rest)), seen)
         == Ok(Register(if str then Str(s) else Data(s), rest, seen))
  {
    hide LE, UnpackText, UnpackScalar, UnpackReference, Pow256, Register;
    var after := LE(|s|, k) + (s + rest);
    assert ([tag] + after)[1..] == after;
    TextRead(str, k, s, rest, seen);
    assert UnpackBlob(tag, after, seen) == UnpackText(str, k, after, seen);
  }

  lemma TextRead(str: bool, k: nat, s: Bytes, rest: Bytes, seen: seq<Value>)
    requires |s| < Pow256(k) && 1 <= k <= 2
    ensures UnpackText(str, k, LE(|s|, k) + (s + rest), seen)
        == Ok(Register(if str then Str(s) else Data(s), rest, seen))
  {
    hide LE, Pow256, ReadLE;
    LEOfPrefix(|s|, k, s + rest);
    TakeDropPrefix(s, rest);
  }

  lemma LongTextDecodes(v: Value, seen: seq<Value>, rest: Bytes)
    requires v.Str? || v.Data?
    requires PackText(v).Ok? && |TextOf(v)| > 0x20
    ensures UnpackValue(PackText(v).value + rest, seen) == Ok(Unpacked(v, rest, seen + [v]))
  {
    var s := TextOf(v);
    var k := if |s| <= 0xff then 1 else 2;
    assert |s| < Pow256(k) by {
      Pow256Values();
    }
    var tag: Byte := (if v.Str? then 0x60 else 0x90) + k;
    LongTextHeader(v, k, tag);
    assert ([tag] + LE(|s|, k) + s) + rest == [tag] + (LE(|s|, k) + (s + rest));
    TaggedTextDecodes(tag, v.Str?, k, s, rest, seen);
  }

  lemma LongTextHeader(v: Value, k: nat, tag: Byte)
    requires v.Str? || v.Data?
    requires PackText(v).Ok? && |TextOf(v)| > 0x20
    requires k == if |TextOf(v)| <= 0xff then 1 else 2
    requires tag == (if v.Str? then 0x60 else 0x90) + k
    ensures PackText(v).value == [tag] + LE(|TextOf(v)|, k) + TextOf(v)
  {
    var n := |TextOf(v)|;
    assert n <= 0xff ==> LE(n, 1) == [n];
  }

  lemma ReferenceDecodes(i: nat, seen: seq<Value>, rest: Bytes)
    requires i <= 0xffff_ffff
    ensures UnpackValue((if i < 0x21 then [0xa0 + i] else if i <= 0xff then [0xc1, i]
                         else if i <= 0xffff then [0xc2] + LE(i, 2) else [0xc3] + LE(i, 4)) + rest, seen)
         == if i > 0xffff then Err(BadReferenceSize)
            else if i >= |seen| then Err(BadReference)
            else Ok(Unpacked(seen[i], rest, seen))
  {
    Pow256Values();
    if i < 0x21 {
      assert ([0xa0 + i] + rest)[1..] == rest;
    } else if i <= 0xff {
      assert LE(i, 1) == [i % 256] + LE(i / 256, 0);
      assert ([0xc1, i] + rest)[1..] == LE(i, 1) + rest;
      LEOfPrefix(i, 1, rest);
    } else if i <= 0xffff {
      assert (([0xc2] + LE(i, 2)) + rest)[1..] == LE(i, 2) + rest;
      LEOfPrefix(i, 2, rest);
    } else {
      assert (([0xc3] + LE(i, 4)) + rest)[0] == 0xc3;
    }
  }

  /** No encoding is empty or begins with the terminator, so endless lists end where they should. */
  lemma NeverStartsWithTerminator(v: Value, sent: seq<Bytes>)
    requires PackValue(v, sent).Ok?
    ensures PackValue(v, sent).value.bytes != []
    ensures PackValue(v, sent).value.bytes[0] != TERMINATOR
  {
  }

  lemma TrailerBeforeRest(count: nat, rest: Bytes)
    ensures count < 0xf ==> Trailer(count) + rest == rest
    ensures count >= 0xf ==> (Trailer(count) + rest)[0] == TERMINATOR && (Trailer(count) + rest)[1..] == rest
  {
  }

  /** Encodings delimit themselves: whatever follows is left unread. */
  lemma {:induction false} DecodingComputesEcho(v: Value, sent: seq<Bytes>, seen: seq<Value>, rest: Bytes)
    requires WellFormed(v) && PackValue(v, sent).Ok?
    ensures Decodes(PackValue(v, sent).value.bytes + rest, seen, Echo(v, sent, seen), rest)
    decreases v, 1
  {
    var bytes := PackValue(v, sent).value.bytes;
    var input := bytes + rest;
    assert input[0] == bytes[0] && input[1..] == bytes[1..] + rest;
    match v
    case Null =>
      assert input[1..] == rest;
    case Bool(_) =>
      assert input[1..] == rest;
    case Num(_) => NumberDecodes(v, sent, seen, rest);
    case Big(_) => NumberDecodes(v, sent, seen, rest);
    case Float(_) => NumberDecodes(v, sent, seen, rest);
    case Str(_) => TextOrReferenceDecodes(v, sent, seen, rest);
    case Data(_) => TextOrReferenceDecodes(v, sent, seen, rest);
    case Arr(items) => ArrayDecodes(items, sent, seen, rest);
    case Dict(entries) => DictDecodes(entries, sent, seen, rest);
  }

  lemma {:induction false} ArrayDecodes(items: seq<Value>, sent: seq<Bytes>, seen: seq<Value>, rest: Bytes)
    requires WellFormed(Arr(items)) && PackValue(Arr(items), sent).Ok?
    ensures Decodes(PackValue(Arr(items), sent).value.bytes + rest, seen, Echo(Arr(items), sent, seen), rest)
    decreases items, 1
  {
    var bytes := PackValue(Arr(items), sent).value.bytes;
    var after := Trailer(|items|) + rest;
    assert (bytes + rest)[1..] == PackItems(items, sent).value.bytes + after;
    ItemsDecode(items, sent, seen, after);
    TrailerBeforeRest(|items|, rest);
  }

  lemma {:induction false} DictDecodes(entries: seq<Entry>, sent: seq<Bytes>, seen: seq<Value>, rest: Bytes)
    requires WellFormed(Dict(entries)) && PackValue(Dict(entries), sent).Ok?
    ensures Decodes(PackValue(Dict(entries), sent).value.bytes + rest, seen, Echo(Dict(entries), sent, seen), rest)
    decreases entries, 1
  {
    var bytes := PackValue(Dict(entries), sent).value.bytes;
    var after := Trailer(|entries|) + rest;
    assert (bytes + rest)[1..] == PackEntries(entries, sent).value.bytes + after;
    EntriesDecode(entries, sent, seen, after);
    TrailerBeforeRest(|entries|, rest);
  }

  lemma TextOrReferenceDecodes(v: Value, sent: seq<Bytes>, seen: seq<Value>, rest: Bytes)
    requires v.Str? || v.Data?
    requires PackValue(v, sent).Ok?
    ensures Decodes(PackValue(v, sent).value.bytes + rest, seen, Echo(v, sent, seen), rest)
  {
    var packed := PackText(v).value;
    var found := FindIndex(sent, packed);
    if |packed| <= 1 || found.None? || found.value > 0xffff_ffff {
      if |TextOf(v)| <= 0x20 {
        ShortTextDecodes(packed[0], v.Str?, TextOf(v), rest, seen);
      } else {
        LongTextDecodes(v, seen, rest);
      }
    } else {
      ReferenceDecodes(found.value, seen, rest);
    }
  }

  /** Read by count, and read up to a terminator that follows. */
  lemma {:induction false} ItemsDecode(items: seq<Value>, sent: seq<Bytes>, seen: seq<Value>, rest: Bytes)
    requires forall i | 0 <= i < |items| :: WellFormed(items[i])
    requires PackItems(items, sent).Ok?
    ensures DecodesItems(UnpackItems(|items|, PackItems(items, sent).value.bytes + rest, seen),
                         EchoItems(items, sent, seen), rest)
    ensures rest != [] && rest[0] == TERMINATOR ==>
              DecodesItems(UnpackEndlessItems(PackItems(items, sent).value.bytes + rest, seen),
                           EchoItems(items, sent, seen), rest[1..])
    decreases items, 0
  {
    if items == [] {
      assert [] + rest == rest;
    } else {
      var p := PackValue(items[0], sent).value;
      var q := PackItems(items[1..], p.table).value;
      assert (p.bytes + q.bytes) + rest == p.bytes + (q.bytes + rest);
      DecodingComputesEcho(items[0], sent, seen, q.bytes + rest);
      NeverStartsWithTerminator(items[0], sent);
      var echo := Echo(items[0], sent, seen);
      if echo.Ok? {
        ItemsDecode(items[1..], p.table, echo.value.table, rest);
      }
    }
  }

  lemma {:induction false} EntriesDecode(entries: seq<Entry>, sent: seq<Bytes>, seen: seq<Value>, rest: Bytes)
    requires forall i | 0 <= i < |entries| :: EntryWellFormed(entries[i])
    requires PackEntries(entries, sent).Ok?
    ensures DecodesPairs(UnpackPairs(|entries|, PackEntries(entries, sent).value.bytes + rest, seen),
                         EchoEntries(entries, sent, seen), rest)
    ensures rest != [] && rest[0] == TERMINATOR ==>
              DecodesPairs(UnpackEndlessPairs(PackEntries(entries, sent).value.bytes + rest, seen),
                           EchoEntries(entries, sent, seen), rest[1..])
    decreases entries, 0
  {
    if entries == [] {
      assert [] + rest == rest;
    } else {
      var e := entries[0];
      var k := PackValue(e.key, sent).value;
      var v := PackValue(e.value, k.table).value;
      var q := PackEntries(entries[1..], v.table).value;
      var after := q.bytes + rest;
      assert ((k.bytes + v.bytes) + q.bytes) + rest == k.bytes + (v.bytes + after);
      EntryDecodes(e, sent, seen, after);
      var echo := EchoEntry(e, sent, seen);
      if echo.Ok? {
        EntriesDecode(entries[1..], v.table, echo.value.table, rest);
      }
    }
  }

  lemma {:induction false} EntryDecodes(e: Entry, sent: seq<Bytes>, seen: seq<Value>, after: Bytes)
    requires EntryWellFormed(e) && PackEntry(e, sent).Ok?
    ensures
      var k := PackValue(e.key, sent).value;
      var v := PackValue(e.value, k.table).value;
      var input := k.bytes + (v.bytes + after);
      && input != [] && input[0] != TERMINATOR
      && match EchoEntry(e, sent, seen)
         case Ok(s) =>
           && UnpackValue(input, seen).Ok?
           && var ku := UnpackValue(input, seen).value;
           && UnpackValue(ku.rest, ku.table) == Ok(Unpacked(s.pairs[0].value, after, s.table))
           && ku.value == s.pairs[0].key
         case Err(err) =>
           || UnpackValue(input, seen) == Err(err)
           || (UnpackValue(input, seen).Ok?
               && var ku := UnpackValue(input, seen).value;
               && UnpackValue(ku.rest, ku.table) == Err(err))
    decreases e, 0
  {
    var k := PackValue(e.key, sent).value;
    var v := PackValue(e.value, k.table).value;
    NeverStartsWithTerminator(e.key, sent);
    DecodingComputesEcho(e.key, sent, seen, v.bytes + after);
    var ek := Echo(e.key, sent, seen);
    if ek.Ok? {
      DecodingComputesEcho(e.value, k.table, ek.value.table, after);
    }
  }

  // ---- When Echo is the identity ----

  /**
   What a caller can tell before decoding: whether every reference so far was a good one, and how
   many entries the encoder had listed when the decoder first listed something else.
   */
  datatype Drift = Drift(inSync: bool, limit: Option<nat>)

  function DecoderOnlyItem(sent: seq<Bytes>, limit: Option<nat>): Drift {
    Drift(true, if limit.None? then Some(|sent|) else limit)
  }

  function FollowText(packed: Bytes, sent: seq<Bytes>, limit: Option<nat>): Drift {
    var found := FindIndex(sent, packed);
    if |packed| <= 1 then DecoderOnlyItem(sent, limit)
    else if found.None? || found.value > 0xffff_ffff then Drift(true, limit)
    else Drift(found.value <= 0xffff && (limit.None? || found.value < limit.value), limit)
  }

  function Follow(v: Value, sent: seq<Bytes>, limit: Option<nat>): Drift
    requires PackValue(v, sent).Ok?
    decreases v, 1
  {
    match v
    case Null => Drift(true, limit)
    case Bool(_) => Drift(true, limit)
    case Num(n) => if n < 0x28 then Drift(true, limit) else DecoderOnlyItem(sent, limit)
    case Big(_) => DecoderOnlyItem(sent, limit)
    case Float(_) => DecoderOnlyItem(sent, limit)
    case Str(_) => FollowText(PackText(v).value, sent, limit)
    case Data(_) => FollowText(PackText(v).value, sent, limit)
    case Arr(items) => FollowItems(items, sent, limit)
    case Dict(entries) => FollowEntries(entries, sent, limit)
  }

  function FollowItems(items: seq<Value>, sent: seq<Bytes>, limit: Option<nat>): Drift
    requires PackItems(items, sent).Ok?
    decreases items, 0
  {
    if items == [] then Drift(true, limit)
    else
      var d := Follow(items[0], sent, limit);
      var more := FollowItems(items[1..], PackValue(items[0], sent).value.table, d.limit);
      Drift(d.inSync && more.inSync, more.limit)
  }

  function FollowEntries(entries: seq<Entry>, sent: seq<Bytes>, limit: Option<nat>): Drift
    requires PackEntries(entries, sent).Ok?
    decreases entries, 0
  {
    if entries == [] then Drift(true, limit)
    else
      var d := FollowEntry(entries[0], sent, limit);
      var more := FollowEntries(entries[1..], PackEntry(entries[0], sent).value.table, d.limit);
      Drift(d.inSync && more.inSync, more.limit)
  }

  function FollowEntry(e: Entry, sent: seq<Bytes>, limit: Option<nat>): Drift
    requires PackEntry(e, sent).Ok?
    decreases e, 0
  {
    var k := Follow(e.key, sent, limit);
    var v := Follow(e.value, PackValue(e.key, sent).value.table, k.limit);
    Drift(k.inSync && v.inSync, v.limit)
  }

  /**
   Every reference the encoder writes has an index of at most 0xffff and points at an entry listed
   before the first integer from 0x28 up, big integer, float or empty (byte) string.
   */
  ghost predicate ReferencesInSync(v: Value)
    requires InRange(v)
  {
    PackSucceedsInRange(v, []);
    Follow(v, [], None).inSync
  }

  /** The decoder's list entry is the very string the encoder listed as `packed`. */
  ghost predicate Stands(v: Value, packed: Bytes) {
    (v.Str? || v.Data?) && PackText(v) == Ok(packed) && |packed| > 1
  }

  /** The decoder's list below the limit mirrors the encoder's, and above it lags behind. */
  ghost predicate Aligned(sent: seq<Bytes>, seen: seq<Value>, limit: Option<nat>) {
    var clean := if limit.None? then |sent| else limit.value;
    && clean <= |sent|
    && (if limit.None? then |seen| == |sent| else |seen| > |sent|)
    && (forall p | 0 <= p < clean :: Stands(seen[p], sent[p]))
    && (forall p, packed | clean <= p < |seen| && Stands(seen[p], packed) :: packed in sent[..Min(p, |sent|)])
  }

  lemma PackTextInjective(a: Value, b: Value)
    requires a.Str? || a.Data?
    requires b.Str? || b.Data?
    requires PackText(a).Ok? && PackText(a) == PackText(b)
    ensures a == b
  {
    var p := PackText(a).value;
    var s, t := TextOf(a), TextOf(b);
    assert p[|p| - |s|..] == s && p[|p| - |t|..] == t;
    TextHeader(a);
    TextHeader(b);
  }

  /** The first byte tells strings from byte strings, and the width of the header. */
  lemma TextHeader(v: Value)
    requires v.Str? || v.Data?
    requires PackText(v).Ok?
    ensures
      var p := PackText(v).value;
      var s := TextOf(v);
      && v.Str? == (p[0] < 0x70)
      && |s| == |p| - (if p[0] == 0x61 || p[0] == 0x91 then 2 else if p[0] == 0x62 || p[0] == 0x92 then 3 else 1)
  {
  }

  lemma AlignedAfterListing(v: Value, packed: Bytes, sent: seq<Bytes>, seen: seq<Value>, limit: Option<nat>)
    requires Aligned(sent, seen, limit)
    requires Stands(v, packed)
    ensures Aligned(sent + [packed], seen + [v], limit)
  {
    var sent', seen' := sent + [packed], seen + [v];
    var clean' := if limit.None? then |sent'| else limit.value;
    forall p, q | clean' <= p < |seen'| && Stands(seen'[p], q)
      ensures q in sent'[..Min(p, |sent'|)]
    {
      if p < |seen| {
        assert q in sent[..Min(p, |sent|)];
        assert sent[..Min(p, |sent|)] <= sent'[..Min(p, |sent'|)];
      } else {
        assert q == packed && sent'[|sent|] == packed;
        assert sent'[..Min(p, |sent'|)][|sent|] == packed;
      }
    }
  }

  lemma AlignedAfterDecoderOnlyItem(v: Value, sent: seq<Bytes>, seen: seq<Value>, limit: Option<nat>)
    requires Aligned(sent, seen, limit)
    requires forall packed :: !Stands(v, packed)
    ensures Aligned(sent, seen + [v], DecoderOnlyItem(sent, limit).limit)
  {
  }

  /** The heart of it: a reference is decoded correctly exactly when its target is in the clean part. */
  lemma ReferenceIsGood(v: Value, packed: Bytes, i: nat, sent: seq<Bytes>, seen: seq<Value>, limit: Option<nat>)
    requires Aligned(sent, seen, limit)
    requires Stands(v, packed)
    requires FindIndex(sent, packed) == Some(i)
    ensures i < |seen|
    ensures seen[i] == v <==> limit.None? || i < limit.value
  {
    if limit.None? || i < limit.value {
      assert Stands(seen[i], sent[i]);
      PackTextInjective(v, seen[i]);
    } else if seen[i] == v {
      assert false;
    }
  }

  lemma EchoTextInSync(v: Value, packed: Bytes, sent: seq<Bytes>, seen: seq<Value>, limit: Option<nat>)
    requires v.Str? || v.Data?
    requires PackText(v) == Ok(packed)
    requires Aligned(sent, seen, limit)
    ensures
      var echo, d := EchoText(v, packed, sent, seen), FollowText(packed, sent, limit);
      && (echo.Ok? && echo.value.value == v <==> d.inSync)
      && (echo.Ok? ==> Aligned(CheckAndReuseObject(packed, sent).table, echo.value.table, d.limit))
  {
    TextHeader(v);
    var found := FindIndex(sent, packed);
    if |packed| <= 1 {
      AlignedAfterDecoderOnlyItem(v, sent, seen, limit);
    } else if found.None? || found.value > 0xffff_ffff {
      AlignedAfterListing(v, packed, sent, seen, limit);
    } else {
      ReferenceIsGood(v, packed, found.value, sent, seen, limit);
    }
  }

  lemma {:induction false} EchoInSync(v: Value, sent: seq<Bytes>, seen: seq<Value>, limit: Option<nat>)
    requires WellFormed(v) && PackValue(v, sent).Ok?
    requires Aligned(sent, seen, limit)
    ensures
      var echo, d := Echo(v, sent, seen), Follow(v, sent, limit);
      && (echo.Ok? && echo.value.value == v <==> d.inSync)
      && (echo.Ok? ==> Aligned(PackValue(v, sent).value.table, echo.value.table, d.limit))
    decreases v, 1
  {
    match v
    case Null =>
    case Bool(_) =>
    case Num(n) => AlignedAfterDecoderOnlyItem(v, sent, seen, limit);
    case Big(_) => AlignedAfterDecoderOnlyItem(v, sent, seen, limit);
    case Float(_) => AlignedAfterDecoderOnlyItem(v, sent, seen, limit);
    case Str(_) => EchoTextInSync(v, PackText(v).value, sent, seen, limit);
    case Data(_) => EchoTextInSync(v, PackText(v).value, sent, seen, limit);
    case Arr(items) => EchoItemsInSync(items, sent, seen, limit);
    case Dict(entries) =>
      EchoEntriesInSync(entries, sent, seen, limit);
      var echo := EchoEntries(entries, sent, seen);
      if echo.Ok? {
        CollectIsIdentity(echo.value.pairs, entries);
      }
  }

  lemma {:induction false} EchoItemsInSync(items: seq<Value>, sent: seq<Bytes>, seen: seq<Value>, limit: Option<nat>)
    requires forall i | 0 <= i < |items| :: WellFormed(items[i])
    requires PackItems(items, sent).Ok?
    requires Aligned(sent, seen, limit)
    ensures
      var echo, d := EchoItems(items, sent, seen), FollowItems(items, sent, limit);
      && (echo.Ok? && echo.value.items == items <==> d.inSync)
      && (echo.Ok? ==> Aligned(PackItems(items, sent).value.table, echo.value.table, d.limit))
    decreases items, 0
  {
    if items != [] {
      EchoInSync(items[0], sent, seen, limit);
      var echo, d := Echo(items[0], sent, seen), Follow(items[0], sent, limit);
      if echo.Ok? {
        EchoItemsInSync(items[1..], PackValue(items[0], sent).value.table, echo.value.table, d.limit);
        assert items == [items[0]] + items[1..];
      }
    }
  }

  lemma {:induction false} EchoEntriesInSync(entries: seq<Entry>, sent: seq<Bytes>, seen: seq<Value>,
      limit: Option<nat>)
    requires forall i | 0 <= i < |entries| :: EntryWellFormed(entries[i])
    requires PackEntries(entries, sent).Ok?
    requires Aligned(sent, seen, limit)
    ensures
      var echo, d := EchoEntries(entries, sent, seen), FollowEntries(entries, sent, limit);
      && (echo.Ok? ==> |echo.value.pairs| == |entries|)
      && (echo.Ok? && echo.value.pairs == entries <==> d.inSync)
      && (echo.Ok? ==> Aligned(PackEntries(entries, sent).value.table, echo.value.table, d.limit))
    decreases entries, 0
  {
    if entries != [] {
      EchoEntryInSync(entries[0], sent, seen, limit);
      var echo, d := EchoEntry(entries[0], sent, seen), FollowEntry(entries[0], sent, limit);
      if echo.Ok? {
        EchoEntriesInSync(entries[1..], PackEntry(entries[0], sent).value.table, echo.value.table, d.limit);
        assert entries == [entries[0]] + entries[1..];
        assert echo.value.pairs == [echo.value.pairs[0]];
      }
    }
  }

  lemma {:induction false} EchoEntryInSync(e: Entry, sent: seq<Bytes>, seen: seq<Value>, limit: Option<nat>)
    requires EntryWellFormed(e) && PackEntry(e, sent).Ok?
    requires Aligned(sent, seen, limit)
    ensures
      var echo, d := EchoEntry(e, sent, seen), FollowEntry(e, sent, limit);
      && (echo.Ok? && echo.value.pairs == [e] <==> d.inSync)
      && (echo.Ok? ==> Aligned(PackEntry(e, sent).value.table, echo.value.table, d.limit))
    decreases e, 0
  {
    EchoInSync(e.key, sent, seen, limit);
    var echo, d := Echo(e.key, sent, seen), Follow(e.key, sent, limit);
    if echo.Ok? {
      EchoInSync(e.value, PackValue(e.key, sent).value.table, echo.value.table, d.limit);
    }
  }

  // ---- Dictionaries ----

  lemma {:induction false} SetKeyAppendsOrReplaces(entries: seq<Entry>, e: Entry)
    ensures (exists i | 0 <= i < |entries| :: entries[i].key == e.key) ==> |SetKey(entries, e)| == |entries|
    ensures (forall i | 0 <= i < |entries| :: entries[i].key != e.key) ==> SetKey(entries, e) == entries + [e]
  {
    if entries != [] && entries[0].key != e.key {
      SetKeyAppendsOrReplaces(entries[1..], e);
      assert entries == [entries[0]] + entries[1..];
      if i :| 0 <= i < |entries| && entries[i].key == e.key {
        assert entries[1..][i - 1].key == e.key;
      }
    }
  }

  lemma {:induction false} CollectKeepsOrShrinks(pairs: seq<Entry>)
    ensures |Collect(pairs)| <= |pairs|
    ensures |Collect(pairs)| == |pairs| ==> Collect(pairs) == pairs
    ensures DistinctKeys(pairs) ==> Collect(pairs) == pairs
  {
    if pairs != [] {
      var init, e := pairs[..|pairs| - 1], pairs[|pairs| - 1];
      CollectKeepsOrShrinks(init);
      SetKeyAppendsOrReplaces(Collect(init), e);
      assert pairs == init + [e];
    }
  }

  /** Assigning decoded pairs one by one gives back the original object only if every pair was right. */
  lemma CollectIsIdentity(pairs: seq<Entry>, entries: seq<Entry>)
    requires |pairs| == |entries| && DistinctKeys(entries)
    ensures Collect(pairs) == entries <==> pairs == entries
  {
    CollectKeepsOrShrinks(pairs);
  }

  // ---- Round trip ----

  /** The encoder's ranges. */
  predicate InRange(v: Value) {
    match v
    case Num(n) => 0 <= n <= 0xffff_ffff
    case Big(n) => 0 <= n <= 0xffff_ffff_ffff_ffff
    case Str(s) => |s| <= 0xffff
    case Data(d) => |d| <= 0xffff
    case Arr(items) => forall i | 0 <= i < |items| :: InRange(items[i])
    case Dict(entries) => forall i | 0 <= i < |entries| :: EntryInRange(entries[i])
    case _ => true
  }

  predicate EntryInRange(e: Entry) {
    InRange(e.key) && InRange(e.value)
  }

  /** Packing throws exactly when some number or string is out of range, whatever has been listed. */
  lemma {:induction false} PackSucceedsInRange(v: Value, sent: seq<Bytes>)
    ensures PackValue(v, sent).Ok? <==> InRange(v)
    decreases v, 1
  {
    match v
    case Arr(items) => PackItemsSucceedsInRange(items, sent);
    case Dict(entries) => PackEntriesSucceedsInRange(entries, sent);
    case _ =>
  }

  lemma {:induction false} PackItemsSucceedsInRange(items: seq<Value>, sent: seq<Bytes>)
    ensures PackItems(items, sent).Ok? <==> forall i | 0 <= i < |items| :: InRange(items[i])
    decreases items, 0
  {
    if items != [] {
      PackSucceedsInRange(items[0], sent);
      if InRange(items[0]) {
        PackItemsSucceedsInRange(items[1..], PackValue(items[0], sent).value.table);
        assert forall i | 0 < i < |items| :: items[i] == items[1..][i - 1];
      }
    }
  }

  lemma {:induction false} PackEntriesSucceedsInRange(entries: seq<Entry>, sent: seq<Bytes>)
    ensures PackEntries(entries, sent).Ok? <==> forall i | 0 <= i < |entries| :: EntryInRange(entries[i])
    decreases entries, 0
  {
    if entries != [] {
      PackEntrySucceedsInRange(entries[0], sent);
      if EntryInRange(entries[0]) {
        PackEntriesSucceedsInRange(entries[1..], PackEntry(entries[0], sent).value.table);
        assert forall i | 0 < i < |entries| :: entries[i] == entries[1..][i - 1];
      }
    }
  }

  lemma {:induction false} PackEntrySucceedsInRange(e: Entry, sent: seq<Bytes>)
    ensures PackEntry(e, sent).Ok? <==> EntryInRange(e)
    decreases e, 0
  {
    PackSucceedsInRange(e.key, sent);
    if InRange(e.key) {
      PackSucceedsInRange(e.value, PackValue(e.key, sent).value.table);
    }
  }

  /** Decoding an encoding gives the value back if and only if its references are in sync. */
  lemma RoundTrip(v: Value)
    requires WellFormed(v) && InRange(v) && !v.Null?
    ensures Encode(v).Ok?
    ensures Decode(Encode(v).value) == Ok(v) <==> ReferencesInSync(v)
  {
    PackSucceedsInRange(v, []);
    var bytes := PackValue(v, []).value.bytes;
    DecodingComputesEcho(v, [], [], []);
    assert bytes + [] == bytes;
    EchoInSync(v, [], [], None);
  }

  /**
   A failing family: after any number only the decoder lists, the first string sent has index 0
   for the encoder but 1 for the decoder, so a repeat of it comes back as the number.
   */
  lemma DriftFamily(number: Value, text: Value)
    requires number.Big? || number.Float? || (number.Num? && number.n >= 0x28)
    requires WellFormed(number) && InRange(number)
    requires text.Str? || text.Data?
    requires InRange(text) && |PackText(text).value| > 1
    ensures
      var v := Arr([number, text, text]);
      && InRange(v) && !ReferencesInSync(v)
      && Encode(v).Ok?
      && Decode(Encode(v).value) == Ok(Arr([number, text, number]))
  {
    var v := Arr([number, text, text]);
    assert [number, text, number][2] != [number, text, text][2];
    RoundTrip(v);
    assert v.items == [number, text, text];
    DriftEcho(number, text);
    DecodingComputesEcho(v, [], [], []);
    assert PackValue(v, []).value.bytes + [] == PackValue(v, []).value.bytes;
  }

  lemma DriftEcho(number: Value, text: Value)
    requires number.Big? || number.Float? || (number.Num? && number.n >= 0x28)
    requires WellFormed(number) && InRange(number)
    requires text.Str? || text.Data?
    requires InRange(text) && |PackText(text).value| > 1
    ensures PackItems([number, text, text], []).Ok?
    ensures EchoItems([number, text, text], [], []) == Ok(SeenItems([number, text, number], [number, text]))
  {
    var packed := PackText(text).value;
    var none: seq<Value> := [];
    assert FindIndex([packed], packed) == Some(0) && [] + [packed] == [packed];
    assert none + [number] == [number] == [number] + none && [number] + [text] == [number, text];
    assert [text] + none == [text] && [text] + [text] == [text, text] && [text] + [number] == [text, number];
    EchoCons(text, none, [packed], [number, text], Seen(number, [number, text]), SeenItems(none, [number, text]));
    EchoCons(text, [text], [], [number], Seen(text, [number, text]), SeenItems([number], [number, text]));
    EchoCons(number, [text, text], [], none, Seen(number, [number]), SeenItems([text, number], [number, text]));
    assert [number] + [text, text] == [number, text, text] && [number] + [text, number] == [number, text, number];
  }

  lemma EchoCons(v: Value, items: seq<Value>, sent: seq<Bytes>, seen: seq<Value>, s: Seen, more: SeenItems)
    requires PackValue(v, sent).Ok? && Echo(v, sent, seen) == Ok(s)
    requires PackItems(items, PackValue(v, sent).value.table).Ok?
    requires EchoItems(items, PackValue(v, sent).value.table, s.table) == Ok(more)
    ensures
      var all := [v] + items;
      && PackItems(all, sent).Ok?
      && EchoItems(all, sent, seen) == Ok(SeenItems([s.value] + more.items, more.table))
  {
    assert ([v] + items)[1..] == items;
  }
}
