/**
 The Companion frame parser (src/protocols/companion/layers/HapFrameHandler.ts): frames of a type
 byte, a 24-bit length and a payload are parsed out of a stream buffer as data arrives. Payloads
 are views into that buffer and are read by listeners only after `process` is done.
 */
module HapFrameHandler {
  import opened Results
  import opened ByteStrings
  import opened StreamBuffers

  const HEADER_SIZE: nat := 4
  const MAX_PAYLOAD: nat := 65536

  const VALID_TYPES: set<Byte> := {0x03, 0x04, 0x05, 0x06, 0x08, 0x10, 0x11, 0xff}
  const VALIDATED_TYPES: set<Byte> := {0x03, 0x04, 0x05, 0x06, 0x08, 0xff}

  datatype Frame = Frame(kind: Byte, payload: Bytes, sequence: nat)

  function EncodeFrame(kind: Byte, payload: Bytes): Bytes {
    [kind] + BE(|payload|, 3) + payload
  }

  function DetectHAPFrame(header: Bytes): bool
    requires |header| == HEADER_SIZE
  {
    if 0x03 <= header[0] <= 0x08 || 0x10 <= header[0] <= 0x11 then 0 < FromBE(header[1..4]) <= MAX_PAYLOAD
    else 0 < FromLE(header) <= MAX_PAYLOAD
  }

  function GetFrameSize(header: Bytes): (n: nat)
    requires |header| == HEADER_SIZE
    ensures n >= HEADER_SIZE
  {
    if header[0] in VALID_TYPES then HEADER_SIZE + FromBE(header[1..4]) else HEADER_SIZE + FromLE(header)
  }

  /** Type and payload length, if the data is a whole frame of a known type. */
  function ParseHAPFrame(data: Bytes): (r: Option<(Byte, nat)>)
    ensures r.Some? ==> HEADER_SIZE + r.value.1 <= |data|
  {
    if |data| < HEADER_SIZE || data[0] !in VALID_TYPES then None
    else
      var length := FromBE(data[1..4]);
      if |data| - HEADER_SIZE < length then None else Some((data[0], length))
  }

  function Accepted(kind: Byte, length: nat, validate: bool): bool {
    validate ==> kind in VALIDATED_TYPES && length <= MAX_PAYLOAD
  }

  /** What the buffered bytes say to do next. */
  datatype Next = Wait | Invalid | Ready(size: nat)

  function Look(contents: Bytes): (r: Next)
    ensures r.Ready? ==> HEADER_SIZE <= r.size <= |contents|
  {
    if |contents| < HEADER_SIZE then Wait
    else if !DetectHAPFrame(contents[..HEADER_SIZE]) then Invalid
    else
      var size := GetFrameSize(contents[..HEADER_SIZE]);
      if |contents| < size then Wait else Ready(size)
  }

  /** The number that three bytes write, most significant first, and that four bytes write the other way. */
  function Three(a: Byte, b: Byte, c: Byte): nat {
    a as int * 0x1_0000 + b as int * 0x100 + c as int
  }

  function Four(a: Byte, b: Byte, c: Byte, d: Byte): nat {
    a as int + b as int * 0x100 + c as int * 0x1_0000 + d as int * 0x100_0000
  }

  lemma ThreeAndFour(header: Bytes)
    requires |header| == HEADER_SIZE
    ensures FromBE(header[1..4]) == Three(header[1], header[2], header[3])
    ensures FromLE(header) == Four(header[0], header[1], header[2], header[3])
  {
    var s := header[1..4];
    assert s[..2] == [header[1], header[2]] && s[..2][..1] == [header[1]] && s[..2][..1][..0] == [];
    assert header[1..] == s && s[1..] == [header[2], header[3]] && s[1..][1..] == [header[3]];
    assert FromBE([header[1]]) == header[1] && FromBE(s[..2]) == 256 * FromBE([header[1]]) + header[2];
    assert FromLE([header[3]]) == header[3] && FromLE(s[1..]) == header[2] + 256 * FromLE([header[3]]);
  }

  /** A frame, byte for byte. */
  lemma FrameBytes(kind: Byte, payload: Bytes)
    requires |payload| < 0x100_0000
    ensures
      var f := EncodeFrame(kind, payload);
      && |f| == 4 + |payload| && f[0] == kind && Three(f[1], f[2], f[3]) == |payload| && f[4..] == payload
  {
    Pow256Values();
    BERoundTrip(|payload|, 3);
    var f := EncodeFrame(kind, payload);
    assert f[1..4] == BE(|payload|, 3) && f[..4][1..4] == f[1..4];
    ThreeAndFour(f[..4]);
  }

  /**
   What four header bytes say: types 3 to 8, 0x10 and 0x11 write the length in the last three bytes; what
   begins with any other byte is taken for a length in four. Only lengths of 1 to 65536 are frames; type 7
   is measured by one and skipped by the other.
   */
  lemma LookAtHeader(a: Byte, b: Byte, c: Byte, d: Byte, rest: Bytes)
    ensures
      var known := a in {0x03, 0x04, 0x05, 0x06, 0x07, 0x08, 0x10, 0x11};
      var length := if known then Three(b, c, d) else Four(a, b, c, d);
      var taken := if (known && a != 0x07) || a == 0xff then Three(b, c, d) else Four(a, b, c, d);
      Look([a, b, c, d] + rest) ==
        if length == 0 || length > 65536 then Invalid else if |rest| < taken then Wait else Ready(4 + taken)
  {
    var contents := [a, b, c, d] + rest;
    assert contents[..HEADER_SIZE] == [a, b, c, d];
    ThreeAndFour([a, b, c, d]);
  }

  // ---- process, as the frames are meant ----

  datatype Scanned = Scanned(frames: seq<Frame>, rest: Bytes, sequence: nat, invalid: bool)

  /** Every complete frame, until one is malformed or not accepted; those are dropped and end the pass. */
  function Scan(contents: Bytes, sequence: nat, validate: bool): Scanned
    decreases |contents|
  {
    match Look(contents)
    case Wait => Scanned([], contents, sequence, false)
    case Invalid => Scanned([], contents, sequence, true)
    case Ready(size) =>
      var data, rest := contents[..size], contents[size..];
      match ParseHAPFrame(data)
      case None => Scanned([], rest, sequence, false)
      case Some((kind, length)) =>
        if !Accepted(kind, length, validate) then Scanned([], rest, sequence + 1, false)
        else
          var more := Scan(rest, sequence + 1, validate);
          more.(frames := [Frame(kind, data[HEADER_SIZE..HEADER_SIZE + length], sequence)] + more.frames)
  }

  /**
   What a pass does first, by number: a frame of a known type is delivered under the next number; session
   frames, and those too long, are dropped by validation and still take a number; what has another first
   byte is dropped without one.
   */
  lemma ScanHeader(a: Byte, b: Byte, c: Byte, d: Byte, rest: Bytes, sequence: nat, validate: bool)
    ensures
      var contents, length := [a, b, c, d] + rest, Three(b, c, d);
      Scan(contents, sequence, validate) ==
        match Look(contents)
        case Wait => Scanned([], contents, sequence, false)
        case Invalid => Scanned([], contents, sequence, true)
        case Ready(size) =>
          if a !in {0x03, 0x04, 0x05, 0x06, 0x08, 0x10, 0x11, 0xff} then
            Scanned([], contents[size..], sequence, false)
          else if validate && (a == 0x10 || a == 0x11 || length > 65536) then
            Scanned([], contents[size..], sequence + 1, false)
          else
            var more := Scan(contents[size..], sequence + 1, validate);
            more.(frames := [Frame(a, Take(rest, length), sequence)] + more.frames)
  {
    hide Look;
    var contents := [a, b, c, d] + rest;
    LookAtHeader(a, b, c, d, rest);
    ThreeAndFour([a, b, c, d]);
    assert contents[1..4] == [a, b, c, d][1..4];
    if Look(contents).Ready? {
      var size := Look(contents).size;
      assert contents[..size][1..4] == contents[1..4];
      assert contents[..size][0] == a;
      if 4 + Three(b, c, d) <= size {
        assert contents[..size][4..4 + Three(b, c, d)] == rest[..Three(b, c, d)];
      }
    }
  }

  // ---- process, in the buffer's memory ----

  /** A parsed frame whose payload is still a region of the buffer. */
  datatype FrameRef = FrameRef(kind: Byte, offset: nat, length: nat, sequence: nat)

  datatype Processed = Processed(refs: seq<FrameRef>, memory: Memory, sequence: nat, invalid: bool)

  function Process(m: Memory, sequence: nat, validate: bool): (r: Processed)
    requires m.Valid()
    ensures r.memory.Valid() && |r.memory.bytes| == |m.bytes|
    decreases |m.Contents()|
  {
    match Look(m.Contents())
    case Wait => Processed([], m, sequence, false)
    case Invalid => Processed([], m, sequence, true)
    case Ready(size) =>
      var data, rest := m.Consumed(size), m.Consume(size);
      match ParseHAPFrame(data)
      case None => Processed([], rest, sequence, false)
      case Some((kind, length)) =>
        if !Accepted(kind, length, validate) then Processed([], rest, sequence + 1, false)
        else
          var more := Process(rest, sequence + 1, validate);
          more.(refs := [FrameRef(kind, m.readPos + HEADER_SIZE, length, sequence)] + more.refs)
  }

  function Region(bytes: Bytes, offset: nat, length: nat): Bytes {
    if offset + length <= |bytes| then bytes[offset..offset + length] else []
  }

  /** What listeners see when they run. */
  function Emitted(refs: seq<FrameRef>, bytes: Bytes): seq<Frame> {
    if refs == [] then []
    else
      var ref := refs[0];
      [Frame(ref.kind, Region(bytes, ref.offset, ref.length), ref.sequence)] + Emitted(refs[1..], bytes)
  }

  /** The pass agrees with the intended one, about what it does and about what listeners are shown. */
  ghost predicate Agrees(p: Processed, bytes: Bytes, s: Scanned)
    requires p.memory.Valid()
  {
    && Emitted(p.refs, bytes) == s.frames
    && p.memory.Contents() == s.rest
    && p.sequence == s.sequence
    && p.invalid == s.invalid
  }

  ghost predicate ShowsIntended(m: Memory, sequence: nat, validate: bool)
    requires m.Valid()
  {
    var p := Process(m, sequence, validate);
    Agrees(p, p.memory.bytes, Scan(m.Contents(), sequence, validate))
  }

  /** The frame at the front is complete, of a known type, and accepted. */
  ghost predicate Takes(contents: Bytes, size: nat, kind: Byte, length: nat, validate: bool) {
    && Look(contents) == Ready(size)
    && ParseHAPFrame(contents[..size]) == Some((kind, length))
    && Accepted(kind, length, validate)
  }

  /** One frame more, for the pass in memory and for the intended one. */
  lemma OneMoreFrame(
    m: Memory, size: nat, kind: Byte, length: nat, sequence: nat, validate: bool, bytes: Bytes)
    requires m.Valid() && Takes(m.Contents(), size, kind, length, validate)
    requires ParseHAPFrame(m.Consumed(size)) == Some((kind, length))
    requires |bytes| == |m.bytes|
    requires bytes[m.readPos + HEADER_SIZE..m.readPos + HEADER_SIZE + length]
          == m.Contents()[HEADER_SIZE..HEADER_SIZE + length]
    requires Agrees(Process(m.Consume(size), sequence + 1, validate), bytes,
        Scan(m.Contents()[size..], sequence + 1, validate))
    ensures Agrees(Process(m, sequence, validate), bytes, Scan(m.Contents(), sequence, validate))
  {
    hide Process, Scan, Emitted, Look, ParseHAPFrame, Accepted;
    var more := Process(m.Consume(size), sequence + 1, validate);
    var ref := FrameRef(kind, m.readPos + HEADER_SIZE, length, sequence);
    ProcessTakes(m, size, kind, length, sequence, validate);
    EmittedCons(ref, more.refs, bytes);
    ScanTakes(m.Contents(), size, kind, length, sequence, validate);
  }

  lemma ProcessTakes(m: Memory, size: nat, kind: Byte, length: nat, sequence: nat, validate: bool)
    requires m.Valid() && Look(m.Contents()) == Ready(size)
    requires ParseHAPFrame(m.Consumed(size)) == Some((kind, length)) && Accepted(kind, length, validate)
    ensures
      var more := Process(m.Consume(size), sequence + 1, validate);
      Process(m, sequence, validate)
      == more.(refs := [FrameRef(kind, m.readPos + HEADER_SIZE, length, sequence)] + more.refs)
  {
  }

  lemma EmittedCons(ref: FrameRef, refs: seq<FrameRef>, bytes: Bytes)
    ensures Emitted([ref] + refs, bytes)
         == [Frame(ref.kind, Region(bytes, ref.offset, ref.length), ref.sequence)] + Emitted(refs, bytes)
  {
    assert ([ref] + refs)[1..] == refs;
  }

  lemma ScanTakes(contents: Bytes, size: nat, kind: Byte, length: nat, sequence: nat, validate: bool)
    requires Takes(contents, size, kind, length, validate)
    ensures HEADER_SIZE + length <= size
    ensures
      var more := Scan(contents[size..], sequence + 1, validate);
      Scan(contents, sequence, validate)
      == more.(frames := [Frame(kind, contents[HEADER_SIZE..HEADER_SIZE + length], sequence)] + more.frames)
  {
    assert contents[..size][HEADER_SIZE..HEADER_SIZE + length] == contents[HEADER_SIZE..HEADER_SIZE + length];
  }

  /** A header that is still there is parsed as it was meant. */
  lemma SameHeaderSameParse(a: Bytes, b: Bytes)
    requires |a| == |b| && |a| >= HEADER_SIZE && a[..HEADER_SIZE] == b[..HEADER_SIZE]
    ensures ParseHAPFrame(a) == ParseHAPFrame(b)
  {
    assert a[1..4] == a[..HEADER_SIZE][1..4] && b[1..4] == b[..HEADER_SIZE][1..4] && a[0] == a[..HEADER_SIZE][0];
  }

  lemma PayloadKept(m: Memory, lo: nat, size: nat, length: nat, bytes: Bytes)
    requires m.Valid() && lo <= m.readPos + HEADER_SIZE && HEADER_SIZE + length <= size <= |m.Contents()|
    requires |bytes| == |m.bytes| && bytes[lo..] == m.bytes[lo..]
    ensures bytes[m.readPos + HEADER_SIZE..m.readPos + HEADER_SIZE + length]
         == m.Contents()[HEADER_SIZE..HEADER_SIZE + length]
  {
    var from := m.readPos + HEADER_SIZE;
    var payload := m.Contents()[HEADER_SIZE..HEADER_SIZE + length];
    forall i | 0 <= i < length ensures bytes[from..from + length][i] == payload[i] {
      assert bytes[from + i] == bytes[lo..][from + i - lo];
      assert m.bytes[from + i] == m.bytes[lo..][from + i - lo];
    }
  }

  /** Buffers less than half full to their write position never move anything. */
  lemma {:induction false} CalmProcess(m: Memory, sequence: nat, validate: bool)
    requires m.Valid() && 2 * m.writePos <= |m.bytes|
    ensures Process(m, sequence, validate).memory.bytes == m.bytes
    ensures ShowsIntended(m, sequence, validate)
    decreases |m.Contents()|
  {
    match Look(m.Contents())
    case Ready(size) =>
      NoOverlapIntact(m, size);
      CalmProcess(m.Consume(size), sequence + 1, validate);
      match ParseHAPFrame(m.Contents()[..size]) {
        case Some((kind, length)) =>
          if Accepted(kind, length, validate) {
            PayloadKept(m, 0, size, length, m.bytes);
            OneMoreFrame(m, size, kind, length, sequence, validate, m.bytes);
          }
        case None =>
      }
    case _ =>
  }

  /**
   A pass compacts at most once, and that leaves the buffer calm. The move is harmless when it stays
   below the first payload of the pass and, while the frame being taken is the first, below its header.
   */
  ghost predicate Safe(contents: Bytes, readPos: nat, capacity: nat, start: nat, validate: bool)
    decreases |contents|
  {
    match Look(contents)
    case Ready(size) =>
      if 2 * (readPos + size) > capacity then
        |contents| - size <= if readPos == start then start else start + HEADER_SIZE
      else
        (match ParseHAPFrame(contents[..size])
         case Some((kind, length)) =>
           Accepted(kind, length, validate) ==> Safe(contents[size..], readPos + size, capacity, start, validate)
         case None => true)
    case _ => true
  }

  ghost predicate SafePass(m: Memory, validate: bool)
    requires m.Valid()
  {
    Safe(m.Contents(), m.readPos, |m.bytes|, m.readPos, validate)
  }

  /** A condition on amounts alone that is enough: no more bytes are waiting than half the capacity. */
  lemma {:induction false} HalfEmptyIsSafe(contents: Bytes, readPos: nat, capacity: nat, start: nat, validate: bool)
    requires start <= readPos && 2 * (|contents| + readPos - start) <= capacity
    ensures Safe(contents, readPos, capacity, start, validate)
    decreases |contents|
  {
    match Look(contents)
    case Ready(size) =>
      if 2 * (readPos + size) <= capacity {
        HalfEmptyIsSafe(contents[size..], readPos + size, capacity, start, validate);
      }
    case _ =>
  }

  lemma CompactsOnce(m: Memory, size: nat, sequence: nat, validate: bool)
    requires m.Valid() && Look(m.Contents()) == Ready(size) && m.Compacts(size)
    ensures Process(m, sequence, validate).memory.bytes == m.Consume(size).bytes
  {
    CalmProcess(m.Consume(size), sequence + 1, validate);
  }

  lemma SafeCompactionKeeps(m: Memory, size: nat, start: nat)
    requires m.Valid() && HEADER_SIZE <= size <= |m.Contents()| && m.Compacts(size)
    requires m.readPos == start || start + HEADER_SIZE <= m.readPos
    requires |m.Contents()| - size <= if m.readPos == start then start else start + HEADER_SIZE
    requires start + HEADER_SIZE <= |m.bytes|
    ensures m.Consume(size).bytes[start + HEADER_SIZE..] == m.bytes[start + HEADER_SIZE..]
    ensures ParseHAPFrame(m.Consumed(size)) == ParseHAPFrame(m.Contents()[..size])
  {
    hide ParseHAPFrame;
    var data, meant := m.Consumed(size), m.Contents()[..size];
    forall i | 0 <= i < HEADER_SIZE ensures data[i] == meant[i] {
      ConsumedBytes(m, size, i);
    }
    SameHeaderSameParse(data, meant);
    BehindCompacted(m, size, start + HEADER_SIZE);
  }

  lemma BehindCompacted(m: Memory, size: nat, from: nat)
    requires m.Valid() && size <= |m.Contents()| && m.Compacts(size) && |m.Contents()| - size <= from <= |m.bytes|
    ensures m.Consume(size).bytes[from..] == m.bytes[from..]
  {
    var read := Memory(m.bytes, m.readPos + size, m.writePos);
    var moved := read.Contents();
    assert m.Consume(size).bytes == moved + m.bytes[|moved|..];
    assert (moved + m.bytes[|moved|..])[from..] == m.bytes[|moved|..][from - |moved|..] == m.bytes[from..];
  }

  /** The one compaction of a safe pass. */
  lemma SafeCompaction(m: Memory, size: nat, start: nat, sequence: nat, validate: bool)
    requires m.Valid() && start + HEADER_SIZE <= |m.bytes| && start <= m.readPos
    requires m.readPos == start || start + HEADER_SIZE <= m.readPos
    requires Look(m.Contents()) == Ready(size) && m.Compacts(size)
    requires |m.Contents()| - size <= if m.readPos == start then start else start + HEADER_SIZE
    ensures Process(m, sequence, validate).memory.bytes == m.Consume(size).bytes
    ensures ShowsIntended(m, sequence, validate)
  {
    SafeCompactionKeeps(m, size, start);
    var rest := m.Consume(size);
    CalmProcess(rest, sequence + 1, validate);
    match ParseHAPFrame(m.Consumed(size)) {
      case Some((kind, length)) =>
        if Accepted(kind, length, validate) {
          PayloadKept(m, start + HEADER_SIZE, size, length, rest.bytes);
          OneMoreFrame(m, size, kind, length, sequence, validate, rest.bytes);
        }
      case None =>
    }
  }

  ghost predicate KeptAbove(p: Processed, m: Memory, lo: nat)
    requires lo <= |m.bytes| && |p.memory.bytes| == |m.bytes|
  {
    p.memory.bytes[lo..] == m.bytes[lo..]
  }

  /** A frame taken without a move, in front of a pass that leaves its payload alone. */
  lemma SafeFrame(m: Memory, size: nat, kind: Byte, length: nat, start: nat, sequence: nat, validate: bool)
    requires m.Valid() && start + HEADER_SIZE <= |m.bytes| && start <= m.readPos
    requires Takes(m.Contents(), size, kind, length, validate) && !m.Compacts(size)
    requires KeptAbove(Process(m.Consume(size), sequence + 1, validate), m, start + HEADER_SIZE)
    requires ShowsIntended(m.Consume(size), sequence + 1, validate)
    ensures ShowsIntended(m, sequence, validate)
    ensures KeptAbove(Process(m, sequence, validate), m, start + HEADER_SIZE)
  {
    hide Process, Scan, Emitted;
    NoOverlapIntact(m, size);
    ProcessTakes(m, size, kind, length, sequence, validate);
    var bytes := Process(m, sequence, validate).memory.bytes;
    PayloadKept(m, start + HEADER_SIZE, size, length, bytes);
    OneMoreFrame(m, size, kind, length, sequence, validate, bytes);
  }

  lemma {:induction false} SafeProcess(m: Memory, start: nat, sequence: nat, validate: bool)
    requires m.Valid() && start + HEADER_SIZE <= |m.bytes| && start <= m.readPos
    requires m.readPos == start || start + HEADER_SIZE <= m.readPos
    requires Safe(m.Contents(), m.readPos, |m.bytes|, start, validate)
    ensures KeptAbove(Process(m, sequence, validate), m, start + HEADER_SIZE) && ShowsIntended(m, sequence, validate)
    decreases |m.Contents()|
  {
    match Look(m.Contents())
    case Ready(size) =>
      if m.Compacts(size) {
        SafeCompactionKeeps(m, size, start);
        SafeCompaction(m, size, start, sequence, validate);
      } else {
        NoOverlapIntact(m, size);
        match ParseHAPFrame(m.Contents()[..size]) {
          case Some((kind, length)) =>
            if Accepted(kind, length, validate) {
              SafeProcess(m.Consume(size), start, sequence + 1, validate);
              SafeFrame(m, size, kind, length, start, sequence, validate);
            }
          case None =>
        }
      }
    case _ =>
  }

  // ---- The condition is exact ----

  /** The same buffer with another frame type and another first payload byte in the frame at the front. */
  ghost function Variant(m: Memory, kind: Byte, payloadByte: Byte): (v: Memory)
    requires m.Valid() && m.readPos + HEADER_SIZE < m.writePos
    ensures v.Valid() && v.readPos == m.readPos && v.writePos == m.writePos && |v.bytes| == |m.bytes|
  {
    m.(bytes := m.bytes[m.readPos := kind][m.readPos + HEADER_SIZE := payloadByte])
  }

  lemma VariantTakes(m: Memory, size: nat, kind: Byte, length: nat, validate: bool, k: Byte, b: Byte)
    requires m.Valid() && Takes(m.Contents(), size, kind, length, validate) && kind != 0xff
    requires k in VALIDATED_TYPES - {0xff}
    ensures length > 0 && size == HEADER_SIZE + length && m.readPos + size <= m.writePos
    ensures
      var v := Variant(m, k, b);
      && Takes(v.Contents(), size, k, length, validate)
      && v.Contents()[0] == k && v.Contents()[HEADER_SIZE] == b
      && v.Contents()[size..] == m.Contents()[size..]
  {
    var c := m.Contents();
    assert c[..HEADER_SIZE][1..4] == c[1..4] == c[..size][1..4];
    var d := Variant(m, k, b).Contents();
    assert d[1..4] == c[1..4];
    assert d[..HEADER_SIZE][1..4] == d[1..4] == d[..size][1..4];
  }

  /** Memories that differ only outside the data still to be read. */
  ghost predicate SameView(a: Memory, b: Memory) {
    && a.Valid() && b.Valid()
    && a.Contents() == b.Contents() && a.readPos == b.readPos && |a.bytes| == |b.bytes|
  }

  lemma SameViewConsumed(a: Memory, b: Memory, size: nat)
    requires SameView(a, b) && size <= |a.Contents()|
    ensures a.Consumed(size) == b.Consumed(size)
    ensures SameView(a.Consume(size), b.Consume(size))
  {
    forall i | 0 <= i < size ensures a.Consumed(size)[i] == b.Consumed(size)[i] {
      ConsumedBytes(a, size, i);
      ConsumedBytes(b, size, i);
    }
  }

  /** An unsafe pass ends with a first payload byte that has nothing to do with the one that was there. */
  lemma {:induction false} UnsafeOverwrites(a: Memory, b: Memory, start: nat, sequence: nat, validate: bool)
    requires SameView(a, b) && start + HEADER_SIZE < a.readPos
    requires !Safe(a.Contents(), a.readPos, |a.bytes|, start, validate)
    ensures Process(a, sequence, validate).memory.bytes[start + HEADER_SIZE]
         == Process(b, sequence, validate).memory.bytes[start + HEADER_SIZE]
    decreases |a.Contents()|
  {
    match Look(a.Contents())
    case Ready(size) =>
      SameViewConsumed(a, b, size);
      var x, y := a.Consume(size), b.Consume(size);
      if a.Compacts(size) {
        CompactsOnce(a, size, sequence, validate);
        CompactsOnce(b, size, sequence, validate);
        CompactedByte(a, size, start + HEADER_SIZE);
        CompactedByte(b, size, start + HEADER_SIZE);
      } else {
        NoOverlapIntact(a, size);
        UnsafeOverwrites(x, y, start, sequence + 1, validate);
      }
    case _ =>
  }

  lemma CompactedByte(m: Memory, size: nat, i: nat)
    requires m.Valid() && size <= |m.Contents()| && m.Compacts(size) && i < |m.Contents()| - size
    ensures m.Consume(size).bytes[i] == m.Contents()[size..][i]
  {
  }

  /** The first frame is itself overwritten: its type is read as whatever was moved there. */
  lemma UnsafeFirstFrame(m: Memory, size: nat, kind: Byte, length: nat, sequence: nat, validate: bool)
    requires m.Valid() && Takes(m.Contents(), size, kind, length, validate)
    requires m.Compacts(size) && |m.Contents()| - size > m.readPos
    requires kind != m.Contents()[size..][m.readPos]
    ensures !ShowsIntended(m, sequence, validate)
  {
    ConsumedBytes(m, size, 0);
    ScanTakes(m.Contents(), size, kind, length, sequence, validate);
    FirstRefKind(m, size, sequence, validate);
    var p, s := Process(m, sequence, validate), Scan(m.Contents(), sequence, validate);
    assert s.frames[0].kind == kind;
    EmittedKinds(p.refs, p.memory.bytes);
  }

  lemma FirstRefKind(m: Memory, size: nat, sequence: nat, validate: bool)
    requires m.Valid() && Look(m.Contents()) == Ready(size)
    ensures
      var p := Process(m, sequence, validate);
      p.refs != [] ==> p.refs[0].kind == m.Consumed(size)[0]
  {
  }

  lemma EmittedKinds(refs: seq<FrameRef>, bytes: Bytes)
    ensures refs == [] <==> Emitted(refs, bytes) == []
    ensures refs != [] ==> Emitted(refs, bytes)[0].kind == refs[0].kind
  {
  }

  /** A later frame's compaction reaches the first payload: two payloads cannot both be shown. */
  lemma UnsafeLaterFrame(m: Memory, size: nat, kind: Byte, length: nat, sequence: nat, validate: bool)
    requires m.Valid() && Takes(m.Contents(), size, kind, length, validate) && kind in VALIDATED_TYPES - {0xff}
    requires !m.Compacts(size) && !SafePass(m, validate)
    ensures length > 0
    ensures !ShowsIntended(Variant(m, kind, 0), sequence, validate)
        || !ShowsIntended(Variant(m, kind, 1), sequence, validate)
  {
    hide Process, Scan;
    VariantTakes(m, size, kind, length, validate, kind, 0);
    VariantTakes(m, size, kind, length, validate, kind, 1);
    var a, b := Variant(m, kind, 0), Variant(m, kind, 1);
    UnsafeOverwrites(a.Consume(size), b.Consume(size), m.readPos, sequence + 1, validate);
    if ShowsIntended(a, sequence, validate) && ShowsIntended(b, sequence, validate) {
      FirstShown(a, size, kind, length, sequence, validate);
      FirstShown(b, size, kind, length, sequence, validate);
    }
  }

  lemma FirstShown(m: Memory, size: nat, kind: Byte, length: nat, sequence: nat, validate: bool)
    requires m.Valid() && Takes(m.Contents(), size, kind, length, validate) && length > 0
    requires !m.Compacts(size) && ShowsIntended(m, sequence, validate)
    ensures Process(m.Consume(size), sequence + 1, validate).memory.bytes[m.readPos + HEADER_SIZE]
        == m.Contents()[HEADER_SIZE]
  {
    NoOverlapIntact(m, size);
    ScanTakes(m.Contents(), size, kind, length, sequence, validate);
    var p := Process(m, sequence, validate);
    var shown := Emitted(p.refs, p.memory.bytes)[0];
    assert shown.payload[0] == p.memory.bytes[m.readPos + HEADER_SIZE];
    assert shown.payload == m.Contents()[HEADER_SIZE..HEADER_SIZE + length];
  }

  /**
   A layout of buffered frames is processed correctly whatever the first frame holds if and only if
   the pass is safe.
   */
  lemma SafePassIsExact(m: Memory, size: nat, kind: Byte, length: nat, sequence: nat, validate: bool)
    requires m.Valid() && Takes(m.Contents(), size, kind, length, validate) && kind != 0xff
    ensures m.readPos + HEADER_SIZE < m.writePos
    ensures SafePass(m, validate) <==>
            forall k, b | k in VALIDATED_TYPES - {0xff} :: ShowsIntended(Variant(m, k, b), sequence, validate)
  {
    VariantTakes(m, size, kind, length, validate, 0x03, 0);
    if SafePass(m, validate) {
      forall k, b | k in VALIDATED_TYPES - {0xff} ensures ShowsIntended(Variant(m, k, b), sequence, validate) {
        VariantSafe(m, size, kind, length, validate, k, b);
        SafeProcess(Variant(m, k, b), m.readPos, sequence, validate);
      }
    } else {
      var k, b := UnsafeVariant(m, size, kind, length, sequence, validate);
      assert !ShowsIntended(Variant(m, k, b), sequence, validate);
    }
  }

  lemma VariantSafe(m: Memory, size: nat, kind: Byte, length: nat, validate: bool, k: Byte, b: Byte)
    requires m.Valid() && Takes(m.Contents(), size, kind, length, validate) && kind != 0xff
    requires k in VALIDATED_TYPES - {0xff}
    ensures m.readPos + HEADER_SIZE < m.writePos
    ensures SafePass(Variant(m, k, b), validate) <==> SafePass(m, validate)
  {
    VariantTakes(m, size, kind, length, validate, k, b);
  }

  lemma UnsafeVariant(m: Memory, size: nat, kind: Byte, length: nat, sequence: nat, validate: bool)
    returns (k: Byte, b: Byte)
    requires m.Valid() && Takes(m.Contents(), size, kind, length, validate) && kind != 0xff
    requires !SafePass(m, validate)
    ensures k in VALIDATED_TYPES - {0xff} && m.readPos + HEADER_SIZE < m.writePos
    ensures !ShowsIntended(Variant(m, k, b), sequence, validate)
  {
    hide Process, Scan;
    k, b := 0x03, 0;
    if m.Compacts(size) {
      if m.Contents()[size..][m.readPos] == 0x03 {
        k := 0x04;
      }
      VariantTakes(m, size, kind, length, validate, k, b);
      UnsafeFirstFrame(Variant(m, k, b), size, k, length, sequence, validate);
    } else {
      VariantTakes(m, size, kind, length, validate, k, b);
      VariantSafe(m, size, kind, length, validate, k, b);
      var v := Variant(m, k, b);
      UnsafeLaterFrame(v, size, k, length, sequence, validate);
      assert Variant(v, k, 0) == v && Variant(v, k, 1) == Variant(m, k, 1);
      if ShowsIntended(v, sequence, validate) {
        b := 1;
      }
    }
  }

  /**
   Where it fails: two frames that arrive together at the front of the buffer, the first more than
   half of it. Taking the first moves the second over it, so the second is emitted twice.
   */
  lemma SecondFrameEmittedTwice(m: Memory, f: Frame, g: Frame, sequence: nat)
    requires m.Valid() && m.readPos == 0
    requires f.kind in VALIDATED_TYPES - {0xff} && g.kind in VALIDATED_TYPES - {0xff}
    requires 0 < |g.payload| <= |f.payload| <= MAX_PAYLOAD
    requires 2 * (HEADER_SIZE + |f.payload|) > |m.bytes|
    requires m.Contents() == EncodeFrame(f.kind, f.payload) + EncodeFrame(g.kind, g.payload)
    ensures
      var p := Process(m, sequence, true);
      Emitted(p.refs, p.memory.bytes) == [g.(sequence := sequence), g.(sequence := sequence + 1)]
    ensures Scan(m.Contents(), sequence, true).frames == [f.(sequence := sequence), g.(sequence := sequence + 1)]
  {
    hide Process, Scan, Emitted, EncodeFrame;
    var first, second := EncodeFrame(f.kind, f.payload), EncodeFrame(g.kind, g.payload);
    FrameHeader(f.kind, f.payload, []);
    FrameHeader(g.kind, g.payload, []);
    LookAtFrame(f.kind, f.payload, second);
    assert m.Contents()[..|first|] == first && m.Contents()[|first|..] == second;
    MovedOver(m, first, second);
    LastFrame(m.Consume(|first|), g, sequence + 1);
    FrontFrameScanned(m.Contents(), f, sequence);
    MovedFrameShown(m, |first|, g, sequence);
  }

  lemma FrontFrameScanned(contents: Bytes, f: Frame, sequence: nat)
    requires f.kind in VALIDATED_TYPES - {0xff} && 0 < |f.payload| <= MAX_PAYLOAD
    requires EncodeFrame(f.kind, f.payload) <= contents
    requires Look(contents) == Ready(|EncodeFrame(f.kind, f.payload)|)
    ensures Scan(contents, sequence, true).frames
         == [f.(sequence := sequence)] + Scan(contents[|EncodeFrame(f.kind, f.payload)|..], sequence + 1, true).frames
  {
    hide Scan;
    var first := EncodeFrame(f.kind, f.payload);
    var size := |first|;
    assert contents[..size] == first;
    ParseFrameIn(first, f.kind, f.payload);
    ScanTakes(contents, size, f.kind, |f.payload|, sequence, true);
    assert contents[HEADER_SIZE..HEADER_SIZE + |f.payload|] == first[HEADER_SIZE..HEADER_SIZE + |f.payload|];
  }

  /** A frame that has been moved to the front is what the view of the consumed one shows. */
  lemma MovedFrameShown(m: Memory, size: nat, g: Frame, sequence: nat)
    requires m.Valid() && m.readPos == 0 && Look(m.Contents()) == Ready(size)
    requires g.kind in VALIDATED_TYPES - {0xff} && |g.payload| <= MAX_PAYLOAD
    requires EncodeFrame(g.kind, g.payload) <= m.Consumed(size)
    requires EncodeFrame(g.kind, g.payload) <= m.Consume(size).bytes
    requires Process(m.Consume(size), sequence + 1, true).memory.bytes == m.Consume(size).bytes
    ensures
      var p, more := Process(m, sequence, true), Process(m.Consume(size), sequence + 1, true);
      Emitted(p.refs, p.memory.bytes) == [g.(sequence := sequence)] + Emitted(more.refs, more.memory.bytes)
  {
    hide Process, Emitted;
    ParseFrameIn(m.Consumed(size), g.kind, g.payload);
    ParseFrameIn(m.Consume(size).bytes, g.kind, g.payload);
    ProcessTakes(m, size, g.kind, |g.payload|, sequence, true);
    EmittedCons(FrameRef(g.kind, HEADER_SIZE, |g.payload|, sequence),
                Process(m.Consume(size), sequence + 1, true).refs, m.Consume(size).bytes);
  }

  lemma MovedOver(m: Memory, first: Bytes, second: Bytes)
    requires m.Valid() && m.readPos == 0 && m.Contents() == first + second
    requires |second| <= |first| && 2 * |first| > |m.bytes|
    ensures
      var rest := m.Consume(|first|);
      && rest.readPos == 0 && rest.Contents() == second && rest.bytes[..|second|] == second
      && second <= m.Consumed(|first|)
  {
    assert (first + second)[|first|..] == second;
    var rest := m.Consume(|first|);
    assert rest.bytes[..|second|] == second;
    assert m.Consumed(|first|)[..|second|] == rest.bytes[..|first|][..|second|];
  }

  /** The last frame in the buffer is parsed without moving anything. */
  lemma LastFrame(m: Memory, g: Frame, sequence: nat)
    requires m.Valid() && m.readPos == 0
    requires g.kind in VALIDATED_TYPES - {0xff} && 0 < |g.payload| <= MAX_PAYLOAD
    requires m.Contents() == EncodeFrame(g.kind, g.payload)
    ensures Process(m, sequence, true).memory.bytes == m.bytes
    ensures Emitted(Process(m, sequence, true).refs, m.bytes) == [g.(sequence := sequence)]
    ensures Scan(m.Contents(), sequence, true).frames == [g.(sequence := sequence)]
  {
    var encoded := m.Contents();
    var size := |encoded|;
    FrameHeader(g.kind, g.payload, []);
    assert encoded + [] == encoded && encoded[..size] == encoded && encoded[size..] == [];
    LookAtFrame(g.kind, g.payload, []);
    ParseFrameIn(encoded, g.kind, g.payload);
    NoOverlapIntact(m, size);
    ProcessTakes(m, size, g.kind, |g.payload|, sequence, true);
    ScanTakes(encoded, size, g.kind, |g.payload|, sequence, true);
    var last := m.Consume(size);
    assert last.bytes == m.bytes && last.Contents() == [];
    assert Process(last, sequence + 1, true).refs == [] && Scan([], sequence + 1, true).frames == [];
    EmittedCons(FrameRef(g.kind, HEADER_SIZE, |g.payload|, sequence), [], m.bytes);
    assert m.bytes[HEADER_SIZE..size] == encoded[HEADER_SIZE..];
  }

  lemma FrameHeader(kind: Byte, payload: Bytes, more: Bytes)
    requires |payload| <= MAX_PAYLOAD
    ensures
      var all := EncodeFrame(kind, payload) + more;
      && |all| >= HEADER_SIZE && all[0] == kind && FromBE(all[1..4]) == |payload|
      && FromBE(all[..HEADER_SIZE][1..4]) == |payload|
      && |EncodeFrame(kind, payload)| == HEADER_SIZE + |payload|
      && EncodeFrame(kind, payload)[HEADER_SIZE..] == payload
  {
    Pow256Values();
    BERoundTrip(|payload|, 3);
    var all := EncodeFrame(kind, payload) + more;
    assert all[1..4] == BE(|payload|, 3);
    assert all[..HEADER_SIZE][1..4] == all[1..4];
  }

  lemma LookAtFrame(kind: Byte, payload: Bytes, more: Bytes)
    requires kind in VALID_TYPES - {0xff} && 0 < |payload| <= MAX_PAYLOAD
    ensures Look(EncodeFrame(kind, payload) + more) == Ready(|EncodeFrame(kind, payload)|)
  {
    FrameHeader(kind, payload, more);
  }

  lemma ParseFrameIn(data: Bytes, kind: Byte, payload: Bytes)
    requires kind in VALID_TYPES && |payload| <= MAX_PAYLOAD
    requires EncodeFrame(kind, payload) <= data
    ensures ParseHAPFrame(data) == Some((kind, |payload|))
    ensures data[HEADER_SIZE..HEADER_SIZE + |payload|] == payload
  {
    var n := |EncodeFrame(kind, payload)|;
    FrameHeader(kind, payload, data[n..]);
    assert data == EncodeFrame(kind, payload) + data[n..];
  }
}
