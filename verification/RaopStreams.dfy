/**
 The RAOP sender (src/protocols/raop/RaopStreamClient.ts, lines 259-405) and its answers to
 retransmit requests (src/protocols/raop/RaopControlChannel.ts, lines 157-202).
 */
module RaopStreams {
  import opened Results
  import opened ByteStrings
  import opened PacketFifos

  const FRAMES_PER_PACKET: nat := 352
  const PACKET_BACKLOG_SIZE: nat := 1000
  const MAX_PACKETS_COMPENSATE: nat := 3
  const SEQNOS: nat := 0x1_0000
  const TIMESTAMPS: nat := 0x1_0000_0000
  const RTP_HEADER_SIZE: nat := 12

  // ---- A stream, packet by packet ----

  /** What a stream starts from, and what the source returns on each read. */
  datatype Stream = Stream(
    firstSeqno: nat, rtptime: nat, sessionId: nat, frameSize: nat, latency: nat, source: nat -> Option<Bytes>)
  {
    ghost predicate Valid() {
      firstSeqno < SEQNOS && rtptime < TIMESTAMPS && sessionId < TIMESTAMPS && frameSize > 0
    }

    function PacketSize(): nat {
      FRAMES_PER_PACKET * frameSize
    }

    function Seqno(i: nat): nat {
      (firstSeqno + i) % SEQNOS
    }

    function Timestamp(i: nat): nat {
      (rtptime + FRAMES_PER_PACKET * i) % TIMESTAMPS
    }

    /** Silence when the source is exhausted; zero-padded, or cut, to a packet. */
    function Payload(i: nat): (r: Bytes)
      ensures |r| == PacketSize()
    {
      var frames := if source(i).Some? then Take(source(i).value, PacketSize()) else [];
      frames + Zeros(PacketSize() - |frames|)
    }

    function Packet(i: nat): (r: Bytes)
      ensures |r| == RTP_HEADER_SIZE + PacketSize()
      ensures r[2..4] == BE(Seqno(i), 2)
    {
      var header := RtpHeader(0x80, if i == 0 then 0xe0 else 0x60, Seqno(i), Timestamp(i), sessionId);
      assert (header + Payload(i))[2..4] == header[2..4];
      header + Payload(i)
    }

    function Packets(n: nat): (r: seq<Bytes>)
      ensures |r| == n
    {
      seq(n, i requires 0 <= i < n => Packet(i))
    }

    /** Every packet under its own number. */
    function Numbered(n: nat): (r: seq<Entry>)
      ensures |r| == n
    {
      seq(n, i requires 0 <= i < n => (Seqno(i), Packet(i)))
    }

    function Backlog(n: nat): seq<Entry> {
      Last(Numbered(n), PACKET_BACKLOG_SIZE)
    }

    /** Frames of silence in the first n packets. */
    function Padding(n: nat): nat {
      if n == 0 then 0 else Padding(n - 1) + if source(n - 1).None? then FRAMES_PER_PACKET else 0
    }

    /** Enough silence for the receiver to have played everything. */
    predicate Over(n: nat) {
      Padding(n) >= latency
    }
  }

  function RtpHeader(first: Byte, payloadType: Byte, seqno: nat, timestamp: nat, ssrc: nat): (r: Bytes)
    ensures |r| == RTP_HEADER_SIZE
    ensures r[2..4] == BE(seqno, 2)
  {
    var r := [first, payloadType] + BE(seqno, 2) + BE(timestamp, 4) + BE(ssrc, 4);
    assert r[2..4] == BE(seqno, 2);
    r
  }

  // ---- Byte for byte ----

  /** What a packet holds behind its header: what was read, cut to the size, and zeros. */
  ghost predicate Carries(packet: Bytes, read: Option<Bytes>, size: nat) {
    var n := if read.Some? then Min(|read.value|, size) else 0;
    && |packet| == 12 + size
    && (read.Some? ==> packet[12..12 + n] == read.value[..n])
    && forall k | 12 + n <= k < 12 + size :: packet[k] == 0
  }

  lemma PacketCarries(s: Stream, i: nat)
    ensures Carries(s.Packet(i), s.source(i), 352 * s.frameSize)
  {
    var size, payload := s.PacketSize(), s.Payload(i);
    var frames := if s.source(i).Some? then Take(s.source(i).value, size) else [];
    assert payload == frames + Zeros(size - |frames|);
    assert s.Packet(i)[12..] == payload;
    var packet := s.Packet(i);
    assert packet[12..12 + |frames|] == payload[..|frames|] == frames;
    forall k | 12 + |frames| <= k < 12 + size ensures packet[k] == 0 {
      assert packet[k] == packet[12..][k - 12];
    }
  }

  /** The header: version, marker of the first packet, number, time stamp and session, big-endian. */
  lemma HeaderBytes(s: Stream, i: nat)
    requires s.Valid()
    ensures
      var p := s.Packet(i);
      && p[0] == 0x80 && p[1] == (if i == 0 then 0xe0 else 0x60)
      && FromBE(p[2..4]) == (s.firstSeqno + i) % 0x1_0000
      && FromBE(p[4..8]) == (s.rtptime + 352 * i) % 0x1_0000_0000
      && FromBE(p[8..12]) == s.sessionId
  {
    Pow256Values();
    BERoundTrip(s.Seqno(i), 2);
    BERoundTrip(s.Timestamp(i), 4);
    BERoundTrip(s.sessionId, 4);
    HeaderFields(0x80, if i == 0 then 0xe0 else 0x60, s.Seqno(i), s.Timestamp(i), s.sessionId, s.Payload(i));
  }

  lemma HeaderFields(first: Byte, payloadType: Byte, seqno: nat, timestamp: nat, ssrc: nat, payload: Bytes)
    ensures
      var p := RtpHeader(first, payloadType, seqno, timestamp, ssrc) + payload;
      && p[0] == first && p[1] == payloadType
      && p[2..4] == BE(seqno, 2) && p[4..8] == BE(timestamp, 4) && p[8..12] == BE(ssrc, 4)
  {
    hide BE;
    var header := RtpHeader(first, payloadType, seqno, timestamp, ssrc);
    assert header[4..8] == BE(timestamp, 4) && header[8..12] == BE(ssrc, 4);
    var p := header + payload;
    assert p[2..4] == header[2..4] && p[4..8] == header[4..8] && p[8..12] == header[8..12];
  }

  /** From a source of whole packets, the payloads one after the other are what was read. */
  lemma {:induction false} PayloadsAreReads(s: Stream, n: nat)
    requires forall i | 0 <= i < n :: s.source(i).Some? && |s.source(i).value| == 352 * s.frameSize
    ensures Flatten(seq(n, i requires 0 <= i < n => s.Packet(i)[12..]))
         == Flatten(seq(n, i requires 0 <= i < n => s.source(i).value))
  {
    var payloads := seq(n, i requires 0 <= i < n => s.Packet(i)[12..]);
    var frames := seq(n, i requires 0 <= i < n => s.source(i).value);
    forall i | 0 <= i < n ensures payloads[i] == frames[i] {
      PacketCarries(s, i);
      assert s.Packet(i)[12..] == s.Packet(i)[12..12 + 352 * s.frameSize];
    }
    assert payloads == frames;
  }

  // ---- The backlog ----

  /** Two numbers within one period of the counter differ. */
  lemma SeqnosDiffer(s: Stream, i: nat, j: nat)
    requires i < j < i + SEQNOS
    ensures s.Seqno(i) != s.Seqno(j)
  {
  }

  lemma BacklogStep(s: Stream, n: nat)
    ensures Last(s.Backlog(n) + [(s.Seqno(n), s.Packet(n))], PACKET_BACKLOG_SIZE) == s.Backlog(n + 1)
  {
    assert s.Numbered(n) + [(s.Seqno(n), s.Packet(n))] == s.Numbered(n + 1);
    LastOfLast(s.Numbered(n), (s.Seqno(n), s.Packet(n)), PACKET_BACKLOG_SIZE);
  }

  /** How many packets ago a number was last used. */
  function Age(s: Stream, n: nat, seqno: nat): nat {
    (s.firstSeqno + n - 1 - seqno) % SEQNOS
  }

  /** A number finds the packet that was sent under it, if that is among the last 1000. */
  lemma BacklogHolds(s: Stream, n: nat, seqno: nat)
    requires seqno < SEQNOS
    ensures
      var age := Age(s, n, seqno);
      Lookup(s.Backlog(n), seqno) ==
      if age < Min(n, PACKET_BACKLOG_SIZE) then Some(s.Packet(n - 1 - age)) else None
    ensures
      var age := Age(s, n, seqno);
      age < Min(n, PACKET_BACKLOG_SIZE) ==> s.Seqno(n - 1 - age) == seqno
  {
    hide Age, Lookup, Stream.Seqno, Stream.Packet, Stream.Backlog;
    var age, entries := Age(s, n, seqno), s.Backlog(n);
    BacklogKeys(s, n);
    if age < |entries| {
      BacklogEntry(s, n, |entries| - 1 - age);
      SeqnoOfAge(s, n, seqno);
      LookupAt(entries, |entries| - 1 - age);
    } else {
      forall k | 0 <= k < |entries| ensures entries[k].0 != seqno {
        BacklogEntry(s, n, k);
        AgeOf(s, n, n - |entries| + k);
      }
      LookupNowhere(entries, seqno);
    }
  }

  /** Of the last 65536 packets, those of the last 1000 are found, and no others. */
  lemma ThousandAreKept(s: Stream, n: nat, i: nat)
    requires i < n <= i + 0x1_0000
    ensures Lookup(s.Backlog(n), (s.firstSeqno + i) % 0x1_0000)
         == if n - i <= 1000 then Some(s.Packet(i)) else None
  {
    hide Lookup, Stream.Packet, Stream.Backlog;
    AgeOf(s, n, i);
    BacklogHolds(s, n, s.Seqno(i));
  }

  /** The number of the next packet is not in the backlog, so it is never taken for a duplicate. */
  lemma NextSeqnoIsNew(s: Stream, n: nat)
    ensures Lookup(s.Backlog(n), s.Seqno(n)).None?
  {
    hide Lookup, Stream.Backlog;
    BacklogHolds(s, n, s.Seqno(n));
    assert Age(s, n, s.Seqno(n)) == SEQNOS - 1 by {
      var q := (s.firstSeqno + n) / SEQNOS;
      assert s.firstSeqno + n - 1 - s.Seqno(n) == (q - 1) * SEQNOS + (SEQNOS - 1);
    }
  }

  lemma BacklogEntry(s: Stream, n: nat, k: nat)
    requires k < |s.Backlog(n)|
    ensures |s.Backlog(n)| == Min(n, PACKET_BACKLOG_SIZE)
    ensures
      var i := n - |s.Backlog(n)| + k;
      s.Backlog(n)[k] == (s.Seqno(i), s.Packet(i))
  {
    assert s.Backlog(n)[k] == s.Numbered(n)[n - |s.Backlog(n)| + k];
  }

  lemma SeqnoOfAge(s: Stream, n: nat, seqno: nat)
    requires seqno < SEQNOS && Age(s, n, seqno) < n
    ensures s.Seqno(n - 1 - Age(s, n, seqno)) == seqno
  {
    var total := s.firstSeqno + n - 1 - seqno;
    var age := Age(s, n, seqno);
    assert total == total / SEQNOS * SEQNOS + age;
    assert s.firstSeqno + (n - 1 - age) == total / SEQNOS * SEQNOS + seqno;
  }

  lemma AgeOf(s: Stream, n: nat, i: nat)
    requires i < n <= i + SEQNOS
    ensures Age(s, n, s.Seqno(i)) == n - 1 - i
  {
    var q := (s.firstSeqno + i) / SEQNOS;
    assert s.firstSeqno + i == q * SEQNOS + s.Seqno(i);
    assert s.firstSeqno + n - 1 - s.Seqno(i) == q * SEQNOS + (n - 1 - i);
  }

  lemma BacklogKeys(s: Stream, n: nat)
    ensures |s.Backlog(n)| == Min(n, PACKET_BACKLOG_SIZE)
    ensures PacketFifos.DistinctKeys(s.Backlog(n))
  {
    var entries := s.Backlog(n);
    forall i, j | 0 <= i < j < |entries| ensures entries[i].0 != entries[j].0 {
      var from := n - |entries|;
      BacklogEntry(s, n, i);
      BacklogEntry(s, n, j);
      SeqnosDiffer(s, from + i, from + j);
    }
  }

  // ---- The end of a stream ----

  /** Once the source stays exhausted, ceil(latency / 352) more packets are enough. */
  lemma PaddingEndsStream(s: Stream, exhausted: nat, n: nat)
    requires forall i | i >= exhausted :: s.source(i).None?
    requires n >= exhausted + (s.latency + FRAMES_PER_PACKET - 1) / FRAMES_PER_PACKET
    ensures s.Over(n)
  {
    PaddingAfter(s, exhausted, n);
  }

  lemma {:induction false} PaddingAfter(s: Stream, exhausted: nat, n: nat)
    requires n >= exhausted && forall i | exhausted <= i < n :: s.source(i).None?
    ensures s.Padding(n) == s.Padding(exhausted) + FRAMES_PER_PACKET * (n - exhausted)
    decreases n
  {
    if n > exhausted {
      PaddingAfter(s, exhausted, n - 1);
    }
  }

  lemma {:induction false} NoPaddingBefore(s: Stream, n: nat)
    requires forall i | 0 <= i < n :: s.source(i).Some?
    ensures s.Padding(n) == 0
  {
    if n > 0 {
      NoPaddingBefore(s, n - 1);
    }
  }

  /** A source that gives `exhausted` packets and then nothing more is sent in exactly this many. */
  lemma StreamLength(s: Stream, exhausted: nat, n: nat)
    requires s.latency > 0
    requires forall i | 0 <= i < exhausted :: s.source(i).Some?
    requires forall i | i >= exhausted :: s.source(i).None?
    ensures s.Over(n) && (n > 0 ==> !s.Over(n - 1))
            <==> n == exhausted + (s.latency + FRAMES_PER_PACKET - 1) / FRAMES_PER_PACKET
  {
    NoPaddingBefore(s, Min(n, exhausted));
    if n > exhausted {
      NoPaddingBefore(s, exhausted);
      PaddingAfter(s, exhausted, n);
      PaddingAfter(s, exhausted, n - 1);
    }
  }

  // ---- The sender ----

  class StreamClient {
    const stream: Stream
    const packetBacklog: PacketFifo
    var rtpseq: nat
    var headTs: nat
    var paddingSent: nat
    /** Reads made of the source. */
    var readCount: nat
    /** What has been handed to the transport. */
    var sent: seq<Bytes>

    /** After n packets everything is where n packets put it. */
    ghost predicate At(n: nat)
      reads this, packetBacklog
    {
      && stream.Valid() && packetBacklog.Valid() && packetBacklog.maxSize == PACKET_BACKLOG_SIZE
      && sent == stream.Packets(n) && readCount == n
      && rtpseq == stream.Seqno(n) && headTs == stream.Timestamp(n)
      && paddingSent == stream.Padding(n)
      && packetBacklog.Entries() == stream.Backlog(n)
      && (n > 0 ==> !stream.Over(n - 1))
    }

    constructor (stream: Stream)
      requires stream.Valid()
      ensures this.stream == stream && At(0) && fresh(packetBacklog)
    {
      this.stream := stream;
      packetBacklog := new PacketFifo(PACKET_BACKLOG_SIZE);
      rtpseq := stream.firstSeqno;
      headTs := stream.rtptime;
      paddingSent := 0;
      readCount := 0;
      sent := [];
    }

    method ReadFrames() returns (r: Option<Bytes>)
      modifies this`readCount
      ensures r == stream.source(old(readCount)) && readCount == old(readCount) + 1
    {
      r := stream.source(readCount);
      readCount := readCount + 1;
    }

    /** Frames sent: none once enough silence has been, and otherwise a packet's worth. */
    method SendPacket(firstPacket: bool, ghost n: nat) returns (frames: nat)
      requires At(n) && firstPacket == (n == 0)
      modifies this, packetBacklog
      ensures if stream.Over(n) then frames == 0 && At(n) else frames == FRAMES_PER_PACKET == 352 && At(n + 1)
      ensures !stream.Over(n) ==> |sent| == n + 1 && Carries(sent[n], stream.source(n), 352 * stream.frameSize)
    {
      PacketCarries(stream, n);
      if paddingSent >= stream.latency {
        return 0;
      }
      var payload := NextPayload(n);
      var header := RtpHeader(0x80, if firstPacket then 0xe0 else 0x60, rtpseq, headTs, stream.sessionId);
      var packet := header + payload;
      sent := sent + [packet];
      assert sent == stream.Packets(n + 1);
      Remember(rtpseq, packet, n);
      rtpseq := (rtpseq + 1) % 0x10000;
      frames := |payload| / stream.frameSize;
      WholePacket(stream.frameSize);
      headTs := (headTs + frames) % 0x1_0000_0000;
      NextCounters(stream, n);
    }

    method NextPayload(ghost n: nat) returns (payload: Bytes)
      requires stream.Valid() && readCount == n && paddingSent == stream.Padding(n)
      modifies this`readCount, this`paddingSent
      ensures payload == stream.Payload(n)
      ensures readCount == n + 1 && paddingSent == stream.Padding(n + 1)
    {
      var frames := ReadFrames();
      var packetSize := stream.PacketSize();
      WholePacket(stream.frameSize);
      if frames.None? {
        payload := Zeros(packetSize);
        paddingSent := paddingSent + |payload| / stream.frameSize;
        assert payload == [] + Zeros(packetSize - 0);
      } else if |frames.value| != packetSize {
        payload := Take(frames.value, packetSize) + Zeros(packetSize - |Take(frames.value, packetSize)|);
      } else {
        payload := frames.value;
        assert Take(payload, packetSize) + Zeros(0) == payload;
      }
    }

    method Remember(seqno: nat, packet: Bytes, ghost n: nat)
      requires packetBacklog.Valid() && packetBacklog.maxSize == PACKET_BACKLOG_SIZE
      requires packetBacklog.Entries() == stream.Backlog(n)
      requires seqno == stream.Seqno(n) && packet == stream.Packet(n)
      modifies packetBacklog
      ensures packetBacklog.Valid() && packetBacklog.Entries() == stream.Backlog(n + 1)
    {
      NextSeqnoIsNew(stream, n);
      packetBacklog.Set(seqno, packet);
      BacklogStep(stream, n);
    }

    /** Up to count more packets; false if the stream ended on the way. */
    method SendBurst(count: nat, ghost n: nat) returns (total: nat, hasMore: bool, ghost n': nat)
      requires At(n) && n > 0
      modifies this, packetBacklog
      ensures At(n') && n <= n' && total == FRAMES_PER_PACKET * (n' - n)
      ensures if hasMore then n' == n + count else n' < n + count && stream.Over(n')
    {
      total, n' := 0, n;
      for i := 0 to count
        invariant total == FRAMES_PER_PACKET * i && n' == n + i && At(n')
      {
        var frames := SendPacket(false, n');
        total := total + frames;
        if frames == 0 {
          return total, false, n';
        }
        n' := n' + 1;
      }
      hasMore := true;
    }

    /** One turn of the loop, given what the clock says should have been sent by then. */
    method Round(totalFrames: nat, expectedFrames: int, ghost n: nat)
      returns (newTotal: nat, more: bool, ghost n': nat)
      requires At(n) && totalFrames == FRAMES_PER_PACKET * n
      modifies this, packetBacklog
      ensures At(n') && newTotal == FRAMES_PER_PACKET * n'
      ensures if more then n < n' else n <= n' && stream.Over(n')
      ensures n' <= n + 1 + MAX_PACKETS_COMPENSATE == n + 4
      ensures n' > n + 1 ==> newTotal <= expectedFrames
      ensures more && n' < n + 1 + MAX_PACKETS_COMPENSATE ==> expectedFrames - newTotal < FRAMES_PER_PACKET
    {
      hide At, Stream.Over;
      var frames := SendPacket(totalFrames == 0, n);
      if frames == 0 {
        return totalFrames, false, n;
      }
      newTotal, more, n' := totalFrames + frames, true, n + 1;
      var behind := expectedFrames - newTotal;
      if behind >= FRAMES_PER_PACKET {
        var extra := Min(behind / FRAMES_PER_PACKET, MAX_PACKETS_COMPENSATE);
        var extraSent;
        extraSent, more, n' := SendBurst(extra, n + 1);
        newTotal := newTotal + extraSent;
      }
    }

    /**
     The loop, with what the clock says in each turn; `stop` is called during the last of them,
     unless the stream is over before.
     */
    method StreamLoop(expected: seq<int>) returns (totalFrames: nat, stopped: bool, ghost n: nat)
      requires At(0)
      modifies this, packetBacklog
      ensures At(n) && totalFrames == FRAMES_PER_PACKET * n
      ensures if stopped then n >= |expected| else stream.Over(n)
    {
      totalFrames, stopped, n := 0, true, 0;
      for i := 0 to |expected|
        invariant At(n) && totalFrames == FRAMES_PER_PACKET * n && n >= i
      {
        var more;
        totalFrames, more, n := Round(totalFrames, expected[i], n);
        if !more {
          return totalFrames, false, n;
        }
      }
    }

    /** A source that is exhausted after some reads: the stream ends by itself, in bounded time. */
    method StreamToEnd(expected: seq<int>, exhausted: nat) returns (totalFrames: nat)
      requires At(0)
      requires forall i | i >= exhausted :: stream.source(i).None?
      requires |expected| > exhausted + (stream.latency + FRAMES_PER_PACKET - 1) / FRAMES_PER_PACKET
      modifies this, packetBacklog
      ensures totalFrames == FRAMES_PER_PACKET * |sent|
      ensures At(|sent|) && stream.Over(|sent|)
      ensures |sent| <= exhausted + (stream.latency + FRAMES_PER_PACKET - 1) / FRAMES_PER_PACKET
      ensures forall i | 0 <= i < |sent| :: Carries(sent[i], stream.source(i), 352 * stream.frameSize)
    {
      var stopped;
      ghost var n;
      totalFrames, stopped, n := StreamLoop(expected);
      assert |sent| == n;
      if n > exhausted + (stream.latency + FRAMES_PER_PACKET - 1) / FRAMES_PER_PACKET {
        PaddingEndsStream(stream, exhausted, n - 1);
      }
      forall i | 0 <= i < |sent| ensures Carries(sent[i], stream.source(i), 352 * stream.frameSize) {
        PacketCarries(stream, i);
      }
    }
  }

  lemma WholePacket(frameSize: nat)
    requires frameSize > 0
    ensures FRAMES_PER_PACKET * frameSize / frameSize == FRAMES_PER_PACKET
  {
  }

  lemma NextCounters(s: Stream, n: nat)
    ensures s.Seqno(n + 1) == (s.Seqno(n) + 1) % SEQNOS
    ensures s.Timestamp(n + 1) == (s.Timestamp(n) + FRAMES_PER_PACKET) % TIMESTAMPS
  {
  }

  // ---- Retransmission ----

  datatype ControlError = ShortRequest

  /** Too short a packet has no answer; a missing one is answered with four zero bytes. */
  function Response(seqno: nat, original: Option<Bytes>): seq<Bytes> {
    match original
    case Some(p) => if |p| < 4 then [] else [[0x80, 0xd6] + p[2..4] + p]
    case None => [[0x80, 0xd6] + BE(seqno, 2) + Zeros(4)]
  }

  function Responses(entries: seq<Entry>, lostSeqno: nat, lostPackets: nat): seq<Bytes> {
    if lostPackets == 0 then []
    else
      var seqno := (lostSeqno + lostPackets - 1) % SEQNOS;
      Responses(entries, lostSeqno, lostPackets - 1) + Response(seqno, Lookup(entries, seqno))
  }

  /** The answer to a request for one number while n packets have been sent. */
  ghost predicate Answers(response: Bytes, s: Stream, n: nat, seqno: nat) {
    var age := Age(s, n, seqno);
    && |response| >= 8 && response[..2] == [0x80, 0xd6] && response[2..4] == BE(seqno, 2)
    && response[4..] == if age < Min(n, PACKET_BACKLOG_SIZE) then s.Packet(n - 1 - age) else Zeros(4)
  }

  lemma OneAnswers(s: Stream, n: nat, seqno: nat)
    requires seqno < SEQNOS
    ensures
      var r := Response(seqno, Lookup(s.Backlog(n), seqno));
      |r| == 1 && Answers(r[0], s, n, seqno)
  {
    BacklogHolds(s, n, seqno);
  }

  /** Exactly one response for each number asked for, in order, across the wrap of the counter. */
  lemma {:induction false} OneResponsePerNumber(s: Stream, n: nat, lostSeqno: nat, lostPackets: nat)
    ensures
      var r := Responses(s.Backlog(n), lostSeqno, lostPackets);
      |r| == lostPackets && forall i | 0 <= i < lostPackets :: Answers(r[i], s, n, (lostSeqno + i) % SEQNOS)
  {
    hide Answers, Response, Lookup, Stream.Backlog;
    if lostPackets > 0 {
      OneResponsePerNumber(s, n, lostSeqno, lostPackets - 1);
      OneAnswers(s, n, (lostSeqno + lostPackets - 1) % SEQNOS);
    }
  }

  class ControlChannel {
    const packetBacklog: PacketFifo
    /** Responses handed to the transport. */
    var sent: seq<Bytes>

    constructor (packetBacklog: PacketFifo)
      ensures this.packetBacklog == packetBacklog && sent == []
    {
      this.packetBacklog := packetBacklog;
      sent := [];
    }

    /** Other messages are ignored; a request without room for its fields throws. */
    method OnMessage(data: Bytes) returns (r: Result<(), ControlError>)
      requires packetBacklog.Valid()
      modifies this`sent
      ensures
        var request := |data| >= 2 && data[1] % 0x80 == 0x55;
        if request && |data| < 8 then r == Err(ShortRequest) && sent == old(sent)
        else
          && r == Ok(())
          && sent == old(sent) + if request
               then Responses(packetBacklog.Entries(), FromBE(data[4..6]), FromBE(data[6..8]))
               else []
    {
      if |data| < 2 || data[1] % 0x80 != 0x55 {
        return Ok(());
      }
      if |data| < 8 {
        return Err(ShortRequest);
      }
      HandleRetransmit(FromBE(data[4..6]), FromBE(data[6..8]));
      r := Ok(());
    }

    method HandleRetransmit(lostSeqno: nat, lostPackets: nat)
      requires packetBacklog.Valid()
      modifies this`sent
      ensures sent == old(sent) + Responses(packetBacklog.Entries(), lostSeqno, lostPackets)
    {
      hide Response, Lookup;
      for i := 0 to lostPackets
        invariant sent == old(sent) + Responses(packetBacklog.Entries(), lostSeqno, i)
      {
        var seqno := (lostSeqno + i) % 0x10000;
        var original := packetBacklog.Get(seqno);
        Respond(seqno, original);
      }
    }

    method Respond(seqno: nat, original: Option<Bytes>)
      modifies this`sent
      ensures sent == old(sent) + Response(seqno, original)
    {
      match original
      case Some(packet) =>
        if |packet| >= 4 {
          var resp := [0x80, 0xd6] + packet[2..4] + packet;
          sent := sent + [resp];
        }
      case None =>
        var resp := [0x80, 0xd6] + BE(seqno, 2) + [0, 0, 0, 0];
        assert Zeros(4) == [0, 0, 0, 0];
        sent := sent + [resp];
    }

    /** Over a sender's backlog: one response per number, each naming it and carrying its packet. */
    method AnswerRetransmit(client: StreamClient, n: nat, lostSeqno: nat, lostPackets: nat)
      requires client.packetBacklog == packetBacklog && client.At(n)
      modifies this`sent
      ensures |sent| == |old(sent)| + lostPackets && old(sent) <= sent
      ensures
        var responses := sent[|old(sent)|..];
        forall i | 0 <= i < lostPackets :: Answers(responses[i], client.stream, n, (lostSeqno + i) % SEQNOS)
    {
      hide Answers, Responses;
      HandleRetransmit(lostSeqno, lostPackets);
      OneResponsePerNumber(client.stream, n, lostSeqno, lostPackets);
    }
  }
}
