/**
 The AirPlay data stream channel (src/protocols/airplay/layers/DataStreamChannel.ts): encrypted
 frames come in cut anywhere, are opened, collected in the stream buffer and parsed; sync messages
 are answered over the same encryption layer.
 */
module DataStreamChannel {
  import opened Results
  import opened ByteStrings
  import opened BufferPools
  import opened Buffers
  import opened Streams
  import opened StreamBuffers
  import opened HapFrames
  import opened ProtobufBatches
  import opened DataStreams

  // ---- Replies ----

  function ReplyTo(seqno: nat): Message {
    Message(MSG_TYPE_REPLY, CMD_EMPTY, seqno, 0, [])
  }

  /** One sealed reply for each number. */
  function SealedReplies(session: Option<Session>, counter: nat, seqnos: seq<nat>): seq<Bytes>
    decreases |seqnos|
  {
    if seqnos == [] then []
    else [SealFrames(session, counter, EncodeMessage(ReplyTo(seqnos[0])))]
         + SealedReplies(session, HapFrames.Next(session, counter), seqnos[1..])
  }

  function EncodedReplies(seqnos: seq<nat>): seq<Bytes> {
    seq(|seqnos|, i requires 0 <= i < |seqnos| => EncodeMessage(ReplyTo(seqnos[i])))
  }

  lemma ReplyFits(seqno: nat)
    requires seqno < SEQNO_LIMIT
    ensures Fits(ReplyTo(seqno)) && |EncodeMessage(ReplyTo(seqno))| == HEADER_SIZE
    ensures FrameCount(HEADER_SIZE) == 1
  {
  }

  /** A reply, byte for byte: 32 of them, of which only size, type and number are not zero. */
  lemma ReplyBytes(seqno: nat)
    requires seqno < SEQNO_LIMIT
    ensures
      var d := EncodeMessage(ReplyTo(seqno));
      && |d| == 32 && d[..8] == [0, 0, 0, 32, 0x72, 0x70, 0x6c, 0x79]
      && d[8..20] == [0, 0, 0, 0, 0, 0, 0, 0, 0, 0, 0, 0]
      && FromBE(d[20..24]) * 0x1_0000_0000 + FromBE(d[24..28]) == seqno && d[28..] == [0, 0, 0, 0]
  {
    ReplyFits(seqno);
    MessageBytes(ReplyTo(seqno));
    var d := EncodeMessage(ReplyTo(seqno));
    FourBytes(32);
    FourBytes(0);
    BEOfFromBE(d[..4]);
    BEOfFromBE(d[28..32]);
    assert d[28..] == d[28..32];
    assert d[..8] == d[..4] + d[4..16][..4];
    assert d[8..20] == d[4..16][4..] + d[16..20];
  }

  lemma FourBytes(n: Byte)
    ensures BE(n, 4) == [0, 0, 0, n]
  {
    assert BE(0, 1) == BE(0, 0) + [0] && BE(0, 2) == BE(0, 1) + [0] && BE(0, 3) == BE(0, 2) + [0];
  }

  lemma {:induction false} SealedRepliesStream(session: Session, counter: nat, seqnos: seq<nat>)
    requires forall i | 0 <= i < |seqnos| :: seqnos[i] < SEQNO_LIMIT
    ensures Flatten(SealedReplies(Some(session), counter, seqnos)) == SealAll(session, counter, EncodedReplies(seqnos))
    ensures TotalFrames(EncodedReplies(seqnos)) == |seqnos|
    decreases |seqnos|
  {
    if seqnos != [] {
      ReplyFits(seqnos[0]);
      SealedRepliesStream(session, counter + 1, seqnos[1..]);
      assert EncodedReplies(seqnos)[1..] == EncodedReplies(seqnos[1..]);
      var all := SealedReplies(Some(session), counter, seqnos);
      assert all[1..] == SealedReplies(Some(session), counter + 1, seqnos[1..]);
    }
  }

  lemma {:induction false} EncodedRepliesAreMessages(seqnos: seq<nat>)
    requires forall i | 0 <= i < |seqnos| :: seqnos[i] < SEQNO_LIMIT
    ensures
      var messages := seq(|seqnos|, i requires 0 <= i < |seqnos| => ReplyTo(seqnos[i]));
      && Flatten(EncodedReplies(seqnos)) == EncodeAll(messages)
      && (forall m | m in messages :: Fits(m))
      && (forall plist :: AllOutputs(messages, plist) == [])
      && forall m, plist | m in messages :: Returns(m, plist)
  {
    var messages := seq(|seqnos|, i requires 0 <= i < |seqnos| => ReplyTo(seqnos[i]));
    if seqnos != [] {
      EncodedRepliesAreMessages(seqnos[1..]);
      assert EncodedReplies(seqnos)[1..] == EncodedReplies(seqnos[1..]);
      assert messages[1..] == seq(|seqnos| - 1, i requires 0 <= i < |seqnos| - 1 => ReplyTo(seqnos[1..][i]));
      assert messages == [messages[0]] + messages[1..];
    }
  }

  // ---- Runs of the receiver ----

  /**
   Bytes not opened yet, the receive counter, the stream buffer, everything put out so far, and whether a
   pass is still running that never ends.
   */
  datatype Receiver = Receiver(encrypted: Bytes, counter: nat, memory: Memory, outputs: seq<Output>, hung: bool)

  /** A piece of the encrypted stream, and the memory once what it completes has been appended. */
  datatype Piece = Piece(data: Bytes, after: Memory)

  /** There is room for the plaintext, and the pass over it is safe; or the piece is never looked at. */
  ghost predicate CanReceive(session: Session, h: Receiver, piece: Piece) {
    h.hung ||
    match OpenFrames(Some(session), h.counter, h.encrypted + piece.data)
    case Failed(_) => true
    case Parsed(plain, _, _) =>
      && Appended(h.memory, plain, piece.after)
      && SafeStream(piece.after)
  }

  ghost function Receive(session: Session, plist: PlistDecoder, h: Receiver, piece: Piece): Receiver
    requires CanReceive(session, h, piece)
  {
    if h.hung then h
    else
      match OpenFrames(Some(session), h.counter, h.encrypted + piece.data)
      case Failed(_) => h
      case Parsed(_, rest, counter) =>
        var p := ProcessStream(piece.after, plist);
        Receiver(rest, counter, p.memory, h.outputs + p.outputs, p.ending == Hung)
  }

  ghost predicate Receives(session: Session, plist: PlistDecoder, before: Receiver, piece: Piece, after: Receiver) {
    CanReceive(session, before, piece) && after == Receive(session, plist, before, piece)
  }

  ghost predicate CanReceiveAll(session: Session, plist: PlistDecoder, h: Receiver, pieces: seq<Piece>)
    decreases |pieces|
  {
    pieces == [] || (
      && CanReceive(session, h, pieces[0])
      && CanReceiveAll(session, plist, Receive(session, plist, h, pieces[0]), pieces[1..]))
  }

  ghost function ReceiveAll(session: Session, plist: PlistDecoder, h: Receiver, pieces: seq<Piece>): Receiver
    requires CanReceiveAll(session, plist, h, pieces)
    decreases |pieces|
  {
    if pieces == [] then h
    else ReceiveAll(session, plist, Receive(session, plist, h, pieces[0]), pieces[1..])
  }

  function DataOf(pieces: seq<Piece>): seq<Bytes> {
    if pieces == [] then [] else [pieces[0].data] + DataOf(pieces[1..])
  }

  /** The channel is where a pass over the plaintext so far would be. */
  ghost predicate InStep(plist: PlistDecoder, h: Receiver, plain: Bytes) {
    var p := ScanStream(plain, plist);
    && h.memory.Valid() && h.outputs == p.outputs && h.memory.Contents() == p.rest
    && p.ending == if h.hung then Hung else Finished
  }

  lemma ReceiveKeepsStep(session: Session, plist: PlistDecoder, h: Receiver, piece: Piece, plain: Bytes)
    requires InStep(plist, h, plain) && CanReceive(session, h, piece) && !h.hung
    requires OpenFrames(Some(session), h.counter, h.encrypted + piece.data).Parsed?
    requires
      var got := OpenFrames(Some(session), h.counter, h.encrypted + piece.data).output;
      ScanStream(plain + got, plist).ending != Threw
    ensures
      var got := OpenFrames(Some(session), h.counter, h.encrypted + piece.data).output;
      InStep(plist, Receive(session, plist, h, piece), plain + got)
  {
    hide OpenFrames, ScanStream, ProcessStream, SafeStream;
    var got := OpenFrames(Some(session), h.counter, h.encrypted + piece.data).output;
    ScanMore(plain, got, plist);
    SafeStreamShows(piece.after, plist);
  }

  /** Whatever comes later, a pass that hangs puts out nothing more. */
  lemma {:induction false} HungStays(session: Session, plist: PlistDecoder, h: Receiver, pieces: seq<Piece>)
    requires h.hung && CanReceiveAll(session, plist, h, pieces)
    ensures ReceiveAll(session, plist, h, pieces) == h
    decreases |pieces|
  {
    if pieces != [] {
      HungStays(session, plist, h, pieces[1..]);
    }
  }

  lemma {:induction false} FailedStays(parse: Parser<Byte, nat>, s: nat, pieces: seq<Bytes>)
    ensures FeedAll<Byte, nat>(parse, Failed(s), pieces) == Failed(s)
    decreases |pieces|
  {
    if pieces != [] {
      FailedStays(parse, s, pieces[1..]);
    }
  }

  /** What is fed later only adds to the plaintext. */
  lemma {:induction false} FeedAllGrows(parse: Parser<Byte, nat>, received: Parsed<Byte, nat>, pieces: seq<Bytes>)
    ensures
      var all := FeedAll<Byte, nat>(parse, received, pieces);
      all.Parsed? ==> received.Parsed? && received.output <= all.output
    decreases |pieces|
  {
    if pieces != [] {
      FeedAllGrows(parse, Feed(parse, received, pieces[0]), pieces[1..]);
    }
  }

  /** Where a pass over the first bytes throws, one over all of them does; and likewise if it hangs. */
  lemma PrefixEnds(plist: PlistDecoder, whole: Bytes, plain: Bytes)
    requires plain <= whole
    ensures ScanStream(plain, plist).ending != Finished ==>
              ScanStream(whole, plist).ending == ScanStream(plain, plist).ending
              && ScanStream(whole, plist).outputs == ScanStream(plain, plist).outputs
  {
    hide ScanStream;
    ScanMore(plain, whole[|plain|..], plist);
    assert plain + whole[|plain|..] == whole;
  }

  /** The channel has done what a pass over the whole plaintext does. */
  ghost predicate Finishes(plist: PlistDecoder, r: Receiver, whole: Bytes, counter: nat) {
    var p := ScanStream(whole, plist);
    && r.outputs == p.outputs && (r.hung <==> p.ending == Hung)
    && (!r.hung ==> r.encrypted == [] && r.counter == counter && r.memory.Valid() && r.memory.Contents() == p.rest)
  }

  lemma {:induction false} ReceiveAllInStep(
    session: Session, plist: PlistDecoder, h: Receiver, pieces: seq<Piece>, plain: Bytes, whole: Bytes, counter: nat)
    requires CanReceiveAll(session, plist, h, pieces) && InStep(plist, h, plain)
    requires FeedAll<Byte, nat>(Opener(Some(session)), Parsed(plain, h.encrypted, h.counter), DataOf(pieces))
          == Parsed(whole, [], counter)
    requires ScanStream(whole, plist).ending != Threw
    ensures Finishes(plist, ReceiveAll(session, plist, h, pieces), whole, counter)
    decreases |pieces|
  {
    hide OpenFrames, ScanStream, ProcessStream, SafeStream;
    var open := Opener(Some(session));
    if h.hung {
      HungStays(session, plist, h, pieces);
      FeedAllGrows(open, Parsed(plain, h.encrypted, h.counter), DataOf(pieces));
      PrefixEnds(plist, whole, plain);
    } else if pieces != [] {
      var piece, rest := pieces[0], pieces[1..];
      var fed := Feed<Byte, nat>(open, Parsed(plain, h.encrypted, h.counter), piece.data);
      assert DataOf(pieces)[1..] == DataOf(rest);
      if fed.Failed? {
        FailedStays(open, fed.state, DataOf(rest));
      } else {
        FeedAllGrows(open, fed, DataOf(rest));
        PrefixEnds(plist, whole, fed.output);
        ReceiveKeepsStep(session, plist, h, piece, plain);
        ReceiveAllInStep(session, plist, Receive(session, plist, h, piece), rest, fed.output, whole, counter);
      }
    }
  }

  /** No message makes an exception escape. */
  ghost predicate NoneThrows(messages: seq<Message>, plist: PlistDecoder) {
    forall m | m in messages :: Handle(m, plist) != Stuck(Threw)
  }

  /**
   The whole stack: messages are encoded, sealed in any grouping, cut anywhere, opened, buffered and
   parsed, whatever the buffer held before. Up to the first message whose handling never ends, each does
   what it does, in order, exactly once. If there is none, that is all of them, and nothing is left in any
   buffer; otherwise nothing that comes later is looked at.
   */
  lemma EndToEnd(
    sender: Session, receiver: Session, counter: nat, plist: PlistDecoder,
    messages: seq<Message>, plaintexts: seq<Bytes>, initial: Bytes, pieces: seq<Piece>)
    requires Paired(sender, receiver)
    requires NoneThrows(messages, plist) && forall m | m in messages :: Fits(m)
    requires Flatten(plaintexts) == EncodeAll(messages)
    requires Flatten(DataOf(pieces)) == SealAll(sender, counter, plaintexts)
    requires CanReceiveAll(receiver, plist, Receiver([], counter, Memory(initial, 0, 0), [], false), pieces)
    ensures
      var r := ReceiveAll(receiver, plist, Receiver([], counter, Memory(initial, 0, 0), [], false), pieces);
      var served := Served(messages, plist);
      && r.outputs == AllOutputs(served, plist)
      && Replies(r.outputs) == SyncSeqnos(served)
      && (!r.hung <==> forall m | m in messages :: Returns(m, plist))
      && (!r.hung <==> served == messages)
      && (!r.hung ==>
            && r.encrypted == [] && r.memory.Valid() && r.memory.Contents() == []
            && r.counter == counter + TotalFrames(plaintexts))
  {
    hide ReceiveAll, CanReceiveAll, SealAll, EncodeAll, AllOutputs, Replies, SyncSeqnos, Paired, TotalFrames;
    hide ScanStream, FeedAll, Flatten, Opener, InStep, Served, Returns, ScanMessages;
    var start := Receiver([], counter, Memory(initial, 0, 0), [], false);
    StreamIndependentOfCuts(sender, receiver, counter, plaintexts, DataOf(pieces));
    ScanEncoded(messages, plist);
    ServedMeans(messages, plist);
    RepliesOfAll(Served(messages, plist), plist);
    EndingMeans(messages, plist);
    StartsInStep(plist, start);
    ReceiveAllInStep(receiver, plist, start, pieces, [], EncodeAll(messages), counter + TotalFrames(plaintexts));
  }

  lemma EndingMeans(messages: seq<Message>, plist: PlistDecoder)
    requires NoneThrows(messages, plist)
    ensures
      var p, served := ScanMessages(messages, plist), Served(messages, plist);
      && p.outputs == AllOutputs(served, plist) && p.ending != Threw
      && (p.ending == Hung <==> served != messages)
      && (p.ending == Finished ==> p.rest == [])
  {
    hide Handle, Served, AllOutputs, EncodeAll;
    ServedMeans(messages, plist);
    var k := |Served(messages, plist)|;
    if k < |messages| {
      assert messages[k] in messages;
    } else {
      assert Served(messages, plist) == messages;
    }
  }

  lemma StartsInStep(plist: PlistDecoder, h: Receiver)
    requires h.memory.Valid() && h.memory.Contents() == [] && h.outputs == [] && !h.hung
    ensures InStep(plist, h, [])
  {
    NothingToScan(plist);
  }

  /** Amounts alone: whoever never lets more wait than half the buffer holds loses nothing. */
  lemma SmallBacklogIsSafe(session: Session, h: Receiver, piece: Piece)
    requires
      match OpenFrames(Some(session), h.counter, h.encrypted + piece.data)
      case Failed(_) => true
      case Parsed(plain, _, _) =>
        Appended(h.memory, plain, piece.after) && 2 * |piece.after.Contents()| <= |piece.after.bytes|
    ensures CanReceive(session, h, piece)
  {
    if OpenFrames(Some(session), h.counter, h.encrypted + piece.data).Parsed? {
      HalfEmptyStreamIsSafe(piece.after);
    }
  }

  // ---- The channel ----

  /** What handling data throws; or that it never comes to an end. */
  datatype ChannelError = Decryption | BufferOverflow | BadMessage | NeverReturns

  /** The data reached the stream buffer. */
  predicate Accepted(r: Result<(), ChannelError>) {
    r.Ok? || r.error == BadMessage || r.error == NeverReturns
  }

  function ResultOf(ending: Ending): Result<(), ChannelError> {
    match ending
    case Finished => Ok(())
    case Threw => Err(BadMessage)
    case Hung => Err(NeverReturns)
  }

  class Channel {
    const plist: Plist
    const hapFrame: HapFrameLayer
    const streamBuffer: StreamBuffer
    var encryptedBuffer: Bytes
    var sendSeqno: nat
    /** What has been handed to the transport. */
    var sent: seq<Bytes>

    ghost predicate Valid()
      reads this, streamBuffer, streamBuffer.pool
    {
      streamBuffer.Valid() && streamBuffer.maxSize == MAX_SIZE
    }

    /** What the runs above are about. */
    ghost function State(outputs: seq<Output>): Receiver
      requires Valid()
      reads this, streamBuffer, streamBuffer.pool, streamBuffer.buffer, hapFrame.encryption
    {
      Receiver(encryptedBuffer, hapFrame.encryption.receiveNonce, streamBuffer.Snapshot(), outputs, false)
    }

    constructor (encryption: EncryptionLayer, plist: Plist, firstSeqno: nat)
      ensures Valid() && fresh(streamBuffer) && fresh(streamBuffer.Repr())
      ensures hapFrame.encryption == encryption && this.plist == plist
      ensures sendSeqno == firstSeqno && sent == [] && encryptedBuffer == []
      ensures streamBuffer.Contents() == []
    {
      hide DEFAULT_BUCKETS;
      this.plist := plist;
      hapFrame := new HapFrameLayer(encryption);
      var pool := new BufferPool(Config(DEFAULT_BUCKETS, 10, true));
      DoublingIsExact(pool);
      streamBuffer := new StreamBuffer(INITIAL_SIZE, MAX_SIZE, pool);
      encryptedBuffer := [];
      sendSeqno := firstSeqno;
      sent := [];
    }

    /**
     Fields that do not fit throw. The writer takes its buffer out of the pool of the stream buffer, which
     only holds whole buffers, and has room from the start.
     */
    method EncodeMessage(m: Message) returns (r: Result<Bytes, ReadError>)
      requires Valid() && |m.messageType| == TYPE_SIZE && |m.command| == COMMAND_SIZE
      modifies streamBuffer.pool, streamBuffer.pool.Memories()
      ensures Valid() && streamBuffer.Snapshot() == old(streamBuffer.Snapshot())
      ensures streamBuffer.pool.Memories() <= old(streamBuffer.pool.Memories())
      ensures r == if InRange(m) then Ok(DataStreams.EncodeMessage(m)) else Err(OutOfRange)
    {
      hide DataStreams.EncodeMessage, BE, MemoriesOf, Separate, Whole, LengthsOf, BucketSize, CapacitiesExact, RoomFor;
      Pow256Values();
      var writer := new BufferWriter(HEADER_SIZE + |m.payload|, streamBuffer.pool);
      if !InRange(m) {
        return Err(OutOfRange);
      }
      WriteFront(writer, m);
      WriteBack(writer, m);
      SameEncoding(m, writer.Contents());
      r := Ok(writer.Contents());
    }

    method SendProtobuf(protobuf: Bytes) returns (r: Result<(), ReadError>)
      requires Valid()
      modifies this`sendSeqno, this`sent, hapFrame.encryption`sendNonce, streamBuffer.pool, streamBuffer.pool.Memories()
      ensures Valid() && streamBuffer.Snapshot() == old(streamBuffer.Snapshot())
      ensures sendSeqno == old(sendSeqno) + 1
      ensures
        var m := SyncMessage(protobuf, old(sendSeqno), plist);
        && (r.Ok? <==> InRange(m))
        && sent == old(sent) + if r.Ok?
             then [SealFrames(hapFrame.encryption.CurrentSession(), old(hapFrame.encryption.sendNonce),
                 DataStreams.EncodeMessage(m))]
             else []
    {
      hide MemoriesOf, Separate, Whole;
      var batch := EncodeBatch([protobuf]);
      var m := Message(MSG_TYPE_SYNC, CMD_COMM, sendSeqno, 0, plist.encode(batch));
      sendSeqno := sendSeqno + 1;
      var encoded :- EncodeMessage(m);
      var encrypted := hapFrame.Encrypt(encoded);
      sent := sent + [encrypted];
      r := Ok(());
    }

    method SendReply(seqno: nat)
      requires Valid() && seqno < SEQNO_LIMIT
      modifies this`sent, hapFrame.encryption`sendNonce, streamBuffer.pool, streamBuffer.pool.Memories()
      ensures Valid() && streamBuffer.Snapshot() == old(streamBuffer.Snapshot())
      ensures streamBuffer.pool.Memories() <= old(streamBuffer.pool.Memories())
      ensures sent == old(sent) + SealedReplies(hapFrame.encryption.CurrentSession(),
          old(hapFrame.encryption.sendNonce), [seqno])
      ensures hapFrame.encryption.sendNonce == HapFrames.Next(hapFrame.encryption.CurrentSession(),
          old(hapFrame.encryption.sendNonce))
    {
      hide MemoriesOf, Separate, Whole;
      ReplyFits(seqno);
      var encoded := EncodeMessage(ReplyTo(seqno));
      var encrypted := hapFrame.Encrypt(encoded.value);
      sent := sent + [encrypted];
    }

    /** The message at the front, if it is complete; `None` inside is a read past its end. */
    method DecodeMessage() returns (r: Option<Option<Message>>)
      requires Valid()
      modifies streamBuffer`readPos, streamBuffer`writePos, streamBuffer.buffer
      ensures Valid() && streamBuffer.buffer == old(streamBuffer.buffer)
      ensures match Front(old(streamBuffer.Snapshot()).Contents())
              case None => r.None? && streamBuffer.Snapshot() == old(streamBuffer.Snapshot())
              case Some(size) =>
                && r == Some(DataStreams.DecodeMessage(old(streamBuffer.Snapshot()).Consumed(size)))
                && streamBuffer.Snapshot() == old(streamBuffer.Snapshot()).Consume(size)
    {
      hide DataStreams.DecodeMessage, Memory.Consume, Memory.Consumed;
      ghost var m := streamBuffer.Snapshot();
      assert m.Contents() == streamBuffer.Contents();
      var headerPeek := streamBuffer.Peek(HEADER_SIZE);
      if headerPeek.None? {
        return None;
      }
      var header := headerPeek.value.Bytes();
      assert header[..4] == m.Contents()[..4];
      var size := SizeOf(header);
      if streamBuffer.Available() < size {
        return None;
      }
      var messageData := streamBuffer.Consume(size);
      r := Some(DataStreams.DecodeMessage(messageData.value.Bytes()));
    }

    method HandlePayload(payload: Bytes) returns (r: Handled)
      ensures r == DataStreams.HandlePayload(payload, plist.decode)
    {
      if payload == [] {
        return Done([]);
      }
      match plist.decode(payload)
      case Missing => r := Done([]);
      case NoBytes => r := Stuck(Threw);
      case Data(data) =>
        var messages := DecodeBatch(data);
        r := if messages.Some? then Done(Protobufs(messages.value)) else Stuck(Hung);
    }

    /** What a message puts out; a reply is sealed and handed over on the spot. */
    method HandleMessage(m: Message) returns (r: Handled)
      requires Valid() && m.seqno < SEQNO_LIMIT
      modifies this`sent, hapFrame.encryption`sendNonce, streamBuffer.pool, streamBuffer.pool.Memories()
      ensures Valid() && streamBuffer.Snapshot() == old(streamBuffer.Snapshot())
      ensures streamBuffer.pool.Memories() <= old(streamBuffer.pool.Memories())
      ensures r == Handle(m, plist.decode)
      ensures
        var session, counter := hapFrame.encryption.CurrentSession(), old(hapFrame.encryption.sendNonce);
        var replies := Replies(Outputs(m, plist.decode));
        && sent == old(sent) + SealedReplies(session, counter, replies)
        && hapFrame.encryption.sendNonce == CounterAfter(session, counter, |replies|)
    {
      hide DataStreams.HandlePayload, Replies;
      RepliesOfOne(m, plist.decode);
      if m.messageType == MSG_TYPE_REPLY {
        assert m.messageType[0] != SYNC_TAG[0];
        return Done([]);
      }
      r := HandlePayload(m.payload);
      if r.Stuck? {
        return;
      }
      if SYNC_TAG <= m.messageType {
        SendReply(m.seqno);
        r := Done(r.outputs + [Reply(m.seqno)]);
      } else {
        assert r.outputs + [] == r.outputs;
      }
    }

    method ProcessStream() returns (outputs: seq<Output>, ending: Ending)
      requires Valid()
      modifies streamBuffer`readPos, streamBuffer`writePos, streamBuffer.buffer, this`sent,
          hapFrame.encryption`sendNonce
      modifies streamBuffer.pool, streamBuffer.pool.Memories()
      ensures Valid() && streamBuffer.buffer == old(streamBuffer.buffer)
      ensures Processed(outputs, streamBuffer.Snapshot(), ending)
           == DataStreams.ProcessStream(old(streamBuffer.Snapshot()), plist.decode)
      ensures
        var session, counter := hapFrame.encryption.CurrentSession(), old(hapFrame.encryption.sendNonce);
        sent == old(sent) + SealedReplies(session, counter, Replies(outputs))
    {
      hide DataStreams.ProcessStream, DataStreams.DecodeMessage, Handle, Front, SealedReplies, Replies;
      hide Memory.Consume, Memory.Consumed, Memory.Contents, MemoriesOf, Separate, Whole;
      outputs, ending := [], Finished;
      ghost var session, counter := hapFrame.encryption.CurrentSession(), hapFrame.encryption.sendNonce;
      ghost var whole := DataStreams.ProcessStream(streamBuffer.Snapshot(), plist.decode);
      Nothing(session, counter, whole);
      var go := true;
      while go
        invariant Valid() && streamBuffer.buffer == old(streamBuffer.buffer)
        invariant streamBuffer.pool.Memories() <= old(streamBuffer.pool.Memories())
        invariant hapFrame.encryption.CurrentSession() == session
        invariant hapFrame.encryption.sendNonce == CounterAfter(session, counter, |Replies(outputs)|)
        invariant whole == (if go
                            then DataStreams.ProcessStream(streamBuffer.Snapshot(), plist.decode)
                            else Processed([], streamBuffer.Snapshot(), ending)).After(outputs)
        invariant go ==> ending == Finished
        invariant sent == old(sent) + SealedReplies(session, counter, Replies(outputs))
        decreases streamBuffer.Available(), go
      {
        ghost var before := streamBuffer.Snapshot();
        ProcessStep(before, plist.decode, outputs);
        var message := DecodeMessage();
        if message.None? {
          go := false;
        } else if message.value.None? {
          go, ending := false, Threw;
        } else {
          SeqnoFits(before.Consumed(Front(before.Contents()).value));
          ghost var earlier := outputs;
          ghost var more := Outputs(message.value.value, plist.decode);
          var handled := HandleMessage(message.value.value);
          if handled.Done? {
            outputs := outputs + handled.outputs;
            SealedMore(session, counter, earlier, more, old(sent));
          } else {
            NothingMore(session, counter, outputs, more, old(sent));
            go, ending := false, handled.ending;
          }
        }
      }
      assert outputs + [] == outputs;
    }

    /** A piece of data from the transport. */
    method HandleData(data: Bytes) returns (outputs: seq<Output>, r: Result<(), ChannelError>, ghost after: Memory)
      requires Valid()
      modifies this`encryptedBuffer, this`sent, streamBuffer.Repr()
      modifies hapFrame.encryption`sendNonce, hapFrame.encryption`receiveNonce, hapFrame.encryption`state
      ensures Valid()
      ensures Accepted(r) ==>
                && after.Valid()
                && var p := DataStreams.ProcessStream(after, plist.decode);
                   outputs == p.outputs && streamBuffer.Snapshot() == p.memory && r == ResultOf(p.ending)
      ensures old(hapFrame.encryption.state) != Enabled ==>
                && encryptedBuffer == old(encryptedBuffer)
                && (Accepted(r) ==> Appended(old(streamBuffer.Snapshot()), data, after))
                && (r == Err(BufferOverflow) <==> |old(streamBuffer.Contents())| + |data| > 1048576)
      ensures old(hapFrame.encryption.state) == Enabled ==>
                match old(OpenFrames(hapFrame.encryption.CurrentSession(), hapFrame.encryption.receiveNonce,
                    encryptedBuffer + data))
                case Failed(_) => r == Err(Decryption) && encryptedBuffer == old(encryptedBuffer) + data
                case Parsed(plain, rest, counter) =>
                  && encryptedBuffer == rest && hapFrame.encryption.receiveNonce == counter
                  && (Accepted(r) ==> Appended(old(streamBuffer.Snapshot()), plain, after))
                  && (r == Err(BufferOverflow) <==> |old(streamBuffer.Contents())| + |plain| > 1048576)
      ensures
        var replies := SealedReplies(old(hapFrame.encryption.CurrentSession()), old(hapFrame.encryption.sendNonce),
            Replies(outputs));
        Accepted(r) ==> sent == old(sent) + replies
      ensures Accepted(r) && old(hapFrame.encryption.CurrentSession()).Some? && SafeStream(after) ==>
                var session := old(hapFrame.encryption.CurrentSession()).value;
                var reached := State(outputs).(hung := r == Err(NeverReturns));
                Receives(session, plist.decode, old(State([])), Piece(data, after), reached)
      ensures !Accepted(r) ==>
                outputs == [] && sent == old(sent) && streamBuffer.Contents() == old(streamBuffer.Contents())
    {
      hide OpenFrames, DataStreams.ProcessStream, Appended, Room, SealedReplies, Replies, SafeStream;
      outputs := [];
      var opening := Open(data);
      if opening.Err? {
        after := streamBuffer.Snapshot();
        return [], Err(Decryption), after;
      }
      outputs, r, after := HandlePlain(opening.value, hapFrame.encryption.state == Enabled);
    }

    method HandlePlain(plain: Bytes, decrypted: bool)
        returns (outputs: seq<Output>, r: Result<(), ChannelError>, ghost after: Memory)
      requires Valid()
      modifies this`sent, streamBuffer.Repr(), hapFrame.encryption`sendNonce
      ensures Valid() && r != Err(Decryption)
      ensures r == Err(BufferOverflow) <==> |old(streamBuffer.Contents())| + |plain| > 1048576
      ensures Accepted(r) ==>
                && Appended(old(streamBuffer.Snapshot()), plain, after) && after.Valid()
                && var p := DataStreams.ProcessStream(after, plist.decode);
                   outputs == p.outputs && streamBuffer.Snapshot() == p.memory && r == ResultOf(p.ending)
      ensures
        var replies := SealedReplies(hapFrame.encryption.CurrentSession(), old(hapFrame.encryption.sendNonce),
            Replies(outputs));
        Accepted(r) ==> sent == old(sent) + replies
      ensures !Accepted(r) ==>
                outputs == [] && sent == old(sent) && streamBuffer.Contents() == old(streamBuffer.Contents())
    {
      hide DataStreams.ProcessStream, Appended, Room, SealedReplies, Replies;
      var appended := AppendPlain(plain, decrypted);
      after := streamBuffer.Snapshot();
      if appended.Err? {
        return [], Err(BufferOverflow), after;
      }
      var ending;
      outputs, ending := ProcessStream();
      r := ResultOf(ending);
    }

    /** The plaintext that a piece of data completes; without encryption, the data itself. */
    method Open(data: Bytes) returns (r: Result<Bytes, ChannelError>)
      modifies this`encryptedBuffer, hapFrame.encryption`receiveNonce, hapFrame.encryption`state
      ensures old(hapFrame.encryption.state) != Enabled ==>
                r == Ok(data) && encryptedBuffer == old(encryptedBuffer)
      ensures old(hapFrame.encryption.state) == Enabled ==>
                match old(OpenFrames(hapFrame.encryption.CurrentSession(), hapFrame.encryption.receiveNonce,
                    encryptedBuffer + data))
                case Failed(_) => r == Err(Decryption) && encryptedBuffer == old(encryptedBuffer) + data
                case Parsed(plain, rest, counter) =>
                  r == Ok(plain) && encryptedBuffer == rest && hapFrame.encryption.receiveNonce == counter
      ensures r.Ok? ==> hapFrame.encryption.state == old(hapFrame.encryption.state)
    {
      hide OpenFrames;
      if hapFrame.encryption.state != Enabled {
        return Ok(data);
      }
      encryptedBuffer := encryptedBuffer + data;
      var decrypted := hapFrame.Decrypt(encryptedBuffer);
      if decrypted.Err? {
        return Err(Decryption);
      }
      encryptedBuffer := decrypted.value.1;
      r := Ok(decrypted.value.0);
    }

    /** Decrypted data is only appended if there is any. */
    method AppendPlain(plain: Bytes, decrypted: bool) returns (r: Result<(), StreamError>)
      requires Valid()
      modifies streamBuffer.Repr()
      ensures Valid() && fresh(streamBuffer.Repr() - old(streamBuffer.Repr()))
      ensures r.Ok? ==> Appended(old(streamBuffer.Snapshot()), plain, streamBuffer.Snapshot())
      ensures r.Err? <==> |old(streamBuffer.Contents())| + |plain| > 1048576
      ensures r.Err? ==> streamBuffer.Contents() == old(streamBuffer.Contents())
    {
      ghost var m := streamBuffer.Snapshot();
      assert m.Contents() == streamBuffer.Contents();
      if decrypted && plain == [] {
        ContentsWithinLimit(m, streamBuffer);
        return Ok(());
      }
      r := streamBuffer.Append(plain);
      assert streamBuffer.Snapshot().Contents() == streamBuffer.Contents();
    }
  }

  lemma ContentsWithinLimit(m: Memory, streamBuffer: StreamBuffer)
    requires streamBuffer.Valid() && streamBuffer.maxSize == MAX_SIZE && m == streamBuffer.Snapshot()
    ensures Appended(m, [], m)
  {
    assert m.Contents() + [] == m.Contents();
  }

  method WriteFront(writer: BufferWriter, m: Message)
    requires writer.Valid() && writer.offset == 0 && writer.buffer.length == HEADER_SIZE + |m.payload|
    requires Fits(m)
    modifies writer`buffer, writer`offset, writer.pool, writer.Memories()
    ensures writer.Valid() && writer.buffer == old(writer.buffer) && writer.offset == 20
    ensures writer.pool != null ==> writer.pool.pools == old(writer.pool.pools)
    ensures writer.Contents() == BE(HEADER_SIZE + |m.payload|, 4) + m.messageType + m.command
  {
    hide BE, MemoriesOf, Separate, Whole, LengthsOf, BucketSize, RoomFor, Written;
    Pow256Values();
    var ok := writer.WriteUIntBE(HEADER_SIZE + |m.payload|, 4);
    writer.WriteBuffer(m.messageType);
    writer.WriteBuffer(m.command);
  }

  method WriteBack(writer: BufferWriter, m: Message)
    requires writer.Valid() && writer.offset == 20 && writer.buffer.length == HEADER_SIZE + |m.payload|
    requires Fits(m)
    modifies writer`buffer, writer`offset, writer.pool, writer.Memories()
    ensures writer.Valid() && writer.buffer == old(writer.buffer)
    ensures writer.pool != null ==> writer.pool.pools == old(writer.pool.pools)
    ensures writer.Contents() == old(writer.Contents()) + BE(m.seqno / WORD, 4) + BE(m.seqno % WORD, 4)
        + BE(m.padding, 4) + m.payload
  {
    hide BE, MemoriesOf, Separate, Whole, LengthsOf, BucketSize, RoomFor, Written;
    Pow256Values();
    var ok := writer.WriteUIntBE(m.seqno / WORD, 4);
    ok := writer.WriteUIntBE(m.seqno % WORD, 4);
    ok := writer.WriteUIntBE(m.padding, 4);
    writer.WriteBuffer(m.payload);
  }

  lemma SameEncoding(m: Message, contents: Bytes)
    requires contents ==
      BE(HEADER_SIZE + |m.payload|, 4) + m.messageType + m.command
      + BE(m.seqno / WORD, 4) + BE(m.seqno % WORD, 4) + BE(m.padding, 4) + m.payload
    ensures contents == EncodeMessage(m)
  {
    hide BE;
  }

  // ---- The loop of `processStream` ----

  function CounterAfter(session: Option<Session>, counter: nat, replies: nat): nat {
    if session.Some? then counter + replies else counter
  }

  lemma Nothing(session: Option<Session>, counter: nat, whole: Processed)
    ensures whole.After([]) == whole
    ensures Replies([]) == [] && SealedReplies(session, counter, Replies([])) == []
  {
    assert [] + whole.outputs == whole.outputs;
  }

  lemma SeqnoFits(data: Bytes)
    ensures
      var m := DataStreams.DecodeMessage(data);
      m.Some? ==> m.value.seqno < SEQNO_LIMIT
  {
    if |data| >= HEADER_SIZE {
      Pow256Values();
      BEBound(data[20..24]);
      BEBound(data[24..28]);
    }
  }

  lemma ProcessStep(m: Memory, plist: PlistDecoder, done: seq<Output>)
    requires m.Valid()
    ensures
      var whole := DataStreams.ProcessStream(m, plist).After(done);
      match Front(m.Contents())
      case None => whole == Processed(done, m, Finished)
      case Some(size) =>
        match DataStreams.DecodeMessage(m.Consumed(size))
        case None => whole == Processed(done, m.Consume(size), Threw)
        case Some(message) =>
          && |m.Consume(size).Contents()| < |m.Contents()|
          && match Handle(message, plist)
             case Stuck(ending) => whole == Processed(done, m.Consume(size), ending)
             case Done(outputs) => whole == DataStreams.ProcessStream(m.Consume(size), plist).After(done + outputs)
  {
    hide Handle, DataStreams.DecodeMessage, Memory.Consume, Memory.Consumed, DataStreams.ProcessStream, Front;
    assert done + [] == done;
    OneMessage(m, plist);
    match Front(m.Contents())
    case None =>
    case Some(size) =>
      TooShort(m.Consumed(size));
      match Received(m.Consumed(size), plist)
      case Stuck(_) =>
      case Done(outputs) =>
        var more := DataStreams.ProcessStream(m.Consume(size), plist).outputs;
        assert done + (outputs + more) == (done + outputs) + more;
  }

  lemma OneMessage(m: Memory, plist: PlistDecoder)
    requires m.Valid()
    ensures DataStreams.ProcessStream(m, plist) ==
      match Front(m.Contents())
      case None => Processed([], m, Finished)
      case Some(size) =>
        match Received(m.Consumed(size), plist)
        case Stuck(ending) => Processed([], m.Consume(size), ending)
        case Done(outputs) => DataStreams.ProcessStream(m.Consume(size), plist).After(outputs)
  {
    hide Received, Memory.Consume, Memory.Consumed;
  }

  /** A message that is not handled to its end has no reply. */
  lemma NothingMore(session: Option<Session>, counter: nat, outputs: seq<Output>, more: seq<Output>, sent: seq<Bytes>)
    requires more == []
    ensures
      && Replies(more) == []
      && CounterAfter(session, CounterAfter(session, counter, |Replies(outputs)|), |Replies(more)|)
         == CounterAfter(session, counter, |Replies(outputs)|)
      && sent + SealedReplies(session, CounterAfter(session, counter, |Replies(outputs)|), Replies(more)) == sent
  {
  }

  lemma {:induction false} SealedAppend(session: Option<Session>, counter: nat, a: seq<nat>, b: seq<nat>)
    ensures SealedReplies(session, counter, a + b)
         == SealedReplies(session, counter, a) + SealedReplies(session, CounterAfter(session, counter, |a|), b)
    decreases |a|
  {
    hide SealFrames, DataStreams.EncodeMessage, SealedReplies;
    SealedCons(session, counter, a + b);
    SealedCons(session, counter, a);
    if a == [] {
      assert a + b == b;
    } else {
      SealedAppend(session, HapFrames.Next(session, counter), a[1..], b);
      assert (a + b)[1..] == a[1..] + b;
    }
  }

  lemma SealedCons(session: Option<Session>, counter: nat, seqnos: seq<nat>)
    ensures SealedReplies(session, counter, seqnos) ==
      if seqnos == [] then []
      else [SealFrames(session, counter, EncodeMessage(ReplyTo(seqnos[0])))]
           + SealedReplies(session, HapFrames.Next(session, counter), seqnos[1..])
  {
  }

  lemma SealedMore(session: Option<Session>, counter: nat, earlier: seq<Output>, more: seq<Output>, sent: seq<Bytes>)
    ensures |Replies(earlier + more)| == |Replies(earlier)| + |Replies(more)|
    ensures sent + SealedReplies(session, counter, Replies(earlier))
            + SealedReplies(session, CounterAfter(session, counter, |Replies(earlier)|), Replies(more))
         == sent + SealedReplies(session, counter, Replies(earlier + more))
  {
    hide SealedReplies, Replies;
    RepliesAppend(earlier, more);
    SealedAppend(session, counter, Replies(earlier), Replies(more));
  }
}
