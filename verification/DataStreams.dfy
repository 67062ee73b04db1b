/**
 Messages of the AirPlay data stream: their header, and how a stream of them is parsed out of a
 stream buffer (src/protocols/airplay/layers/DataStreamChannel.ts, lines 166-191 and 238-354).
 */
module DataStreams {
  import opened Results
  import opened ByteStrings
  import opened Streams
  import opened StreamBuffers
  import opened ProtobufBatches

  const HEADER_SIZE: nat := 32
  const SEQNO_LIMIT: nat := 0x1_0000_0000_0000_0000
  const TYPE_SIZE: nat := 12
  const COMMAND_SIZE: nat := 4

  const SYNC_TAG: Bytes := [0x73, 0x79, 0x6e, 0x63]
  const MSG_TYPE_SYNC: Bytes := SYNC_TAG + Zeros(8)
  const MSG_TYPE_REPLY: Bytes := [0x72, 0x70, 0x6c, 0x79] + Zeros(8)
  const CMD_COMM: Bytes := [0x63, 0x6f, 0x6d, 0x6d]
  const CMD_EMPTY: Bytes := Zeros(COMMAND_SIZE)

  datatype Message = Message(messageType: Bytes, command: Bytes, seqno: nat, padding: nat, payload: Bytes)

  /** The fields a header has room for. */
  predicate Fits(m: Message) {
    && |m.messageType| == TYPE_SIZE && |m.command| == COMMAND_SIZE
    && InRange(m)
  }

  predicate InRange(m: Message) {
    m.seqno < SEQNO_LIMIT && m.padding < WORD && HEADER_SIZE + |m.payload| < WORD
  }

  // ---- The header ----

  function EncodeMessage(m: Message): Bytes {
    BE(HEADER_SIZE + |m.payload|, 4) + m.messageType + m.command
    + BE(m.seqno / WORD, 4) + BE(m.seqno % WORD, 4) + BE(m.padding, 4) + m.payload
  }

  function SizeOf(header: Bytes): nat
    requires |header| >= 4
  {
    FromBE(header[..4])
  }

  /** Reading past the end throws; the size is not looked at again. */
  function DecodeMessage(data: Bytes): (r: Option<Message>)
    ensures r.Some? ==> |r.value.messageType| == TYPE_SIZE
  {
    if |data| < HEADER_SIZE then None
    else
      Some(Message(data[4..16], data[16..20], FromBE(data[20..24]) * WORD + FromBE(data[24..28]),
                   FromBE(data[28..32]), data[HEADER_SIZE..]))
  }

  lemma WordRoundTrip(n: nat)
    requires n < WORD
    ensures FromBE(BE(n, 4)) == n
  {
    Pow256Values();
    BERoundTrip(n, 4);
  }

  lemma DecodeEncoded(m: Message)
    requires Fits(m)
    ensures DecodeMessage(EncodeMessage(m)) == Some(m)
    ensures SizeOf(EncodeMessage(m)) == |EncodeMessage(m)| == HEADER_SIZE + |m.payload|
  {
    hide BE, FromBE;
    WordRoundTrip(HEADER_SIZE + |m.payload|);
    WordRoundTrip(m.seqno / WORD);
    WordRoundTrip(m.seqno % WORD);
    WordRoundTrip(m.padding);
    var data := EncodeMessage(m);
    assert data[..4] == BE(HEADER_SIZE + |m.payload|, 4);
    assert data[4..16] == m.messageType && data[16..20] == m.command;
    assert data[20..24] == BE(m.seqno / WORD, 4) && data[24..28] == BE(m.seqno % WORD, 4);
    assert data[28..32] == BE(m.padding, 4) && data[32..] == m.payload;
  }

  /** A message, byte for byte: all numbers most significant byte first. */
  lemma MessageBytes(m: Message)
    requires Fits(m)
    ensures
      var d := EncodeMessage(m);
      && |d| == 32 + |m.payload|
      && FromBE(d[..4]) == |d| && d[4..16] == m.messageType && d[16..20] == m.command
      && FromBE(d[20..24]) * 0x1_0000_0000 + FromBE(d[24..28]) == m.seqno
      && FromBE(d[28..32]) == m.padding && d[32..] == m.payload
  {
    hide BE, FromBE;
    WordRoundTrip(HEADER_SIZE + |m.payload|);
    WordRoundTrip(m.seqno / WORD);
    WordRoundTrip(m.seqno % WORD);
    WordRoundTrip(m.padding);
    var d := EncodeMessage(m);
    assert d[..4] == BE(HEADER_SIZE + |m.payload|, 4);
    assert d[20..24] == BE(m.seqno / WORD, 4) && d[24..28] == BE(m.seqno % WORD, 4);
    assert d[28..32] == BE(m.padding, 4);
  }

  /** Every message whose size field is right is the encoding of what it decodes to. */
  lemma EncodeDecoded(data: Bytes)
    requires |data| >= HEADER_SIZE && SizeOf(data) == |data|
    ensures DecodeMessage(data).Some? && Fits(DecodeMessage(data).value)
    ensures EncodeMessage(DecodeMessage(data).value) == data
  {
    hide BE, FromBE;
    Pow256Values();
    BEBound(data[..4]);
    BEBound(data[20..24]);
    BEBound(data[24..28]);
    BEBound(data[28..32]);
    var m := DecodeMessage(data).value;
    var high, low := FromBE(data[20..24]), FromBE(data[24..28]);
    assert m.seqno / WORD == high && m.seqno % WORD == low;
    BEOfFromBE(data[..4]);
    BEOfFromBE(data[20..24]);
    BEOfFromBE(data[24..28]);
    BEOfFromBE(data[28..32]);
    assert data == data[..4] + data[4..16] + data[16..20] + data[20..24] + data[24..28] + data[28..32] + data[32..];
  }

  // ---- What a message does ----

  /** `params.data` of a property list: what bytes can be made of, something that throws, or nothing. */
  datatype Params = Missing | NoBytes | Data(data: Bytes)

  type PlistDecoder = Bytes -> Params

  datatype Output = Protobuf(data: Bytes) | Reply(seqno: nat)

  /** How a pass ends: by itself, by an exception, or never. */
  datatype Ending = Finished | Threw | Hung

  /** What handling one message comes to. */
  datatype Handled = Done(outputs: seq<Output>) | Stuck(ending: Ending)

  function Protobufs(messages: seq<Bytes>): seq<Output> {
    seq(|messages|, i requires 0 <= i < |messages| => Protobuf(messages[i]))
  }

  function HandlePayload(payload: Bytes, plist: PlistDecoder): (r: Handled)
    ensures r.Stuck? ==> r.ending != Finished
  {
    if payload == [] then Done([])
    else
      match plist(payload)
      case Missing => Done([])
      case NoBytes => Stuck(Threw)
      case Data(data) =>
        match DecodeProtobufs(data)
        case None => Stuck(Hung)
        case Some(messages) => Done(Protobufs(messages))
  }

  predicate IsSync(messageType: Bytes) {
    SYNC_TAG <= messageType
  }

  function Handle(m: Message, plist: PlistDecoder): (r: Handled)
    ensures r.Stuck? ==> r.ending != Finished
  {
    if m.messageType == MSG_TYPE_REPLY then Done([])
    else
      match HandlePayload(m.payload, plist)
      case Stuck(ending) => Stuck(ending)
      case Done(outputs) => Done(outputs + if IsSync(m.messageType) then [Reply(m.seqno)] else [])
  }

  /** Handling it ends, and ends well. */
  predicate Returns(m: Message, plist: PlistDecoder) {
    Handle(m, plist).Done?
  }

  function Outputs(m: Message, plist: PlistDecoder): seq<Output> {
    if Returns(m, plist) then Handle(m, plist).outputs else []
  }

  /** A message as it is read; reading past its end throws. */
  function Received(data: Bytes, plist: PlistDecoder): (r: Handled)
    ensures r.Stuck? ==> r.ending != Finished
    ensures r.Done? ==> |data| >= HEADER_SIZE
  {
    match DecodeMessage(data)
    case None => Stuck(Threw)
    case Some(m) => Handle(m, plist)
  }

  // ---- A stream of messages, as it is meant ----

  /** Size of the message at the front, if it is complete. */
  function Front(contents: Bytes): (r: Option<nat>)
    ensures r.Some? ==> |contents| >= HEADER_SIZE && r.value <= |contents|
  {
    if |contents| < HEADER_SIZE || |contents| < SizeOf(contents) then None else Some(SizeOf(contents))
  }

  datatype Pass = Pass(outputs: seq<Output>, rest: Bytes, ending: Ending) {

    /** The pass, with what was put out before it. */
    function After(earlier: seq<Output>): Pass {
      this.(outputs := earlier + outputs)
    }
  }

  function ScanStream(contents: Bytes, plist: PlistDecoder): Pass
    decreases |contents|
  {
    match Front(contents)
    case None => Pass([], contents, Finished)
    case Some(size) =>
      match Received(contents[..size], plist)
      case Stuck(ending) => Pass([], contents[size..], ending)
      case Done(outputs) => ScanStream(contents[size..], plist).After(outputs)
  }

  lemma TooShort(data: Bytes)
    ensures DecodeMessage(data).None? <==> |data| < HEADER_SIZE
  {
  }

  function StreamParser(plist: PlistDecoder): Parser<Output, ()> {
    (state: (), input: Bytes) =>
      var pass := ScanStream(input, plist);
      if pass.ending == Finished then Parsed(pass.outputs, pass.rest, state) else Failed(state)
  }

  lemma FrontMore(first: Bytes, more: Bytes)
    requires Front(first).Some?
    ensures Front(first + more) == Front(first)
    ensures (first + more)[..Front(first).value] == first[..Front(first).value]
    ensures (first + more)[Front(first).value..] == first[Front(first).value..] + more
  {
    assert (first + more)[..4] == first[..4];
  }

  /** A pass over more bytes goes on where the pass over the first ones was, if that came to its end. */
  lemma {:induction false} ScanMore(first: Bytes, more: Bytes, plist: PlistDecoder)
    ensures
      var p := ScanStream(first, plist);
      ScanStream(first + more, plist)
      == if p.ending == Finished then ScanStream(p.rest + more, plist).After(p.outputs) else p.(rest := p.rest + more)
    decreases |first|
  {
    hide Front, Received, ScanStream;
    ScanStep(first, plist);
    match Front(first)
    case None => assert [] + ScanStream(first + more, plist).outputs == ScanStream(first + more, plist).outputs;
    case Some(size) =>
      FrontMore(first, more);
      ScanStep(first + more, plist);
      match Received(first[..size], plist)
      case Stuck(_) =>
      case Done(outputs) =>
        ScanMore(first[size..], more, plist);
        var p := ScanStream(first[size..], plist);
        PassAfterTwice(ScanStream(p.rest + more, plist), outputs, p.outputs);
  }

  lemma ScanStep(contents: Bytes, plist: PlistDecoder)
    ensures ScanStream(contents, plist) ==
      match Front(contents)
      case None => Pass([], contents, Finished)
      case Some(size) =>
        match Received(contents[..size], plist)
        case Stuck(ending) => Pass([], contents[size..], ending)
        case Done(outputs) => ScanStream(contents[size..], plist).After(outputs)
  {
  }

  /** Less than a header, or less than the size field says, waits; a size less than a header's throws. */
  lemma LookAtFront(contents: Bytes, plist: PlistDecoder)
    ensures
      |contents| < 32 || |contents| < FromBE(contents[..4]) ==>
        ScanStream(contents, plist) == Pass([], contents, Finished)
    ensures
      |contents| >= 32 && FromBE(contents[..4]) < 32 ==>
        ScanStream(contents, plist) == Pass([], contents[FromBE(contents[..4])..], Threw)
    ensures
      |contents| >= 32 && 32 <= FromBE(contents[..4]) <= |contents| ==>
        var size := FromBE(contents[..4]);
        var m := Message(contents[4..16], contents[16..20],
                         FromBE(contents[20..24]) * 0x1_0000_0000 + FromBE(contents[24..28]),
                         FromBE(contents[28..32]), contents[32..size]);
        match Handle(m, plist)
        case Stuck(ending) => ScanStream(contents, plist) == Pass([], contents[size..], ending)
        case Done(outputs) => ScanStream(contents, plist) == ScanStream(contents[size..], plist).After(outputs)
  {
    hide ScanStream, Handle, DecodeMessage, Front, FromBE;
    ScanStep(contents, plist);
    FrontIs(contents);
    if |contents| >= 32 && FromBE(contents[..4]) <= |contents| {
      var size := FromBE(contents[..4]);
      TooShort(contents[..size]);
      if size >= 32 {
        FieldsAre(contents, size);
      }
    }
  }

  lemma FrontIs(contents: Bytes)
    ensures Front(contents) == if |contents| < 32 || |contents| < FromBE(contents[..4]) then None
                               else Some(FromBE(contents[..4]))
  {
  }

  lemma FieldsAre(contents: Bytes, size: nat)
    requires 32 <= size <= |contents|
    ensures
      DecodeMessage(contents[..size]) ==
        Some(Message(contents[4..16], contents[16..20],
                     FromBE(contents[20..24]) * 0x1_0000_0000 + FromBE(contents[24..28]),
                     FromBE(contents[28..32]), contents[32..size]))
  {
    hide FromBE;
    var data := contents[..size];
    assert data[4..16] == contents[4..16] && data[16..20] == contents[16..20];
    assert data[20..24] == contents[20..24] && data[24..28] == contents[24..28];
    assert data[28..32] == contents[28..32] && data[32..] == contents[32..size];
  }

  lemma PassAfterTwice(p: Pass, a: seq<Output>, b: seq<Output>)
    ensures p.After(b).After(a) == p.After(a + b)
  {
    assert a + (b + p.outputs) == (a + b) + p.outputs;
  }

  lemma StreamParserIsIncremental(plist: PlistDecoder)
    ensures Incremental<Output, ()>(StreamParser(plist))
  {
    hide ScanStream;
    forall state: (), first, more ensures Continues<Output, ()>(StreamParser(plist), state, first, more) {
      ScanMore(first, more, plist);
    }
  }

  function EncodeAll(messages: seq<Message>): Bytes {
    if messages == [] then [] else EncodeMessage(messages[0]) + EncodeAll(messages[1..])
  }

  function AllOutputs(messages: seq<Message>, plist: PlistDecoder): seq<Output> {
    if messages == [] then [] else Outputs(messages[0], plist) + AllOutputs(messages[1..], plist)
  }

  /** The messages before the first whose handling does not return. */
  function Served(messages: seq<Message>, plist: PlistDecoder): (r: seq<Message>)
    ensures r <= messages
  {
    if messages == [] || !Returns(messages[0], plist) then [] else [messages[0]] + Served(messages[1..], plist)
  }

  /** A pass over whole messages: up to the first whose handling does not return. */
  function ScanMessages(messages: seq<Message>, plist: PlistDecoder): Pass {
    var served := Served(messages, plist);
    var k := |served|;
    if k == |messages| then Pass(AllOutputs(served, plist), [], Finished)
    else Pass(AllOutputs(served, plist), EncodeAll(messages[k + 1..]), EndingAt(messages[k], plist))
  }

  function EndingAt(m: Message, plist: PlistDecoder): Ending {
    match Handle(m, plist)
    case Done(_) => Finished
    case Stuck(ending) => ending
  }

  lemma {:induction false} ServedMeans(messages: seq<Message>, plist: PlistDecoder)
    ensures forall m | m in Served(messages, plist) :: Returns(m, plist)
    ensures |Served(messages, plist)| < |messages| ==> !Returns(messages[|Served(messages, plist)|], plist)
    ensures Served(messages, plist) == messages <==> forall m | m in messages :: Returns(m, plist)
  {
    hide Returns;
    if messages != [] {
      ServedMeans(messages[1..], plist);
      assert messages == [messages[0]] + messages[1..];
      assert messages[0] in messages && forall m | m in messages[1..] :: m in messages;
    }
  }

  lemma {:induction false} ScanEncoded(messages: seq<Message>, plist: PlistDecoder)
    requires forall m | m in messages :: Fits(m)
    ensures ScanStream(EncodeAll(messages), plist) == ScanMessages(messages, plist)
  {
    hide EncodeMessage, Handle, SizeOf, DecodeMessage, ScanMessages, Fits;
    if messages == [] {
      NothingToScan(plist);
    } else {
      var m, rest := messages[0], messages[1..];
      assert m in messages && forall r | r in rest :: r in messages;
      DecodeEncoded(m);
      ScanEncoded(rest, plist);
      ScanMessagesStep(messages, plist);
      FrontMoreOfWhole(EncodeMessage(m), EncodeAll(rest));
    }
  }

  lemma NothingToScan(plist: PlistDecoder)
    ensures ScanStream([], plist) == Pass([], [], Finished) == ScanMessages([], plist)
  {
  }

  lemma ScanMessagesStep(messages: seq<Message>, plist: PlistDecoder)
    requires messages != []
    ensures ScanMessages(messages, plist) ==
      match Handle(messages[0], plist)
      case Stuck(ending) => Pass([], EncodeAll(messages[1..]), ending)
      case Done(outputs) => ScanMessages(messages[1..], plist).After(outputs)
  {
    hide Handle, EncodeAll;
    if Returns(messages[0], plist) {
      var served := Served(messages[1..], plist);
      assert ([messages[0]] + served)[1..] == served;
      assert messages[1..][|served|..] == messages[|served| + 1..];
      if |served| < |messages| - 1 {
        assert messages[1..][|served|] == messages[|served| + 1];
        assert messages[1..][|served| + 1..] == messages[|served| + 2..];
      }
    }
  }

  lemma FrontMoreOfWhole(data: Bytes, more: Bytes)
    requires |data| >= HEADER_SIZE && SizeOf(data) == |data|
    ensures Front(data + more) == Some(|data|)
    ensures (data + more)[..|data|] == data && (data + more)[|data|..] == more
  {
    assert data[..|data|] == data && data[|data|..] + more == more;
    FrontMore(data, more);
  }

  /** Any cut of any list of messages that can be handled has the outputs of the messages one by one. */
  lemma CutMessages(messages: seq<Message>, pieces: seq<Bytes>, plist: PlistDecoder)
    requires forall m | m in messages :: Fits(m) && Returns(m, plist)
    requires Flatten(pieces) == EncodeAll(messages)
    ensures FeedAll<Output, ()>(StreamParser(plist), Parsed([], [], ()), pieces)
         == Parsed(AllOutputs(messages, plist), [], ())
  {
    hide ScanStream, AllOutputs, Served, Returns, EncodeAll, Flatten, FeedAll;
    StreamParserIsIncremental(plist);
    ScanEncoded(messages, plist);
    ServedMeans(messages, plist);
    NothingToScan(plist);
    FedFromStart<Output, ()>(StreamParser(plist), (), pieces);
  }

  // ---- One reply for every sync ----

  function Replies(outputs: seq<Output>): seq<nat> {
    if outputs == [] then []
    else (if outputs[0].Reply? then [outputs[0].seqno] else []) + Replies(outputs[1..])
  }

  function SyncSeqnos(messages: seq<Message>): seq<nat> {
    if messages == [] then []
    else (if IsSync(messages[0].messageType) then [messages[0].seqno] else []) + SyncSeqnos(messages[1..])
  }

  lemma {:induction false} RepliesAppend(a: seq<Output>, b: seq<Output>)
    ensures Replies(a + b) == Replies(a) + Replies(b)
  {
    hide Replies;
    if a == [] {
      RepliesFirst(a);
      assert a + b == b && [] + Replies(b) == Replies(b);
    } else {
      var first := if a[0].Reply? then [a[0].seqno] else [];
      assert (a + b)[1..] == a[1..] + b;
      RepliesAppend(a[1..], b);
      RepliesFirst(a);
      RepliesFirst(a + b);
      assert first + (Replies(a[1..]) + Replies(b)) == (first + Replies(a[1..])) + Replies(b);
    }
  }

  lemma RepliesFirst(outputs: seq<Output>)
    ensures Replies(outputs)
         == if outputs == [] then [] else (if outputs[0].Reply? then [outputs[0].seqno] else []) + Replies(outputs[1..])
  {
  }

  lemma {:induction false} NoReplies(outputs: seq<Output>)
    requires forall o | o in outputs :: o.Protobuf?
    ensures Replies(outputs) == []
  {
    if outputs != [] {
      assert outputs[0] in outputs;
      NoReplies(outputs[1..]);
    }
  }

  lemma {:induction false} RepliesOfAll(messages: seq<Message>, plist: PlistDecoder)
    requires forall m | m in messages :: Returns(m, plist)
    ensures Replies(AllOutputs(messages, plist)) == SyncSeqnos(messages)
  {
    hide Outputs, Returns, Replies;
    if messages == [] {
      RepliesFirst([]);
    } else {
      var m := messages[0];
      assert m in messages && forall r | r in messages[1..] :: r in messages;
      RepliesOfAll(messages[1..], plist);
      RepliesAppend(Outputs(m, plist), AllOutputs(messages[1..], plist));
      RepliesOfOne(m, plist);
    }
  }

  lemma RepliesOfOne(m: Message, plist: PlistDecoder)
    ensures Replies(Outputs(m, plist)) == if Returns(m, plist) && IsSync(m.messageType) then [m.seqno] else []
  {
    hide Replies;
    RepliesFirst([]);
    if m.messageType == MSG_TYPE_REPLY {
      assert m.messageType[0] != SYNC_TAG[0];
    } else if Returns(m, plist) {
      var outputs := HandlePayload(m.payload, plist).outputs;
      NoReplies(outputs);
      RepliesFirst([Reply(m.seqno)]);
      assert [Reply(m.seqno)][1..] == [];
      RepliesAppend(outputs, if IsSync(m.messageType) then [Reply(m.seqno)] else []);
    }
  }

  lemma {:induction false} SyncsAppend(a: seq<Message>, b: seq<Message>)
    ensures SyncSeqnos(a + b) == SyncSeqnos(a) + SyncSeqnos(b)
    decreases |a|
  {
    hide SyncSeqnos, IsSync;
    SyncsFirst(a);
    if a == [] {
      assert a + b == b && [] + SyncSeqnos(b) == SyncSeqnos(b);
    } else {
      var first := if IsSync(a[0].messageType) then [a[0].seqno] else [];
      assert (a + b)[1..] == a[1..] + b;
      SyncsAppend(a[1..], b);
      SyncsFirst(a + b);
      assert first + (SyncSeqnos(a[1..]) + SyncSeqnos(b)) == (first + SyncSeqnos(a[1..])) + SyncSeqnos(b);
    }
  }

  lemma SyncsFirst(messages: seq<Message>)
    ensures SyncSeqnos(messages)
         == if messages == [] then []
            else (if IsSync(messages[0].messageType) then [messages[0].seqno] else []) + SyncSeqnos(messages[1..])
  {
  }

  lemma {:induction false} NoSyncs(messages: seq<Message>)
    ensures SyncSeqnos(messages) == [] <==> forall m | m in messages :: !IsSync(m.messageType)
  {
    if messages != [] {
      NoSyncs(messages[1..]);
      assert messages == [messages[0]] + messages[1..];
    }
  }

  /**
   Sync messages are answered once each, under their own numbers, in order, up to the first message
   whose handling does not return; and all of them if and only if none comes at that message or later.
   */
  lemma OneReplyPerSync(messages: seq<Message>, plist: PlistDecoder)
    requires forall m | m in messages :: Fits(m)
    ensures
      var replies := Replies(ScanStream(EncodeAll(messages), plist).outputs);
      && replies == SyncSeqnos(Served(messages, plist))
      && (replies == SyncSeqnos(messages) <==>
            forall m | m in messages[|Served(messages, plist)|..] :: !IsSync(m.messageType))
    ensures (forall m | m in messages :: Returns(m, plist)) ==>
              Replies(ScanStream(EncodeAll(messages), plist).outputs) == SyncSeqnos(messages)
  {
    hide ScanStream, Served, AllOutputs, Replies, EncodeAll, Returns, IsSync, SyncSeqnos, Fits;
    ScanEncoded(messages, plist);
    ServedMeans(messages, plist);
    var served := Served(messages, plist);
    var later := messages[|served|..];
    RepliesOfAll(served, plist);
    assert messages == served + later;
    SyncsAppend(served, later);
    NoSyncs(later);
    assert (SyncSeqnos(served) + SyncSeqnos(later))[|SyncSeqnos(served)|..] == SyncSeqnos(later);
  }

  /** A message whose batch never ends is not answered, and nothing behind it is; the pass does not return. */
  lemma BatchThatNeverEnds(m: Message, data: Bytes, later: seq<Message>, plist: PlistDecoder)
    requires Fits(m) && m.messageType != MSG_TYPE_REPLY && m.payload != []
    requires plist(m.payload) == Data(data) && !Ends(data)
    requires forall l | l in later :: Fits(l)
    ensures ScanStream(EncodeAll([m] + later), plist) == Pass([], EncodeAll(later), Hung)
  {
    hide DecodeProtobufs, EncodeAll, ScanStream;
    EndsIsDecided(data);
    ScanEncoded([m] + later, plist);
    assert ([m] + later)[0] == m && ([m] + later)[1..] == later;
  }

  /** For instance: a sync message with five bytes of data. */
  lemma SyncNeverAnswered(m: Message, later: seq<Message>, plist: PlistDecoder)
    requires Fits(m) && IsSync(m.messageType) && m.payload != []
    requires plist(m.payload) == Data([0xfb, 0xff, 0xff, 0xff, 0x0f])
    requires forall l | l in later :: Fits(l)
    ensures ScanStream(EncodeAll([m] + later), plist) == Pass([], EncodeAll(later), Hung)
  {
    hide ScanStream, EncodeAll, Ends, Fits;
    FiveBytesNeverEnd();
    assert m.messageType[0] == SYNC_TAG[0] != MSG_TYPE_REPLY[0];
    BatchThatNeverEnds(m, [0xfb, 0xff, 0xff, 0xff, 0x0f], later, plist);
  }

  /** What a caller can look at: data whose lengths are all below 2^31 is handled. */
  lemma ForwardReturns(m: Message, plist: PlistDecoder)
    requires m.payload != [] ==>
               match plist(m.payload) case Missing => true case NoBytes => false case Data(data) => Forward(data)
    ensures Returns(m, plist)
  {
    hide DecodeProtobufs, Forward;
    if m.payload != [] && plist(m.payload).Data? {
      ForwardEnds(plist(m.payload).data);
    }
  }

  // ---- The stream in the buffer's memory ----

  datatype Processed = Processed(outputs: seq<Output>, memory: Memory, ending: Ending) {

    function After(earlier: seq<Output>): (r: Processed)
      ensures memory.Valid() ==> r.memory.Valid()
    {
      this.(outputs := earlier + outputs)
    }
  }

  function ProcessStream(m: Memory, plist: PlistDecoder): (r: Processed)
    requires m.Valid()
    ensures r.memory.Valid() && |r.memory.bytes| == |m.bytes|
    decreases |m.Contents()|
  {
    match Front(m.Contents())
    case None => Processed([], m, Finished)
    case Some(size) =>
      match Received(m.Consumed(size), plist)
      case Stuck(ending) => Processed([], m.Consume(size), ending)
      case Done(outputs) => ProcessStream(m.Consume(size), plist).After(outputs)
  }

  /** A compaction may reach the size field of the message being taken, which is not read again. */
  predicate HarmlessTake(m: Memory, size: nat)
    requires m.Valid() && size <= |m.Contents()|
  {
    m.Compacts(size) ==> |m.Contents()| - size <= m.readPos + 4
  }

  predicate SafeStream(m: Memory)
    requires m.Valid()
    decreases |m.Contents()|
  {
    match Front(m.Contents())
    case None => true
    case Some(size) => size < HEADER_SIZE || (HarmlessTake(m, size) && SafeStream(m.Consume(size)))
  }

  lemma HarmlessTakeReads(m: Memory, size: nat)
    requires m.Valid() && HEADER_SIZE <= size <= |m.Contents()| && HarmlessTake(m, size)
    ensures DecodeMessage(m.Consumed(size)) == DecodeMessage(m.Contents()[..size])
  {
    var data, meant := m.Consumed(size), m.Contents()[..size];
    forall i | 4 <= i < size ensures data[i] == meant[i] {
      ConsumedBytes(m, size, i);
    }
    assert data[4..16] == meant[4..16] && data[16..20] == meant[16..20];
    assert data[20..24] == meant[20..24] && data[24..28] == meant[24..28] && data[28..32] == meant[28..32];
    assert data[HEADER_SIZE..] == meant[HEADER_SIZE..];
  }

  /** A safe pass does what it is meant to do, also when it does not come to its end. */
  lemma {:induction false} SafeStreamShows(m: Memory, plist: PlistDecoder)
    requires m.Valid() && SafeStream(m)
    ensures
      var p := ProcessStream(m, plist);
      Pass(p.outputs, p.memory.Contents(), p.ending) == ScanStream(m.Contents(), plist)
    decreases |m.Contents()|
  {
    hide DecodeMessage, Handle, HarmlessTake, Memory.Consume, Memory.Consumed;
    match Front(m.Contents())
    case None =>
    case Some(size) =>
      TooShort(m.Consumed(size));
      TooShort(m.Contents()[..size]);
      if size >= HEADER_SIZE {
        HarmlessTakeReads(m, size);
        SafeStreamShows(m.Consume(size), plist);
      }
  }

  /** Amounts alone: a pass is safe when no more is waiting than half the buffer holds. */
  lemma {:induction false} HalfEmptyStreamIsSafe(m: Memory)
    requires m.Valid() && 2 * |m.Contents()| <= |m.bytes|
    ensures SafeStream(m)
    decreases |m.Contents()|
  {
    match Front(m.Contents())
    case Some(size) =>
      if size >= HEADER_SIZE {
        HalfEmptyStreamIsSafe(m.Consume(size));
      }
    case None =>
  }

  /** The same buffer with another first type byte in the message at the front. */
  ghost function Variant(m: Memory, b: Byte): (v: Memory)
    requires m.Valid() && HEADER_SIZE <= |m.Contents()|
    ensures v.Valid() && |v.bytes| == |m.bytes|
  {
    m.(bytes := m.bytes[m.readPos + 4 := b])
  }

  lemma VariantFront(m: Memory, size: nat, b: Byte)
    requires m.Valid() && Front(m.Contents()) == Some(size) && size >= HEADER_SIZE
    ensures Front(Variant(m, b).Contents()) == Some(size)
    ensures HarmlessTake(Variant(m, b), size) <==> HarmlessTake(m, size)
    ensures Variant(m, b).Contents()[4] == b
    ensures Variant(m, b).Contents()[size..] == m.Contents()[size..]
  {
    assert Variant(m, b).Contents()[..4] == m.Contents()[..4];
  }

  /** The message at the front is read right whatever its type is if and only if taking it is harmless. */
  lemma HarmlessTakeIsExact(m: Memory, size: nat)
    requires m.Valid() && Front(m.Contents()) == Some(size) && size >= HEADER_SIZE
    ensures HarmlessTake(m, size) <==>
            forall b: Byte :: DecodeMessage(Variant(m, b).Consumed(size))
                == DecodeMessage(Variant(m, b).Contents()[..size])
  {
    if HarmlessTake(m, size) {
      forall b: Byte
        ensures DecodeMessage(Variant(m, b).Consumed(size)) == DecodeMessage(Variant(m, b).Contents()[..size])
      {
        VariantFront(m, size, b);
        HarmlessTakeReads(Variant(m, b), size);
      }
    } else {
      var moved := m.Contents()[size..][m.readPos + 4];
      var b: Byte := if moved == 0 then 1 else 0;
      VariantFront(m, size, b);
      var v := Variant(m, b);
      ConsumedBytes(v, size, 4);
      TypeByte(v.Consumed(size));
      TypeByte(v.Contents()[..size]);
    }
  }

  lemma TypeByte(data: Bytes)
    requires |data| >= HEADER_SIZE
    ensures DecodeMessage(data).Some? && DecodeMessage(data).value.messageType[0] == data[4]
  {
  }

  // ---- The condition for a pass is exact ----

  /** A message that a pass comes to begins at this place. */
  predicate Starts(contents: Bytes, at: nat)
    decreases |contents|
  {
    match Front(contents)
    case None => false
    case Some(size) => size >= HEADER_SIZE && (at == 0 || (at >= size && Starts(contents[size..], at - size)))
  }

  lemma {:induction false} StartsInside(contents: Bytes, at: nat)
    requires Starts(contents, at)
    ensures at + HEADER_SIZE <= |contents|
    decreases |contents|
  {
    if at > 0 {
      StartsInside(contents[Front(contents).value..], at - Front(contents).value);
    }
  }

  /** The first bytes of the message type, those that tell a sync, are changed. */
  function WithTag(contents: Bytes, at: nat, tag: Bytes): (r: Bytes)
    requires at + HEADER_SIZE <= |contents| && |tag| == |SYNC_TAG|
    ensures |r| == |contents|
  {
    contents[..at + 4] + tag + contents[at + 8..]
  }

  function Retyped(m: Memory, at: nat, tag: Bytes): (v: Memory)
    requires m.Valid() && at + HEADER_SIZE <= |m.Contents()| && |tag| == |SYNC_TAG|
    ensures v.Valid() && |v.bytes| == |m.bytes| && v.readPos == m.readPos
    ensures v.Contents() == WithTag(m.Contents(), at, tag)
  {
    var from := m.readPos + at + 4;
    Overwritten(m.bytes, m.readPos, m.writePos, at, tag);
    m.(bytes := m.bytes[..from] + tag + m.bytes[from + 4..])
  }

  lemma Overwritten(bytes: Bytes, a: nat, b: nat, at: nat, tag: Bytes)
    requires a + at + HEADER_SIZE <= b <= |bytes| && |tag| == |SYNC_TAG|
    ensures (bytes[..a + at + 4] + tag + bytes[a + at + 8..])[a..b] == WithTag(bytes[a..b], at, tag)
  {
    var view := bytes[a..b];
    assert view[..at + 4] == bytes[a..a + at + 4] && view[at + 8..] == bytes[a + at + 8..b];
  }

  /** Messages of the same sizes. */
  predicate SameShape(c: Bytes, d: Bytes)
    decreases |c|
  {
    && |c| == |d| && Front(c) == Front(d)
    && (Front(c).Some? && Front(c).value >= HEADER_SIZE ==> SameShape(c[Front(c).value..], d[Front(c).value..]))
  }

  lemma {:induction false} ShapeOfItself(c: Bytes)
    ensures SameShape(c, c)
    decreases |c|
  {
    if Front(c).Some? && Front(c).value >= HEADER_SIZE {
      ShapeOfItself(c[Front(c).value..]);
    }
  }

  lemma TagKeepsFront(c: Bytes, at: nat, tag: Bytes)
    requires Starts(c, at) && at + HEADER_SIZE <= |c| && |tag| == |SYNC_TAG|
    ensures
      var d, size := WithTag(c, at, tag), Front(c).value;
      && size >= HEADER_SIZE && Front(d) == Some(size)
      && if at == 0 then d[size..] == c[size..]
         else Starts(c[size..], at - size) && at - size + HEADER_SIZE <= |c[size..]|
              && d[size..] == WithTag(c[size..], at - size, tag)
  {
    var d, size := WithTag(c, at, tag), Front(c).value;
    assert d[..4] == c[..4];
    if at == 0 {
      assert d[size..] == c[size..];
    } else {
      StartsInside(c[size..], at - size);
      TagBehind(c, size, at, tag);
    }
  }

  lemma TagBehind(c: Bytes, n: nat, at: nat, tag: Bytes)
    requires n <= at && at + HEADER_SIZE <= |c| && |tag| == |SYNC_TAG|
    ensures WithTag(c, at, tag)[n..] == WithTag(c[n..], at - n, tag)
  {
    var front, back := c[..at + 4], c[at + 8..];
    assert c[n..][..at - n + 4] == front[n..] && c[n..][at - n + 8..] == back;
    assert (front + (tag + back))[n..] == front[n..] + (tag + back);
    assert front + tag + back == front + (tag + back);
    assert front[n..] + tag + back == front[n..] + (tag + back);
  }

  lemma {:induction false} TagKeepsShape(c: Bytes, at: nat, tag: Bytes)
    requires Starts(c, at) && at + HEADER_SIZE <= |c| && |tag| == |SYNC_TAG|
    ensures SameShape(c, WithTag(c, at, tag))
    decreases |c|
  {
    hide WithTag, SizeOf;
    var size := Front(c).value;
    TagKeepsFront(c, at, tag);
    if at == 0 {
      ShapeOfItself(c[size..]);
    } else {
      TagKeepsShape(c[size..], at - size, tag);
    }
  }

  lemma {:induction false} ShapeDecidesSafety(a: Memory, b: Memory)
    requires a.Valid() && b.Valid() && a.readPos == b.readPos && |a.bytes| == |b.bytes|
    requires SameShape(a.Contents(), b.Contents())
    ensures SafeStream(a) == SafeStream(b)
    decreases |a.Contents()|
  {
    match Front(a.Contents())
    case Some(size) =>
      if size >= HEADER_SIZE && HarmlessTake(a, size) {
        ShapeDecidesSafety(a.Consume(size), b.Consume(size));
      }
    case None =>
  }

  /** A pass moves the buffer's contents once at the most. */
  lemma RestIsSafe(m: Memory, size: nat)
    requires m.Valid() && size <= |m.Contents()| && m.Compacts(size)
    ensures SafeStream(m.Consume(size))
  {
    HalfEmptyStreamIsSafe(m.Consume(size));
  }

  /** What one message has replied to it. */
  function RepliesTo(data: Bytes, plist: PlistDecoder): seq<nat> {
    match DecodeMessage(data)
    case None => []
    case Some(m) => if Returns(m, plist) && IsSync(m.messageType) then [m.seqno] else []
  }

  /** What is replied to the front message as it is read, and as it is meant. */
  lemma RepliesOfFront(m: Memory, size: nat, plist: PlistDecoder)
    requires m.Valid() && Front(m.Contents()) == Some(size) && size >= HEADER_SIZE
    ensures
      var read, meant := m.Consumed(size), m.Contents()[..size];
      && Replies(ProcessStream(m, plist).outputs)
         == RepliesTo(read, plist)
            + (if Received(read, plist).Done? then Replies(ProcessStream(m.Consume(size), plist).outputs) else [])
      && Replies(ScanStream(m.Contents(), plist).outputs)
         == RepliesTo(meant, plist)
            + (if Received(meant, plist).Done? then Replies(ScanStream(m.Contents()[size..], plist).outputs) else [])
  {
    hide DecodeMessage, Handle, Replies, IsSync;
    RepliesFirst([]);
    RepliesReceived(m.Consumed(size), plist, ProcessStream(m.Consume(size), plist).outputs);
    RepliesReceived(m.Contents()[..size], plist, ScanStream(m.Contents()[size..], plist).outputs);
  }

  lemma RepliesReceived(data: Bytes, plist: PlistDecoder, more: seq<Output>)
    requires |data| >= HEADER_SIZE
    ensures Received(data, plist).Done? ==>
              Replies(Received(data, plist).outputs + more) == RepliesTo(data, plist) + Replies(more)
    ensures Received(data, plist).Stuck? ==> RepliesTo(data, plist) == []
  {
    hide DecodeMessage, Handle, Replies, IsSync;
    TooShort(data);
    var m := DecodeMessage(data).value;
    RepliesOfOne(m, plist);
    RepliesAppend(Outputs(m, plist), more);
  }

  /** The tag that is read from a header. */
  lemma TagOf(data: Bytes)
    requires |data| >= HEADER_SIZE
    ensures DecodeMessage(data).Some? && (IsSync(DecodeMessage(data).value.messageType) <==> data[4..8] == SYNC_TAG)
  {
    assert data[4..16][..4] == data[4..8];
  }

  /** The tag that a view shows after a move that reached its first byte, and perhaps the others. */
  function MovedTag(moved: Bytes, readPos: nat, tag: Bytes): (r: Bytes)
    requires |tag| == |SYNC_TAG|
    ensures |r| == |SYNC_TAG|
  {
    seq(|SYNC_TAG|, i requires 0 <= i < |SYNC_TAG| =>
      if readPos + 4 + i < |moved| then moved[readPos + 4 + i] else tag[i])
  }

  lemma TagRead(v: Memory, size: nat, tag: Bytes)
    requires v.Valid() && HEADER_SIZE <= size <= |v.Contents()| && !HarmlessTake(v, size)
    requires v.Contents()[4..8] == tag
    ensures v.Consumed(size)[4..8] == MovedTag(v.Contents()[size..], v.readPos, tag)
    ensures v.Contents()[..size][4..8] == tag
  {
    hide HarmlessTake, Memory.Consumed, Memory.Consume, Memory.Contents;
    var data, contents := v.Consumed(size), v.Contents();
    forall i | 0 <= i < |SYNC_TAG| ensures data[4..8][i] == MovedTag(contents[size..], v.readPos, tag)[i] {
      TagByteRead(v, size, 4 + i);
      assert contents[4 + i] == contents[4..8][i];
    }
    assert contents[..size][4..8] == contents[4..8];
  }

  lemma TagByteRead(v: Memory, size: nat, i: nat)
    requires v.Valid() && i < size <= |v.Contents()| && !HarmlessTake(v, size)
    ensures v.Consumed(size)[i] ==
            if v.readPos + i < |v.Contents()[size..]| then v.Contents()[size..][v.readPos + i] else v.Contents()[i]
  {
    ConsumedBytes(v, size, i);
  }

  lemma RetypedFront(m: Memory, size: nat, tag: Bytes)
    requires m.Valid() && Front(m.Contents()) == Some(size) && size >= HEADER_SIZE && |tag| == |SYNC_TAG|
    ensures
      var v := Retyped(m, 0, tag);
      && Front(v.Contents()) == Some(size) && v.Contents()[size..] == m.Contents()[size..]
      && v.Contents()[4..8] == tag && v.Compacts(size) == m.Compacts(size)
  {
    var c := WithTag(m.Contents(), 0, tag);
    assert c[..4] == m.Contents()[..4] && c[4..8] == tag && c[size..] == m.Contents()[size..];
  }

  /** A message is read whose handling returns, and that is a sync. */
  predicate ReadAsSync(data: Bytes, plist: PlistDecoder)
    requires |data| >= HEADER_SIZE
  {
    Received(data, plist).Done? && data[4..8] == SYNC_TAG
  }

  lemma ReadAsSyncReplies(data: Bytes, plist: PlistDecoder)
    requires |data| >= HEADER_SIZE
    ensures |RepliesTo(data, plist)| == if ReadAsSync(data, plist) then 1 else 0
  {
    hide Handle;
    TagOf(data);
  }

  /** A tag for the front message that makes it a sync if and only if it is not handled as one. */
  lemma WrongTag(m: Memory, size: nat, plist: PlistDecoder) returns (tag: Bytes)
    requires m.Valid() && Front(m.Contents()) == Some(size) && size >= HEADER_SIZE && !HarmlessTake(m, size)
    ensures |tag| == |SYNC_TAG|
    ensures
      var v := Retyped(m, 0, tag);
      && Front(v.Contents()) == Some(size)
      && if tag == SYNC_TAG then !ReadAsSync(v.Consumed(size), plist) else ReadAsSync(v.Consumed(size), plist)
  {
    hide Front, Memory.Consumed, Retyped, Received;
    tag := SYNC_TAG;
    RetypedFront(m, size, tag);
    var v := Retyped(m, 0, tag);
    if ReadAsSync(v.Consumed(size), plist) {
      TagRead(v, size, tag);
      tag := [0] + SYNC_TAG[1..];
      RetypedFront(m, size, tag);
      assert tag[0] != SYNC_TAG[0];
      SameRead(m, size, tag);
    }
  }

  /** A tag that differs where the move covers it makes no difference to what is read. */
  lemma SameRead(m: Memory, size: nat, tag: Bytes)
    requires m.Valid() && Front(m.Contents()) == Some(size) && size >= HEADER_SIZE && !HarmlessTake(m, size)
    requires |tag| == |SYNC_TAG| && tag[1..] == SYNC_TAG[1..]
    ensures Retyped(m, 0, tag).Consumed(size) == Retyped(m, 0, SYNC_TAG).Consumed(size)
  {
    RetypedFront(m, size, tag);
    RetypedFront(m, size, SYNC_TAG);
    var a, b := Retyped(m, 0, tag), Retyped(m, 0, SYNC_TAG);
    forall i | 0 <= i < size ensures a.Consumed(size)[i] == b.Consumed(size)[i] {
      hide Memory.Consumed, Memory.Consume, Retyped, Front;
      SameByte(m, size, tag, i);
    }
  }

  lemma SameByte(m: Memory, size: nat, tag: Bytes, i: nat)
    requires m.Valid() && Front(m.Contents()) == Some(size) && size >= HEADER_SIZE && !HarmlessTake(m, size)
    requires |tag| == |SYNC_TAG| && tag[1..] == SYNC_TAG[1..] && i < size
    ensures Retyped(m, 0, tag).Consumed(size)[i] == Retyped(m, 0, SYNC_TAG).Consumed(size)[i]
  {
    hide Memory.Consumed, Memory.Consume, Memory.Contents, Front, Retyped, WithTag;
    RetypedFront(m, size, tag);
    RetypedFront(m, size, SYNC_TAG);
    TagByteRead(Retyped(m, 0, tag), size, i);
    TagByteRead(Retyped(m, 0, SYNC_TAG), size, i);
    if i != 4 {
      TagByte(m.Contents(), tag, i);
    }
  }

  lemma TagByte(contents: Bytes, tag: Bytes, i: nat)
    requires HEADER_SIZE <= |contents| && i < |contents| && i != 4
    requires |tag| == |SYNC_TAG| && tag[1..] == SYNC_TAG[1..]
    ensures WithTag(contents, 0, tag)[i] == WithTag(contents, 0, SYNC_TAG)[i]
  {
    if 4 < i < 8 {
      assert tag[i - 4] == tag[1..][i - 5] && SYNC_TAG[i - 4] == SYNC_TAG[1..][i - 5];
    }
  }

  /** The payload of the message at the front can be handled. */
  predicate FrontReturns(contents: Bytes, size: nat, plist: PlistDecoder)
    requires HEADER_SIZE <= size <= |contents|
  {
    HandlePayload(contents[HEADER_SIZE..size], plist).Done?
  }

  /** So can that of every message the pass comes to, whatever its type. */
  predicate PayloadsReturn(contents: Bytes, plist: PlistDecoder)
    decreases |contents|
  {
    match Front(contents)
    case None => true
    case Some(size) =>
      size >= HEADER_SIZE ==> FrontReturns(contents, size, plist) && PayloadsReturn(contents[size..], plist)
  }

  lemma FrontReceived(contents: Bytes, size: nat, plist: PlistDecoder)
    requires HEADER_SIZE <= size <= |contents| && FrontReturns(contents, size, plist)
    ensures Received(contents[..size], plist).Done?
    ensures |RepliesTo(contents[..size], plist)| == if contents[4..8] == SYNC_TAG then 1 else 0
  {
    hide HandlePayload;
    var data := contents[..size];
    TagOf(data);
    assert data[HEADER_SIZE..] == contents[HEADER_SIZE..size] && data[4..8] == contents[4..8];
  }

  /** With one tag or another, the message at the front is answered if and only if it should not be. */
  lemma UnsafeFront(m: Memory, size: nat, plist: PlistDecoder) returns (tag: Bytes)
    requires m.Valid() && Front(m.Contents()) == Some(size) && size >= HEADER_SIZE && !HarmlessTake(m, size)
    requires FrontReturns(m.Contents(), size, plist)
    ensures |tag| == |SYNC_TAG| && !RepliesRight(Retyped(m, 0, tag), plist)
  {
    hide ProcessStream, ScanStream, Replies, IsSync, RepliesTo, FrontReturns, Handle;
    tag := WrongTag(m, size, plist);
    var v := Retyped(m, 0, tag);
    RetypedReturns(m, size, tag, plist);
    RetypedFront(m, size, tag);
    FrontReceived(v.Contents(), size, plist);
    ReadAsSyncReplies(v.Consumed(size), plist);
    RepliesOfFront(v, size, plist);
    RestIsSafe(v, size);
    SafeStreamShows(v.Consume(size), plist);
  }

  lemma RetypedReturns(m: Memory, size: nat, tag: Bytes, plist: PlistDecoder)
    requires m.Valid() && Front(m.Contents()) == Some(size) && size >= HEADER_SIZE && |tag| == |SYNC_TAG|
    ensures
      var v := Retyped(m, 0, tag);
      Front(v.Contents()) == Some(size) && FrontReturns(v.Contents(), size, plist)
          == FrontReturns(m.Contents(), size, plist)
  {
    RetypedFront(m, size, tag);
    assert WithTag(m.Contents(), 0, tag)[HEADER_SIZE..size] == m.Contents()[HEADER_SIZE..size];
  }

  /** The replies of a pass are those that are meant. */
  predicate RepliesRight(m: Memory, plist: PlistDecoder)
    requires m.Valid()
  {
    Replies(ProcessStream(m, plist).outputs) == Replies(ScanStream(m.Contents(), plist).outputs)
  }

  /** A message in front that is taken without a move. */
  lemma RetypedBehind(m: Memory, size: nat, at: nat, tag: Bytes)
    requires m.Valid() && Front(m.Contents()) == Some(size) && size >= HEADER_SIZE && !m.Compacts(size)
    requires |tag| == |SYNC_TAG| && at + HEADER_SIZE <= |m.Contents()| - size
    ensures
      var v := Retyped(m, size + at, tag);
      && Front(v.Contents()) == Some(size) && v.Consume(size) == Retyped(m.Consume(size), at, tag)
      && v.Consumed(size) == v.Contents()[..size]
  {
    var v := Retyped(m, size + at, tag);
    assert v.Contents()[..4] == m.Contents()[..4];
    NoOverlapIntact(v, size);
  }

  lemma BehindFront(m: Memory, size: nat, at: nat, tag: Bytes, plist: PlistDecoder)
    requires m.Valid() && Front(m.Contents()) == Some(size) && size >= HEADER_SIZE && !m.Compacts(size)
    requires FrontReturns(m.Contents(), size, plist)
    requires |tag| == |SYNC_TAG| && at + HEADER_SIZE <= |m.Contents()| - size
    requires !RepliesRight(Retyped(m.Consume(size), at, tag), plist)
    ensures !RepliesRight(Retyped(m, size + at, tag), plist)
  {
    hide ProcessStream, ScanStream, Replies, Received, RepliesTo, FrontReturns, Front, Retyped, Memory.Consume,
        Memory.Consumed;
    RetypedBehind(m, size, at, tag);
    var v := Retyped(m, size + at, tag);
    FrontReceived(m.Contents(), size, plist);
    assert v.Contents()[..size] == m.Contents()[..size];
    RepliesOfFront(v, size, plist);
    var front := RepliesTo(v.Contents()[..size], plist);
    var x, y := Replies(ProcessStream(v.Consume(size), plist).outputs),
        Replies(ScanStream(v.Contents()[size..], plist).outputs);
    assert (front + x)[|front|..] == x && (front + y)[|front|..] == y;
  }

  lemma {:induction false} UnsafeStreamFails(m: Memory, plist: PlistDecoder) returns (at: nat, tag: Bytes)
    requires m.Valid() && !SafeStream(m) && PayloadsReturn(m.Contents(), plist)
    ensures Starts(m.Contents(), at) && at + HEADER_SIZE <= |m.Contents()| && |tag| == |SYNC_TAG|
    ensures !RepliesRight(Retyped(m, at, tag), plist)
    decreases |m.Contents()|
  {
    hide RepliesRight, FrontReturns;
    var size := Front(m.Contents()).value;
    if HarmlessTake(m, size) {
      if m.Compacts(size) {
        RestIsSafe(m, size);
      }
      at, tag := UnsafeStreamFails(m.Consume(size), plist);
      BehindFront(m, size, at, tag, plist);
      at := size + at;
    } else {
      at := 0;
      tag := UnsafeFront(m, size, plist);
    }
  }

  /**
   Over messages that can be handled, whatever their types are: every sync of a pass is answered, under
   its own number and once, if and only if the pass is safe.
   */
  lemma SafeStreamIsExact(m: Memory, plist: PlistDecoder)
    requires m.Valid() && PayloadsReturn(m.Contents(), plist)
    ensures SafeStream(m) <==>
              forall at: nat, tag: Bytes |
                   Starts(m.Contents(), at) && at + HEADER_SIZE <= |m.Contents()| && |tag| == |SYNC_TAG| ::
                   RepliesRight(Retyped(m, at, tag), plist)
  {
    hide SafeStream, Starts, SameShape, PayloadsReturn;
    if SafeStream(m) {
      forall at: nat, tag: Bytes |
        Starts(m.Contents(), at) && at + HEADER_SIZE <= |m.Contents()| && |tag| == |SYNC_TAG|
        ensures RepliesRight(Retyped(m, at, tag), plist)
      {
        TagKeepsShape(m.Contents(), at, tag);
        ShapeDecidesSafety(m, Retyped(m, at, tag));
        SafeStreamShows(Retyped(m, at, tag), plist);
      }
    } else {
      var at, tag := UnsafeStreamFails(m, plist);
      assert !RepliesRight(Retyped(m, at, tag), plist);
    }
  }

  /** The payload that is read when the second message has been moved over the first. */
  function Overlaid(first: Message, second: Message): Bytes
    requires |second.payload| <= |first.payload|
  {
    second.payload + first.payload[|second.payload|..]
  }

  /**
   Where it fails: two sync messages that arrive together at the front of the buffer, the first
   more than half of it. The second has been moved over the first before that is read, so the
   second is answered twice and the first never; or nothing is answered, if what is read as the first
   payload cannot be handled.
   */
  lemma SecondMessageAnsweredTwice(m: Memory, first: Message, second: Message, plist: PlistDecoder)
    requires m.Valid() && m.readPos == 0 && m.Contents() == EncodeMessage(first) + EncodeMessage(second)
    requires Fits(first) && Fits(second) && IsSync(first.messageType) && IsSync(second.messageType)
    requires Returns(first, plist) && Returns(second, plist)
    requires |second.payload| <= |first.payload| && 2 * (HEADER_SIZE + |first.payload|) > |m.bytes|
    ensures Replies(ProcessStream(m, plist).outputs)
         == if HandlePayload(Overlaid(first, second), plist).Done? then [second.seqno, second.seqno] else []
    ensures Replies(ScanStream(m.Contents(), plist).outputs) == [first.seqno, second.seqno]
  {
    hide EncodeMessage, Handle, HandlePayload, DecodeMessage, ScanStream, ProcessStream, Front, SizeOf;
    DecodeEncoded(first);
    DecodeEncoded(second);
    var a, b := EncodeMessage(first), EncodeMessage(second);
    FrontMoreOfWhole(a, b);
    MovedMessage(m, a, b);
    LastMessage(m.Consume(|a|), second, plist);
    SecondReplies(m, |a|, first, second, plist);
  }

  lemma MovedMessage(m: Memory, a: Bytes, b: Bytes)
    requires m.Valid() && m.readPos == 0 && m.Contents() == a + b
    requires HEADER_SIZE <= |b| <= |a| && 2 * |a| > |m.bytes|
    ensures m.Consume(|a|).readPos == 0 && m.Consume(|a|).Contents() == b
    ensures m.Consumed(|a|) == b + a[|b|..]
  {
    assert (a + b)[|a|..] == b;
    forall i | 0 <= i < |a| ensures m.Consumed(|a|)[i] == (b + a[|b|..])[i] {
      ConsumedBytes(m, |a|, i);
    }
  }

  lemma LastMessage(m: Memory, message: Message, plist: PlistDecoder)
    requires m.Valid() && m.readPos == 0 && m.Contents() == EncodeMessage(message)
    requires Fits(message) && IsSync(message.messageType) && Returns(message, plist)
    ensures Replies(ProcessStream(m, plist).outputs) == [message.seqno]
    ensures Replies(ScanStream(m.Contents(), plist).outputs) == [message.seqno]
  {
    hide DecodeMessage, EncodeMessage, Handle, ScanStream, ProcessStream, SizeOf, Fits, Replies;
    OneReplyPerSync([message], plist);
    assert EncodeAll([message]) == m.Contents() by {
      assert [message][1..] == [] && EncodeMessage(message) + [] == EncodeMessage(message);
    }
    assert SyncSeqnos([message]) == [message.seqno];
    DecodeEncoded(message);
    FrontMoreOfWhole(m.Contents(), []);
    assert m.Contents() + [] == m.Contents();
    SingleMessageIsSafe(m);
    SafeStreamShows(m, plist);
  }

  lemma SingleMessageIsSafe(m: Memory)
    requires m.Valid() && Front(m.Contents()) == Some(|m.Contents()|)
    ensures SafeStream(m)
  {
    assert m.Consume(|m.Contents()|).Contents() == [];
  }

  lemma SecondReplies(m: Memory, size: nat, first: Message, second: Message, plist: PlistDecoder)
    requires m.Valid() && Front(m.Contents()) == Some(size) && size == |EncodeMessage(first)|
    requires m.Contents() == EncodeMessage(first) + EncodeMessage(second)
    requires m.Consume(size).Contents() == EncodeMessage(second)
    requires Fits(first) && Fits(second) && IsSync(first.messageType) && IsSync(second.messageType)
    requires Returns(first, plist) && |second.payload| <= |first.payload|
    requires m.Consumed(size) == EncodeMessage(second) + EncodeMessage(first)[|EncodeMessage(second)|..]
    requires Replies(ProcessStream(m.Consume(size), plist).outputs) == [second.seqno]
    requires Replies(ScanStream(EncodeMessage(second), plist).outputs) == [second.seqno]
    ensures Replies(ProcessStream(m, plist).outputs)
         == if HandlePayload(Overlaid(first, second), plist).Done? then [second.seqno, second.seqno] else []
    ensures Replies(ScanStream(m.Contents(), plist).outputs) == [first.seqno, second.seqno]
  {
    hide EncodeMessage, DecodeMessage, ProcessStream, ScanStream, Replies, SizeOf, Front, HandlePayload;
    DecodeEncoded(first);
    assert m.Contents()[..size] == EncodeMessage(first) && m.Contents()[size..] == EncodeMessage(second);
    ReadsAs(m.Consumed(size), first, second);
    assert MSG_TYPE_REPLY[0] != SYNC_TAG[0];
    RepliesOfFront(m, size, plist);
  }

  /** What is read has the second message's type and number, and the second payload laid over the first. */
  lemma ReadsAs(data: Bytes, first: Message, second: Message)
    requires Fits(first) && Fits(second) && |second.payload| <= |first.payload|
    requires data == EncodeMessage(second) + EncodeMessage(first)[|EncodeMessage(second)|..]
    ensures
      var r := DecodeMessage(data);
      && r.Some? && r.value.messageType == second.messageType && r.value.seqno == second.seqno
      && r.value.payload == Overlaid(first, second)
  {
    hide BE, FromBE;
    DecodeEncoded(first);
    DecodeEncoded(second);
    var encoded := EncodeMessage(second);
    assert data[4..16] == encoded[4..16];
    assert data[20..24] == encoded[20..24] && data[24..28] == encoded[24..28];
    assert encoded[HEADER_SIZE..] == second.payload;
    assert EncodeMessage(first)[HEADER_SIZE..] == first.payload;
    assert EncodeMessage(first)[|encoded|..] == EncodeMessage(first)[HEADER_SIZE..][|second.payload|..];
    assert data[HEADER_SIZE..] == encoded[HEADER_SIZE..] + EncodeMessage(first)[|encoded|..];
  }

  // ---- Protobufs that are sent and received ----

  datatype Plist = Plist(encode: Bytes -> Bytes, decode: PlistDecoder) {

    /** All that is assumed of property lists: `params.data` comes back, and nothing encodes to nothing. */
    ghost predicate Lawful() {
      forall data :: encode(data) != [] && decode(encode(data)) == Data(data)
    }
  }

  /** What `sendProtobuf` wraps a protobuf in. */
  function SyncMessage(protobuf: Bytes, seqno: nat, plist: Plist): Message {
    Message(MSG_TYPE_SYNC, CMD_COMM, seqno, 0, plist.encode(EncodeProtobufs([protobuf])))
  }

  /** It is handled; and received as sent, and answered, unless it is 8 bytes long. */
  lemma SentIsReceived(protobuf: Bytes, seqno: nat, plist: Plist)
    requires plist.Lawful() && |protobuf| < 0x8000_0000
    ensures Returns(SyncMessage(protobuf, seqno, plist), plist.decode)
    ensures Outputs(SyncMessage(protobuf, seqno, plist), plist.decode) == [Protobuf(protobuf), Reply(seqno)]
            <==> |protobuf| != NOT_PREFIXED
  {
    hide DecodeProtobufs;
    var batch := EncodeProtobufs([protobuf]);
    var m := SyncMessage(protobuf, seqno, plist);
    assert plist.encode(batch) != [] && plist.decode(plist.encode(batch)) == Data(batch);
    BatchUpToFirstEight([protobuf], if |protobuf| == NOT_PREFIXED then 0 else 1);
    assert m.messageType[..4] == SYNC_TAG;
    assert m.messageType[0] != MSG_TYPE_REPLY[0];
    if |protobuf| == NOT_PREFIXED {
      assert [protobuf][0..] == [protobuf];
      assert [protobuf][..0] + [batch] == [batch];
      assert DecodeProtobufs(batch) == Some([batch]);
      assert |batch| > |protobuf|;
      assert Outputs(m, plist.decode)[0] == Protobuf(batch);
    } else {
      assert [protobuf][..1] + [] == [protobuf];
      assert DecodeProtobufs(batch) == Some([protobuf]);
      assert Outputs(m, plist.decode) == [Protobuf(protobuf), Reply(seqno)];
    }
  }

  /** Such a message, field by field. */
  lemma SyncMessageIs(protobuf: Bytes, seqno: nat, plist: Plist)
    ensures
      var m := SyncMessage(protobuf, seqno, plist);
      && m.messageType == [0x73, 0x79, 0x6e, 0x63, 0, 0, 0, 0, 0, 0, 0, 0]
      && m.command == [0x63, 0x6f, 0x6d, 0x6d] && m.seqno == seqno && m.padding == 0
      && m.payload == plist.encode(WriteVarint(|protobuf|) + protobuf)
  {
    BatchOfOne(protobuf);
    hide EncodeProtobufs;
    assert MSG_TYPE_SYNC == [0x73, 0x79, 0x6e, 0x63, 0, 0, 0, 0, 0, 0, 0, 0];
  }

  lemma BatchOfOne(protobuf: Bytes)
    ensures EncodeProtobufs([protobuf]) == WriteVarint(|protobuf|) + protobuf
  {
    hide WriteVarint;
    assert [protobuf][1..] == [] && EncodeProtobufs([]) == [];
    assert WriteVarint(|protobuf|) + protobuf + [] == WriteVarint(|protobuf|) + protobuf;
  }

  /**
   Of a message with a batch, each protobuf is put out, in order, and then the reply, if its type begins
   with "sync"; of a reply nothing is.
   */
  lemma BatchIsReceived(m: Message, protobufs: seq<Bytes>, plist: PlistDecoder)
    requires m.payload != [] && plist(m.payload) == Data(EncodeProtobufs(protobufs))
    requires forall p | p in protobufs :: |p| < 0x8000_0000 && |p| != 8
    requires |m.messageType| == 12
    ensures Returns(m, plist)
    ensures
      var outputs, n := Outputs(m, plist), |protobufs|;
      if m.messageType == [0x72, 0x70, 0x6c, 0x79, 0, 0, 0, 0, 0, 0, 0, 0] then outputs == []
      else
        var sync := m.messageType[..4] == [0x73, 0x79, 0x6e, 0x63];
        && |outputs| == n + (if sync then 1 else 0)
        && (forall i | 0 <= i < n :: outputs[i] == Protobuf(protobufs[i]))
        && (sync ==> outputs[n] == Reply(m.seqno))
  {
    hide HandlePayload, Protobufs, Handle, Returns, Outputs, IsSync, EncodeProtobufs;
    PayloadOfBatch(m.payload, protobufs, plist);
    TypesAre(m.messageType);
    PayloadHandled(m, Protobufs(protobufs), plist);
  }

  lemma TypesAre(messageType: Bytes)
    requires |messageType| == 12
    ensures IsSync(messageType) <==> messageType[..4] == [0x73, 0x79, 0x6e, 0x63]
    ensures MSG_TYPE_REPLY == [0x72, 0x70, 0x6c, 0x79, 0, 0, 0, 0, 0, 0, 0, 0]
  {
  }

  lemma PayloadHandled(m: Message, outputs: seq<Output>, plist: PlistDecoder)
    requires HandlePayload(m.payload, plist) == Done(outputs)
    ensures Returns(m, plist)
    ensures Outputs(m, plist) == if m.messageType == MSG_TYPE_REPLY then []
                                 else outputs + if IsSync(m.messageType) then [Reply(m.seqno)] else []
  {
    hide HandlePayload, IsSync;
  }

  lemma PayloadOfBatch(payload: Bytes, protobufs: seq<Bytes>, plist: PlistDecoder)
    requires payload != [] && plist(payload) == Data(EncodeProtobufs(protobufs))
    requires forall p | p in protobufs :: |p| < 0x8000_0000 && |p| != 8
    ensures HandlePayload(payload, plist) == Done(Protobufs(protobufs))
    ensures |Protobufs(protobufs)| == |protobufs|
    ensures forall i | 0 <= i < |protobufs| :: Protobufs(protobufs)[i] == Protobuf(protobufs[i])
  {
    hide DecodeProtobufs, EncodeProtobufs;
    BatchRoundTrip(protobufs);
  }

  /** A message without data, or whose data is missing, is only answered. */
  lemma NothingIsReceived(m: Message, plist: PlistDecoder)
    requires m.payload == [] || plist(m.payload) == Missing
    requires |m.messageType| == 12
    ensures Returns(m, plist)
    ensures Outputs(m, plist) == if m.messageType[..4] == [0x73, 0x79, 0x6e, 0x63] then [Reply(m.seqno)] else []
  {
    assert m.messageType == MSG_TYPE_REPLY ==> m.messageType[..4][0] == 0x72;
  }

  /** Data that bytes cannot be made of throws, unless the message is a reply. */
  lemma UnusableThrows(m: Message, plist: PlistDecoder)
    requires m.payload != [] && plist(m.payload) == NoBytes && m.messageType != MSG_TYPE_REPLY
    ensures Handle(m, plist) == Stuck(Threw)
  {
  }

  /** From 2^31 bytes on it is not handled at all: whoever receives it hangs. */
  lemma HugeIsNeverHandled(protobuf: Bytes, seqno: nat, plist: Plist)
    requires plist.Lawful() && 0x8000_0000 <= |protobuf| <= WORD - 5
    ensures Handle(SyncMessage(protobuf, seqno, plist), plist.decode) == Stuck(Hung)
  {
    hide DecodeProtobufs, Ends;
    var batch := EncodeProtobufs([protobuf]);
    assert plist.encode(batch) != [] && plist.decode(plist.encode(batch)) == Data(batch);
    HugeMessageNeverEnds(protobuf);
    EndsIsDecided(batch);
    assert MSG_TYPE_SYNC[0] != MSG_TYPE_REPLY[0];
  }
}
