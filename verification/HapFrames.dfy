/**
 ChaCha20EncryptionLayer and HapFrameLayer (src/protocols/shared/layers/ChaCha20EncryptionLayer.ts,
 src/protocols/airplay/layers/HapFrameLayer.ts): plaintext is cut into frames of at most 1024
 bytes, each sealed under the next value of a counter that both sides keep.
 */
module HapFrames {
  import opened Results
  import opened ByteStrings
  import opened Streams

  // ---- Sealing ----

  /** ChaCha20-Poly1305 (RFC 8439, section 2.8): key, nonce, associated data and text. */
  datatype Aead = Aead(
    seal: (Bytes, Bytes, Bytes, Bytes) -> Bytes,
    open: (Bytes, Bytes, Bytes, Bytes) -> Option<Bytes>)
  {
    /** All that is assumed of it: a 16-byte tag, and opening undoes sealing. */
    ghost predicate Lawful() {
      forall key, nonce, aad, text ::
        var sealed := seal(key, nonce, aad, text);
        |sealed| == |text| + TAG_SIZE && open(key, nonce, aad, sealed) == Some(text)
    }
  }

  datatype NonceFormat = Companion | Hap

  const MAX_FRAME_SIZE: nat := 1024
  const LENGTH_SIZE: nat := 2
  const TAG_SIZE: nat := 16

  /** `setUint32` and `setBigUint64` keep the low 32 and 64 bits. */
  function CreateNonce(counter: nat, format: NonceFormat): (r: Bytes)
    ensures |r| == 12
  {
    match format
    case Companion => LE(counter % 0x1_0000_0000, 4) + Zeros(8)
    case Hap => Zeros(4) + LE(counter % 0x1_0000_0000_0000_0000, 8)
  }

  function Period(format: NonceFormat): (p: nat)
    ensures p > 0
  {
    if format == Companion then 0x1_0000_0000 else 0x1_0000_0000_0000_0000
  }

  /** Nonces repeat with period 2^32 or 2^64 and no sooner. */
  lemma NonceRepeats(a: nat, b: nat, format: NonceFormat)
    ensures CreateNonce(a, format) == CreateNonce(b, format) <==> a % Period(format) == b % Period(format)
  {
    Pow256Values();
    match format
    case Companion =>
      var x, y := a % 0x1_0000_0000, b % 0x1_0000_0000;
      LERoundTrip(x, 4);
      LERoundTrip(y, 4);
      assert CreateNonce(a, format)[..4] == LE(x, 4) && CreateNonce(b, format)[..4] == LE(y, 4);
    case Hap =>
      var x, y := a % 0x1_0000_0000_0000_0000, b % 0x1_0000_0000_0000_0000;
      LERoundTrip(x, 8);
      LERoundTrip(y, 8);
      assert CreateNonce(a, format)[4..] == LE(x, 8) && CreateNonce(b, format)[4..] == LE(y, 8);
  }

  /** As little-endian numbers: Companion counts in the first four bytes, HAP in the last eight. */
  lemma NonceIs(counter: nat)
    ensures FromLE(CreateNonce(counter, Companion)) == counter % 0x1_0000_0000
    ensures CreateNonce(counter, Companion)[4..] == [0, 0, 0, 0, 0, 0, 0, 0]
    ensures FromLE(CreateNonce(counter, Hap)) == counter % 0x1_0000_0000_0000_0000 * 0x1_0000_0000
    ensures CreateNonce(counter, Hap)[..4] == [0, 0, 0, 0]
  {
    Pow256Values();
    var x, y := counter % 0x1_0000_0000, counter % 0x1_0000_0000_0000_0000;
    LERoundTrip(x, 4);
    LERoundTrip(y, 8);
    FromLEZeros(8);
    FromLEZeros(4);
    FromLEAppend(LE(x, 4), Zeros(8));
    FromLEAppend(Zeros(4), LE(y, 8));
  }

  /** Both directions of one enabled layer. */
  datatype Session = Session(aead: Aead, writeKey: Bytes, readKey: Bytes, format: NonceFormat)

  /** A disabled layer passes data through. */
  function Protect(session: Option<Session>, counter: nat, aad: Bytes, data: Bytes): Bytes {
    match session
    case None => data
    case Some(s) => s.aead.seal(s.writeKey, CreateNonce(counter, s.format), aad, data)
  }

  function Unprotect(session: Option<Session>, counter: nat, aad: Bytes, data: Bytes): Option<Bytes> {
    match session
    case None => Some(data)
    case Some(s) => s.aead.open(s.readKey, CreateNonce(counter, s.format), aad, data)
  }

  /** Only an enabled layer counts. */
  function Next(session: Option<Session>, counter: nat): nat {
    if session.Some? then counter + 1 else counter
  }

  // ---- Framing ----

  function FrameCount(length: nat): nat {
    (length + MAX_FRAME_SIZE - 1) / MAX_FRAME_SIZE
  }

  lemma FrameCountStep(length: nat)
    requires length > 0
    ensures FrameCount(length) == 1 + FrameCount(length - Min(length, MAX_FRAME_SIZE))
  {
  }

  function Frame(session: Option<Session>, counter: nat, chunk: Bytes): Bytes {
    var lengthBytes := LE(|chunk|, LENGTH_SIZE);
    lengthBytes + Protect(session, counter, lengthBytes, chunk)
  }

  function SealFrames(session: Option<Session>, counter: nat, plaintext: Bytes): Bytes
    decreases |plaintext|
  {
    if plaintext == [] then []
    else
      Frame(session, counter, Take(plaintext, MAX_FRAME_SIZE))
      + SealFrames(session, Next(session, counter), Drop(plaintext, MAX_FRAME_SIZE))
  }

  /** The first frame, byte for byte: the length of its text, then the text sealed with the length as its data. */
  lemma FrameBytes(session: Session, counter: nat, plaintext: Bytes)
    requires session.aead.Lawful() && plaintext != []
    ensures
      var n := Min(|plaintext|, 1024);
      var sealed := SealFrames(Some(session), counter, plaintext);
      var nonce := CreateNonce(counter, session.format);
      && |sealed| >= 2 + n + 16
      && sealed[0] as int + 256 * sealed[1] as int == n
      && sealed[2..2 + n + 16] == session.aead.seal(session.writeKey, nonce, sealed[..2], plaintext[..n])
      && sealed[2 + n + 16..] == SealFrames(Some(session), counter + 1, plaintext[n..])
  {
    hide SealFrames, LE, CreateNonce;
    var n := Min(|plaintext|, 1024);
    var length, chunk := LE(n, LENGTH_SIZE), Take(plaintext, MAX_FRAME_SIZE);
    TwoDigits(n);
    FrameThenRest(Some(session), counter, plaintext);
    var sealed := session.aead.seal(session.writeKey, CreateNonce(counter, session.format), length, chunk);
    SplitFrame(length, sealed, SealFrames(Some(session), counter + 1, Drop(plaintext, MAX_FRAME_SIZE)));
  }

  /** Without encryption a frame is its length and its text. */
  lemma PlainFrameBytes(counter: nat, plaintext: Bytes)
    requires plaintext != []
    ensures
      var n, frames := Min(|plaintext|, 1024), SealFrames(None, counter, plaintext);
      && |frames| >= 2 + n && frames[0] as int + 256 * frames[1] as int == n && frames[2..2 + n] == plaintext[..n]
      && frames[2 + n..] == SealFrames(None, counter, plaintext[n..])
  {
    hide SealFrames, LE;
    var n := Min(|plaintext|, 1024);
    var length, chunk := LE(n, LENGTH_SIZE), Take(plaintext, MAX_FRAME_SIZE);
    TwoDigits(n);
    FrameThenRest(None, counter, plaintext);
    SplitFrame(length, chunk, SealFrames(None, counter, Drop(plaintext, MAX_FRAME_SIZE)));
  }

  lemma TwoDigits(n: nat)
    requires n < 0x1_0000
    ensures LE(n, LENGTH_SIZE)[0] as int + 256 * LE(n, LENGTH_SIZE)[1] as int == n
  {
    assert LE(n, LENGTH_SIZE) == [n % 256] + LE(n / 256, 1) == [n % 256, n / 256 % 256];
  }

  lemma FrameThenRest(session: Option<Session>, counter: nat, plaintext: Bytes)
    requires plaintext != []
    ensures SealFrames(session, counter, plaintext)
         == Frame(session, counter, Take(plaintext, MAX_FRAME_SIZE))
            + SealFrames(session, Next(session, counter), Drop(plaintext, MAX_FRAME_SIZE))
  {
  }

  lemma SplitFrame(length: Bytes, chunk: Bytes, rest: Bytes)
    ensures
      var all := (length + chunk) + rest;
      && all[..|length|] == length && all[|length|..|length| + |chunk|] == chunk
      && all[|length| + |chunk|..] == rest
  {
  }

  /** Everything that could be opened and the incomplete rest, or an exception; the state is the counter. */
  type Opened = Parsed<Byte, nat>

  /** Length of the frame the input starts with, or none if it is not complete. */
  function CompleteFrame(encrypted: Bytes): (r: Option<nat>)
    ensures r.Some? ==> LENGTH_SIZE + TAG_SIZE <= r.value <= |encrypted|
  {
    if |encrypted| < LENGTH_SIZE then None
    else
      var size := LENGTH_SIZE + FromLE(encrypted[..LENGTH_SIZE]) + TAG_SIZE;
      if |encrypted| < size then None else Some(size)
  }

  function OpenFrames(session: Option<Session>, counter: nat, encrypted: Bytes): Opened
    decreases |encrypted|
  {
    match CompleteFrame(encrypted)
    case None => Parsed([], encrypted, counter)
    case Some(size) =>
      match Unprotect(session, counter, encrypted[..LENGTH_SIZE], encrypted[LENGTH_SIZE..size])
      case None => Failed(Next(session, counter))
      case Some(p) => OpenFrames(session, Next(session, counter), encrypted[size..]).After(p)
  }

  /** What is opened first, and how: a frame that cannot be opened has been counted, too. */
  lemma FirstFrameOpens(session: Session, counter: nat, encrypted: Bytes)
    requires |encrypted| >= 2 && |encrypted| >= 2 + encrypted[0] as int + 256 * encrypted[1] as int + 16
    ensures
      var size := 2 + encrypted[0] as int + 256 * encrypted[1] as int + 16;
      var nonce := CreateNonce(counter, session.format);
      OpenFrames(Some(session), counter, encrypted) ==
        match session.aead.open(session.readKey, nonce, encrypted[..2], encrypted[2..size])
        case None => Failed(counter + 1)
        case Some(text) => OpenFrames(Some(session), counter + 1, encrypted[size..]).After(text)
  {
    var length := encrypted[..LENGTH_SIZE];
    assert length[1..] == [encrypted[1]] && length[1..][1..] == [];
    assert FromLE(length) == length[0] as int + 256 * FromLE(length[1..]);
    assert FromLE([encrypted[1]]) == encrypted[1] as int + 256 * FromLE([]);
  }

  /** The parser a receiver feeds. */
  function Opener(session: Option<Session>): Parser<Byte, nat> {
    (counter: nat, encrypted: Bytes) => OpenFrames(session, counter, encrypted)
  }

  lemma CompleteMore(first: Bytes, more: Bytes)
    requires CompleteFrame(first).Some?
    ensures
      var all, size := first + more, CompleteFrame(first).value;
      && CompleteFrame(all) == Some(size)
      && all[..LENGTH_SIZE] == first[..LENGTH_SIZE]
      && all[LENGTH_SIZE..size] == first[LENGTH_SIZE..size]
      && all[size..] == first[size..] + more
  {
    assert (first + more)[..LENGTH_SIZE] == first[..LENGTH_SIZE];
  }

  /** Opening is incremental: more input continues where the remainder left off, whatever the bytes. */
  lemma {:induction false} OpenMore(session: Option<Session>, counter: nat, first: Bytes, more: Bytes)
    ensures OpenFrames(session, counter, first + more) ==
            match OpenFrames(session, counter, first)
            case Parsed(p, r, n) => OpenFrames(session, n, r + more).After(p)
            case Failed(n) => Failed(n)
    decreases |first|
  {
    hide Unprotect, CompleteFrame;
    match CompleteFrame(first)
    case None => AfterNothing(OpenFrames(session, counter, first + more));
    case Some(size) =>
      CompleteMore(first, more);
      match Unprotect(session, counter, first[..LENGTH_SIZE], first[LENGTH_SIZE..size])
      case None =>
      case Some(p) =>
        OpenMore(session, Next(session, counter), first[size..], more);
        var rest := OpenFrames(session, Next(session, counter), first[size..]);
        if rest.Parsed? {
          AfterTwice(OpenFrames(session, rest.state, rest.rest + more), p, rest.output);
        }
  }

  lemma OpenerIsIncremental(session: Option<Session>)
    ensures Incremental<Byte, nat>(Opener(session))
  {
    forall counter: nat, first, more ensures Continues<Byte, nat>(Opener(session), counter, first, more) {
      OpenMore(session, counter, first, more);
    }
  }

  /** The receiver holds the sender's key under the other name. */
  ghost predicate Paired(sender: Session, receiver: Session) {
    && sender.aead.Lawful()
    && receiver.aead == sender.aead
    && receiver.format == sender.format
    && receiver.readKey == sender.writeKey
  }

  lemma OpenOneFrame(sender: Session, receiver: Session, counter: nat, chunk: Bytes, more: Bytes)
    requires Paired(sender, receiver) && |chunk| < 0x1_0000
    ensures OpenFrames(Some(receiver), counter, Frame(Some(sender), counter, chunk) + more)
         == OpenFrames(Some(receiver), counter + 1, more).After(chunk)
  {
    Pow256Values();
    var lengthBytes := LE(|chunk|, LENGTH_SIZE);
    LERoundTrip(|chunk|, LENGTH_SIZE);
    var sealed := Protect(Some(sender), counter, lengthBytes, chunk);
    var all := Frame(Some(sender), counter, chunk) + more;
    assert all[..LENGTH_SIZE] == lengthBytes;
    var size := LENGTH_SIZE + |sealed|;
    assert CompleteFrame(all) == Some(size);
    assert all[LENGTH_SIZE..size] == sealed && all[size..] == more;
  }

  /** What one sealed frame in front of any input does to a parser. */
  ghost predicate OpensFrames(open: Parser<Byte, nat>, sender: Session) {
    forall counter: nat, chunk, more | |chunk| < 0x1_0000 ::
      open(counter, Frame(Some(sender), counter, chunk) + more) == open(counter + 1, more).After(chunk)
  }

  lemma {:induction false} OpenSealed(
    open: Parser<Byte, nat>, sender: Session, counter: nat, plaintext: Bytes, more: Bytes)
    requires OpensFrames(open, sender)
    ensures open(counter, SealFrames(Some(sender), counter, plaintext) + more)
         == open(counter + FrameCount(|plaintext|), more).After(plaintext)
    decreases |plaintext|
  {
    hide Frame;
    if plaintext == [] {
      assert [] + more == more;
      AfterNothing(open(counter, more));
    } else {
      var chunk, rest := Take(plaintext, MAX_FRAME_SIZE), Drop(plaintext, MAX_FRAME_SIZE);
      var frame, sealed := Frame(Some(sender), counter, chunk), SealFrames(Some(sender), counter + 1, rest);
      OpenSealed(open, sender, counter + 1, rest, more);
      FrameCountStep(|plaintext|);
      assert frame + sealed + more == frame + (sealed + more);
      AfterTwice(open(counter + FrameCount(|plaintext|), more), chunk, rest);
    }
  }

  // ---- Streams of encrypt calls, and of received pieces ----

  function TotalFrames(plaintexts: seq<Bytes>): nat {
    if plaintexts == [] then 0 else FrameCount(|plaintexts[0]|) + TotalFrames(plaintexts[1..])
  }

  /** The concatenated output of one `encrypt` call after another. */
  function SealAll(sender: Session, counter: nat, plaintexts: seq<Bytes>): Bytes
    decreases |plaintexts|
  {
    if plaintexts == [] then []
    else
      SealFrames(Some(sender), counter, plaintexts[0])
      + SealAll(sender, counter + FrameCount(|plaintexts[0]|), plaintexts[1..])
  }

  lemma {:induction false} OpenAll(open: Parser<Byte, nat>, sender: Session, counter: nat, plaintexts: seq<Bytes>)
    requires OpensFrames(open, sender)
    ensures open(counter, SealAll(sender, counter, plaintexts))
         == open(counter + TotalFrames(plaintexts), []).After(Flatten(plaintexts))
    decreases |plaintexts|
  {
    hide SealFrames, Frame, FrameCount, OpensFrames;
    if plaintexts == [] {
      AfterNothing(open(counter, []));
    } else {
      var p, rest := plaintexts[0], plaintexts[1..];
      var middle := counter + FrameCount(|p|);
      OpenSealed(open, sender, counter, p, SealAll(sender, middle, rest));
      OpenAll(open, sender, middle, rest);
      AfterTwice(open(counter + TotalFrames(plaintexts), []), p, Flatten(rest));
    }
  }

  lemma OpenEverything(sender: Session, receiver: Session, counter: nat, plaintexts: seq<Bytes>)
    requires Paired(sender, receiver)
    ensures Opener(Some(receiver))(counter, SealAll(sender, counter, plaintexts))
         == Parsed(Flatten(plaintexts), [], counter + TotalFrames(plaintexts))
  {
    hide SealAll, OpenFrames, TotalFrames;
    OpenerOpensFrames(sender, receiver);
    OpenerOnNothing(Some(receiver), counter + TotalFrames(plaintexts));
    OpenAll(Opener(Some(receiver)), sender, counter, plaintexts);
    assert Flatten(plaintexts) + [] == Flatten(plaintexts);
  }

  lemma OpenerOnNothing(session: Option<Session>, counter: nat)
    ensures Opener(session)(counter, []) == Parsed([], [], counter)
  {
  }

  lemma OpenerOpensFrames(sender: Session, receiver: Session)
    requires Paired(sender, receiver)
    ensures OpensFrames(Opener(Some(receiver)), sender)
  {
    forall counter: nat, chunk: Bytes, more: Bytes | |chunk| < 0x1_0000
      ensures Opener(Some(receiver))(counter, Frame(Some(sender), counter, chunk) + more)
           == Opener(Some(receiver))(counter + 1, more).After(chunk)
    {
      OpenOneFrame(sender, receiver, counter, chunk, more);
    }
  }

  /**
   Any cut of any sequence of encrypted messages is decrypted to exactly their concatenation, with
   nothing left over and the two counters in step.
   */
  lemma StreamIndependentOfCuts(
    sender: Session, receiver: Session, counter: nat, plaintexts: seq<Bytes>, pieces: seq<Bytes>)
    requires Paired(sender, receiver)
    requires Flatten(pieces) == SealAll(sender, counter, plaintexts)
    ensures FeedAll<Byte, nat>(Opener(Some(receiver)), Parsed([], [], counter), pieces)
         == Parsed(Flatten(plaintexts), [], counter + TotalFrames(plaintexts))
  {
    OpenerIsIncremental(Some(receiver));
    OpenEverything(sender, receiver, counter, plaintexts);
    FedFromStart<Byte, nat>(Opener(Some(receiver)), counter, pieces);
  }

  /** At every moment before the end, what has been delivered is a prefix of what was sent. */
  lemma DeliveredIsPrefix(
    sender: Session, receiver: Session, counter: nat, plaintexts: seq<Bytes>, pieces: seq<Bytes>, k: nat)
    requires Paired(sender, receiver)
    requires Flatten(pieces) == SealAll(sender, counter, plaintexts)
    requires k <= |pieces|
    ensures
      var soFar := FeedAll<Byte, nat>(Opener(Some(receiver)), Parsed([], [], counter), pieces[..k]);
      && soFar.Parsed? && soFar.output <= Flatten(plaintexts)
      && soFar.state <= counter + TotalFrames(plaintexts)
  {
    var open := Opener(Some(receiver));
    OpenerIsIncremental(Some(receiver));
    OpenEverything(sender, receiver, counter, plaintexts);
    FedPrefix<Byte, nat>(open, counter, pieces, k);
    var soFar := FeedAll<Byte, nat>(open, Parsed([], [], counter), pieces[..k]);
    CounterGrows(Some(receiver), soFar.state, soFar.rest + Flatten(pieces[k..]));
  }

  lemma {:induction false} CounterGrows(session: Option<Session>, counter: nat, encrypted: Bytes)
    ensures OpenFrames(session, counter, encrypted).state >= counter
    decreases |encrypted|
  {
    match CompleteFrame(encrypted)
    case None =>
    case Some(size) => CounterGrows(session, Next(session, counter), encrypted[size..]);
  }

  /** The i-th frame of a run is sealed under the i-th nonce, and no two nonces are alike. */
  lemma NoncesDistinct(format: NonceFormat, counter: nat, frames: nat, i: nat, j: nat)
    requires i < j < frames
    requires counter + frames <= if format == Companion then 0x1_0000_0000 else 0x20_0000_0000_0000
    ensures CreateNonce(counter + i, format) != CreateNonce(counter + j, format)
  {
    NonceRepeats(counter + i, counter + j, format);
    SmallMod(counter + i, Period(format));
    SmallMod(counter + j, Period(format));
  }

  lemma SmallMod(n: nat, m: nat)
    requires n < m
    ensures n % m == n
  {
  }

  // ---- The layers ----

  datatype EncryptionState = Disabled | Enabled | Error
  datatype DerivedKeys = DerivedKeys(writeKey: Bytes, readKey: Bytes)
  datatype DecryptError = DecryptionFailed

  class EncryptionLayer {
    const aead: Aead
    const nonceFormat: NonceFormat
    var state: EncryptionState
    var sessionKeys: Option<DerivedKeys>
    var sendNonce: nat
    var receiveNonce: nat

    constructor (aead: Aead, nonceFormat: NonceFormat)
      ensures this.aead == aead && this.nonceFormat == nonceFormat
      ensures state == Disabled && CurrentSession().None? && sendNonce == 0 && receiveNonce == 0
    {
      this.aead := aead;
      this.nonceFormat := nonceFormat;
      state := Disabled;
      sessionKeys := None;
      sendNonce := 0;
      receiveNonce := 0;
    }

    /** None when data is passed through. */
    function CurrentSession(): Option<Session>
      reads this
    {
      if state == Enabled && sessionKeys.Some? then
        Some(Session(aead, sessionKeys.value.writeKey, sessionKeys.value.readKey, nonceFormat))
      else None
    }

    method Enable(keys: DerivedKeys)
      modifies this
      ensures CurrentSession() == Some(Session(aead, keys.writeKey, keys.readKey, nonceFormat))
      ensures sendNonce == 0 && receiveNonce == 0
    {
      sessionKeys := Some(keys);
      sendNonce := 0;
      receiveNonce := 0;
      state := Enabled;
    }

    method Disable()
      modifies this
      ensures CurrentSession().None? && sendNonce == 0 && receiveNonce == 0
    {
      sessionKeys := None;
      sendNonce := 0;
      receiveNonce := 0;
      state := Disabled;
    }

    method Encrypt(data: Bytes, aad: Bytes) returns (r: Bytes)
      modifies this`sendNonce
      ensures r == Protect(CurrentSession(), old(sendNonce), aad, data)
      ensures sendNonce == Next(CurrentSession(), old(sendNonce))
    {
      if state != Enabled || sessionKeys.None? {
        return data;
      }
      var nonce := CreateNonce(sendNonce, nonceFormat);
      sendNonce := sendNonce + 1;
      r := aead.seal(sessionKeys.value.writeKey, nonce, aad, data);
    }

    /** The counter moves on even when the data cannot be opened, and the layer is then in error. */
    method Decrypt(data: Bytes, aad: Bytes) returns (r: Result<Bytes, DecryptError>)
      modifies this`receiveNonce, this`state
      ensures r.Ok? <==> old(Unprotect(CurrentSession(), receiveNonce, aad, data)).Some?
      ensures r.Ok? ==>
                old(Unprotect(CurrentSession(), receiveNonce, aad, data)) == Some(r.value) && state == old(state)
      ensures r.Err? ==> state == Error
      ensures receiveNonce == Next(old(CurrentSession()), old(receiveNonce))
    {
      if state != Enabled || sessionKeys.None? {
        return Ok(data);
      }
      var nonce := CreateNonce(receiveNonce, nonceFormat);
      receiveNonce := receiveNonce + 1;
      match aead.open(sessionKeys.value.readKey, nonce, aad, data)
      case Some(p) => r := Ok(p);
      case None =>
        state := Error;
        r := Err(DecryptionFailed);
    }
  }

  class HapFrameLayer {
    const encryption: EncryptionLayer

    constructor (encryption: EncryptionLayer)
      ensures this.encryption == encryption
    {
      this.encryption := encryption;
    }

    method EncryptChunk(chunk: Bytes) returns (r: Bytes)
      modifies encryption`sendNonce
      ensures r == Frame(encryption.CurrentSession(), old(encryption.sendNonce), chunk)
      ensures encryption.sendNonce == Next(encryption.CurrentSession(), old(encryption.sendNonce))
    {
      var lengthBytes := LE(|chunk|, LENGTH_SIZE);
      var ciphertext := encryption.Encrypt(chunk, lengthBytes);
      r := lengthBytes + ciphertext;
    }

    method Encrypt(plaintext: Bytes) returns (r: Bytes)
      modifies encryption`sendNonce
      ensures r == SealFrames(encryption.CurrentSession(), old(encryption.sendNonce), plaintext)
      ensures encryption.sendNonce ==
              old(encryption.sendNonce) + if encryption.CurrentSession().Some? then FrameCount(|plaintext|) else 0
    {
      hide SealFrames, Frame, FrameCount;
      r := [];
      var offset := 0;
      ghost var session, start := encryption.CurrentSession(), encryption.sendNonce;
      ghost var whole, count := SealFrames(session, start, plaintext), 0;
      assert plaintext[0..] == plaintext && [] + whole == whole;
      while offset < |plaintext|
        invariant 0 <= offset <= |plaintext|
        invariant encryption.CurrentSession() == session
        invariant encryption.sendNonce == start + if session.Some? then count else 0
        invariant FrameCount(|plaintext|) == count + FrameCount(|plaintext| - offset)
        invariant whole == r + SealFrames(session, encryption.sendNonce, plaintext[offset..])
      {
        var chunk := plaintext[offset..Min(offset + MAX_FRAME_SIZE, |plaintext|)];
        FrameCountStep(|plaintext| - offset);
        SealStep(session, encryption.sendNonce, plaintext, offset, r);
        var frame := EncryptChunk(chunk);
        r := r + frame;
        offset := offset + |chunk|;
        count := count + 1;
      }
      NothingSealed(session, encryption.sendNonce, plaintext[offset..]);
      assert r + [] == r;
    }

    /** Everything complete is decrypted, or the first frame that cannot be opened throws. */
    method Decrypt(encrypted: Bytes) returns (r: Result<(Bytes, Bytes), DecryptError>)
      modifies encryption`receiveNonce, encryption`state
      ensures match old(OpenFrames(encryption.CurrentSession(), encryption.receiveNonce, encrypted))
              case Parsed(p, remaining, n) =>
                && r == Ok((p, remaining)) && encryption.state == old(encryption.state)
                && encryption.receiveNonce == n
              case Failed(n) =>
                && r.Err? && encryption.state == Error
                && encryption.receiveNonce == n
    {
      hide OpenFrames, Unprotect;
      var decrypted: Bytes := [];
      var offset := 0;
      ghost var session := encryption.CurrentSession();
      ghost var whole := OpenFrames(session, encryption.receiveNonce, encrypted);
      assert encrypted[0..] == encrypted;
      AfterNothing(whole);
      while offset < |encrypted|
        invariant 0 <= offset <= |encrypted|
        invariant encryption.CurrentSession() == session && encryption.state == old(encryption.state)
        invariant whole == OpenFrames(session, encryption.receiveNonce, encrypted[offset..]).After(decrypted)
      {
        OpenStep(session, encryption.receiveNonce, encrypted, offset, decrypted);
        if |encrypted| - offset < LENGTH_SIZE {
          break;
        }
        var aad := encrypted[offset..offset + LENGTH_SIZE];
        var frameEnd := offset + LENGTH_SIZE + FromLE(aad) + TAG_SIZE;
        if |encrypted| < frameEnd {
          break;
        }
        var chunk :- encryption.Decrypt(encrypted[offset + LENGTH_SIZE..frameEnd], aad);
        decrypted := decrypted + chunk;
        offset := frameEnd;
      }
      NothingComplete(session, encryption.receiveNonce, encrypted[offset..], decrypted);
      r := Ok((decrypted, encrypted[offset..]));
    }
  }

  // ---- Loop invariants ----

  lemma SealStep(session: Option<Session>, counter: nat, plaintext: Bytes, offset: nat, done: Bytes)
    requires offset < |plaintext|
    ensures
      var next := Min(offset + MAX_FRAME_SIZE, |plaintext|);
      done + SealFrames(session, counter, plaintext[offset..])
      == (done + Frame(session, counter, plaintext[offset..next]))
         + SealFrames(session, Next(session, counter), plaintext[next..])
  {
    var rest := plaintext[offset..];
    var next := Min(offset + MAX_FRAME_SIZE, |plaintext|);
    assert Take(rest, MAX_FRAME_SIZE) == plaintext[offset..next];
    assert Drop(rest, MAX_FRAME_SIZE) == plaintext[next..];
    var frame, after := Frame(session, counter, plaintext[offset..next]),
        SealFrames(session, Next(session, counter), plaintext[next..]);
    assert done + (frame + after) == (done + frame) + after;
  }

  lemma NothingSealed(session: Option<Session>, counter: nat, rest: Bytes)
    requires rest == []
    ensures SealFrames(session, counter, rest) == [] && FrameCount(|rest|) == 0
  {
  }

  lemma OpenStep(session: Option<Session>, counter: nat, encrypted: Bytes, offset: nat, done: Bytes)
    requires offset < |encrypted|
    ensures
      var whole := OpenFrames(session, counter, encrypted[offset..]).After(done);
      if |encrypted| - offset < LENGTH_SIZE then CompleteFrame(encrypted[offset..]).None?
      else
        var aad := encrypted[offset..offset + LENGTH_SIZE];
        var frameEnd := offset + LENGTH_SIZE + FromLE(aad) + TAG_SIZE;
        if |encrypted| < frameEnd then CompleteFrame(encrypted[offset..]).None?
        else
          match Unprotect(session, counter, aad, encrypted[offset + LENGTH_SIZE..frameEnd])
          case None => whole == Failed(Next(session, counter))
          case Some(p) => whole == OpenFrames(session, Next(session, counter), encrypted[frameEnd..]).After(done + p)
  {
    var rest := encrypted[offset..];
    match CompleteFrame(rest)
    case None =>
      assert |rest| >= LENGTH_SIZE ==> rest[..LENGTH_SIZE] == encrypted[offset..offset + LENGTH_SIZE];
    case Some(size) =>
      assert rest[..LENGTH_SIZE] == encrypted[offset..offset + LENGTH_SIZE];
      assert rest[LENGTH_SIZE..size] == encrypted[offset + LENGTH_SIZE..offset + size];
      assert rest[size..] == encrypted[offset + size..];
      var text := Unprotect(session, counter, rest[..LENGTH_SIZE], rest[LENGTH_SIZE..size]);
      if text.Some? {
        AfterTwice(OpenFrames(session, Next(session, counter), rest[size..]), done, text.value);
      }
  }

  lemma NothingComplete(session: Option<Session>, counter: nat, rest: Bytes, done: Bytes)
    requires CompleteFrame(rest).None?
    ensures OpenFrames(session, counter, rest).After(done) == Parsed(done, rest, counter)
  {
    assert done + [] == done;
  }
}
