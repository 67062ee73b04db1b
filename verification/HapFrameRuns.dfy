/**
 The Companion frame handler over whole runs (src/protocols/companion/layers/HapFrameHandler.ts):
 the class itself, and any interleaving of `push` and `process`.
 */
module HapFrameRuns {
  import opened Results
  import opened ByteStrings
  import opened BufferPools
  import opened Buffers
  import opened StreamBuffers
  import opened HapFrameHandler

  lemma SafePassShows(m: Memory, sequence: nat, validate: bool)
    requires m.Valid() && SafePass(m, validate)
    ensures ShowsIntended(m, sequence, validate)
  {
    if Look(m.Contents()).Ready? {
      SafeProcess(m, m.readPos, sequence, validate);
    }
  }

  // ---- Runs ----

  /** Frames the parser knows. */
  predicate Sendable(f: Frame) {
    f.kind in VALID_TYPES - {0xff} && 0 < |f.payload| <= MAX_PAYLOAD
  }

  /** Frames it delivers unless they are lost on the way. */
  predicate Deliverable(f: Frame, validate: bool) {
    && f.kind in (if validate then VALIDATED_TYPES else VALID_TYPES) - {0xff}
    && 0 < |f.payload| <= MAX_PAYLOAD
  }

  function EncodeAll(frames: seq<Frame>): Bytes {
    if frames == [] then [] else EncodeFrame(frames[0].kind, frames[0].payload) + EncodeAll(frames[1..])
  }

  function Numbered(frames: seq<Frame>, sequence: nat): (r: seq<Frame>)
    ensures |r| == |frames|
  {
    seq(|frames|, i requires 0 <= i < |frames| => frames[i].(sequence := sequence + i))
  }

  /** The frames that are delivered, under the numbers of their places. */
  function Kept(frames: seq<Frame>, sequence: nat, validate: bool): seq<Frame> {
    if frames == [] then []
    else (if Deliverable(frames[0], validate) then [frames[0].(sequence := sequence)] else [])
         + Kept(frames[1..], sequence + 1, validate)
  }

  /** A push tells what memory it leaves behind; only its live part is determined. */
  datatype Step = Push(data: Bytes, after: Memory) | Run

  datatype Handler = Handler(memory: Memory, sequence: nat, emitted: seq<Frame>, errors: nat)

  ghost predicate CanStep(h: Handler, step: Step, validate: bool) {
    match step
    case Push(data, after) => Appended(h.memory, data, after)
    case Run => h.memory.Valid() && SafePass(h.memory, validate)
  }

  ghost function Do(h: Handler, step: Step, validate: bool): (after: Handler)
    requires CanStep(h, step, validate)
    ensures after.memory.Valid()
  {
    match step
    case Push(_, memory) => h.(memory := memory)
    case Run =>
      var p := Process(h.memory, h.sequence, validate);
      Handler(p.memory, p.sequence, h.emitted + Emitted(p.refs, p.memory.bytes),
              if p.invalid then h.errors + 1 else h.errors)
  }

  ghost predicate CanPlay(h: Handler, steps: seq<Step>, validate: bool)
    decreases |steps|
  {
    steps == [] || (CanStep(h, steps[0], validate) && CanPlay(Do(h, steps[0], validate), steps[1..], validate))
  }

  ghost function Play(h: Handler, steps: seq<Step>, validate: bool): (after: Handler)
    requires CanPlay(h, steps, validate)
    ensures h.memory.Valid() ==> after.memory.Valid()
    decreases |steps|
  {
    if steps == [] then h else Play(Do(h, steps[0], validate), steps[1..], validate)
  }

  function Pushed(steps: seq<Step>): Bytes {
    if steps == [] then []
    else (if steps[0].Push? then steps[0].data else []) + Pushed(steps[1..])
  }

  /** The first k frames have been emitted or dropped; the others are buffered or still to come. */
  ghost predicate Progress(h: Handler, toCome: Bytes, frames: seq<Frame>, k: nat, validate: bool) {
    && h.memory.Valid() && k <= |frames|
    && h.emitted == Kept(frames[..k], 0, validate)
    && h.sequence == k && h.errors == 0
    && h.memory.Contents() + toCome == EncodeAll(frames[k..])
  }

  // ---- One pass ----

  /** The next pass has something to do again: this one ended because it dropped the k-th frame. */
  predicate EndedEarly(frames: seq<Frame>, k: nat, validate: bool) {
    0 < k <= |frames| && !Deliverable(frames[k - 1], validate)
  }

  /**
   A pass over the start of an encoded list takes whole frames off it, and delivers them all until it
   drops one, which ends it. If no frame has to be dropped and all bytes are there it takes all.
   */
  lemma {:induction false} ScanPrefix(contents: Bytes, toCome: Bytes, frames: seq<Frame>, sequence: nat, validate: bool)
    returns (k: nat)
    requires contents + toCome == EncodeAll(frames)
    requires forall f | f in frames :: Sendable(f)
    ensures k <= |frames|
    ensures
      var s := Scan(contents, sequence, validate);
      && s.frames == Kept(frames[..k], sequence, validate)
      && s.rest + toCome == EncodeAll(frames[k..])
      && s.sequence == sequence + k && !s.invalid
    ensures forall j | 0 <= j < k - 1 :: Deliverable(frames[j], validate)
    ensures toCome == [] ==> k == |frames| || EndedEarly(frames, k, validate)
    decreases |frames|
  {
    hide Scan, Look, EncodeFrame;
    k := 0;
    assert frames != [] ==> frames[0] in frames;
    if frames == [] || |contents| < |EncodeFrame(frames[0].kind, frames[0].payload)| {
      NothingComplete(contents, toCome, frames, sequence, validate);
    } else {
      var f, rest := frames[0], EncodeAll(frames[1..]);
      var first := EncodeFrame(f.kind, f.payload);
      assert contents[..|first|] == (contents + toCome)[..|first|] == first;
      assert contents[|first|..] + toCome == (contents + toCome)[|first|..] == rest;
      assert contents == first + contents[|first|..];
      LookAtFrame(f.kind, f.payload, contents[|first|..]);
      if Deliverable(f, validate) {
        ScanFront(contents, f, sequence, validate);
        k := ScanPrefix(contents[|first|..], toCome, frames[1..], sequence + 1, validate);
        forall j | 0 < j < k ensures Deliverable(frames[j], validate) {
          assert frames[j] == frames[1..][j - 1];
        }
        assert k > 0 ==> frames[1..][k - 1] == frames[k];
      } else {
        ScanDrops(contents, f, sequence, validate);
      }
      KeptCons(frames, k, sequence, validate);
      k := k + 1;
    }
  }

  lemma NothingComplete(contents: Bytes, toCome: Bytes, frames: seq<Frame>, sequence: nat, validate: bool)
    requires contents + toCome == EncodeAll(frames)
    requires frames != [] ==> Sendable(frames[0])
    requires frames == [] || |contents| < |EncodeFrame(frames[0].kind, frames[0].payload)|
    ensures Scan(contents, sequence, validate) == Scanned([], contents, sequence, false)
    ensures toCome == [] ==> frames == []
  {
    hide EncodeFrame;
    if frames != [] {
      var f, rest := frames[0], EncodeAll(frames[1..]);
      LookAtFrame(f.kind, f.payload, rest);
      IncompleteWaits(contents, toCome, EncodeFrame(f.kind, f.payload), rest);
    }
  }

  lemma IncompleteWaits(contents: Bytes, toCome: Bytes, first: Bytes, rest: Bytes)
    requires contents + toCome == first + rest && |contents| < |first|
    requires Look(first + rest) == Ready(|first|)
    ensures Look(contents) == Wait
  {
    if |contents| >= HEADER_SIZE {
      assert contents[..HEADER_SIZE] == (contents + toCome)[..HEADER_SIZE];
    }
  }

  lemma ScanFront(contents: Bytes, f: Frame, sequence: nat, validate: bool)
    requires Deliverable(f, validate)
    requires EncodeFrame(f.kind, f.payload) <= contents
    requires Look(contents) == Ready(|EncodeFrame(f.kind, f.payload)|)
    ensures
      var more := Scan(contents[|EncodeFrame(f.kind, f.payload)|..], sequence + 1, validate);
      Scan(contents, sequence, validate) == more.(frames := [f.(sequence := sequence)] + more.frames)
  {
    hide Scan;
    var first := EncodeFrame(f.kind, f.payload);
    assert contents[..|first|] == first;
    ParseFrameIn(first, f.kind, f.payload);
    ScanTakes(contents, |first|, f.kind, |f.payload|, sequence, validate);
    assert contents[HEADER_SIZE..HEADER_SIZE + |f.payload|] == first[HEADER_SIZE..HEADER_SIZE + |f.payload|];
  }

  lemma ScanDrops(contents: Bytes, f: Frame, sequence: nat, validate: bool)
    requires Sendable(f) && !Deliverable(f, validate)
    requires EncodeFrame(f.kind, f.payload) <= contents
    requires Look(contents) == Ready(|EncodeFrame(f.kind, f.payload)|)
    ensures Scan(contents, sequence, validate)
         == Scanned([], contents[|EncodeFrame(f.kind, f.payload)|..], sequence + 1, false)
  {
    var first := EncodeFrame(f.kind, f.payload);
    assert contents[..|first|] == first;
    ParseFrameIn(first, f.kind, f.payload);
  }

  lemma KeptCons(frames: seq<Frame>, k: nat, sequence: nat, validate: bool)
    requires k < |frames|
    ensures Kept(frames[..k + 1], sequence, validate)
         == (if Deliverable(frames[0], validate) then [frames[0].(sequence := sequence)] else [])
            + Kept(frames[1..][..k], sequence + 1, validate)
    ensures frames[1..][k..] == frames[k + 1..]
  {
    assert frames[..k + 1][1..] == frames[1..][..k];
  }

  lemma {:induction false} KeptAppend(a: seq<Frame>, b: seq<Frame>, sequence: nat, validate: bool)
    ensures Kept(a + b, sequence, validate) == Kept(a, sequence, validate) + Kept(b, sequence + |a|, validate)
    decreases |a|
  {
    hide Deliverable;
    if a == [] {
      assert a + b == b && Kept(a, sequence, validate) == [];
    } else {
      var rest := a[1..];
      assert (a + b)[1..] == rest + b;
      KeptAppend(rest, b, sequence + 1, validate);
      KeptFirst(a, sequence, validate);
      KeptFirst(a + b, sequence, validate);
      hide Kept;
    }
  }

  lemma KeptFirst(frames: seq<Frame>, sequence: nat, validate: bool)
    requires frames != []
    ensures Kept(frames, sequence, validate)
         == (if Deliverable(frames[0], validate) then [frames[0].(sequence := sequence)] else [])
            + Kept(frames[1..], sequence + 1, validate)
  {
  }

  /** Nothing is dropped if and only if every frame is deliverable. */
  lemma {:induction false} KeptIsNumbered(frames: seq<Frame>, sequence: nat, validate: bool)
    ensures |Kept(frames, sequence, validate)| <= |frames|
    ensures |Kept(frames, sequence, validate)| == |frames| <==> forall f | f in frames :: Deliverable(f, validate)
    ensures (forall f | f in frames :: Deliverable(f, validate)) ==>
              Kept(frames, sequence, validate) == Numbered(frames, sequence)
    decreases |frames|
  {
    hide Deliverable;
    if frames != [] {
      KeptIsNumbered(frames[1..], sequence + 1, validate);
      assert frames == [frames[0]] + frames[1..];
      if forall f | f in frames :: Deliverable(f, validate) {
        assert frames[0] in frames && forall f | f in frames[1..] :: f in frames;
        assert [frames[0].(sequence := sequence)] + Numbered(frames[1..], sequence + 1) == Numbered(frames, sequence);
      }
    }
  }

  /** By number: pairing frames and encrypted messages always, session frames only without validation. */
  lemma TypesDelivered(kind: Byte, payload: Bytes, sequence: nat)
    requires 0 < |payload| <= 65536
    ensures Deliverable(Frame(kind, payload, sequence), true) <==> kind in {0x03, 0x04, 0x05, 0x06, 0x08}
    ensures Deliverable(Frame(kind, payload, sequence), false)
       <==> kind in {0x03, 0x04, 0x05, 0x06, 0x08, 0x10, 0x11}
  {
  }

  /** An encrypted message as it comes from the wire is emitted, with validation on. */
  lemma EncryptedMessageArrives(a: Byte, b: Byte, c: Byte, payload: Bytes, sequence: nat)
    requires |payload| == Three(a, b, c) && 0 < |payload| <= 65536
    ensures Scan([0x08, a, b, c] + payload, sequence, true)
         == Scanned([Frame(0x08, payload, sequence)], [], sequence + 1, false)
  {
    hide Scan, Look;
    var contents := [0x08, a, b, c] + payload;
    FrameBytes(0x08, payload);
    var encoded := EncodeFrame(0x08, payload);
    ThreeDigits(encoded[1], encoded[2], encoded[3], a, b, c);
    assert encoded == [encoded[0], encoded[1], encoded[2], encoded[3]] + encoded[4..];
    assert encoded == contents;
    assert encoded + [] == encoded && encoded[|encoded|..] == [];
    LookAtFrame(0x08, payload, []);
    ScanFront(encoded, Frame(0x08, payload, sequence), sequence, true);
    ScanNothing(sequence + 1, true);
  }

  lemma ThreeDigits(a: Byte, b: Byte, c: Byte, a': Byte, b': Byte, c': Byte)
    requires Three(a, b, c) == Three(a', b', c')
    ensures a == a' && b == b' && c == c'
  {
  }

  /** One pass delivers a whole list if and only if validation lets every one of its types through. */
  lemma WholeScanIsExact(frames: seq<Frame>, validate: bool)
    requires forall f | f in frames :: Sendable(f)
    ensures Scan(EncodeAll(frames), 0, validate).frames == Numbered(frames, 0)
       <==> forall f | f in frames :: Deliverable(f, validate)
  {
    hide Scan, Sendable, Deliverable;
    assert EncodeAll(frames) + [] == EncodeAll(frames);
    var k := ScanPrefix(EncodeAll(frames), [], frames, 0, validate);
    KeptIsNumbered(frames[..k], 0, validate);
    KeptIsNumbered(frames, 0, validate);
    assert frames[..|frames|] == frames;
    assert 0 < k ==> frames[k - 1] in frames;
  }

  /**
   A session frame in front of another frame, with validation on: the pass drops it and ends, and
   the other frame waits for the next pass.
   */
  lemma SessionFrameEndsPass(session: Byte, p: Bytes, kind: Byte, q: Bytes)
    requires session in {0x10, 0x11} && kind in VALIDATED_TYPES - {0xff}
    requires 0 < |p| <= MAX_PAYLOAD && 0 < |q| <= MAX_PAYLOAD
    ensures
      var frames := [Frame(session, p, 0), Frame(kind, q, 1)];
      && Scan(EncodeAll(frames), 0, true) == Scanned([], EncodeFrame(kind, q), 1, false)
      && Scan(EncodeFrame(kind, q), 1, true) == Scanned([frames[1]], [], 2, false)
  {
    hide EncodeFrame, Scan, Look;
    var f, g := Frame(session, p, 0), Frame(kind, q, 1);
    var first, second := EncodeFrame(session, p), EncodeFrame(kind, q);
    assert [f, g][1..] == [g] && [g][1..] == [] && EncodeAll([g]) == second + [] == second;
    var all := EncodeAll([f, g]);
    assert all == first + second && all[|first|..] == second && second[|second|..] == [];
    LookAtFrame(session, p, second);
    ScanDrops(all, f, 0, true);
    LookAtFrame(kind, q, []);
    ScanFront(second, g, 1, true);
    ScanNothing(2, true);
  }

  lemma ScanNothing(sequence: nat, validate: bool)
    ensures Scan([], sequence, validate) == Scanned([], [], sequence, false)
  {
  }

  // ---- Every step, every run ----

  lemma RunProgress(h: Handler, toCome: Bytes, frames: seq<Frame>, k: nat, validate: bool) returns (k': nat)
    requires forall f | f in frames :: Sendable(f)
    requires Progress(h, toCome, frames, k, validate) && CanStep(h, Run, validate)
    ensures Progress(Do(h, Run, validate), toCome, frames, k', validate)
    ensures toCome == [] ==> k' == |frames| || EndedEarly(frames, k', validate)
  {
    hide Process, Scan, Emitted, Kept, EncodeAll, SafePass, Memory.Contents;
    SafePassShows(h.memory, h.sequence, validate);
    var more := ScanPrefix(h.memory.Contents(), toCome, frames[k..], k, validate);
    k' := k + more;
    KeptAppend(frames[..k], frames[k..][..more], 0, validate);
    assert frames[..k] + frames[k..][..more] == frames[..k'];
    assert frames[k..][more..] == frames[k'..];
  }

  lemma PushProgress(h: Handler, step: Step, toCome: Bytes, frames: seq<Frame>, k: nat, validate: bool)
    requires step.Push? && CanStep(h, step, validate)
    requires Progress(h, step.data + toCome, frames, k, validate)
    ensures Progress(Do(h, step, validate), toCome, frames, k, validate)
  {
    var contents := h.memory.Contents();
    assert (contents + step.data) + toCome == contents + (step.data + toCome);
  }

  /**
   However the encoded frames are cut and pushes and passes interleave, what has been emitted are
   the first frames in order, numbered by their places from 0, except those that validation drops;
   a pass after the last byte has emitted all of them unless it ended at one it dropped.
   */
  lemma {:induction false} RunsEmitInOrder(h: Handler, steps: seq<Step>, frames: seq<Frame>, k: nat, validate: bool)
    returns (k': nat)
    requires forall f | f in frames :: Sendable(f)
    requires CanPlay(h, steps, validate)
    requires Progress(h, Pushed(steps), frames, k, validate)
    ensures Progress(Play(h, steps, validate), [], frames, k', validate)
    ensures steps != [] && steps[|steps| - 1] == Run ==> k' == |frames| || EndedEarly(frames, k', validate)
    decreases |steps|
  {
    hide EndedEarly;
    if steps == [] {
      k' := k;
    } else {
      var rest := steps[1..];
      var middle := k;
      if steps[0].Run? {
        assert [] + Pushed(rest) == Pushed(rest);
        middle := RunProgress(h, Pushed(rest), frames, k, validate);
      } else {
        PushProgress(h, steps[0], Pushed(rest), frames, k, validate);
      }
      k' := RunsEmitInOrder(Do(h, steps[0], validate), rest, frames, middle, validate);
      assert rest != [] ==> rest[|rest| - 1] == steps[|steps| - 1];
    }
  }

  /**
   From a new handler, whatever its memory held: segmentation does not change what is emitted, and
   a run that ends with a pass has emitted every frame if and only if every frame is deliverable.
   */
  lemma SegmentationDoesNotMatter(initial: Bytes, steps: seq<Step>, frames: seq<Frame>, validate: bool)
    requires forall f | f in frames :: Sendable(f)
    requires Pushed(steps) == EncodeAll(frames)
    requires CanPlay(Handler(Memory(initial, 0, 0), 0, [], 0), steps, validate)
    ensures
      var h := Play(Handler(Memory(initial, 0, 0), 0, [], 0), steps, validate);
      && h.emitted <= Kept(frames, 0, validate) && h.errors == 0
      && (steps != [] && steps[|steps| - 1] == Run ==>
            (h.emitted == Numbered(frames, 0) <==> forall f | f in frames :: Deliverable(f, validate))
            && (h.emitted == Numbered(frames, 0) ==> h.memory.Contents() == []))
  {
    hide Play, CanPlay, Kept, Numbered, EncodeAll, Sendable, Deliverable;
    var start := Handler(Memory(initial, 0, 0), 0, [], 0);
    NothingYet(start, Pushed(steps), frames, validate);
    var k := RunsEmitInOrder(start, steps, frames, 0, validate);
    var h := Play(start, steps, validate);
    assert h.memory.Contents() + [] == h.memory.Contents();
    WhatIsEmitted(frames, k, validate);
  }

  lemma NothingYet(h: Handler, toCome: Bytes, frames: seq<Frame>, validate: bool)
    requires h.memory.Valid() && h.memory.Contents() == [] && h.emitted == [] && h.sequence == h.errors == 0
    requires toCome == EncodeAll(frames)
    ensures Progress(h, toCome, frames, 0, validate)
  {
    assert frames[0..] == frames && [] + toCome == toCome;
  }

  /** After k of the frames, whether the run ended there or before a frame that is still to come. */
  lemma WhatIsEmitted(frames: seq<Frame>, k: nat, validate: bool)
    requires k <= |frames|
    ensures Kept(frames[..k], 0, validate) <= Kept(frames, 0, validate)
    ensures k == |frames| || EndedEarly(frames, k, validate) ==>
              (Kept(frames[..k], 0, validate) == Numbered(frames, 0) <==>
                 forall f | f in frames :: Deliverable(f, validate))
              && (Kept(frames[..k], 0, validate) == Numbered(frames, 0) ==> EncodeAll(frames[k..]) == [])
  {
    hide Deliverable, Kept, Numbered;
    KeptAppend(frames[..k], frames[k..], 0, validate);
    assert frames[..k] + frames[k..] == frames;
    KeptIsNumbered(frames[..k], 0, validate);
    KeptIsNumbered(frames, 0, validate);
    assert 0 < k ==> frames[k - 1] in frames;
  }

  /** Amounts alone: whoever never lets more wait than half the buffer holds never loses a frame. */
  lemma SmallBacklogIsSafe(h: Handler, validate: bool)
    requires h.memory.Valid() && 2 * |h.memory.Contents()| <= |h.memory.bytes|
    ensures CanStep(h, Run, validate)
  {
    HalfEmptyIsSafe(h.memory.Contents(), h.memory.readPos, |h.memory.bytes|, h.memory.readPos, validate);
  }

  // ---- The handler ----

  datatype EncodeError = PayloadTooLong

  class FrameHandler {
    const validateFrames: bool
    const streamBuffer: StreamBuffer
    var sequenceNumber: nat

    ghost predicate Valid()
      reads this, streamBuffer, streamBuffer.pool
    {
      streamBuffer.Valid() && streamBuffer.maxSize == MAX_SIZE
    }

    constructor (validateFrames: bool := true)
      ensures Valid() && fresh(streamBuffer) && fresh(streamBuffer.Repr())
      ensures this.validateFrames == validateFrames && sequenceNumber == 0
      ensures streamBuffer.Contents() == [] && streamBuffer.buffer.Length == INITIAL_SIZE
    {
      hide FRAME_BUCKETS;
      this.validateFrames := validateFrames;
      var pool := new BufferPool(Config(FRAME_BUCKETS, 10, false));
      DoublingIsExact(pool);
      streamBuffer := new StreamBuffer(INITIAL_SIZE, MAX_SIZE, pool);
      sequenceNumber := 0;
    }

    /**
     The length has to fit 24 bits, or the write throws. The writer takes its buffer out of the pool of
     the stream buffer, which only holds whole buffers, and gives none back.
     */
    method Encode(payload: Bytes, kind: Byte) returns (r: Result<Bytes, EncodeError>)
      requires Valid()
      modifies streamBuffer.pool, streamBuffer.pool.Memories()
      ensures Valid() && streamBuffer.Snapshot() == old(streamBuffer.Snapshot())
      ensures streamBuffer.pool.Memories() <= old(streamBuffer.pool.Memories())
      ensures r == if |payload| < 0x100_0000 then Ok(EncodeFrame(kind, payload)) else Err(PayloadTooLong)
    {
      hide MemoriesOf, Separate, Whole, LengthsOf, BucketSize, CapacitiesExact;
      Pow256Values();
      var writer := new BufferWriter(4 + |payload|, streamBuffer.pool);
      var ok := writer.WriteUInt8(kind);
      if |payload| >= 0x100_0000 {
        return Err(PayloadTooLong);
      }
      ok := writer.WriteUIntBE(|payload|, 3);
      assert writer.Contents() == [kind] + BE(|payload|, 3);
      writer.WriteBuffer(payload);
      r := Ok(writer.Contents());
    }

    method Push(data: Bytes) returns (r: Result<(), StreamError>)
      requires Valid()
      modifies streamBuffer.Repr()
      ensures Valid() && sequenceNumber == old(sequenceNumber) && fresh(streamBuffer.Repr() - old(streamBuffer.Repr()))
      ensures r.Ok? ==> Appended(old(streamBuffer.Snapshot()), data, streamBuffer.Snapshot())
      ensures r.Err? ==> |old(streamBuffer.Contents())| + |data| > 1048576
                         && streamBuffer.Contents() == old(streamBuffer.Contents())
    {
      ghost var m := streamBuffer.Snapshot();
      assert m.Contents() == streamBuffer.Contents();
      r := streamBuffer.Append(data);
      assert streamBuffer.Snapshot().Contents() == streamBuffer.Contents();
    }

    /** Returns the frames as views, to be read once the pass is over. */
    method Process() returns (frames: seq<FrameRef>, invalid: bool)
      requires Valid()
      modifies this`sequenceNumber, streamBuffer`readPos, streamBuffer`writePos, streamBuffer.buffer
      ensures Valid() && streamBuffer.buffer == old(streamBuffer.buffer)
      ensures
        var p := HapFrameHandler.Process(old(streamBuffer.Snapshot()), old(sequenceNumber), validateFrames);
        && frames == p.refs && streamBuffer.Snapshot() == p.memory
        && sequenceNumber == p.sequence && invalid == p.invalid
    {
      hide HapFrameHandler.Process, NextOf;
      frames, invalid := [], false;
      ghost var whole := HapFrameHandler.Process(streamBuffer.Snapshot(), sequenceNumber, validateFrames);
      assert Continued([], whole) == whole;
      var go := true;
      while go
        invariant Valid() && streamBuffer.buffer == old(streamBuffer.buffer)
        invariant whole == Continued(frames, if go
                             then HapFrameHandler.Process(streamBuffer.Snapshot(), sequenceNumber, validateFrames)
                             else Processed([], streamBuffer.Snapshot(), sequenceNumber, invalid))
        invariant go ==> !invalid
        decreases streamBuffer.Available(), go
      {
        ghost var before := streamBuffer.Snapshot();
        ghost var sequence := sequenceNumber;
        var frame;
        frame, go, invalid := Next();
        ContinuedTwice(frames, before, sequence, validateFrames);
        frames := frames + frame;
      }
      assert frames + [] == frames;
    }

    /** One iteration: the frame taken if there was one, and whether to go on. */
    method Next() returns (frame: seq<FrameRef>, more: bool, invalid: bool)
      requires Valid()
      modifies this`sequenceNumber, streamBuffer`readPos, streamBuffer`writePos, streamBuffer.buffer
      ensures Valid() && streamBuffer.buffer == old(streamBuffer.buffer)
      ensures NextOf(old(streamBuffer.Snapshot()), old(sequenceNumber), validateFrames)
           == Iteration(frame, streamBuffer.Snapshot(), sequenceNumber, more, invalid)
      ensures streamBuffer.Available() + (if more then HEADER_SIZE else 0) <= old(streamBuffer.Available())
      ensures more ==> !invalid
    {
      frame, more, invalid := [], false, false;
      ghost var m := streamBuffer.Snapshot();
      assert m.Contents() == streamBuffer.Contents();
      if streamBuffer.Available() < HEADER_SIZE {
        return;
      }
      var peeked := streamBuffer.Peek(HEADER_SIZE);
      var header := peeked.value.Bytes();
      if !DetectHAPFrame(header) {
        invalid := true;
        return;
      }
      var frameSize := GetFrameSize(header);
      if streamBuffer.Available() < frameSize {
        return;
      }
      assert Look(m.Contents()) == Ready(frameSize);
      frame, more := Take(frameSize);
    }

    method Take(frameSize: nat) returns (frame: seq<FrameRef>, more: bool)
      requires Valid() && HEADER_SIZE <= frameSize <= streamBuffer.Available()
      requires Look(streamBuffer.Snapshot().Contents()) == Ready(frameSize)
      modifies this`sequenceNumber, streamBuffer`readPos, streamBuffer`writePos, streamBuffer.buffer
      ensures Valid() && streamBuffer.buffer == old(streamBuffer.buffer)
      ensures NextOf(old(streamBuffer.Snapshot()), old(sequenceNumber), validateFrames)
           == Iteration(frame, streamBuffer.Snapshot(), sequenceNumber, more, false)
      ensures streamBuffer.Available() + frameSize == old(streamBuffer.Available())
    {
      hide Look, ParseHAPFrame, Accepted, Memory.Consume, Memory.Consumed, Memory.Contents;
      frame, more := [], false;
      ghost var m := streamBuffer.Snapshot();
      var data := streamBuffer.Consume(frameSize);
      assert |m.Consume(frameSize).Contents()| == |m.Contents()| - frameSize;
      var parsed := ParseHAPFrame(data.value.Bytes());
      if parsed.Some? {
        var (kind, length) := parsed.value;
        if Accepted(kind, length, validateFrames) {
          frame := [FrameRef(kind, data.value.offset + HEADER_SIZE, length, sequenceNumber)];
          more := true;
        }
        sequenceNumber := sequenceNumber + 1;
      }
    }

    /** The listeners run: what they read through the views. */
    method Emit(refs: seq<FrameRef>) returns (shown: seq<Frame>)
      requires Valid()
      ensures shown == Emitted(refs, streamBuffer.Snapshot().bytes)
    {
      hide Emitted;
      shown := [];
      var i := 0;
      ghost var bytes := streamBuffer.Snapshot().bytes;
      assert refs[0..] == refs;
      while i < |refs|
        invariant 0 <= i <= |refs|
        invariant Emitted(refs, bytes) == shown + Emitted(refs[i..], bytes)
      {
        var ref := refs[i];
        var payload := if ref.offset + ref.length <= streamBuffer.buffer.Length
          then View(streamBuffer.buffer, ref.offset, ref.length).Bytes() else [];
        assert payload == Region(bytes, ref.offset, ref.length);
        EmittedStep(refs, i, bytes, shown);
        shown := shown + [Frame(ref.kind, payload, ref.sequence)];
        i := i + 1;
      }
      NothingEmitted(refs[i..], bytes);
    }

    /** When the pass is safe, listeners are shown the frames that were sent. */
    method ProcessAndEmit() returns (shown: seq<Frame>, invalid: bool)
      requires Valid()
      modifies this`sequenceNumber, streamBuffer`readPos, streamBuffer`writePos, streamBuffer.buffer
      ensures Valid() && streamBuffer.buffer == old(streamBuffer.buffer)
      ensures old(SafePass(streamBuffer.Snapshot(), validateFrames)) ==>
                Scan(old(streamBuffer.Contents()), old(sequenceNumber), validateFrames)
                == Scanned(shown, streamBuffer.Contents(), sequenceNumber, invalid)
    {
      ghost var m := streamBuffer.Snapshot();
      assert m.Contents() == streamBuffer.Contents();
      ghost var sequence := sequenceNumber;
      var frames;
      frames, invalid := Process();
      shown := Emit(frames);
      assert streamBuffer.Snapshot().Contents() == streamBuffer.Contents();
      if SafePass(m, validateFrames) {
        SafePassShows(m, sequence, validateFrames);
      }
    }
  }

  lemma EmittedStep(refs: seq<FrameRef>, i: nat, bytes: Bytes, done: seq<Frame>)
    requires i < |refs|
    ensures
      var shown := Frame(refs[i].kind, Region(bytes, refs[i].offset, refs[i].length), refs[i].sequence);
      done + Emitted(refs[i..], bytes) == (done + [shown]) + Emitted(refs[i + 1..], bytes)
  {
    assert refs[i..][1..] == refs[i + 1..];
  }

  lemma NothingEmitted(refs: seq<FrameRef>, bytes: Bytes)
    requires refs == []
    ensures Emitted(refs, bytes) == []
  {
  }

  // ---- The loop of `process` ----

  datatype Iteration = Iteration(frame: seq<FrameRef>, memory: Memory, sequence: nat, more: bool, invalid: bool)

  function NextOf(m: Memory, sequence: nat, validate: bool): (r: Iteration)
    requires m.Valid()
    ensures r.memory.Valid()
  {
    match Look(m.Contents())
    case Wait => Iteration([], m, sequence, false, false)
    case Invalid => Iteration([], m, sequence, false, true)
    case Ready(size) =>
      match ParseHAPFrame(m.Consumed(size))
      case None => Iteration([], m.Consume(size), sequence, false, false)
      case Some((kind, length)) =>
        if Accepted(kind, length, validate) then
          Iteration([FrameRef(kind, m.readPos + HEADER_SIZE, length, sequence)], m.Consume(size), sequence + 1, true,
              false)
        else Iteration([], m.Consume(size), sequence + 1, false, false)
  }

  ghost function Continued(done: seq<FrameRef>, p: Processed): Processed {
    p.(refs := done + p.refs)
  }

  /** What is left of the loop after one iteration. */
  ghost function AfterNext(n: Iteration, validate: bool): Processed
    requires n.memory.Valid()
  {
    if n.more then HapFrameHandler.Process(n.memory, n.sequence, validate)
    else Processed([], n.memory, n.sequence, n.invalid)
  }

  lemma ProcessIsNext(m: Memory, sequence: nat, validate: bool)
    requires m.Valid()
    ensures
      var n := NextOf(m, sequence, validate);
      HapFrameHandler.Process(m, sequence, validate) == Continued(n.frame, AfterNext(n, validate))
  {
    hide HapFrameHandler.Process, Look, ParseHAPFrame, Accepted, Memory.Consume, Memory.Consumed, Memory.Contents;
    var n := NextOf(m, sequence, validate);
    if n.more {
      var size := Look(m.Contents()).size;
      var (kind, length) := ParseHAPFrame(m.Consumed(size)).value;
      ProcessTakes(m, size, kind, length, sequence, validate);
    } else {
      ProcessStops(m, sequence, validate);
    }
  }

  lemma ProcessStops(m: Memory, sequence: nat, validate: bool)
    requires m.Valid() && !NextOf(m, sequence, validate).more
    ensures
      var n := NextOf(m, sequence, validate);
      n.frame == [] && HapFrameHandler.Process(m, sequence, validate) == Processed([], n.memory, n.sequence, n.invalid)
  {
    hide Look, ParseHAPFrame, Accepted, Memory.Consume, Memory.Consumed, Memory.Contents;
  }

  lemma ContinuedTwice(done: seq<FrameRef>, m: Memory, sequence: nat, validate: bool)
    requires m.Valid()
    ensures
      var n := NextOf(m, sequence, validate);
      Continued(done, HapFrameHandler.Process(m, sequence, validate))
          == Continued(done + n.frame, AfterNext(n, validate))
  {
    hide HapFrameHandler.Process, NextOf, AfterNext;
    ProcessIsNext(m, sequence, validate);
    var n := NextOf(m, sequence, validate);
    assert done + (n.frame + AfterNext(n, validate).refs) == (done + n.frame) + AfterNext(n, validate).refs;
  }
}
