/**
 The pair-verify flow (src/protocols/companion/layers/HAPAuthenticationService.ts): a service whose
 handlers are suspended at every `await`. What is suspended is kept in `pending` and may be resumed
 in any order, also after the service was reset.
 */
module PairVerify {
  import opened Results
  import opened ByteStrings
  import Tlv8

  datatype KeyPair = KeyPair(privateKey: Bytes, publicKey: Bytes)
  datatype Credentials = Credentials(identifier: Bytes, privateKey: Bytes, accessoryPublicKey: Bytes)
  datatype SessionKeys = SessionKeys(writeKey: Bytes, readKey: Bytes)

  /** X25519, the decryption of M2 under a key from the secret, Ed25519, and the key derivation. */
  datatype Crypto = Crypto(
    shared: (Bytes, Bytes) -> Option<Bytes>,
    openM2: (Bytes, Bytes) -> Option<Bytes>,
    verify: (Bytes, Bytes, Bytes) -> bool,
    derive: Bytes -> SessionKeys)

  const IDENTIFIER: Byte := 0x01
  const PUBLIC_KEY: Byte := 0x03
  const ENCRYPTED_DATA: Byte := 0x05
  const SEQ_NO: Byte := 0x06
  const ERROR: Byte := 0x07
  const SIGNATURE: Byte := 0x0a

  /** The two fields of an M2 message that matter. */
  datatype M2 = M2(publicKey: Bytes, encryptedData: Bytes)

  /** A VerificationFlowHandler, and the `verify` call it was created for. */
  datatype Handler = Handler(
    call: nat, credentials: Credentials, keyPair: KeyPair,
    sharedSecret: Option<Bytes>, sessionKeys: Option<SessionKeys>)

  /** Where a suspended function continues. */
  datatype Continuation =
    | StartKey(call: nat, credentials: Credentials)       // the key pair is being generated
    | StartSend(call: nat)                                // M1 is being sent
    | M2Secret(handler: nat, m2: M2)                      // the shared secret is being computed
    | M2Check(handler: nat, m2: M2, secret: Bytes)        // M2 is being decrypted and verified
    | M2Sign(handler: nat, m2: M2)                        // M3 is being signed and encrypted
    | M2Send(handler: nat)                                // M3 is being sent

  datatype State = Idle | VerifyingM1 | VerifyingM2 | VerifyingM3 | VerifyingM4 | Verified | Failed

  /** How a call of `verify` ended. */
  datatype Outcome = Delivered(call: nat, handler: nat, keys: SessionKeys) | Rejected(call: nat)

  datatype Service = Service(
    state: State,
    verificationHandler: Option<nat>,
    currentOperation: Option<nat>,
    handlers: seq<Handler>,
    pending: map<nat, Continuation>,
    nextId: nat,
    timers: nat,
    calls: nat,
    outcomes: seq<Outcome>)

  datatype Event =
    | Verify(credentials: Credentials)
    | Resume(id: nat, keyPair: KeyPair, ok: bool)
    | Frame(tlv: Tlv8.TlvData)
    | Timeout

  const INITIAL: Service := Service(Idle, None, None, [], map[], 0, 0, 0, [])

  // ---- The signature check ----

  function CheckM2(crypto: Crypto, secret: Bytes, h: Handler, m2: M2): bool {
    match crypto.openM2(secret, m2.encryptedData)
    case None => false
    case Some(plain) =>
      var inner := Tlv8.DecodeObject(plain);
      && IDENTIFIER in inner && SIGNATURE in inner
      && crypto.verify(inner[SIGNATURE], m2.publicKey + inner[IDENTIFIER] + h.keyPair.publicKey,
                       h.credentials.accessoryPublicKey)
  }

  function SecretOf(crypto: Crypto, h: Handler, publicKey: Bytes): Option<Bytes> {
    crypto.shared(h.keyPair.privateKey, publicKey)
  }

  /** The message passes the handler's check under the secret of its own exchange. */
  predicate Authentic(crypto: Crypto, h: Handler, m2: M2) {
    var secret := SecretOf(crypto, h, m2.publicKey);
    secret.Some? && CheckM2(crypto, secret.value, h, m2)
  }

  // ---- Steps ----

  function AfterReset(s: Service): Service {
    s.(state := Idle, verificationHandler := None, currentOperation := None)
  }

  function RejectOperation(s: Service): Service {
    match s.currentOperation
    case None => s
    case Some(call) => s.(outcomes := s.outcomes + [Rejected(call)], currentOperation := None)
  }

  function AfterError(s: Service): Service {
    AfterReset(RejectOperation(s))
  }

  function Suspend(s: Service, c: Continuation): Service {
    s.(pending := s.pending[s.nextId := c], nextId := s.nextId + 1)
  }

  function DoVerify(s: Service, credentials: Credentials): Service {
    var s' := s.(calls := s.calls + 1);
    if s.state != Idle then s'.(outcomes := s.outcomes + [Rejected(s.calls)])
    else Suspend(s', StartKey(s.calls, credentials))
  }

  function WithHandler(s: Service, i: nat, h: Handler): Service
    requires i < |s.handlers|
  {
    s.(handlers := s.handlers[i := h])
  }

  /** The service from the point where a suspended function continues to where it is suspended again. */
  function Continue(crypto: Crypto, s: Service, c: Continuation, keyPair: KeyPair, ok: bool): Service {
    match c
    case StartKey(call, credentials) =>
      if !ok then s.(outcomes := s.outcomes + [Rejected(call)])
      else
        var h := Handler(call, credentials, keyPair, None, None);
        Suspend(s.(handlers := s.handlers + [h], verificationHandler := Some(|s.handlers|)), StartSend(call))
    case StartSend(call) =>
      if !ok then s.(outcomes := s.outcomes + [Rejected(call)])
      else s.(state := VerifyingM1, currentOperation := Some(call), timers := s.timers + 1)
    case M2Secret(i, m2) =>
      if !ok || i >= |s.handlers| then AfterError(s)
      else
        (match SecretOf(crypto, s.handlers[i], m2.publicKey)
         case None => AfterError(s)
         case Some(secret) =>
           Suspend(WithHandler(s, i, s.handlers[i].(sharedSecret := Some(secret))), M2Check(i, m2, secret)))
    case M2Check(i, m2, secret) =>
      if i < |s.handlers| && CheckM2(crypto, secret, s.handlers[i], m2) then Suspend(s, M2Sign(i, m2))
      else AfterError(s)
    case M2Sign(i, m2) =>
      if !ok || i >= |s.handlers| || s.handlers[i].sharedSecret.None? then AfterError(s)
      else
        var keys := crypto.derive(s.handlers[i].sharedSecret.value);
        Suspend(WithHandler(s, i, s.handlers[i].(sessionKeys := Some(keys))), M2Send(i))
    case M2Send(_) =>
      if ok then s.(state := VerifyingM3) else AfterError(s)
  }

  function DoResume(crypto: Crypto, s: Service, id: nat, keyPair: KeyPair, ok: bool): Service {
    if id in s.pending then Continue(crypto, s.(pending := s.pending - {id}), s.pending[id], keyPair, ok) else s
  }

  function SeqNo(tlv: Tlv8.TlvData): Option<Byte> {
    if SEQ_NO in tlv && tlv[SEQ_NO] != [] then Some(tlv[SEQ_NO][0]) else None
  }

  function HandleVerifyM2(s: Service, tlv: Tlv8.TlvData): Service {
    match s.verificationHandler
    case None => AfterError(s)
    case Some(h) =>
      if PUBLIC_KEY in tlv && ENCRYPTED_DATA in tlv then
        Suspend(s.(state := VerifyingM2), M2Secret(h, M2(tlv[PUBLIC_KEY], tlv[ENCRYPTED_DATA])))
      else AfterError(s)
  }

  function HandleVerifyM4(s: Service): Service {
    match s.verificationHandler
    case None => AfterError(s)
    case Some(h) =>
      if h >= |s.handlers| || s.handlers[h].sessionKeys.None? then AfterError(s)
      else
        var keys := s.handlers[h].sessionKeys.value;
        match s.currentOperation
        case None => s.(state := Verified)
        case Some(call) =>
          s.(state := Verified, currentOperation := None, outcomes := s.outcomes + [Delivered(call, h, keys)])
  }

  function DoFrame(s: Service, tlv: Tlv8.TlvData): Service {
    if ERROR in tlv then AfterError(s)
    else if s.state == VerifyingM1 && SeqNo(tlv) == Some(2) then HandleVerifyM2(s, tlv)
    else if s.state == VerifyingM3 && SeqNo(tlv) == Some(4) then HandleVerifyM4(s)
    else s
  }

  /** Timers are never cleared; each fires once. */
  function DoTimeout(s: Service): Service {
    if s.timers == 0 then s
    else
      var s' := s.(timers := s.timers - 1);
      if s.state == Verified then s' else AfterReset(RejectOperation(s'))
  }

  function Step(crypto: Crypto, s: Service, e: Event): Service {
    match e
    case Verify(credentials) => DoVerify(s, credentials)
    case Resume(id, keyPair, ok) => DoResume(crypto, s, id, keyPair, ok)
    case Frame(tlv) => DoFrame(s, tlv)
    case Timeout => DoTimeout(s)
  }

  function Run(crypto: Crypto, s: Service, events: seq<Event>): Service
    decreases |events|
  {
    if events == [] then s else Run(crypto, Step(crypto, s, events[0]), events[1..])
  }

  // ---- What a run has shown ----

  /** A handler and a message it was given, or has accepted. */
  datatype Receipt = Receipt(handler: nat, m2: M2)

  /** A frame hands a message to the current handler. */
  predicate Hands(s: Service, e: Event, r: Receipt) {
    && e.Frame? && ERROR !in e.tlv && SeqNo(e.tlv) == Some(2)
    && s.state == VerifyingM1 && s.verificationHandler == Some(r.handler)
    && PUBLIC_KEY in e.tlv && ENCRYPTED_DATA in e.tlv
    && r.m2 == M2(e.tlv[PUBLIC_KEY], e.tlv[ENCRYPTED_DATA])
  }

  /** A handler's check of a message succeeds. */
  predicate Passes(crypto: Crypto, s: Service, e: Event, r: Receipt) {
    && e.Resume? && e.id in s.pending && s.pending[e.id].M2Check?
    && s.pending[e.id].handler == r.handler && s.pending[e.id].m2 == r.m2
    && r.handler < |s.handlers|
    && CheckM2(crypto, s.pending[e.id].secret, s.handlers[r.handler], r.m2)
  }

  /** The service before the k-th event. */
  function At(crypto: Crypto, events: seq<Event>, k: nat): Service
    requires k <= |events|
  {
    Run(crypto, INITIAL, events[..k])
  }

  ghost predicate Received(crypto: Crypto, events: seq<Event>, r: Receipt) {
    exists k :: 0 <= k < |events| && Hands(At(crypto, events, k), events[k], r)
  }

  ghost predicate Accepted(crypto: Crypto, events: seq<Event>, r: Receipt) {
    exists k :: 0 <= k < |events| && Passes(crypto, At(crypto, events, k), events[k], r)
  }

  datatype Past = Past(received: iset<Receipt>, accepted: iset<Receipt>)

  ghost function PastOf(crypto: Crypto, events: seq<Event>): Past {
    Past(iset r | Received(crypto, events, r), iset r | Accepted(crypto, events, r))
  }

  /** What a step hands over and what it accepts is in the past. */
  ghost predicate Logged(crypto: Crypto, past: Past, s: Service, e: Event) {
    && (forall r :: Hands(s, e, r) ==> r in past.received)
    && (forall r :: Passes(crypto, s, e, r) ==> r in past.accepted)
  }

  lemma EventLogged(crypto: Crypto, events: seq<Event>, k: nat)
    requires k < |events|
    ensures Logged(crypto, PastOf(crypto, events), At(crypto, events, k), events[k])
  {
    hide Hands, Passes, At;
  }

  lemma {:induction false} RunOn(crypto: Crypto, s: Service, first: seq<Event>, more: seq<Event>)
    ensures Run(crypto, s, first + more) == Run(crypto, Run(crypto, s, first), more)
    decreases |first|
  {
    hide Step;
    if first == [] {
      assert [] + more == more;
    } else {
      assert (first + more)[1..] == first[1..] + more;
      RunOn(crypto, Step(crypto, s, first[0]), first[1..], more);
    }
  }

  lemma RunOneMore(crypto: Crypto, s: Service, events: seq<Event>, e: Event)
    ensures Run(crypto, s, events + [e]) == Step(crypto, Run(crypto, s, events), e)
  {
    hide Step;
    RunOn(crypto, s, events, [e]);
    var s' := Run(crypto, s, events);
    assert Run(crypto, s', [e]) == Run(crypto, Step(crypto, s', e), []);
  }

  lemma AtNext(crypto: Crypto, events: seq<Event>, k: nat)
    requires k < |events|
    ensures At(crypto, events, k + 1) == Step(crypto, At(crypto, events, k), events[k])
  {
    assert events[..k + 1] == events[..k] + [events[k]];
    RunOneMore(crypto, INITIAL, events[..k], events[k]);
  }

  // ---- What holds of every run ----

  /** The handler was given the message and its own check of it succeeded, under its own secret. */
  ghost predicate Checked(crypto: Crypto, past: Past, i: nat, h: Handler, m2: M2) {
    && Receipt(i, m2) in past.received && Receipt(i, m2) in past.accepted
    && Authentic(crypto, h, m2)
  }

  /** The keys come from the secret the handler shares with the sender of a message it was given. */
  ghost predicate Gives(crypto: Crypto, past: Past, i: nat, h: Handler, m2: M2, keys: SessionKeys) {
    Receipt(i, m2) in past.received && SharedWith(crypto, h, m2.publicKey, keys)
  }

  ghost predicate SharedWith(crypto: Crypto, h: Handler, publicKey: Bytes, keys: SessionKeys) {
    var secret := SecretOf(crypto, h, publicKey);
    secret.Some? && keys == crypto.derive(secret.value)
  }

  /** Keys of a handler: it accepted a message it was given, and they come from one it was given. */
  ghost predicate Earned(crypto: Crypto, past: Past, i: nat, h: Handler, keys: SessionKeys) {
    && (exists m2 :: Checked(crypto, past, i, h, m2))
    && (exists m2 :: Gives(crypto, past, i, h, m2, keys))
  }

  /** The secret a handler holds comes from a message it was given. */
  ghost predicate OwnSecret(crypto: Crypto, past: Past, i: nat, h: Handler, secret: Bytes) {
    exists m2 :: Receipt(i, m2) in past.received && SecretOf(crypto, h, m2.publicKey) == Some(secret)
  }

  ghost predicate HandlerSound(crypto: Crypto, past: Past, i: nat, h: Handler) {
    && (h.sharedSecret.Some? ==> OwnSecret(crypto, past, i, h, h.sharedSecret.value))
    && (h.sessionKeys.Some? ==> Earned(crypto, past, i, h, h.sessionKeys.value))
  }

  ghost predicate ContinuationSound(crypto: Crypto, past: Past, handlers: seq<Handler>, c: Continuation) {
    match c
    case StartKey(_, _) => true
    case StartSend(_) => true
    case M2Secret(i, m2) => i < |handlers| && Receipt(i, m2) in past.received
    case M2Check(i, m2, secret) =>
      && i < |handlers| && Receipt(i, m2) in past.received && handlers[i].sharedSecret.Some?
      && SecretOf(crypto, handlers[i], m2.publicKey) == Some(secret)
    case M2Sign(i, m2) =>
      i < |handlers| && handlers[i].sharedSecret.Some? && Checked(crypto, past, i, handlers[i], m2)
    case M2Send(i) => i < |handlers|
  }

  ghost predicate OutcomeSound(crypto: Crypto, past: Past, handlers: seq<Handler>, o: Outcome) {
    o.Delivered? ==> o.handler < |handlers| && Earned(crypto, past, o.handler, handlers[o.handler], o.keys)
  }

  ghost predicate Sound(crypto: Crypto, past: Past, s: Service) {
    && (s.verificationHandler.Some? ==> s.verificationHandler.value < |s.handlers|)
    && (forall i | 0 <= i < |s.handlers| :: HandlerSound(crypto, past, i, s.handlers[i]))
    && (forall id | id in s.pending :: id < s.nextId && ContinuationSound(crypto, past, s.handlers, s.pending[id]))
    && (forall k | 0 <= k < |s.outcomes| :: OutcomeSound(crypto, past, s.handlers, s.outcomes[k]))
  }

  /** What a handler was created with never changes; what it has learnt stays learnt. */
  ghost predicate Grown(before: seq<Handler>, after: seq<Handler>) {
    && |before| <= |after|
    && forall i | 0 <= i < |before| ::
         && SameMaker(before[i], after[i])
         && (before[i].sharedSecret.Some? ==> after[i].sharedSecret.Some?)
  }

  ghost predicate SameMaker(h: Handler, h': Handler) {
    h'.call == h.call && h'.credentials == h.credentials && h'.keyPair == h.keyPair
  }

  lemma AuthenticStays(crypto: Crypto, h: Handler, h': Handler, m2: M2)
    requires SameMaker(h, h')
    ensures Authentic(crypto, h', m2) <==> Authentic(crypto, h, m2)
  {
  }

  lemma EarnedStays(crypto: Crypto, past: Past, i: nat, h: Handler, h': Handler, keys: SessionKeys)
    requires SameMaker(h, h') && Earned(crypto, past, i, h, keys)
    ensures Earned(crypto, past, i, h', keys)
  {
    var m2 :| Checked(crypto, past, i, h, m2);
    var n :| Gives(crypto, past, i, h, n, keys);
    assert Checked(crypto, past, i, h', m2) && Gives(crypto, past, i, h', n, keys);
  }

  lemma ContinuationStays(crypto: Crypto, past: Past, handlers: seq<Handler>, handlers': seq<Handler>, c: Continuation)
    requires Grown(handlers, handlers') && ContinuationSound(crypto, past, handlers, c)
    ensures ContinuationSound(crypto, past, handlers', c)
  {
  }

  lemma OutcomeStays(crypto: Crypto, past: Past, handlers: seq<Handler>, handlers': seq<Handler>, o: Outcome)
    requires Grown(handlers, handlers') && OutcomeSound(crypto, past, handlers, o)
    ensures OutcomeSound(crypto, past, handlers', o)
  {
    hide Earned;
    if o.Delivered? {
      EarnedStays(crypto, past, o.handler, handlers[o.handler], handlers'[o.handler], o.keys);
    }
  }

  /** Only the handlers changed. */
  lemma HandlersChanged(crypto: Crypto, past: Past, s: Service, handlers: seq<Handler>)
    requires Sound(crypto, past, s) && Grown(s.handlers, handlers)
    requires forall i | 0 <= i < |handlers| :: HandlerSound(crypto, past, i, handlers[i])
    ensures Sound(crypto, past, s.(handlers := handlers))
  {
    hide HandlerSound, ContinuationSound, OutcomeSound;
    forall id | id in s.pending ensures ContinuationSound(crypto, past, handlers, s.pending[id]) {
      ContinuationStays(crypto, past, s.handlers, handlers, s.pending[id]);
    }
    forall k | 0 <= k < |s.outcomes| ensures OutcomeSound(crypto, past, handlers, s.outcomes[k]) {
      OutcomeStays(crypto, past, s.handlers, handlers, s.outcomes[k]);
    }
  }

  lemma ErrorKeepsSound(crypto: Crypto, past: Past, s: Service)
    requires Sound(crypto, past, s)
    ensures Sound(crypto, past, AfterError(s))
  {
    hide HandlerSound, ContinuationSound, Earned;
  }

  lemma ContinueKeepsSound(crypto: Crypto, past: Past, s: Service, c: Continuation, keyPair: KeyPair, ok: bool)
    requires Sound(crypto, past, s) && ContinuationSound(crypto, past, s.handlers, c)
    requires c.M2Check? && CheckM2(crypto, c.secret, s.handlers[c.handler], c.m2) ==>
        Receipt(c.handler, c.m2) in past.accepted
    ensures Sound(crypto, past, Continue(crypto, s, c, keyPair, ok))
  {
    hide CheckM2, SecretOf, AfterError, Earned, OwnSecret, Checked;
    ErrorKeepsSound(crypto, past, s);
    match c
    case StartKey(call, credentials) =>
      if ok {
        var h := Handler(call, credentials, keyPair, None, None);
        HandlersChanged(crypto, past, s, s.handlers + [h]);
      }
    case StartSend(_) =>
    case M2Secret(i, m2) =>
      if ok && SecretOf(crypto, s.handlers[i], m2.publicKey).Some? {
        SecretKept(crypto, past, s, i, m2);
      }
    case M2Check(i, m2, secret) =>
      if CheckM2(crypto, secret, s.handlers[i], m2) {
        CheckKept(crypto, past, s.handlers[i], c);
      }
    case M2Sign(i, m2) =>
      if ok {
        KeysKept(crypto, past, s, i, m2);
      }
    case M2Send(_) =>
  }

  lemma SecretKept(crypto: Crypto, past: Past, s: Service, i: nat, m2: M2)
    requires Sound(crypto, past, s) && ContinuationSound(crypto, past, s.handlers, M2Secret(i, m2))
    requires SecretOf(crypto, s.handlers[i], m2.publicKey).Some?
    ensures
      var secret := SecretOf(crypto, s.handlers[i], m2.publicKey).value;
      var after := WithHandler(s, i, s.handlers[i].(sharedSecret := Some(secret)));
      Sound(crypto, past, after) && ContinuationSound(crypto, past, after.handlers, M2Check(i, m2, secret))
  {
    hide CheckM2, Earned;
    var secret := SecretOf(crypto, s.handlers[i], m2.publicKey).value;
    var h := s.handlers[i].(sharedSecret := Some(secret));
    assert SecretOf(crypto, h, m2.publicKey) == Some(secret);
    if h.sessionKeys.Some? {
      EarnedStays(crypto, past, i, s.handlers[i], h, h.sessionKeys.value);
    }
    HandlersChanged(crypto, past, s, s.handlers[i := h]);
  }

  lemma CheckKept(crypto: Crypto, past: Past, h: Handler, c: Continuation)
    requires c.M2Check? && CheckM2(crypto, c.secret, h, c.m2) && SecretOf(crypto, h, c.m2.publicKey) == Some(c.secret)
    requires Receipt(c.handler, c.m2) in past.received && Receipt(c.handler, c.m2) in past.accepted
    ensures Checked(crypto, past, c.handler, h, c.m2)
  {
    hide CheckM2;
  }

  lemma KeysKept(crypto: Crypto, past: Past, s: Service, i: nat, m2: M2)
    requires Sound(crypto, past, s) && ContinuationSound(crypto, past, s.handlers, M2Sign(i, m2))
    ensures
      var keys := crypto.derive(s.handlers[i].sharedSecret.value);
      Sound(crypto, past, WithHandler(s, i, s.handlers[i].(sessionKeys := Some(keys))))
  {
    hide Authentic;
    var keys := crypto.derive(s.handlers[i].sharedSecret.value);
    var h := s.handlers[i].(sessionKeys := Some(keys));
    AuthenticStays(crypto, s.handlers[i], h, m2);
    var n :| Receipt(i, n) in past.received
          && SecretOf(crypto, s.handlers[i], n.publicKey) == Some(s.handlers[i].sharedSecret.value);
    assert Checked(crypto, past, i, h, m2) && Gives(crypto, past, i, h, n, keys);
    assert SecretOf(crypto, h, n.publicKey) == Some(h.sharedSecret.value);
    HandlersChanged(crypto, past, s, s.handlers[i := h]);
  }

  lemma StepKeepsSound(crypto: Crypto, past: Past, s: Service, e: Event)
    requires Sound(crypto, past, s) && Logged(crypto, past, s, e)
    ensures Sound(crypto, past, Step(crypto, s, e))
  {
    hide HandlerSound, Continue, DoFrame, Earned, CheckM2, Authentic;
    match e
    case Verify(_) =>
    case Resume(id, keyPair, ok) =>
      if id in s.pending {
        var c := s.pending[id];
        if c.M2Check? && CheckM2(crypto, c.secret, s.handlers[c.handler], c.m2) {
          assert Passes(crypto, s, e, Receipt(c.handler, c.m2));
        }
        ContinueKeepsSound(crypto, past, s.(pending := s.pending - {id}), c, keyPair, ok);
      }
    case Frame(tlv) =>
      FrameKeepsSound(crypto, past, s, tlv);
    case Timeout =>
  }

  lemma FrameKeepsSound(crypto: Crypto, past: Past, s: Service, tlv: Tlv8.TlvData)
    requires Sound(crypto, past, s) && Logged(crypto, past, s, Frame(tlv))
    ensures Sound(crypto, past, DoFrame(s, tlv))
  {
    hide Earned, OwnSecret, AfterError;
    ErrorKeepsSound(crypto, past, s);
    if s.verificationHandler.Some? && PUBLIC_KEY in tlv && ENCRYPTED_DATA in tlv {
      var r := Receipt(s.verificationHandler.value, M2(tlv[PUBLIC_KEY], tlv[ENCRYPTED_DATA]));
      assert ERROR !in tlv && s.state == VerifyingM1 && SeqNo(tlv) == Some(2) ==> Hands(s, Frame(tlv), r);
    }
    ErrorKeepsSound(crypto, past, s.(state := VerifyingM2));
  }

  lemma {:induction false} RunKeepsSound(crypto: Crypto, events: seq<Event>, k: nat)
    requires k <= |events|
    ensures Sound(crypto, PastOf(crypto, events), At(crypto, events, k))
  {
    hide PastOf, Step, Logged;
    if k > 0 {
      RunKeepsSound(crypto, events, k - 1);
      EventLogged(crypto, events, k - 1);
      StepKeepsSound(crypto, PastOf(crypto, events), At(crypto, events, k - 1), events[k - 1]);
      AtNext(crypto, events, k - 1);
    }
  }

  /**
   Whatever happens in whatever order: a handler that delivers session keys was handed, by some
   frame of the run, a message that it accepted at some step of the run, its own check under the
   secret of its own exchange having succeeded. The keys derive from the secret it shares with the
   sender of a message that some frame of the run handed to it. (Any beginning of a run is a run:
   all this happens before the delivery.)
   */
  lemma DeliveredKeysAreEarned(crypto: Crypto, events: seq<Event>, o: Outcome)
    requires o in Run(crypto, INITIAL, events).outcomes && o.Delivered?
    ensures
      var s := Run(crypto, INITIAL, events);
      && o.handler < |s.handlers|
      && (exists m2 ::
            && Received(crypto, events, Receipt(o.handler, m2)) && Accepted(crypto, events, Receipt(o.handler, m2))
            && Authentic(crypto, s.handlers[o.handler], m2))
      && (exists m2 ::
            && Received(crypto, events, Receipt(o.handler, m2))
            && SharedWith(crypto, s.handlers[o.handler], m2.publicKey, o.keys))
  {
    hide Received, Accepted, SharedWith, Authentic, Run;
    RunKeepsSound(crypto, events, |events|);
    assert events[..|events|] == events;
    var s, past := Run(crypto, INITIAL, events), PastOf(crypto, events);
    var k :| 0 <= k < |s.outcomes| && s.outcomes[k] == o;
    assert OutcomeSound(crypto, past, s.handlers, s.outcomes[k]);
    var m2 :| Checked(crypto, past, o.handler, s.handlers[o.handler], m2);
    var n :| Gives(crypto, past, o.handler, s.handlers[o.handler], n, o.keys);
    assert Receipt(o.handler, m2) in past.received && Receipt(o.handler, n) in past.received;
  }

  // ---- What the check checks ----

  /**
   An M2 message is signed by the accessory: it decrypts under the secret, to a record that holds an
   identifier (type 1) and a signature (type 10), and the signature is the accessory's over its own public
   key, its identifier and the public key of the handler.
   */
  ghost predicate Signed(crypto: Crypto, h: Handler, m2: M2, secret: Bytes, plain: Bytes) {
    && crypto.shared(h.keyPair.privateKey, m2.publicKey) == Some(secret)
    && crypto.openM2(secret, m2.encryptedData) == Some(plain)
    && var inner := Tlv8.DecodeObject(plain);
       && 0x01 in inner && 0x0a in inner
       && crypto.verify(inner[0x0a], m2.publicKey + inner[0x01] + h.keyPair.publicKey, h.credentials.accessoryPublicKey)
  }

  lemma AuthenticIsSigned(crypto: Crypto, h: Handler, m2: M2)
    ensures Authentic(crypto, h, m2) <==> exists secret, plain :: Signed(crypto, h, m2, secret, plain)
  {
    if Authentic(crypto, h, m2) {
      var secret := SecretOf(crypto, h, m2.publicKey).value;
      assert Signed(crypto, h, m2, secret, crypto.openM2(secret, m2.encryptedData).value);
    }
  }

  /** Keys are only delivered by a handler that was handed, and has accepted, a message signed for it. */
  lemma DeliveredKeysAreSigned(crypto: Crypto, events: seq<Event>, o: Outcome)
    requires o in Run(crypto, INITIAL, events).outcomes && o.Delivered?
    ensures
      var s := Run(crypto, INITIAL, events);
      && o.handler < |s.handlers|
      && exists m2, secret, plain ::
           && Received(crypto, events, Receipt(o.handler, m2)) && Accepted(crypto, events, Receipt(o.handler, m2))
           && Signed(crypto, s.handlers[o.handler], m2, secret, plain)
  {
    hide Run, Received, Accepted, Authentic, Signed;
    DeliveredKeysAreEarned(crypto, events, o);
    var h := Run(crypto, INITIAL, events).handlers[o.handler];
    var m2 :| Received(crypto, events, Receipt(o.handler, m2)) && Accepted(crypto, events, Receipt(o.handler, m2))
              && Authentic(crypto, h, m2);
    AuthenticIsSigned(crypto, h, m2);
    var secret, plain :| Signed(crypto, h, m2, secret, plain);
  }

  /** Where no signature verifies, no run delivers anything. */
  lemma NoSignatureNoKeys(crypto: Crypto, events: seq<Event>, o: Outcome)
    requires forall signature, text, key :: !crypto.verify(signature, text, key)
    requires o in Run(crypto, INITIAL, events).outcomes
    ensures o.Rejected?
  {
    hide Run, Received, Accepted;
    if o.Delivered? {
      DeliveredKeysAreSigned(crypto, events, o);
    }
  }

  /** A frame that hands a message over says so in types 3, 5 and 6, and has no error in type 7. */
  lemma HandedOver(s: Service, tlv: Tlv8.TlvData, r: Receipt)
    requires Hands(s, Frame(tlv), r)
    ensures s.state == VerifyingM1 && s.verificationHandler == Some(r.handler)
    ensures 0x07 !in tlv && 0x06 in tlv && tlv[0x06] != [] && tlv[0x06][0] == 2
    ensures 0x03 in tlv && 0x05 in tlv && r.m2 == M2(tlv[0x03], tlv[0x05])
  {
  }

  // ---- What is rejected ----

  /** The current call is rejected, if there is one, and the service is idle without a handler. */
  ghost predicate GivesUp(s: Service, s': Service) {
    && s'.state == Idle && s'.verificationHandler == None && s'.currentOperation == None
    && s'.outcomes == s.outcomes + (if s.currentOperation.Some? then [Rejected(s.currentOperation.value)] else [])
  }

  /** A timer that fires before the verification is done. */
  lemma TimeoutRejects(crypto: Crypto, s: Service)
    requires s.timers > 0
    ensures
      var s' := Step(crypto, s, Timeout);
      && s'.timers == s.timers - 1 && s'.pending == s.pending && s'.handlers == s.handlers
      && if s.state == Verified then s'.state == Verified && s'.outcomes == s.outcomes else GivesUp(s, s')
  {
    assert s.outcomes + [] == s.outcomes;
  }

  /** A frame with an error (type 7), whatever the state. */
  lemma ErrorFrameRejects(crypto: Crypto, s: Service, tlv: Tlv8.TlvData)
    requires 0x07 in tlv
    ensures GivesUp(s, Step(crypto, s, Frame(tlv)))
  {
    assert s.outcomes + [] == s.outcomes;
  }

  /** An M2 without its fields, or that no handler waits for. */
  lemma IncompleteM2Rejects(crypto: Crypto, s: Service, tlv: Tlv8.TlvData)
    requires 0x07 !in tlv && s.state == VerifyingM1 && 0x06 in tlv && tlv[0x06] != [] && tlv[0x06][0] == 2
    requires s.verificationHandler.None? || 0x03 !in tlv || 0x05 !in tlv
    ensures GivesUp(s, Step(crypto, s, Frame(tlv)))
  {
    assert s.outcomes + [] == s.outcomes;
  }

  /** An M4 that no handler waits for, or one without keys. */
  lemma EarlyM4Rejects(crypto: Crypto, s: Service, tlv: Tlv8.TlvData)
    requires 0x07 !in tlv && s.state == VerifyingM3 && 0x06 in tlv && tlv[0x06] != [] && tlv[0x06][0] == 4
    requires
      s.verificationHandler.Some? && s.verificationHandler.value < |s.handlers| ==>
        s.handlers[s.verificationHandler.value].sessionKeys.None?
    ensures GivesUp(s, Step(crypto, s, Frame(tlv)))
  {
    assert s.outcomes + [] == s.outcomes;
  }

  /** A message whose secret cannot be computed, or that is not signed. */
  lemma UnsignedM2Rejects(crypto: Crypto, s: Service, id: nat, keyPair: KeyPair, ok: bool)
    requires id in s.pending
    requires
      var c := s.pending[id];
      || (c.M2Secret? && c.handler < |s.handlers|
          && crypto.shared(s.handlers[c.handler].keyPair.privateKey, c.m2.publicKey).None?)
      || (c.M2Check? && c.handler < |s.handlers|
          && crypto.shared(s.handlers[c.handler].keyPair.privateKey, c.m2.publicKey) == Some(c.secret)
          && forall plain :: !Signed(crypto, s.handlers[c.handler], c.m2, c.secret, plain))
      || (!ok && (c.M2Secret? || c.M2Sign? || c.M2Send?))
    ensures
      var s' := Step(crypto, s, Resume(id, keyPair, ok));
      GivesUp(s, s') && s'.pending == s.pending - {id}
  {
    assert s.outcomes + [] == s.outcomes;
    var c := s.pending[id];
    if c.M2Check? && c.handler < |s.handlers| && CheckM2(crypto, c.secret, s.handlers[c.handler], c.m2)
       && crypto.shared(s.handlers[c.handler].keyPair.privateKey, c.m2.publicKey) == Some(c.secret) {
      var plain := crypto.openM2(c.secret, c.m2.encryptedData).value;
      assert Signed(crypto, s.handlers[c.handler], c.m2, c.secret, plain);
    }
  }

  /** A call while another is under way; and one that cannot start. */
  lemma BusyRejects(crypto: Crypto, s: Service, credentials: Credentials)
    requires s.state != Idle
    ensures Step(crypto, s, Verify(credentials))
         == s.(calls := s.calls + 1, outcomes := s.outcomes + [Rejected(s.calls)])
  {
  }

  lemma FailedStartRejects(crypto: Crypto, s: Service, id: nat, keyPair: KeyPair)
    requires id in s.pending && IsStart(s.pending[id])
    ensures Step(crypto, s, Resume(id, keyPair, false))
         == s.(pending := s.pending - {id}, outcomes := s.outcomes + [Rejected(s.pending[id].call)])
  {
  }

  /** Frames that no state waits for change nothing. */
  lemma OtherFramesAreIgnored(crypto: Crypto, s: Service, tlv: Tlv8.TlvData)
    requires 0x07 !in tlv
    requires
      var number := if 0x06 in tlv && tlv[0x06] != [] then Some(tlv[0x06][0]) else None;
      !(s.state == VerifyingM1 && number == Some(2)) && !(s.state == VerifyingM3 && number == Some(4))
    ensures Step(crypto, s, Frame(tlv)) == s
  {
  }

  // ---- Calls that wait for the one before ----

  /** A call of `verify` has not got as far as sending M1. */
  ghost predicate Starting(s: Service) {
    exists id | id in s.pending :: IsStart(s.pending[id])
  }

  /** `verify` is not called on an idle service while another call is still starting. */
  ghost predicate Polite(crypto: Crypto, events: seq<Event>) {
    forall k | 0 <= k < |events| && events[k].Verify? :: Waits(At(crypto, events, k))
  }

  ghost predicate Waits(s: Service) {
    s.state == Idle ==> !Starting(s)
  }

  /** Keys from the very exchange whose message was handed over, checked and accepted. */
  ghost predicate Agreed(crypto: Crypto, past: Past, i: nat, h: Handler, keys: SessionKeys) {
    exists m2 :: Checked(crypto, past, i, h, m2) && SharedWith(crypto, h, m2.publicKey, keys)
  }

  /** The handler a continuation is in the middle of. */
  predicate Uses(c: Continuation, i: nat) {
    (c.M2Secret? || c.M2Check? || c.M2Sign?) && c.handler == i
  }

  predicate IsStart(c: Continuation) {
    c.StartKey? || c.StartSend?
  }

  /** No continuation works on the current handler. */
  ghost predicate Unused(s: Service) {
    s.verificationHandler.Some? ==> forall id | id in s.pending :: !Uses(s.pending[id], s.verificationHandler.value)
  }

  ghost predicate CurrentBelongsTo(s: Service, call: nat) {
    s.verificationHandler.Some? ==>
      s.verificationHandler.value < |s.handlers| && s.handlers[s.verificationHandler.value].call == call
  }

  ghost predicate ContinuationTidy(crypto: Crypto, past: Past, s: Service, c: Continuation) {
    match c
    case StartKey(_, _) => s.state != VerifyingM1 && s.currentOperation.None?
    case StartSend(call) => s.state != VerifyingM1 && s.currentOperation.None? && Unused(s) && CurrentBelongsTo(s, call)
    case M2Secret(i, m2) => i < |s.handlers| && Receipt(i, m2) in past.received
    case M2Check(i, m2, secret) =>
      && i < |s.handlers| && Receipt(i, m2) in past.received
      && SecretOf(crypto, s.handlers[i], m2.publicKey) == Some(secret) == s.handlers[i].sharedSecret
    case M2Sign(i, m2) =>
      && i < |s.handlers| && Checked(crypto, past, i, s.handlers[i], m2)
      && SecretOf(crypto, s.handlers[i], m2.publicKey) == s.handlers[i].sharedSecret
    case M2Send(i) => i < |s.handlers|
  }

  ghost predicate OutcomeTidy(crypto: Crypto, past: Past, handlers: seq<Handler>, o: Outcome) {
    o.Delivered? ==>
      && o.handler < |handlers| && handlers[o.handler].call == o.call
      && Agreed(crypto, past, o.handler, handlers[o.handler], o.keys)
  }

  ghost predicate Tidy(crypto: Crypto, past: Past, s: Service) {
    && (s.verificationHandler.Some? ==> s.verificationHandler.value < |s.handlers|)
    && (s.state == Idle ==> s.currentOperation.None?)
    && (s.state == VerifyingM1 ==> Unused(s))
    && (s.currentOperation.Some? ==> CurrentBelongsTo(s, s.currentOperation.value))
    && (forall i | 0 <= i < |s.handlers| && s.handlers[i].sessionKeys.Some? ::
          Agreed(crypto, past, i, s.handlers[i], s.handlers[i].sessionKeys.value))
    && (forall id | id in s.pending :: id < s.nextId && ContinuationTidy(crypto, past, s, s.pending[id]))
    && (forall a, b | a in s.pending && b in s.pending && a != b :: Apart(s.pending[a], s.pending[b]))
    && (forall k | 0 <= k < |s.outcomes| :: OutcomeTidy(crypto, past, s.handlers, s.outcomes[k]))
  }

  /** Two continuations are not both starts and not on one handler. */
  predicate Apart(c: Continuation, d: Continuation) {
    && !(IsStart(c) && IsStart(d))
    && (Uses(c, UsedBy(c)) ==> !Uses(d, UsedBy(c)))
  }

  function UsedBy(c: Continuation): nat {
    if c.M2Secret? || c.M2Check? || c.M2Sign? then c.handler else 0
  }

  /** What makes room for a continuation: nothing else is where it is. */
  ghost predicate Fits(crypto: Crypto, past: Past, s: Service, c: Continuation) {
    && ContinuationTidy(crypto, past, s, c)
    && (forall a | a in s.pending :: Apart(c, s.pending[a]) && Apart(s.pending[a], c))
    && (s.state == VerifyingM1 || (exists a | a in s.pending :: s.pending[a].StartSend?) ==>
          s.verificationHandler.Some? ==> !Uses(c, s.verificationHandler.value))
  }

  lemma SuspendKeepsTidy(crypto: Crypto, past: Past, s: Service, c: Continuation)
    requires Tidy(crypto, past, s) && Fits(crypto, past, s, c)
    ensures Tidy(crypto, past, Suspend(s, c))
  {
    hide Agreed, Authentic, OutcomeTidy, Checked;
    assert s.nextId !in s.pending;
  }

  lemma ResumedFits(crypto: Crypto, past: Past, s: Service, id: nat)
    requires Tidy(crypto, past, s) && id in s.pending
    ensures
      var s' := s.(pending := s.pending - {id});
      Tidy(crypto, past, s') && Fits(crypto, past, s', s.pending[id])
  {
    hide Agreed, Authentic, OutcomeTidy, Checked;
  }

  lemma ErrorKeepsTidy(crypto: Crypto, past: Past, s: Service)
    requires Tidy(crypto, past, s)
    ensures Tidy(crypto, past, AfterError(s))
  {
    hide Agreed, Authentic, Checked;
  }

  lemma AgreedStays(crypto: Crypto, past: Past, i: nat, h: Handler, h': Handler, keys: SessionKeys)
    requires SameMaker(h, h') && Agreed(crypto, past, i, h, keys)
    ensures Agreed(crypto, past, i, h', keys)
  {
    var m2 :| Checked(crypto, past, i, h, m2) && SharedWith(crypto, h, m2.publicKey, keys);
    assert Checked(crypto, past, i, h', m2) && SharedWith(crypto, h', m2.publicKey, keys);
  }

  lemma OutcomeStaysTidy(crypto: Crypto, past: Past, handlers: seq<Handler>, i: nat, h: Handler, o: Outcome)
    requires i < |handlers| && SameMaker(handlers[i], h) && OutcomeTidy(crypto, past, handlers, o)
    ensures OutcomeTidy(crypto, past, handlers[i := h], o)
  {
    hide Agreed;
    if o.Delivered? && o.handler == i {
      AgreedStays(crypto, past, i, handlers[i], h, o.keys);
    }
  }

  /** A handler that no continuation works on learns something. */
  lemma HandlerLearns(crypto: Crypto, past: Past, s: Service, i: nat, h: Handler)
    requires Tidy(crypto, past, s) && i < |s.handlers| && SameMaker(s.handlers[i], h)
    requires forall id | id in s.pending :: !Uses(s.pending[id], i)
    requires h.sessionKeys.Some? ==> Agreed(crypto, past, i, h, h.sessionKeys.value)
    ensures Tidy(crypto, past, WithHandler(s, i, h))
  {
    hide Agreed, Authentic, OutcomeTidy, SecretOf, Checked;
    forall k | 0 <= k < |s.outcomes| ensures OutcomeTidy(crypto, past, s.handlers[i := h], s.outcomes[k]) {
      OutcomeStaysTidy(crypto, past, s.handlers, i, h, s.outcomes[k]);
    }
  }

  lemma NewHandler(crypto: Crypto, past: Past, s: Service, call: nat, credentials: Credentials, keyPair: KeyPair)
    requires Tidy(crypto, past, s) && Fits(crypto, past, s, StartKey(call, credentials))
    ensures Tidy(crypto, past, Continue(crypto, s, StartKey(call, credentials), keyPair, true))
  {
    hide Agreed, Authentic, OutcomeTidy, SecretOf, Checked;
    var h := Handler(call, credentials, keyPair, None, None);
    var s' := s.(handlers := s.handlers + [h], verificationHandler := Some(|s.handlers|));
    forall k | 0 <= k < |s.outcomes| ensures OutcomeTidy(crypto, past, s'.handlers, s.outcomes[k]) {
      OutcomeMoreHandlers(crypto, past, s.handlers, h, s.outcomes[k]);
    }
    assert Tidy(crypto, past, s');
    SuspendKeepsTidy(crypto, past, s', StartSend(call));
  }

  lemma OutcomeMoreHandlers(crypto: Crypto, past: Past, handlers: seq<Handler>, h: Handler, o: Outcome)
    requires OutcomeTidy(crypto, past, handlers, o)
    ensures OutcomeTidy(crypto, past, handlers + [h], o)
  {
    hide Agreed;
  }

  lemma SecretLearnt(crypto: Crypto, past: Past, s: Service, i: nat, m2: M2)
    requires Tidy(crypto, past, s) && Fits(crypto, past, s, M2Secret(i, m2))
    requires SecretOf(crypto, s.handlers[i], m2.publicKey).Some?
    ensures Tidy(crypto, past, Continue(crypto, s, M2Secret(i, m2), KeyPair([], []), true))
  {
    hide Agreed, Authentic, OutcomeTidy, Checked;
    var secret := SecretOf(crypto, s.handlers[i], m2.publicKey);
    var h := s.handlers[i].(sharedSecret := secret);
    if h.sessionKeys.Some? {
      AgreedStays(crypto, past, i, s.handlers[i], h, h.sessionKeys.value);
    }
    assert Uses(M2Secret(i, m2), i);
    HandlerLearns(crypto, past, s, i, h);
    SuspendKeepsTidy(crypto, past, WithHandler(s, i, h), M2Check(i, m2, secret.value));
  }

  lemma CheckPassed(crypto: Crypto, past: Past, s: Service, i: nat, m2: M2, secret: Bytes)
    requires Tidy(crypto, past, s) && Fits(crypto, past, s, M2Check(i, m2, secret))
    requires CheckM2(crypto, secret, s.handlers[i], m2) && Receipt(i, m2) in past.accepted
    ensures Tidy(crypto, past, Suspend(s, M2Sign(i, m2)))
  {
    hide Agreed, OutcomeTidy, CheckM2, Checked;
    CheckKept(crypto, past, s.handlers[i], M2Check(i, m2, secret));
    SuspendKeepsTidy(crypto, past, s, M2Sign(i, m2));
  }

  lemma KeysLearnt(crypto: Crypto, past: Past, s: Service, i: nat, m2: M2)
    requires Tidy(crypto, past, s) && Fits(crypto, past, s, M2Sign(i, m2))
    ensures Tidy(crypto, past, Continue(crypto, s, M2Sign(i, m2), KeyPair([], []), true))
  {
    hide CheckM2, OutcomeTidy;
    var keys := crypto.derive(s.handlers[i].sharedSecret.value);
    var h := s.handlers[i].(sessionKeys := Some(keys));
    AuthenticStays(crypto, s.handlers[i], h, m2);
    assert Checked(crypto, past, i, h, m2) && SharedWith(crypto, h, m2.publicKey, keys);
    assert Uses(M2Sign(i, m2), i);
    HandlerLearns(crypto, past, s, i, h);
    SuspendKeepsTidy(crypto, past, WithHandler(s, i, h), M2Send(i));
  }

  lemma ContinueKeepsTidy(crypto: Crypto, past: Past, s: Service, c: Continuation, keyPair: KeyPair, ok: bool)
    requires Tidy(crypto, past, s) && Fits(crypto, past, s, c)
    requires c.M2Check? && CheckM2(crypto, c.secret, s.handlers[c.handler], c.m2) ==>
        Receipt(c.handler, c.m2) in past.accepted
    ensures Tidy(crypto, past, Continue(crypto, s, c, keyPair, ok))
  {
    hide Agreed, Authentic, CheckM2, SecretOf, AfterError, Suspend, Checked;
    ErrorKeepsTidy(crypto, past, s);
    match c
    case StartKey(call, credentials) =>
      if ok {
        NewHandler(crypto, past, s, call, credentials, keyPair);
      }
    case StartSend(_) =>
    case M2Secret(i, m2) =>
      if ok && SecretOf(crypto, s.handlers[i], m2.publicKey).Some? {
        SecretLearnt(crypto, past, s, i, m2);
      }
    case M2Check(i, m2, secret) =>
      if CheckM2(crypto, secret, s.handlers[i], m2) {
        CheckPassed(crypto, past, s, i, m2, secret);
      }
    case M2Sign(i, m2) =>
      if ok {
        KeysLearnt(crypto, past, s, i, m2);
      }
    case M2Send(_) =>
  }

  lemma FrameKeepsTidy(crypto: Crypto, past: Past, s: Service, tlv: Tlv8.TlvData)
    requires Tidy(crypto, past, s) && Logged(crypto, past, s, Frame(tlv))
    ensures Tidy(crypto, past, DoFrame(s, tlv))
  {
    hide Agreed, Authentic, Suspend, AfterError, Checked;
    ErrorKeepsTidy(crypto, past, s);
    if ERROR !in tlv && s.state == VerifyingM1 && SeqNo(tlv) == Some(2)
       && s.verificationHandler.Some? && PUBLIC_KEY in tlv && ENCRYPTED_DATA in tlv {
      var m2 := M2(tlv[PUBLIC_KEY], tlv[ENCRYPTED_DATA]);
      var c := M2Secret(s.verificationHandler.value, m2);
      var s' := s.(state := VerifyingM2);
      assert Hands(s, Frame(tlv), Receipt(s.verificationHandler.value, m2));
      assert Tidy(crypto, past, s') && Fits(crypto, past, s', c);
      SuspendKeepsTidy(crypto, past, s', c);
    }
  }

  lemma StepKeepsTidy(crypto: Crypto, past: Past, s: Service, e: Event)
    requires Tidy(crypto, past, s) && Logged(crypto, past, s, e) && (e.Verify? ==> Waits(s))
    ensures Tidy(crypto, past, Step(crypto, s, e))
  {
    hide Agreed, Authentic, Continue, DoFrame, Checked, CheckM2, SecretOf;
    match e
    case Verify(credentials) =>
      if s.state == Idle {
        var s' := s.(calls := s.calls + 1);
        var c := StartKey(s.calls, credentials);
        assert Tidy(crypto, past, s') && Fits(crypto, past, s', c);
        SuspendKeepsTidy(crypto, past, s', c);
      }
    case Resume(id, keyPair, ok) =>
      if id in s.pending {
        var c := s.pending[id];
        if c.M2Check? && CheckM2(crypto, c.secret, s.handlers[c.handler], c.m2) {
          assert Passes(crypto, s, e, Receipt(c.handler, c.m2));
        }
        ResumedFits(crypto, past, s, id);
        ContinueKeepsTidy(crypto, past, s.(pending := s.pending - {id}), c, keyPair, ok);
      }
    case Frame(tlv) => FrameKeepsTidy(crypto, past, s, tlv);
    case Timeout =>
  }

  lemma {:induction false} RunKeepsTidy(crypto: Crypto, events: seq<Event>, k: nat)
    requires Polite(crypto, events) && k <= |events|
    ensures Tidy(crypto, PastOf(crypto, events), At(crypto, events, k))
  {
    hide PastOf, Step, Logged, Waits;
    if k > 0 {
      RunKeepsTidy(crypto, events, k - 1);
      EventLogged(crypto, events, k - 1);
      StepKeepsTidy(crypto, PastOf(crypto, events), At(crypto, events, k - 1), events[k - 1]);
      AtNext(crypto, events, k - 1);
    }
  }

  /** Every call that was answered with keys got them from its own handler, which agreed on them. */
  ghost predicate AllAgreed(crypto: Crypto, events: seq<Event>) {
    var s := Run(crypto, INITIAL, events);
    forall o | o in s.outcomes && o.Delivered? ::
      && o.handler < |s.handlers| && s.handlers[o.handler].call == o.call
      && Agreed(crypto, PastOf(crypto, events), o.handler, s.handlers[o.handler], o.keys)
  }

  /**
   If calls of `verify` wait for each other, a call is only ever answered by its own handler, with
   keys from the very message that a frame handed to that handler and that it checked and accepted.
   */
  lemma PoliteCallsGetAgreedKeys(crypto: Crypto, events: seq<Event>)
    requires Polite(crypto, events)
    ensures AllAgreed(crypto, events)
  {
    hide Agreed, PastOf, Run;
    RunKeepsTidy(crypto, events, |events|);
    assert events[..|events|] == events;
    var s, past := Run(crypto, INITIAL, events), PastOf(crypto, events);
    forall o | o in s.outcomes && o.Delivered? ensures OutcomeTidy(crypto, past, s.handlers, o) {
      var k :| 0 <= k < |s.outcomes| && s.outcomes[k] == o;
      assert OutcomeTidy(crypto, past, s.handlers, s.outcomes[k]);
    }
  }

  /** So in such runs the keys come from the secret under which that message was signed. */
  lemma PoliteKeysAreSigned(crypto: Crypto, events: seq<Event>, o: Outcome)
    requires Polite(crypto, events)
    requires o in Run(crypto, INITIAL, events).outcomes && o.Delivered?
    ensures
      var s := Run(crypto, INITIAL, events);
      && o.handler < |s.handlers| && s.handlers[o.handler].call == o.call
      && exists m2, secret, plain ::
           && Received(crypto, events, Receipt(o.handler, m2)) && Accepted(crypto, events, Receipt(o.handler, m2))
           && Signed(crypto, s.handlers[o.handler], m2, secret, plain) && o.keys == crypto.derive(secret)
  {
    hide Run, Received, Accepted, Authentic;
    PoliteCallsGetAgreedKeys(crypto, events);
    var h, past := Run(crypto, INITIAL, events).handlers[o.handler], PastOf(crypto, events);
    var m2 :| Checked(crypto, past, o.handler, h, m2) && SharedWith(crypto, h, m2.publicKey, o.keys);
    assert Receipt(o.handler, m2) in past.received && Receipt(o.handler, m2) in past.accepted;
    AuthenticIsSigned(crypto, h, m2);
    var secret, plain :| Signed(crypto, h, m2, secret, plain);
  }

  // ---- The run that is meant ----

  function M2Frame(m2: M2): Event {
    Frame(map[SEQ_NO := [2], PUBLIC_KEY := m2.publicKey, ENCRYPTED_DATA := m2.encryptedData])
  }

  const M4_FRAME: Event := Frame(map[SEQ_NO := [4]])

  function Exchange(c: Credentials, k: KeyPair, m: M2): seq<Event> {
    [Verify(c), Resume(0, k, true), Resume(1, k, true), M2Frame(m),
     Resume(2, k, true), Resume(3, k, true), Resume(4, k, true), Resume(5, k, true), M4_FRAME]
  }

  lemma RunFrom(crypto: Crypto, s: Service, events: seq<Event>, i: nat)
    requires i < |events|
    ensures Run(crypto, s, events[i..]) == Run(crypto, Step(crypto, s, events[i]), events[i + 1..])
  {
    assert events[i..][0] == events[i] && events[i..][1..] == events[i + 1..];
  }

  lemma RunNothing(crypto: Crypto, s: Service, events: seq<Event>)
    requires events == []
    ensures Run(crypto, s, events) == s
  {
  }

  /** One call, an M2 that passes the check, and M4: the call gets the keys of that exchange. */
  lemma ExchangeDelivers(crypto: Crypto, c: Credentials, k: KeyPair, m: M2)
    requires Authentic(crypto, Handler(0, c, k, None, None), m)
    ensures Polite(crypto, Exchange(c, k, m))
    ensures Run(crypto, INITIAL, Exchange(c, k, m)).outcomes
         == [Delivered(0, 0, crypto.derive(crypto.shared(k.privateKey, m.publicKey).value))]
  {
    hide Run, CheckM2;
    var e := Exchange(c, k, m);
    assert e[..0] == [] && e[0..] == e;
    RunNothing(crypto, INITIAL, e[..0]);
    var s1 := Service(Idle, None, None, [], map[0 := StartKey(0, c)], 1, 0, 1, []);
    assert Step(crypto, INITIAL, e[0]) == s1;
    RunFrom(crypto, INITIAL, e, 0);
    var h := Handler(0, c, k, None, None);
    var s2 := s1.(handlers := [h], verificationHandler := Some(0), pending := map[1 := StartSend(0)], nextId := 2);
    RunFrom(crypto, s1, e, 1);
    assert Step(crypto, s1, e[1]) == s2;
    var s3 := s2.(state := VerifyingM1, currentOperation := Some(0), timers := 1, pending := map[]);
    RunFrom(crypto, s2, e, 2);
    assert Step(crypto, s2, e[2]) == s3;
    ExchangeAnswered(crypto, s3, c, k, m);
  }

  /** The same by number, for a message that is signed. */
  lemma SignedExchangeDelivers(
      crypto: Crypto, c: Credentials, k: KeyPair, m: M2, secret: Bytes, plain: Bytes)
    requires Signed(crypto, Handler(0, c, k, None, None), m, secret, plain)
    ensures
      var events :=
        [Verify(c), Resume(0, k, true), Resume(1, k, true),
         Frame(map[0x06 := [2], 0x03 := m.publicKey, 0x05 := m.encryptedData]),
         Resume(2, k, true), Resume(3, k, true), Resume(4, k, true), Resume(5, k, true), Frame(map[0x06 := [4]])];
      Run(crypto, INITIAL, events).outcomes == [Delivered(0, 0, crypto.derive(secret))]
  {
    hide Run, Authentic;
    AuthenticIsSigned(crypto, Handler(0, c, k, None, None), m);
    ExchangeDelivers(crypto, c, k, m);
  }

  lemma ExchangeAnswered(crypto: Crypto, s3: Service, c: Credentials, k: KeyPair, m: M2)
    requires Authentic(crypto, Handler(0, c, k, None, None), m)
    requires s3 == Service(VerifyingM1, Some(0), Some(0), [Handler(0, c, k, None, None)], map[], 2, 1, 1, [])
    ensures Run(crypto, s3, Exchange(c, k, m)[3..]).outcomes
         == [Delivered(0, 0, crypto.derive(crypto.shared(k.privateKey, m.publicKey).value))]
  {
    hide Run, CheckM2;
    var e := Exchange(c, k, m);
    var secret := crypto.shared(k.privateKey, m.publicKey);
    var h := Handler(0, c, k, secret, None);
    var s4 := s3.(state := VerifyingM2, pending := map[2 := M2Secret(0, m)], nextId := 3);
    RunFrom(crypto, s3, e, 3);
    assert Step(crypto, s3, e[3]) == s4;
    var s5 := s4.(handlers := [h], pending := map[3 := M2Check(0, m, secret.value)], nextId := 4);
    RunFrom(crypto, s4, e, 4);
    assert Step(crypto, s4, e[4]) == s5;
    var s6 := s5.(pending := map[4 := M2Sign(0, m)], nextId := 5);
    RunFrom(crypto, s5, e, 5);
    CheckAgain(crypto, secret.value, Handler(0, c, k, None, None), h, m);
    assert Step(crypto, s5, e[5]) == s6;
    ExchangeConfirmed(crypto, s6, c, k, m, secret.value);
  }

  lemma ExchangeConfirmed(crypto: Crypto, s6: Service, c: Credentials, k: KeyPair, m: M2, secret: Bytes)
    requires s6 == Service(VerifyingM2, Some(0), Some(0), [Handler(0, c, k, Some(secret), None)],
                           map[4 := M2Sign(0, m)], 5, 1, 1, [])
    ensures Run(crypto, s6, Exchange(c, k, m)[6..]).outcomes == [Delivered(0, 0, crypto.derive(secret))]
  {
    hide Run, CheckM2;
    var e := Exchange(c, k, m);
    var keys := crypto.derive(secret);
    var s7 := s6.(handlers := [Handler(0, c, k, Some(secret), Some(keys))], pending := map[5 := M2Send(0)],
        nextId := 6);
    RunFrom(crypto, s6, e, 6);
    assert Step(crypto, s6, e[6]) == s7;
    var s8 := s7.(state := VerifyingM3, pending := map[]);
    RunFrom(crypto, s7, e, 7);
    assert Step(crypto, s7, e[7]) == s8;
    RunFrom(crypto, s8, e, 8);
    assert Step(crypto, s8, e[8]).outcomes == [Delivered(0, 0, keys)];
    RunNothing(crypto, Step(crypto, s8, e[8]), e[9..]);
  }

  lemma CheckAgain(crypto: Crypto, secret: Bytes, h: Handler, h': Handler, m: M2)
    requires h'.credentials == h.credentials && h'.keyPair == h.keyPair
    ensures CheckM2(crypto, secret, h', m) == CheckM2(crypto, secret, h, m)
  {
  }

  // ---- Calls that do not wait ----

  /**
   A call of `verify` is waiting for its key pair under `key`, and another for its M1 to be sent under
   `send`. Each of the two sends is followed by an M2, and the second M2 is still being checked when
   the keys are derived.
   */
  function Crossed(send: nat, key: nat, next: nat, k: KeyPair, m: M2, n: M2): seq<Event> {
    [Resume(key, k, true), Resume(send, k, true), M2Frame(m), Resume(next, k, true), M2Frame(n),
     Resume(next + 1, k, true), Resume(next + 3, k, true), Resume(next + 2, k, true), Resume(next + 4, k, true),
     Resume(next + 6, k, true), M4_FRAME]
  }

  /** What may follow a call of `verify` that did not wait for the start under `a`. */
  function Mixing(s: Service, a: nat, k0: KeyPair, k: KeyPair, m: M2, n: M2): seq<Event>
    requires a in s.pending
  {
    if s.pending[a].StartKey? then [Resume(a, k0, true)] + Crossed(s.nextId + 1, s.nextId, s.nextId + 2, k, m, n)
    else Crossed(a, s.nextId, s.nextId + 1, k, m, n)
  }

  lemma CrossedDelivers(
      crypto: Crypto, s: Service, send: nat, key: nat, call: nat, c: Credentials, k: KeyPair, m: M2, n: M2)
    requires key in s.pending && s.pending[key] == StartKey(call, c)
    requires send in s.pending && s.pending[send].StartSend? && forall id | id in s.pending :: id < s.nextId
    requires Authentic(crypto, Handler(call, c, k, None, None), m)
    requires crypto.shared(k.privateKey, n.publicKey).Some?
    ensures
      var h, after := Handler(call, c, k, None, None), Run(crypto, s, Crossed(send, key, s.nextId, k, m, n));
      && after.outcomes == s.outcomes + [Delivered(call, |s.handlers|,
          crypto.derive(SecretOf(crypto, h, n.publicKey).value))]
      && |s.handlers| < |after.handlers| && SameMaker(h, after.handlers[|s.handlers|])
  {
    hide Run, CheckM2;
    var e, i, h := Crossed(send, key, s.nextId, k, m, n), |s.handlers|, Handler(call, c, k, None, None);
    assert e[0..] == e;
    RunFrom(crypto, s, e, 0);
    var s1 := Step(crypto, s, e[0]);
    assert s1.handlers == s.handlers + [h] && s1.verificationHandler == Some(i) && s1.nextId == s.nextId + 1;
    assert s1.pending[s.nextId] == StartSend(call) && s1.pending[send] == s.pending[send];
    RunFrom(crypto, s1, e, 1);
    var s2 := Step(crypto, s1, e[1]);
    assert s2.state == VerifyingM1 && s2.handlers == s1.handlers && s2.verificationHandler == Some(i);
    SentTwice(crypto, s2, e, s.nextId, call, i, k, m, n);
  }

  /** Each of the two sends is followed by a message, both to the second handler. */
  lemma SentTwice(
      crypto: Crypto, s: Service, e: seq<Event>, next: nat, call: nat, i: nat, k: KeyPair, m: M2, n: M2)
    requires s.nextId == next + 1 && next in s.pending && s.pending[next] == StartSend(call)
    requires s.state == VerifyingM1 && s.verificationHandler == Some(i) && i < |s.handlers|
    requires s.handlers[i].keyPair == k && Authentic(crypto, s.handlers[i], m)
    requires crypto.shared(k.privateKey, n.publicKey).Some?
    requires |e| == 11 && e[2..] == Crossed(0, 0, next, k, m, n)[2..]
    ensures
      var after := Run(crypto, s, e[2..]);
      && after.outcomes == s.outcomes + [Delivered(call, i,
          crypto.derive(crypto.shared(k.privateKey, n.publicKey).value))]
      && i < |after.handlers| && SameMaker(s.handlers[i], after.handlers[i])
  {
    hide Run, CheckM2, Authentic, Step;
    var d := Crossed(0, 0, next, k, m, n);
    RunFrom(crypto, s, d, 2);
    M2Arrives(crypto, s, i, m);
    var s3 := Step(crypto, s, d[2]);
    RunFrom(crypto, s3, d, 3);
    M1Sent(crypto, s3, next, k);
    var s4 := Step(crypto, s3, d[3]);
    RunFrom(crypto, s4, d, 4);
    M2Arrives(crypto, s4, i, n);
    TwoAtOnce(crypto, Step(crypto, s4, d[4]), d, next, call, i, k, m, n);
  }

  lemma M2Arrives(crypto: Crypto, s: Service, i: nat, m: M2)
    requires s.state == VerifyingM1 && s.verificationHandler == Some(i)
    ensures Step(crypto, s, M2Frame(m)) == Suspend(s.(state := VerifyingM2), M2Secret(i, m))
  {
  }

  lemma M1Sent(crypto: Crypto, s: Service, id: nat, k: KeyPair)
    requires id in s.pending && s.pending[id].StartSend?
    ensures Step(crypto, s, Resume(id, k, true))
         == s.(pending := s.pending - {id}, state := VerifyingM1, currentOperation := Some(s.pending[id].call),
               timers := s.timers + 1)
  {
  }

  /** One handler works on two messages. */
  lemma TwoAtOnce(
      crypto: Crypto, s: Service, e: seq<Event>, next: nat, call: nat, i: nat, k: KeyPair, m: M2, n: M2)
    requires s.nextId == next + 3 && next + 1 in s.pending && next + 2 in s.pending
    requires s.pending[next + 1] == M2Secret(i, m) && s.pending[next + 2] == M2Secret(i, n)
    requires s.verificationHandler == Some(i) && s.currentOperation == Some(call) && i < |s.handlers|
    requires s.handlers[i].keyPair == k && Authentic(crypto, s.handlers[i], m)
    requires crypto.shared(k.privateKey, n.publicKey).Some?
    requires |e| == 11 && e[5..] == Crossed(0, 0, next, k, m, n)[5..]
    ensures
      var after := Run(crypto, s, e[5..]);
      && after.outcomes == s.outcomes + [Delivered(call, i,
          crypto.derive(crypto.shared(k.privateKey, n.publicKey).value))]
      && i < |after.handlers| && SameMaker(s.handlers[i], after.handlers[i])
  {
    hide Run, CheckM2;
    var d := Crossed(0, 0, next, k, m, n);
    var first := crypto.shared(k.privateKey, m.publicKey);
    RunFrom(crypto, s, d, 5);
    var s6 := Step(crypto, s, d[5]);
    assert s6.handlers == s.handlers[i := s.handlers[i].(sharedSecret := first)];
    assert s6.pending[next + 3] == M2Check(i, m, first.value) && s6.pending[next + 2] == M2Secret(i, n);
    CheckAgain(crypto, first.value, s.handlers[i], s6.handlers[i], m);
    RunFrom(crypto, s6, d, 6);
    var s7 := Step(crypto, s6, d[6]);
    assert s7.pending[next + 4] == M2Sign(i, m) && s7.pending[next + 2] == M2Secret(i, n) && s7.nextId == next + 5;
    RunFrom(crypto, s7, d, 7);
    var s8 := Step(crypto, s7, d[7]);
    assert s8.handlers[i] == s.handlers[i].(sharedSecret := crypto.shared(k.privateKey, n.publicKey));
    assert s8.pending[next + 4] == M2Sign(i, m) && s8.nextId == next + 6;
    OneLeft(crypto, s8, d, next, call, i, k);
  }

  lemma OneLeft(crypto: Crypto, s: Service, e: seq<Event>, next: nat, call: nat, i: nat, k: KeyPair)
    requires s.nextId == next + 6 && next + 4 in s.pending && s.pending[next + 4].M2Sign?
        && s.pending[next + 4].handler == i
    requires s.verificationHandler == Some(i) && s.currentOperation == Some(call)
    requires i < |s.handlers| && s.handlers[i].sharedSecret.Some?
    requires |e| == 11 && e[8..] == [Resume(next + 4, k, true), Resume(next + 6, k, true), M4_FRAME]
    ensures
      var after := Run(crypto, s, e[8..]);
      && after.outcomes == s.outcomes + [Delivered(call, i, crypto.derive(s.handlers[i].sharedSecret.value))]
      && i < |after.handlers| && SameMaker(s.handlers[i], after.handlers[i])
  {
    hide Run, CheckM2;
    var d := e[8..];
    assert d[0..] == d;
    RunFrom(crypto, s, d, 0);
    var s9 := Step(crypto, s, d[0]);
    assert s9.handlers[i].sessionKeys == Some(crypto.derive(s.handlers[i].sharedSecret.value));
    assert s9.pending[next + 6] == M2Send(i);
    RunFrom(crypto, s9, d, 1);
    var s10 := Step(crypto, s9, d[1]);
    assert s10.state == VerifyingM3 && s10.handlers == s9.handlers;
    RunFrom(crypto, s10, d, 2);
    RunNothing(crypto, Step(crypto, s10, d[2]), d[3..]);
  }

  /** The handler that the call gets. */
  function MixedHandler(s: Service, a: nat): nat
    requires a in s.pending
  {
    if s.pending[a].StartKey? then |s.handlers| + 1 else |s.handlers|
  }

  /**
   From any idle service with a start pending, whatever else is pending: a call of `verify` may be
   answered with the keys of a message that was never checked.
   */
  lemma MixingDelivers(crypto: Crypto, s: Service, a: nat, k0: KeyPair, c: Credentials, k: KeyPair, m: M2, n: M2)
    requires s.state == Idle && a in s.pending && IsStart(s.pending[a]) && forall id | id in s.pending :: id < s.nextId
    requires Authentic(crypto, Handler(s.calls, c, k, None, None), m)
    requires crypto.shared(k.privateKey, n.publicKey).Some?
    ensures
      var h, i := Handler(s.calls, c, k, None, None), MixedHandler(s, a);
      var after := Run(crypto, DoVerify(s, c), Mixing(s, a, k0, k, m, n));
      && after.outcomes == s.outcomes + [Delivered(s.calls, i, crypto.derive(SecretOf(crypto, h, n.publicKey).value))]
      && i < |after.handlers| && SameMaker(h, after.handlers[i])
  {
    hide Run, Authentic, Crossed;
    var s1 := DoVerify(s, c);
    if s.pending[a].StartKey? {
      var e := Mixing(s, a, k0, k, m, n);
      assert e[0..] == e && e[1..] == Crossed(s.nextId + 1, s.nextId, s.nextId + 2, k, m, n);
      RunFrom(crypto, s1, e, 0);
      var s2 := Step(crypto, s1, e[0]);
      assert s2.pending[s.nextId] == StartKey(s.calls, c) && s2.pending[s.nextId + 1] == StartSend(s.pending[a].call);
      CrossedDelivers(crypto, s2, s.nextId + 1, s.nextId, s.calls, c, k, m, n);
    } else {
      assert s1.pending[a] == s.pending[a];
      CrossedDelivers(crypto, s1, a, s.nextId, s.calls, c, k, m, n);
    }
  }

  /** No message that the handler would accept leads to the keys that this one leads to. */
  ghost predicate Foreign(crypto: Crypto, h: Handler, n: M2) {
    var secret := SecretOf(crypto, h, n.publicKey);
    && secret.Some?
    && forall m2 :: Authentic(crypto, h, m2) ==> !SharedWith(crypto, h, m2.publicKey, crypto.derive(secret.value))
  }

  ghost predicate NoVerify(events: seq<Event>) {
    forall e | e in events :: !e.Verify?
  }

  /**
   Waiting is exactly what it takes: after a polite run that left the service idle, everything that
   can follow a further call gives agreed keys if and only if no other call is still starting.
   */
  lemma WaitingIsExact(
      crypto: Crypto, events: seq<Event>, c: Credentials, k0: KeyPair, k: KeyPair, m: M2, n: M2)
    requires Polite(crypto, events) && Run(crypto, INITIAL, events).state == Idle
    requires
      var h := Handler(Run(crypto, INITIAL, events).calls, c, k, None, None);
      Authentic(crypto, h, m) && Foreign(crypto, h, n)
    ensures !Starting(Run(crypto, INITIAL, events))
       <==> forall more | NoVerify(more) :: AllAgreed(crypto, events + [Verify(c)] + more)
  {
    hide Polite, Authentic, AllAgreed, Foreign, Run;
    var s := Run(crypto, INITIAL, events);
    if !Starting(s) {
      forall more | NoVerify(more) ensures AllAgreed(crypto, events + [Verify(c)] + more) {
        StaysPolite(crypto, events, c, more);
        PoliteCallsGetAgreedKeys(crypto, events + [Verify(c)] + more);
      }
    } else {
      var a :| a in s.pending && IsStart(s.pending[a]);
      var more := Mixing(s, a, k0, k, m, n);
      NotAgreed(crypto, events, a, c, k0, k, m, n);
      assert NoVerify(more);
    }
  }

  lemma StaysPolite(crypto: Crypto, events: seq<Event>, c: Credentials, more: seq<Event>)
    requires Polite(crypto, events) && Waits(Run(crypto, INITIAL, events)) && NoVerify(more)
    ensures Polite(crypto, events + [Verify(c)] + more)
  {
    hide Waits, Run;
    var whole := events + [Verify(c)] + more;
    forall j | |events| < j < |whole| ensures !whole[j].Verify? {
      assert whole[j] == more[j - |events| - 1];
    }
    forall k | 0 <= k < |whole| && whole[k].Verify? ensures Waits(At(crypto, whole, k)) {
      if k == |events| {
        assert whole[..k] == events;
      } else if k < |events| {
        assert whole[..k] == events[..k];
        assert Waits(At(crypto, events, k));
      }
    }
  }

  lemma NotAgreed(
      crypto: Crypto, events: seq<Event>, a: nat, c: Credentials, k0: KeyPair, k: KeyPair, m: M2, n: M2)
    requires
      var s := Run(crypto, INITIAL, events);
      var h := Handler(s.calls, c, k, None, None);
      && s.state == Idle && a in s.pending && IsStart(s.pending[a])
      && Authentic(crypto, h, m) && Foreign(crypto, h, n)
    ensures !AllAgreed(crypto, events + [Verify(c)] + Mixing(Run(crypto, INITIAL, events), a, k0, k, m, n))
  {
    hide Run, Authentic, SharedWith, Mixing;
    var s := Run(crypto, INITIAL, events);
    var h, i := Handler(s.calls, c, k, None, None), MixedHandler(s, a);
    RunKeepsSound(crypto, events, |events|);
    assert events[..|events|] == events;
    MixingDelivers(crypto, s, a, k0, c, k, m, n);
    var whole := events + [Verify(c)] + Mixing(s, a, k0, k, m, n);
    RunOn(crypto, INITIAL, events + [Verify(c)], Mixing(s, a, k0, k, m, n));
    RunOneMore(crypto, INITIAL, events, Verify(c));
    var after := Run(crypto, INITIAL, whole);
    var o := after.outcomes[|s.outcomes|];
    assert o in after.outcomes && after == Run(crypto, INITIAL, whole);
    NoneAgrees(crypto, PastOf(crypto, whole), i, h, after.handlers[i], n);
  }

  lemma NoneAgrees(crypto: Crypto, past: Past, i: nat, h: Handler, h': Handler, n: M2)
    requires Foreign(crypto, h, n) && SameMaker(h, h')
    ensures !Agreed(crypto, past, i, h', crypto.derive(SecretOf(crypto, h, n.publicKey).value))
  {
    hide Authentic, SharedWith, SecretOf;
    var keys := crypto.derive(SecretOf(crypto, h, n.publicKey).value);
    forall m2 ensures !(Checked(crypto, past, i, h', m2) && SharedWith(crypto, h', m2.publicKey, keys)) {
      AuthenticStays(crypto, h, h', m2);
      SharedStays(crypto, h, h', m2, keys);
    }
  }

  lemma SharedStays(crypto: Crypto, h: Handler, h': Handler, m2: M2, keys: SessionKeys)
    requires SameMaker(h, h')
    ensures SharedWith(crypto, h', m2.publicKey, keys) == SharedWith(crypto, h, m2.publicKey, keys)
  {
  }

  /** Two calls with their own key pairs from the beginning, neither of which has sent M1 when the other starts. */
  function Overlapping(c0: Credentials, k0: KeyPair, c1: Credentials, k1: KeyPair, m: M2, n: M2): seq<Event> {
    [Verify(c0), Verify(c1), Resume(0, k0, true), Resume(1, k1, true),
     Resume(2, k1, true), M2Frame(m), Resume(3, k1, true), M2Frame(n),
     Resume(4, k1, true), Resume(6, k1, true), Resume(5, k1, true), Resume(7, k1, true), Resume(9, k1, true),
     M4_FRAME]
  }

  /** The second call gets the keys of an M2 that was not checked, the first one is never answered. */
  lemma OverlappingCallsMixExchanges(
      crypto: Crypto, c0: Credentials, k0: KeyPair, c1: Credentials, k1: KeyPair, m: M2, n: M2)
    requires Authentic(crypto, Handler(1, c1, k1, None, None), m)
    requires crypto.shared(k1.privateKey, n.publicKey).Some?
    ensures Run(crypto, INITIAL, Overlapping(c0, k0, c1, k1, m, n)).outcomes
         == [Delivered(1, 1, crypto.derive(crypto.shared(k1.privateKey, n.publicKey).value))]
  {
    hide Run, Authentic, SameMaker;
    var e := Overlapping(c0, k0, c1, k1, m, n);
    assert e[0..] == e;
    RunFrom(crypto, INITIAL, e, 0);
    var s := Service(Idle, None, None, [], map[0 := StartKey(0, c0)], 1, 0, 1, []);
    assert Step(crypto, INITIAL, e[0]) == s;
    RunFrom(crypto, s, e, 1);
    assert e[2..] == Mixing(s, 0, k0, k1, m, n);
    MixingDelivers(crypto, s, 0, k0, c1, k1, m, n);
  }

  // ---- The service ----

  class HAPAuthenticationService {
    const crypto: Crypto
    var internalState: State
    var verificationHandler: Option<nat>
    var currentOperation: Option<nat>
    /** The handlers made so far; a handler is known by its place here. */
    var handlers: seq<Handler>
    var pending: map<nat, Continuation>
    var nextId: nat
    var timers: nat
    var calls: nat
    var outcomes: seq<Outcome>

    ghost function Now(): Service
      reads this
    {
      Service(internalState, verificationHandler, currentOperation, handlers, pending, nextId, timers, calls, outcomes)
    }

    constructor (crypto: Crypto)
      ensures this.crypto == crypto && Now() == INITIAL
    {
      this.crypto := crypto;
      internalState := Idle;
      verificationHandler, currentOperation := None, None;
      handlers, pending, nextId, timers, calls, outcomes := [], map[], 0, 0, 0, [];
    }

    method Await(c: Continuation)
      modifies this`pending, this`nextId
      ensures Now() == Suspend(old(Now()), c)
    {
      pending := pending[nextId := c];
      nextId := nextId + 1;
    }

    method Reject(call: nat)
      modifies this`outcomes
      ensures outcomes == old(outcomes) + [Rejected(call)]
    {
      outcomes := outcomes + [Rejected(call)];
    }

    method Reset()
      modifies this`internalState, this`verificationHandler, this`currentOperation
      ensures Now() == AfterReset(old(Now()))
    {
      internalState := Idle;
      verificationHandler := None;
      currentOperation := None;
    }

    method HandleError()
      modifies this`internalState, this`verificationHandler, this`currentOperation, this`outcomes
      ensures Now() == AfterError(old(Now()))
    {
      internalState := Failed;
      if currentOperation.Some? {
        Reject(currentOperation.value);
      }
      currentOperation := None;
      Reset();
    }

    method Verify(credentials: Credentials)
      modifies this
      ensures Now() == DoVerify(old(Now()), credentials)
    {
      var call := calls;
      calls := calls + 1;
      if internalState != Idle {
        Reject(call);
        return;
      }
      Await(StartKey(call, credentials));
    }

    method ResumeStart(c: Continuation, keyPair: KeyPair, ok: bool)
      requires IsStart(c)
      modifies this
      ensures Now() == Continue(crypto, old(Now()), c, keyPair, ok)
    {
      if !ok {
        Reject(c.call);
        return;
      }
      match c {
        case StartKey(call, credentials) =>
          verificationHandler := Some(|handlers|);
          handlers := handlers + [Handler(call, credentials, keyPair, None, None)];
          Await(StartSend(call));
        case StartSend(call) =>
          internalState := VerifyingM1;
          currentOperation := Some(call);
          timers := timers + 1;
      }
    }

    /** From the shared secret to the sending of M3; any exception resets the service. */
    method ResumeM2(c: Continuation, keyPair: KeyPair, ok: bool)
      requires !IsStart(c)
      modifies this
      ensures Now() == Continue(crypto, old(Now()), c, keyPair, ok)
    {
      hide AfterError, CheckM2;
      match c
      case M2Secret(i, m2) =>
        if !ok || i >= |handlers| {
          HandleError();
          return;
        }
        var secret := crypto.shared(handlers[i].keyPair.privateKey, m2.publicKey);
        if secret.None? {
          HandleError();
          return;
        }
        handlers := handlers[i := handlers[i].(sharedSecret := secret)];
        Await(M2Check(i, m2, secret.value));
      case M2Check(i, m2, secret) =>
        if i < |handlers| && CheckM2(crypto, secret, handlers[i], m2) {
          Await(M2Sign(i, m2));
        } else {
          HandleError();
        }
      case M2Sign(i, m2) =>
        if !ok || i >= |handlers| || handlers[i].sharedSecret.None? {
          HandleError();
          return;
        }
        var keys := crypto.derive(handlers[i].sharedSecret.value);
        handlers := handlers[i := handlers[i].(sessionKeys := Some(keys))];
        Await(M2Send(i));
      case M2Send(_) =>
        if ok {
          internalState := VerifyingM3;
        } else {
          HandleError();
        }
    }

    method ResumeOne(id: nat, keyPair: KeyPair, ok: bool)
      modifies this
      ensures Now() == DoResume(crypto, old(Now()), id, keyPair, ok)
    {
      hide Continue;
      if id in pending {
        var c := pending[id];
        pending := pending - {id};
        if c.StartKey? || c.StartSend? {
          ResumeStart(c, keyPair, ok);
        } else {
          ResumeM2(c, keyPair, ok);
        }
      }
    }

    method HandleFrame(tlv: Tlv8.TlvData)
      modifies this
      ensures Now() == DoFrame(old(Now()), tlv)
    {
      hide AfterError, HandleVerifyM2, HandleVerifyM4;
      if ERROR in tlv {
        HandleError();
        return;
      }
      var seqNo := SeqNo(tlv);
      match internalState
      case VerifyingM1 =>
        if seqNo == Some(2) {
          HandleM2(tlv);
        }
      case VerifyingM3 =>
        if seqNo == Some(4) {
          HandleM4();
        }
      case _ =>
    }

    method HandleM2(tlv: Tlv8.TlvData)
      modifies this
      ensures Now() == HandleVerifyM2(old(Now()), tlv)
    {
      if verificationHandler.None? {
        HandleError();
        return;
      }
      internalState := VerifyingM2;
      if PUBLIC_KEY !in tlv || ENCRYPTED_DATA !in tlv {
        HandleError();
        return;
      }
      Await(M2Secret(verificationHandler.value, M2(tlv[PUBLIC_KEY], tlv[ENCRYPTED_DATA])));
    }

    method HandleM4()
      modifies this
      ensures Now() == HandleVerifyM4(old(Now()))
    {
      if verificationHandler.None? {
        HandleError();
        return;
      }
      internalState := VerifyingM4;
      var h := verificationHandler.value;
      if h >= |handlers| || handlers[h].sessionKeys.None? {
        HandleError();
        return;
      }
      internalState := Verified;
      if currentOperation.Some? {
        outcomes := outcomes + [Delivered(currentOperation.value, h, handlers[h].sessionKeys.value)];
      }
      currentOperation := None;
    }

    method TimerFires()
      modifies this
      ensures Now() == DoTimeout(old(Now()))
    {
      if timers == 0 {
        return;
      }
      timers := timers - 1;
      if internalState != Verified {
        if currentOperation.Some? {
          Reject(currentOperation.value);
        }
        Reset();
      }
    }

    /** Any run of the service is a run of the steps above. */
    method RunAll(events: seq<Event>)
      modifies this
      ensures Now() == Run(crypto, old(Now()), events)
    {
      hide Step;
      assert events[0..] == events;
      for i := 0 to |events|
        invariant Run(crypto, old(Now()), events) == Run(crypto, Now(), events[i..])
      {
        RunFrom(crypto, Now(), events, i);
        One(events[i]);
      }
    }

    method One(e: Event)
      modifies this
      ensures Now() == Step(crypto, old(Now()), e)
    {
      hide DoVerify, DoResume, DoFrame, DoTimeout;
      match e
      case Verify(credentials) => Verify(credentials);
      case Resume(id, keyPair, ok) => ResumeOne(id, keyPair, ok);
      case Frame(tlv) => HandleFrame(tlv);
      case Timeout => TimerFires();
    }
  }
}
