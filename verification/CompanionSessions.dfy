/**
 Requests and responses of a Companion session, and how the session starts and stops
 (src/protocols/companion/layers/CompanionSessionService.ts). Everything that happens later, a
 response, a timer, a failed send, an awaiting function that continues, is an event of its own.
 */
module CompanionSessions {
  import opened Results

  datatype Config = Config(autoRetry: bool, maxRetries: nat)

  /** What waits for a response. */
  datatype Kind = Command | StartAttempt | StopRequest

  datatype Ending = Responded | ErrorResponse | TimedOut | SendFailed | Terminated
  datatype Settled = Settled(id: nat, ending: Ending)

  datatype SessionState = Inactive | Starting | Active | Stopping | Stopped | Error

  datatype Session = Session(
    state: SessionState,
    hasInfo: bool,
    nextId: nat,
    pending: map<nat, Kind>,
    timers: set<nat>,                  // transactions whose timer is running
    inFlight: set<nat>,                // transactions whose message is being sent
    resumable: map<nat, (Kind, bool)>, // settled starts and stops whose caller has not gone on; true if responded
    retryCount: nat,
    waiting: nat,                      // retry delays that are running
    establishing: bool,
    issued: seq<nat>,
    settled: seq<Settled>,
    received: nat,
    emitted: nat,
    initiated: nat,                    // since the last cleanup: starts begun by a caller,
    attempts: nat,                     // start requests sent,
    carried: nat)                      // and retry delays that were running then

  const INITIAL: Session :=
    Session(Inactive, false, 1, map[], {}, {}, map[], 0, 0, false, [], [], 0, 0, 0, 0, 0)

  datatype Event =
    | SendCommand
    | SendOnly
    | SendDone(id: nat, ok: bool)
    | Timeout(id: nat)
    | Receive(transaction: Option<int>, isError: bool)
    | Start(ready: bool)
    | StartResumes(id: nat, parsed: bool)
    | RetryDelayOver
    | Stop
    | StopResumes(id: nat)

  // ---- Steps ----

  /** A request: its number, its timer and its entry. */
  function Issue(s: Session, kind: Kind): Session {
    s.(nextId := s.nextId + 1, pending := s.pending[s.nextId := kind], timers := s.timers + {s.nextId},
       inFlight := s.inFlight + {s.nextId}, issued := s.issued + [s.nextId])
  }

  /** A pending request is answered; one that is not pending cannot be answered again. */
  function Settle(s: Session, id: nat, ending: Ending): Session {
    if id !in s.pending then s
    else
      s.(pending := s.pending - {id}, timers := s.timers - {id}, settled := s.settled + [Settled(id, ending)],
         resumable := if s.pending[id].Command? then s.resumable
                      else s.resumable[id := (s.pending[id], ending == Responded)])
  }

  function DoReceive(s: Session, id: Option<int>, isError: bool): Session {
    var s' := s.(received := s.received + 1);
    if id.Some? && id.value >= 0 && id.value as nat in s.pending then
      Settle(s', id.value, if isError then ErrorResponse else Responded)
    else s'.(emitted := s.emitted + 1)
  }

  function PerformStart(s: Session): Session {
    Issue(s.(state := Starting, attempts := s.attempts + 1), StartAttempt)
  }

  function DoStart(s: Session, ready: bool): Session {
    if !ready || (s.state == Active && s.hasInfo) || (s.state == Starting && s.establishing) then s
    else PerformStart(s.(establishing := true, initiated := s.initiated + 1))
  }

  function DoStartResumes(c: Config, s: Session, id: nat, parsed: bool): Session {
    if id !in s.resumable || !s.resumable[id].0.StartAttempt? then s
    else
      var s' := s.(resumable := s.resumable - {id});
      if s.resumable[id].1 && parsed then s'.(hasInfo := true, state := Active)
      else if c.autoRetry && s.retryCount < c.maxRetries then
        s'.(retryCount := s.retryCount + 1, waiting := s.waiting + 1)
      else s'.(state := Error)
  }

  function DoStop(s: Session): Session {
    if s.state == Inactive || s.state == Stopped then s
    else if !s.hasInfo then s.(state := Stopped)
    else Issue(s.(state := Stopping), StopRequest)
  }

  /** The pending requests with numbers below n, in the order they were made. */
  function PendingBelow(pending: map<nat, Kind>, n: nat): seq<nat> {
    if n == 0 then [] else PendingBelow(pending, n - 1) + if n - 1 in pending then [n - 1] else []
  }

  function TerminateAll(s: Session, ids: seq<nat>): Session
    decreases |ids|
  {
    if ids == [] then s
    else Settle(TerminateAll(s, ids[..|ids| - 1]), ids[|ids| - 1], Terminated)
  }

  function Cleanup(s: Session): Session {
    TerminateAll(s, PendingBelow(s.pending, s.nextId))
      .(hasInfo := false, establishing := false, retryCount := 0, initiated := 0, attempts := 0, carried := s.waiting)
  }

  function DoStopResumes(s: Session, id: nat): Session {
    if id !in s.resumable || !s.resumable[id].0.StopRequest? then s
    else Cleanup(s.(resumable := s.resumable - {id})).(state := Stopped)
  }

  function Step(c: Config, s: Session, e: Event): Session {
    match e
    case SendCommand => Issue(s, Command)
    case SendOnly => s.(nextId := s.nextId + 1)
    case SendDone(id, ok) =>
      if id !in s.inFlight then s
      else
        var s' := s.(inFlight := s.inFlight - {id});
        if ok then s' else Settle(s', id, SendFailed)
    case Timeout(id) => if id in s.timers then Settle(s, id, TimedOut) else s
    case Receive(id, isError) => DoReceive(s, id, isError)
    case Start(ready) => DoStart(s, ready)
    case StartResumes(id, parsed) => DoStartResumes(c, s, id, parsed)
    case RetryDelayOver => if s.waiting > 0 then PerformStart(s.(waiting := s.waiting - 1)) else s
    case Stop => DoStop(s)
    case StopResumes(id) => DoStopResumes(s, id)
  }

  function Run(c: Config, s: Session, events: seq<Event>): Session
    decreases |events|
  {
    if events == [] then s else Run(c, Step(c, s, events[0]), events[1..])
  }

  // ---- What every run keeps ----

  ghost predicate Ascending(ids: seq<nat>, limit: nat) {
    && (forall i, j | 0 <= i < j < |ids| :: ids[i] < ids[j])
    && (forall i | 0 <= i < |ids| :: ids[i] < limit)
  }

  function Ids(settled: seq<Settled>): seq<nat> {
    seq(|settled|, i requires 0 <= i < |settled| => settled[i].id)
  }

  function AnsweredByMessage(settled: seq<Settled>): nat {
    if settled == [] then 0
    else AnsweredByMessage(settled[..|settled| - 1])
         + if settled[|settled| - 1].ending in {Responded, ErrorResponse} then 1 else 0
  }

  /** Numbers are never used twice; a request is pending, with its timer running, or settled, and once. */
  ghost predicate Conserved(s: Session) {
    && s.timers == s.pending.Keys
    && Ascending(s.issued, s.nextId)
    && multiset(s.issued) == multiset(s.timers) + multiset(Ids(s.settled))
  }

  /** What that says of single requests and of their number. */
  lemma ConservedMeans(s: Session)
    requires Conserved(s)
    ensures |s.issued| == |s.pending.Keys| + |s.settled|
    ensures forall i, j | 0 <= i < j < |s.settled| :: s.settled[i].id != s.settled[j].id
    ensures forall i | 0 <= i < |s.settled| :: s.settled[i].id in s.issued && s.settled[i].id !in s.pending
    ensures forall id | id in s.pending :: id in s.issued && id in s.timers
  {
    var ids := Ids(s.settled);
    assert |multiset(s.issued)| == |multiset(s.timers)| + |multiset(ids)|;
    forall id ensures multiset(s.issued)[id] <= 1 {
      AtMostOnce(s.issued, s.nextId, id);
    }
    forall i, j | 0 <= i < j < |s.settled| ensures s.settled[i].id != s.settled[j].id {
      assert multiset(s.issued)[ids[i]] <= 1;
      if ids[i] == ids[j] {
        TwiceCounts(ids, i, j);
      }
    }
    forall i | 0 <= i < |s.settled| ensures s.settled[i].id in s.issued && s.settled[i].id !in s.pending {
      var id := ids[i];
      assert id in ids && multiset(ids)[id] > 0;
      assert multiset(s.issued)[id] <= 1;
      assert id in multiset(s.issued);
    }
    forall id | id in s.pending ensures id in s.issued && id in s.timers {
      assert multiset(s.timers)[id] == 1;
      assert id in multiset(s.issued);
    }
  }

  lemma {:induction false} AtMostOnce(ids: seq<nat>, limit: nat, id: nat)
    requires Ascending(ids, limit)
    ensures multiset(ids)[id] <= 1
    ensures id >= limit ==> multiset(ids)[id] == 0
    decreases |ids|
  {
    if ids != [] {
      var rest, last := ids[..|ids| - 1], ids[|ids| - 1];
      AtMostOnce(rest, last, id);
      assert ids == rest + [last];
    }
  }

  lemma TwiceCounts(ids: seq<nat>, i: nat, j: nat)
    requires i < j < |ids| && ids[i] == ids[j]
    ensures multiset(ids)[ids[i]] >= 2
  {
    var before, after := ids[..j], ids[j..];
    assert ids == before + after;
    assert before[i] in before && after[0] in after;
  }

  /** A message either settles one request or is passed on. */
  ghost predicate Counted(s: Session) {
    s.received == s.emitted + AnsweredByMessage(s.settled)
  }

  /** Every start request comes from a caller, a retry, or a delay from before the cleanup. */
  ghost predicate Accounted(c: Config, s: Session) {
    && s.attempts + s.waiting == s.initiated + s.retryCount + s.carried
    && s.retryCount <= c.maxRetries
    && (!c.autoRetry ==> s.retryCount == 0)
  }

  ghost predicate Valid(c: Config, s: Session) {
    Conserved(s) && Counted(s) && Accounted(c, s)
  }

  lemma IssueConserves(s: Session, kind: Kind)
    requires Conserved(s)
    ensures Conserved(Issue(s, kind))
  {
    AtMostOnce(s.issued, s.nextId, s.nextId);
    assert multiset(s.timers)[s.nextId] == 0;
    assert multiset(s.timers + {s.nextId}) == multiset(s.timers) + multiset{s.nextId};
    assert multiset(s.issued + [s.nextId]) == multiset(s.issued) + multiset{s.nextId};
  }

  lemma SettleConserves(s: Session, id: nat, ending: Ending)
    requires Conserved(s)
    ensures Conserved(Settle(s, id, ending))
    ensures var s' := Settle(s, id, ending); s'.pending == s.pending - {id}
  {
    if id in s.pending {
      var s' := Settle(s, id, ending);
      assert Ids(s'.settled) == Ids(s.settled) + [id];
      assert multiset(s.timers) == multiset(s.timers - {id}) + multiset{id};
    }
  }

  lemma SettleCounts(s: Session, id: nat, ending: Ending)
    ensures
      AnsweredByMessage(Settle(s, id, ending).settled) == AnsweredByMessage(s.settled)
        + if id in s.pending && ending in {Responded, ErrorResponse} then 1 else 0
  {
    if id in s.pending {
      assert Settle(s, id, ending).settled[..|s.settled|] == s.settled;
    }
  }

  lemma {:induction false} PendingBelowIs(pending: map<nat, Kind>, n: nat)
    ensures forall id :: id in PendingBelow(pending, n) <==> id in pending && id < n
  {
    if n > 0 {
      PendingBelowIs(pending, n - 1);
    }
  }

  lemma {:induction false} TerminateConserves(s: Session, ids: seq<nat>)
    requires Conserved(s)
    ensures
      var s' := TerminateAll(s, ids);
      && Conserved(s')
      && (forall id :: id in s'.pending <==> id in s.pending && id !in ids)
      && AnsweredByMessage(s'.settled) == AnsweredByMessage(s.settled)
    decreases |ids|
  {
    hide Conserved, Settle, AnsweredByMessage;
    if ids != [] {
      var before := ids[..|ids| - 1];
      TerminateConserves(s, before);
      SettleConserves(TerminateAll(s, before), ids[|ids| - 1], Terminated);
      SettleCounts(TerminateAll(s, before), ids[|ids| - 1], Terminated);
      assert forall id | id in ids :: id in before || id == ids[|ids| - 1];
    }
  }

  lemma {:induction false} TerminateFrame(s: Session, ids: seq<nat>)
    ensures
      var s' := TerminateAll(s, ids);
      s'.(pending := s.pending, timers := s.timers, settled := s.settled, resumable := s.resumable) == s
    decreases |ids|
  {
    if ids != [] {
      TerminateFrame(s, ids[..|ids| - 1]);
    }
  }

  /** After the cleanup nothing is pending and no timer runs. */
  lemma CleanupEmpties(s: Session)
    requires Conserved(s)
    ensures
      var s' := Cleanup(s);
      && Conserved(s') && s'.pending == map[] && s'.timers == {}
      && AnsweredByMessage(s'.settled) == AnsweredByMessage(s.settled)
      && s'.received == s.received && s'.emitted == s.emitted && s'.waiting == s.waiting
  {
    hide Conserved;
    var ids := PendingBelow(s.pending, s.nextId);
    PendingBelowIs(s.pending, s.nextId);
    TerminateConserves(s, ids);
    TerminateFrame(s, ids);
    PendingAreIssued(s);
    assert TerminateAll(s, ids).pending.Keys == {};
    assert Cleanup(s).timers == {} by {
      ConservedTimers(TerminateAll(s, ids));
    }
    ConservedIgnoresRest(TerminateAll(s, ids), Cleanup(s));
  }

  lemma PendingAreIssued(s: Session)
    requires Conserved(s)
    ensures forall id | id in s.pending :: id < s.nextId
  {
    forall id | id in s.pending ensures id < s.nextId {
      AtMostOnce(s.issued, s.nextId, id);
      assert multiset(s.timers)[id] == 1;
    }
  }

  lemma ConservedTimers(s: Session)
    requires Conserved(s)
    ensures s.timers == s.pending.Keys
  {
  }

  lemma ConservedIgnoresRest(s: Session, s': Session)
    requires Conserved(s)
    requires s'.pending == s.pending && s'.timers == s.timers && s'.issued == s.issued
    requires s'.settled == s.settled && s'.nextId >= s.nextId
    ensures Conserved(s')
  {
  }

  lemma StepConserves(c: Config, s: Session, e: Event)
    requires Conserved(s)
    ensures Conserved(Step(c, s, e))
  {
    hide Conserved, Step;
    match e
    case SendDone(_, _) => SettlingConserves(c, s, e);
    case Timeout(_) => SettlingConserves(c, s, e);
    case Receive(_, _) => SettlingConserves(c, s, e);
    case SendCommand => SendingConserves(c, s, e);
    case Start(_) => SendingConserves(c, s, e);
    case RetryDelayOver => SendingConserves(c, s, e);
    case Stop => SendingConserves(c, s, e);
    case StopResumes(id) => StopConserves(c, s, id);
    case _ => OtherStepConserves(c, s, e);
  }

  lemma OtherStepConserves(c: Config, s: Session, e: Event)
    requires Conserved(s) && (e.SendOnly? || e.StartResumes?)
    ensures Conserved(Step(c, s, e))
  {
    hide Conserved;
    ConservedIgnoresRest(s, Step(c, s, e));
  }

  lemma SettlingConserves(c: Config, s: Session, e: Event)
    requires Conserved(s) && (e.SendDone? || e.Timeout? || e.Receive?)
    ensures Conserved(Step(c, s, e))
  {
    hide Conserved, Settle;
    match e
    case SendDone(id, ok) =>
      ConservedIgnoresRest(s, s.(inFlight := s.inFlight - {id}));
      SettleConserves(s.(inFlight := s.inFlight - {id}), id, SendFailed);
    case Timeout(id) => SettleConserves(s, id, TimedOut);
    case Receive(id, isError) =>
      ConservedIgnoresRest(s, s.(received := s.received + 1));
      ConservedIgnoresRest(s, s.(received := s.received + 1, emitted := s.emitted + 1));
      if id.Some? && id.value >= 0 {
        SettleConserves(s.(received := s.received + 1), id.value, if isError then ErrorResponse else Responded);
      }
  }

  lemma SendingConserves(c: Config, s: Session, e: Event)
    requires Conserved(s) && (e.SendCommand? || e.Start? || e.RetryDelayOver? || e.Stop?)
    ensures Conserved(Step(c, s, e))
  {
    hide Conserved, Issue;
    match e
    case SendCommand => IssueConserves(s, Command);
    case Start(_) => PerformStartKeeps(s.(establishing := true, initiated := s.initiated + 1), s);
    case RetryDelayOver =>
      if s.waiting > 0 {
        PerformStartKeeps(s.(waiting := s.waiting - 1), s);
      }
    case Stop =>
      ConservedIgnoresRest(s, s.(state := Stopped));
      ConservedIgnoresRest(s, s.(state := Stopping));
      IssueConserves(s.(state := Stopping), StopRequest);
  }

  lemma StopConserves(c: Config, s: Session, id: nat)
    requires Conserved(s)
    ensures Conserved(Step(c, s, StopResumes(id)))
  {
    hide Conserved, Cleanup;
    var resumed := s.(resumable := s.resumable - {id});
    ConservedIgnoresRest(s, resumed);
    CleanupEmpties(resumed);
    ConservedIgnoresRest(Cleanup(resumed), Cleanup(resumed).(state := Stopped));
  }

  lemma StepCounts(c: Config, s: Session, e: Event)
    requires Conserved(s) && Counted(s)
    ensures Counted(Step(c, s, e))
  {
    hide Conserved, Cleanup, AnsweredByMessage, Settle;
    match e
    case SendDone(id, ok) =>
      SettleCounts(s.(inFlight := s.inFlight - {id}), id, SendFailed);
      SettleFrame(s.(inFlight := s.inFlight - {id}), id, SendFailed);
    case Timeout(id) =>
      SettleCounts(s, id, TimedOut);
      SettleFrame(s, id, TimedOut);
    case Receive(id, isError) =>
      if id.Some? && id.value >= 0 {
        SettleCounts(s.(received := s.received + 1), id.value, if isError then ErrorResponse else Responded);
        SettleFrame(s.(received := s.received + 1), id.value, if isError then ErrorResponse else Responded);
      }
    case StopResumes(id) =>
      ConservedIgnoresRest(s, s.(resumable := s.resumable - {id}));
      CleanupEmpties(s.(resumable := s.resumable - {id}));
    case _ =>
  }

  lemma SettleFrame(s: Session, id: nat, ending: Ending)
    ensures
      var s' := Settle(s, id, ending);
      s'.(pending := s.pending, timers := s.timers, settled := s.settled, resumable := s.resumable) == s
  {
  }

  lemma StepAccounts(c: Config, s: Session, e: Event)
    requires Accounted(c, s)
    ensures Accounted(c, Step(c, s, e))
  {
    hide Step, Accounted;
    match e
    case SendDone(_, _) => SettlingAccounts(c, s, e);
    case Timeout(_) => SettlingAccounts(c, s, e);
    case Receive(_, _) => SettlingAccounts(c, s, e);
    case StopResumes(id) => StopAccounts(c, s, id);
    case _ => OtherStepAccounts(c, s, e);
  }

  lemma SettlingAccounts(c: Config, s: Session, e: Event)
    requires Accounted(c, s) && (e.SendDone? || e.Timeout? || e.Receive?)
    ensures Accounted(c, Step(c, s, e))
  {
    hide Settle;
    match e
    case SendDone(id, _) => SettleFrame(s.(inFlight := s.inFlight - {id}), id, SendFailed);
    case Timeout(id) => SettleFrame(s, id, TimedOut);
    case Receive(id, isError) =>
      if id.Some? && id.value >= 0 {
        SettleFrame(s.(received := s.received + 1), id.value, if isError then ErrorResponse else Responded);
      }
  }

  lemma StopAccounts(c: Config, s: Session, id: nat)
    requires Accounted(c, s)
    ensures Accounted(c, Step(c, s, StopResumes(id)))
  {
    hide Cleanup;
    CleanupCounts(s.(resumable := s.resumable - {id}));
  }

  lemma OtherStepAccounts(c: Config, s: Session, e: Event)
    requires Accounted(c, s) && !e.SendDone? && !e.Timeout? && !e.Receive? && !e.StopResumes?
    ensures Accounted(c, Step(c, s, e))
  {
  }

  lemma StepKeepsValid(c: Config, s: Session, e: Event)
    requires Valid(c, s)
    ensures Valid(c, Step(c, s, e))
  {
    hide Conserved, Counted, Accounted, Step;
    StepConserves(c, s, e);
    StepCounts(c, s, e);
    StepAccounts(c, s, e);
  }

  /** A start after the cleanup begins anew, with its retries; delays that are running go on. */
  lemma CleanupCounts(s: Session)
    ensures
      var s' := Cleanup(s);
      && !s'.hasInfo && !s'.establishing && s'.retryCount == 0 && s'.initiated == 0 && s'.attempts == 0
      && s'.carried == s.waiting && s'.waiting == s.waiting && s'.nextId == s.nextId && s'.state == s.state
  {
    TerminateFrame(s, PendingBelow(s.pending, s.nextId));
  }

  lemma PerformStartKeeps(s: Session, before: Session)
    requires Conserved(before)
    requires s.pending == before.pending && s.timers == before.timers && s.issued == before.issued
    requires s.settled == before.settled && s.nextId == before.nextId
    ensures Conserved(PerformStart(s))
  {
    hide Conserved;
    ConservedIgnoresRest(before, s.(state := Starting, attempts := s.attempts + 1));
    IssueConserves(s.(state := Starting, attempts := s.attempts + 1), StartAttempt);
  }

  lemma {:induction false} RunKeepsValid(c: Config, s: Session, events: seq<Event>)
    requires Valid(c, s)
    ensures Valid(c, Run(c, s, events))
    decreases |events|
  {
    hide Step, Valid;
    if events != [] {
      StepKeepsValid(c, s, events[0]);
      RunKeepsValid(c, Step(c, s, events[0]), events[1..]);
    }
  }

  lemma NothingYet(c: Config, s: Session)
    requires s.issued == [] && s.settled == [] && s.timers == {} && s.pending == map[]
    requires s.received == s.emitted == s.attempts == s.waiting == s.initiated == s.retryCount == s.carried == 0
    ensures Valid(c, s)
  {
    assert Ids(s.settled) == [];
  }

  /** For every interleaving. */
  lemma EveryRun(c: Config, events: seq<Event>)
    ensures
      var s := Run(c, INITIAL, events);
      && Conserved(s) && Counted(s)
      && s.attempts <= s.initiated + s.carried + (if c.autoRetry then c.maxRetries else 0)
  {
    hide Run, Conserved, Counted, Step;
    NothingYet(c, INITIAL);
    RunKeepsValid(c, INITIAL, events);
  }

  // ---- One step at a time ----

  /** A request is settled by the first thing that settles it, and by nothing afterwards. */
  lemma {:induction false} SettledStays(c: Config, s: Session, events: seq<Event>)
    requires Valid(c, s)
    ensures s.settled <= Run(c, s, events).settled && s.issued <= Run(c, s, events).issued
    decreases |events|
  {
    hide Valid, Step;
    if events != [] {
      StepOnlyAdds(c, s, events[0]);
      StepKeepsValid(c, s, events[0]);
      SettledStays(c, Step(c, s, events[0]), events[1..]);
    }
  }

  lemma {:induction false} TerminateOnlyAdds(s: Session, ids: seq<nat>)
    ensures s.settled <= TerminateAll(s, ids).settled && s.issued == TerminateAll(s, ids).issued
    decreases |ids|
  {
    if ids != [] {
      TerminateOnlyAdds(s, ids[..|ids| - 1]);
    }
  }

  lemma StepOnlyAdds(c: Config, s: Session, e: Event)
    ensures s.settled <= Step(c, s, e).settled && s.issued <= Step(c, s, e).issued
  {
    hide TerminateAll, PendingBelow;
    if e.StopResumes? {
      TerminateOnlyAdds(s.(resumable := s.resumable - {e.id}), PendingBelow(s.pending, s.nextId));
    }
  }

  /** A message settles exactly the request it names, or is passed on; never both, never neither. */
  lemma MessageSettlesOrIsEmitted(c: Config, s: Session, id: Option<int>, isError: bool)
    requires Conserved(s)
    ensures
      var s' := Step(c, s, Receive(id, isError));
      if id.Some? && id.value >= 0 && id.value in s.pending then
        && s'.emitted == s.emitted
        && s'.settled == s.settled + [Settled(id.value, if isError then ErrorResponse else Responded)]
        && s'.pending == s.pending - {id.value} && s'.timers == s.timers - {id.value}
      else
        && s'.emitted == s.emitted + 1
        && s'.settled == s.settled && s'.pending == s.pending && s'.timers == s.timers
  {
  }

  /** A timer that fires settles its request, and that one only. */
  lemma TimeoutSettles(c: Config, s: Session, id: nat)
    requires Conserved(s)
    ensures
      var s' := Step(c, s, Timeout(id));
      if id in s.timers then
        && id in s.pending && s'.pending == s.pending - {id} && s'.timers == s.timers - {id}
        && s'.settled == s.settled + [Settled(id, TimedOut)]
      else s' == s
  {
  }

  /** A send that fails settles its request if that still waits; one that succeeds settles nothing. */
  lemma FailedSendSettles(c: Config, s: Session, id: nat)
    requires Conserved(s)
    ensures
      var s' := Step(c, s, SendDone(id, false));
      && s'.inFlight == s.inFlight - {id}
      && if id in s.inFlight && id in s.pending then
           && s'.pending == s.pending - {id} && s'.timers == s.timers - {id}
           && s'.settled == s.settled + [Settled(id, SendFailed)]
         else s'.pending == s.pending && s'.timers == s.timers && s'.settled == s.settled
    ensures Step(c, s, SendDone(id, true)) == s.(inFlight := s.inFlight - {id})
  {
  }

  /** One request more than before, under the next number, and nothing else. */
  ghost predicate IsRequest(s: Session, s': Session, kind: Kind) {
    && s'.nextId == s.nextId + 1 && s'.issued == s.issued + [s.nextId]
    && s'.pending == s.pending[s.nextId := kind] && s'.timers == s.timers + {s.nextId}
    && s'.inFlight == s.inFlight + {s.nextId}
    && s'.settled == s.settled && s'.resumable == s.resumable
  }

  /** A command is a request; a message sent without one only takes a number. */
  lemma SendingIs(c: Config, s: Session)
    ensures IsRequest(s, Step(c, s, SendCommand), Command)
    ensures Step(c, s, SendCommand).state == s.state
    ensures Step(c, s, SendOnly) == s.(nextId := s.nextId + 1)
  {
  }

  /** A start is a request unless the channel is not ready, the session is active, or one is under way. */
  lemma StartIsRequest(c: Config, s: Session, ready: bool)
    ensures
      var s' := Step(c, s, Start(ready));
      if ready && !(s.state == Active && s.hasInfo) && !(s.state == Starting && s.establishing) then
        IsRequest(s, s', StartAttempt) && s'.state == Starting && s'.establishing && s'.retryCount == s.retryCount
      else s' == s
    ensures
      var s' := Step(c, s, RetryDelayOver);
      if s.waiting > 0 then
        && IsRequest(s, s', StartAttempt) && s'.state == Starting
        && s'.waiting == s.waiting - 1 && s'.retryCount == s.retryCount
      else s' == s
  {
  }

  /** How a start goes on once its request is settled. */
  lemma StartGoesOn(c: Config, s: Session, id: nat, parsed: bool)
    requires id in s.resumable && s.resumable[id].0 == StartAttempt
    ensures
      var s' := Step(c, s, StartResumes(id, parsed));
      && s'.resumable == s.resumable - {id} && s'.pending == s.pending && s'.settled == s.settled
      && if s.resumable[id].1 && parsed then s'.state == Active && s'.hasInfo && s'.retryCount == s.retryCount
         else if c.autoRetry && s.retryCount < c.maxRetries then
           s'.state == s.state && s'.retryCount == s.retryCount + 1 && s'.waiting == s.waiting + 1
         else s'.state == Error && s'.retryCount == s.retryCount && s'.waiting == s.waiting
  {
  }

  // ---- What settles a request, over whole runs ----

  /** How an event settles a pending request, if it does. */
  function Cause(s: Session, e: Event, id: nat): Option<Ending> {
    match e
    case Receive(transaction, isError) =>
      if transaction == Some(id) then Some(if isError then ErrorResponse else Responded) else None
    case Timeout(timer) => if timer == id then Some(TimedOut) else None
    case SendDone(sent, ok) => if sent == id && id in s.inFlight && !ok then Some(SendFailed) else None
    case StopResumes(stop) =>
      if stop in s.resumable && s.resumable[stop].0 == StopRequest then Some(Terminated) else None
    case _ => None
  }

  /** How the first event that settles a request does it. */
  function FirstCause(c: Config, s: Session, events: seq<Event>, id: nat): Option<Ending>
    decreases |events|
  {
    if events == [] then None
    else if Cause(s, events[0], id).Some? then Cause(s, events[0], id)
    else FirstCause(c, Step(c, s, events[0]), events[1..], id)
  }

  /** A request no longer waits, and one that somebody goes on after says whether there was a response. */
  ghost predicate SettledAs(s: Session, s': Session, id: nat, ending: Ending) {
    && id in s.pending && id !in s'.pending && id !in s'.timers && Settled(id, ending) in s'.settled
    && (s.pending[id] != Command ==>
          id in s'.resumable && s'.resumable[id] == (s.pending[id], ending == Responded))
  }

  ghost predicate StillWaits(s: Session, s': Session, id: nat) {
    id in s.pending && id in s'.pending && s'.pending[id] == s.pending[id] && id in s'.timers
  }

  lemma SettleIs(s: Session, id: nat, other: nat, ending: Ending)
    requires Conserved(s) && id in s.pending
    ensures if other == id then SettledAs(s, Settle(s, other, ending), id, ending)
            else StillWaits(s, Settle(s, other, ending), id)
  {
    if other == id {
      assert Settle(s, id, ending).settled[|s.settled|] == Settled(id, ending);
    }
  }

  lemma SettledAsStays(s: Session, s': Session, id: nat, other: nat, first: Ending, ending: Ending)
    requires Conserved(s') && SettledAs(s, s', id, first)
    ensures SettledAs(s, Settle(s', other, ending), id, first)
  {
    if other in s'.pending {
      assert s'.settled <= Settle(s', other, ending).settled;
    }
  }

  lemma {:induction false} TerminatedAs(s: Session, ids: seq<nat>, id: nat)
    requires Conserved(s) && id in s.pending
    ensures if id in ids then SettledAs(s, TerminateAll(s, ids), id, Terminated)
            else StillWaits(s, TerminateAll(s, ids), id)
    decreases |ids|
  {
    hide Conserved, Settle, SettledAs, StillWaits;
    if ids == [] {
      StillWaitsNow(s, id);
    } else {
      var before, last := ids[..|ids| - 1], ids[|ids| - 1];
      TerminatedAs(s, before, id);
      TerminateConserves(s, before);
      assert ids == before + [last];
      TerminatedNext(s, TerminateAll(s, before), id in before, id, last);
    }
  }

  lemma StillWaitsNow(s: Session, id: nat)
    requires Conserved(s) && id in s.pending
    ensures StillWaits(s, s, id)
  {
  }

  lemma TerminatedNext(s: Session, s': Session, settled: bool, id: nat, last: nat)
    requires Conserved(s')
    requires if settled then SettledAs(s, s', id, Terminated) else StillWaits(s, s', id)
    ensures if settled || id == last then SettledAs(s, Settle(s', last, Terminated), id, Terminated)
            else StillWaits(s, Settle(s', last, Terminated), id)
  {
    hide Conserved, Settle;
    if settled {
      SettledAsStays(s, s', id, last, Terminated, Terminated);
    } else {
      SettleIs(s', id, last, Terminated);
    }
  }

  /** An event settles a pending request in the way it does, or leaves it waiting. */
  lemma StepSettles(c: Config, s: Session, e: Event, id: nat)
    requires Conserved(s) && id in s.pending
    ensures
      match Cause(s, e, id)
      case Some(ending) => SettledAs(s, Step(c, s, e), id, ending)
      case None => StillWaits(s, Step(c, s, e), id)
  {
    hide Conserved, Settle, Cleanup, TerminateAll, SettledAs;
    ConservedTimers(s);
    match e
    case SendDone(sent, ok) =>
      ConservedIgnoresRest(s, s.(inFlight := s.inFlight - {sent}));
      SettleIs(s.(inFlight := s.inFlight - {sent}), id, sent, SendFailed);
      SettledAsIgnoresRest(s.(inFlight := s.inFlight - {sent}), s, Step(c, s, e), id, SendFailed);
    case Timeout(timer) => SettleIs(s, id, timer, TimedOut);
    case Receive(transaction, isError) =>
      var s1 := s.(received := s.received + 1);
      ConservedIgnoresRest(s, s1);
      if transaction.Some? && transaction.value >= 0 {
        var ending := if isError then ErrorResponse else Responded;
        SettleIs(s1, id, transaction.value, ending);
        SettledAsIgnoresRest(s1, s, Step(c, s, e), id, ending);
      }
    case StopResumes(stop) =>
      var s1 := s.(resumable := s.resumable - {stop});
      ConservedIgnoresRest(s, s1);
      CleanupSettles(s1, id);
      SettledAsIgnoresRest(s1, s, Cleanup(s1).(state := Stopped), id, Terminated);
    case _ => PendingAreIssued(s);
  }

  lemma SettledAsIgnoresRest(s1: Session, s: Session, s': Session, id: nat, ending: Ending)
    requires s.pending == s1.pending
    ensures SettledAs(s1, s', id, ending) ==> SettledAs(s, s', id, ending)
  {
  }

  lemma CleanupSettles(s: Session, id: nat)
    requires Conserved(s) && id in s.pending
    ensures SettledAs(s, Cleanup(s), id, Terminated) && SettledAs(s, Cleanup(s).(state := Stopped), id, Terminated)
  {
    hide Conserved, TerminateAll;
    var ids := PendingBelow(s.pending, s.nextId);
    PendingBelowIs(s.pending, s.nextId);
    PendingAreIssued(s);
    TerminatedAs(s, ids, id);
  }

  /**
   From any point of any run, a pending request waits until the first event that settles it, and ends
   the way that event says, whatever else happens before and after.
   */
  lemma {:induction false} EndsByFirstCause(c: Config, s: Session, events: seq<Event>, id: nat)
    requires Valid(c, s) && id in s.pending
    ensures
      var s' := Run(c, s, events);
      match FirstCause(c, s, events, id)
      case None => StillWaits(s, s', id)
      case Some(ending) => id !in s'.pending && id !in s'.timers && Settled(id, ending) in s'.settled
    decreases |events|
  {
    hide Step, Cause, Valid, Conserved;
    ValidConserves(c, s);
    if events == [] {
      StillWaitsNow(s, id);
    } else {
      StepSettles(c, s, events[0], id);
      StepKeepsValid(c, s, events[0]);
      var s1 := Step(c, s, events[0]);
      if Cause(s, events[0], id).Some? {
        StaysSettled(c, s1, events[1..], Settled(id, Cause(s, events[0], id).value));
      } else {
        EndsByFirstCause(c, s1, events[1..], id);
      }
    }
  }

  lemma ValidConserves(c: Config, s: Session)
    requires Valid(c, s)
    ensures Conserved(s)
  {
  }

  lemma StaysSettled(c: Config, s: Session, events: seq<Event>, settled: Settled)
    requires Valid(c, s) && settled in s.settled
    ensures
      var s' := Run(c, s, events);
      settled in s'.settled && settled.id !in s'.pending && settled.id !in s'.timers
  {
    hide Run, Step, Valid, Conserved;
    SettledStays(c, s, events);
    RunKeepsValid(c, s, events);
    var s' := Run(c, s, events);
    ValidConserves(c, s');
    ConservedTimers(s');
    ConservedMeans(s');
  }

  /** In every run, a request whose timer fires while it waits has timed out, then and for ever, and only so. */
  lemma TimedOutForGood(c: Config, before: seq<Event>, id: nat, after: seq<Event>)
    requires id in Run(c, INITIAL, before).timers
    ensures
      var s := Run(c, INITIAL, before + [Timeout(id)] + after);
      && Settled(id, TimedOut) in s.settled && id !in s.pending && id !in s.timers
      && forall ending | Settled(id, ending) in s.settled :: ending == TimedOut
  {
    hide Run, Step, Valid, Conserved;
    var s := Run(c, INITIAL, before);
    NothingYet(c, INITIAL);
    RunKeepsValid(c, INITIAL, before);
    ValidConserves(c, s);
    ConservedTimers(s);
    RunConcat(c, INITIAL, before + [Timeout(id)], after);
    RunConcat(c, INITIAL, before, [Timeout(id)]);
    RunOne(c, s, Timeout(id));
    var s1 := Step(c, s, Timeout(id));
    StepKeepsValid(c, s, Timeout(id));
    TimeoutSettles(c, s, id);
    assert s1.settled[|s.settled|] == Settled(id, TimedOut);
    StaysSettled(c, s1, after, Settled(id, TimedOut));
    var s' := Run(c, s1, after);
    RunKeepsValid(c, s1, after);
    ValidConserves(c, s');
    ConservedMeans(s');
  }

  function AllTerminated(ids: seq<nat>): seq<Settled> {
    seq(|ids|, i requires 0 <= i < |ids| => Settled(ids[i], Terminated))
  }

  /** What the cleanup adds: every pending request, terminated, in the order in which they were made. */
  lemma CleanupTerminatesInOrder(s: Session) returns (ids: seq<nat>)
    requires Conserved(s)
    ensures Ascending(ids, s.nextId) && (forall id :: id in ids <==> id in s.pending)
    ensures Cleanup(s).settled == s.settled + seq(|ids|, i requires 0 <= i < |ids| => Settled(ids[i], Terminated))
  {
    hide Conserved, TerminateAll;
    ids := PendingBelow(s.pending, s.nextId);
    PendingBelowIs(s.pending, s.nextId);
    PendingAscends(s.pending, s.nextId);
    PendingAreIssued(s);
    TerminatedInOrder(s, ids);
  }

  lemma {:induction false} PendingAscends(pending: map<nat, Kind>, n: nat)
    ensures Ascending(PendingBelow(pending, n), n)
  {
    if n > 0 {
      PendingAscends(pending, n - 1);
    }
  }

  lemma {:induction false} TerminatedInOrder(s: Session, ids: seq<nat>)
    requires Conserved(s) && Ascending(ids, s.nextId) && forall i | 0 <= i < |ids| :: ids[i] in s.pending
    ensures TerminateAll(s, ids).settled == s.settled + AllTerminated(ids)
    decreases |ids|
  {
    hide Conserved, Settle, AllTerminated;
    AllTerminatedNext(ids);
    if ids != [] {
      var before, last := ids[..|ids| - 1], ids[|ids| - 1];
      TerminatedInOrder(s, before);
      TerminateConserves(s, before);
      assert last !in before;
      SettleAdds(TerminateAll(s, before), last, Terminated);
    }
  }

  lemma SettleAdds(s: Session, id: nat, ending: Ending)
    requires id in s.pending
    ensures Settle(s, id, ending).settled == s.settled + [Settled(id, ending)]
  {
  }

  lemma AllTerminatedNext(ids: seq<nat>)
    ensures AllTerminated([]) == []
    ensures ids != [] ==>
              var last := ids[|ids| - 1];
              AllTerminated(ids) == AllTerminated(ids[..|ids| - 1]) + [Settled(last, Terminated)]
  {
  }

  /**
   A stop without session information, or after another one, returns at once and leaves every request
   pending with its timer running; so nothing is pending then only if nothing was. Any other stop has
   its own request pending, and nothing is left once that is settled and the stop goes on.
   */
  lemma StopLeavesNothing(s: Session, id: nat)
    requires Conserved(s)
    ensures DoStop(s).pending == map[]
            <==> s.pending == map[] && (s.state in {Inactive, Stopped} || !s.hasInfo)
    ensures s.state in {Inactive, Stopped} || !s.hasInfo ==>
              DoStop(s).pending == s.pending && DoStop(s).timers == s.timers && DoStop(s).settled == s.settled
    ensures s.state !in {Inactive, Stopped} && s.hasInfo ==> DoStop(s).pending == s.pending[s.nextId := StopRequest]
    ensures id in s.resumable && s.resumable[id].0.StopRequest? ==>
              DoStopResumes(s, id).pending == map[] && DoStopResumes(s, id).timers == {}
              && DoStopResumes(s, id).state == Stopped
  {
    assert s.state !in {Inactive, Stopped} && s.hasInfo ==> s.nextId in DoStop(s).pending;
    if id in s.resumable && s.resumable[id].0.StopRequest? {
      ConservedIgnoresRest(s, s.(resumable := s.resumable - {id}));
      CleanupEmpties(s.(resumable := s.resumable - {id}));
    }
  }

  /** Such a stop: the session is stopped while the start request still waits for its response. */
  lemma StoppedWhileStarting(c: Config)
    ensures
      var s := Run(c, INITIAL, [Start(true), Stop]);
      s.state == Stopped && s.pending == map[1 := StartAttempt] && s.timers == {1}
  {
    RunTwo(c, INITIAL, Start(true), Stop);
  }

  // ---- More attempts than retries ----

  /** Between cleanups one caller gets at most maxRetries + 1 attempts. */
  lemma OneCallerAttempts(c: Config, events: seq<Event>)
    requires Run(c, INITIAL, events).initiated + Run(c, INITIAL, events).carried <= 1
    ensures Run(c, INITIAL, events).attempts <= c.maxRetries + 1
  {
    EveryRun(c, events);
  }

  /** All k + 1 attempts so far, and some more, have been started; all of the k + 1 but the last have failed. */
  ghost predicate Trying(s: Session, k: nat, more: nat) {
    && s.nextId > 0
    && s.attempts == k + 1 + more && s.retryCount == k && s.waiting == 0 && !s.hasInfo
    && var id := s.nextId - 1;
       id in s.pending && s.pending[id].StartAttempt? && id in s.inFlight
  }

  function FailedSend(s: Session): seq<Event>
    requires s.nextId > 0
  {
    [SendDone(s.nextId - 1, false), StartResumes(s.nextId - 1, false)]
  }

  lemma RunConcat(c: Config, s: Session, a: seq<Event>, b: seq<Event>)
    ensures Run(c, s, a + b) == Run(c, Run(c, s, a), b)
    decreases |a|
  {
    if a == [] {
      assert a + b == b;
    } else {
      assert (a + b)[1..] == a[1..] + b;
    }
  }

  lemma RunOne(c: Config, s: Session, e: Event)
    ensures Run(c, s, [e]) == Step(c, s, e)
  {
    assert [e][1..] == [];
    assert Run(c, Step(c, s, e), []) == Step(c, s, e);
  }

  lemma RunTwo(c: Config, s: Session, e: Event, f: Event)
    ensures Run(c, s, [e, f]) == Step(c, Step(c, s, e), f)
  {
    assert [e, f][1..] == [f];
    RunOne(c, Step(c, s, e), f);
  }

  lemma RunFrom(c: Config, s: Session, events: seq<Event>, i: nat)
    requires i < |events|
    ensures Run(c, s, events[i..]) == Run(c, Step(c, s, events[i]), events[i + 1..])
  {
    assert events[i..][0] == events[i] && events[i..][1..] == events[i + 1..];
  }

  lemma FailOnce(c: Config, s: Session, k: nat, more: nat)
    requires Trying(s, k, more)
    ensures
      var s' := Run(c, s, FailedSend(s));
      && s'.attempts == k + 1 + more && !s'.hasInfo && s'.initiated == s.initiated && s'.carried == s.carried
      && if c.autoRetry && k < c.maxRetries then s'.retryCount == k + 1 && s'.waiting == 1
         else s'.retryCount == k && s'.waiting == 0 && s'.state == Error && s'.nextId > 0
  {
    RunTwo(c, s, SendDone(s.nextId - 1, false), StartResumes(s.nextId - 1, false));
  }

  /** The last retry has failed. */
  ghost predicate GivenUp(c: Config, s: Session, more: nat) {
    && s.attempts == c.maxRetries + 1 + more && s.retryCount == c.maxRetries
    && s.state == Error && !s.hasInfo && s.waiting == 0 && s.nextId > 0
  }

  /** The run in which every send fails. */
  lemma {:induction false} Exhaust(c: Config, s: Session, k: nat, more: nat) returns (events: seq<Event>)
    requires c.autoRetry && k <= c.maxRetries && Trying(s, k, more)
    ensures
      var s' := Run(c, s, events);
      && GivenUp(c, s', more) && s'.initiated == s.initiated && s'.carried == s.carried
    decreases c.maxRetries - k
  {
    hide Run, Step;
    FailOnce(c, s, k, more);
    events := FailedSend(s);
    if k < c.maxRetries {
      var failed := Run(c, s, events);
      RunConcat(c, s, events, [RetryDelayOver]);
      RunOne(c, failed, RetryDelayOver);
      TryAgain(c, failed, k, more);
      events := events + [RetryDelayOver];
      var rest := Exhaust(c, Run(c, s, events), k + 1, more);
      RunConcat(c, s, events, rest);
      events := events + rest;
    }
  }

  lemma TryAgain(c: Config, s: Session, k: nat, more: nat)
    requires s.attempts == k + 1 + more && s.retryCount == k + 1 && s.waiting == 1 && !s.hasInfo
    ensures
      var s' := Step(c, s, RetryDelayOver);
      Trying(s', k + 1, more) && s'.initiated == s.initiated && s'.carried == s.carried
  {
  }

  /** Nothing is under way but some retry delays. */
  ghost predicate Resting(s: Session, delays: nat) {
    && s.state in {Inactive, Stopped} && !s.hasInfo && s.nextId > 0
    && s.pending == map[] && s.resumable == map[]
    && s.retryCount == 0 && s.initiated == 0 && s.attempts == 0
    && s.waiting == delays && s.carried == delays
  }

  /**
   A session is started, stopped, and started again before the stop is answered. That start fails, and
   its retry delay is still running when the stop goes on and resets the counts.
   */
  function StoppedBetween(n: nat): seq<Event> {
    [Start(true), Receive(Some(n), false), StartResumes(n, true), Stop,
     Start(true), SendDone(n + 2, false), StartResumes(n + 2, false),
     Receive(Some(n + 1), false), StopResumes(n + 1)]
  }

  lemma DelayCarried(c: Config, s: Session, delays: nat)
    requires c.autoRetry && c.maxRetries > 0 && Resting(s, delays)
    ensures Resting(Run(c, s, StoppedBetween(s.nextId)), delays + 1)
  {
    hide Run, Cleanup;
    var n, e := s.nextId, StoppedBetween(s.nextId);
    assert e[0..] == e;
    RunFrom(c, s, e, 0);
    var s1 := Step(c, s, e[0]);
    RunFrom(c, s1, e, 1);
    var s2 := Step(c, s1, e[1]);
    assert s2.pending == map[] && s2.resumable == map[n := (StartAttempt, true)];
    StoppedOnceActive(c, s2, n, delays);
  }

  lemma StoppedOnceActive(c: Config, s2: Session, n: nat, delays: nat)
    requires c.autoRetry && c.maxRetries > 0 && s2.nextId == n + 1
    requires s2.pending == map[] && s2.resumable == map[n := (StartAttempt, true)]
    requires s2.retryCount == 0 && s2.waiting == delays
    ensures Resting(Run(c, s2, StoppedBetween(n)[2..]), delays + 1)
  {
    hide Run, Cleanup;
    var e := StoppedBetween(n);
    RunFrom(c, s2, e, 2);
    var s3 := Step(c, s2, e[2]);
    assert s3.state == Active && s3.hasInfo && s3.resumable == map[] && s3.nextId == n + 1;
    RunFrom(c, s3, e, 3);
    var s4 := Step(c, s3, e[3]);
    assert s4.pending == map[n + 1 := StopRequest] && s4.state == Stopping && s4.nextId == n + 2;
    StartedWhileStopping(c, s4, n, delays);
  }

  lemma StartedWhileStopping(c: Config, s4: Session, n: nat, delays: nat)
    requires c.autoRetry && c.maxRetries > 0 && s4.state == Stopping && s4.nextId == n + 2
    requires s4.pending == map[n + 1 := StopRequest] && s4.resumable == map[]
    requires s4.retryCount == 0 && s4.waiting == delays
    ensures Resting(Run(c, s4, StoppedBetween(n)[4..]), delays + 1)
  {
    hide Run, Cleanup;
    var e := StoppedBetween(n);
    RunFrom(c, s4, e, 4);
    var s5 := Step(c, s4, e[4]);
    assert s5.pending == map[n + 1 := StopRequest, n + 2 := StartAttempt] && n + 2 in s5.inFlight;
    FailedWhileStopping(c, s5, n, delays);
  }

  lemma FailedWhileStopping(c: Config, s5: Session, n: nat, delays: nat)
    requires c.autoRetry && c.maxRetries > 0 && s5.nextId > 0
    requires s5.pending == map[n + 1 := StopRequest, n + 2 := StartAttempt] && n + 2 in s5.inFlight
    requires s5.resumable == map[] && s5.retryCount == 0 && s5.waiting == delays
    ensures Resting(Run(c, s5, StoppedBetween(n)[5..]), delays + 1)
  {
    hide Run, Cleanup;
    var e := StoppedBetween(n);
    RunFrom(c, s5, e, 5);
    var s6 := Step(c, s5, e[5]);
    assert s6.pending == map[n + 1 := StopRequest] && s6.resumable == map[n + 2 := (StartAttempt, false)];
    RunFrom(c, s6, e, 6);
    var s7 := Step(c, s6, e[6]);
    assert s7.pending == map[n + 1 := StopRequest] && s7.resumable == map[] && s7.waiting == delays + 1;
    StoppedAtLast(c, s7, n, delays + 1);
  }

  lemma StoppedAtLast(c: Config, s7: Session, n: nat, delays: nat)
    requires s7.pending == map[n + 1 := StopRequest] && s7.resumable == map[] && s7.waiting == delays
    requires s7.nextId > 0
    ensures Resting(Run(c, s7, StoppedBetween(n)[7..]), delays)
  {
    hide Run;
    var e := StoppedBetween(n);
    assert e[7..] == [Receive(Some(n + 1), false), StopResumes(n + 1)];
    RunTwo(c, s7, Receive(Some(n + 1), false), StopResumes(n + 1));
    var s8 := Step(c, s7, Receive(Some(n + 1), false));
    assert s8.pending == map[] && s8.resumable == map[n + 1 := (StopRequest, true)];
    NothingPending(s8.pending, s8.nextId);
    assert s8.resumable - {n + 1} == map[];
  }

  lemma {:induction false} NothingPending(pending: map<nat, Kind>, n: nat)
    requires pending == map[]
    ensures PendingBelow(pending, n) == []
  {
    if n > 0 {
      NothingPending(pending, n - 1);
    }
  }

  lemma {:induction false} DelaysCarried(c: Config, delays: nat) returns (events: seq<Event>)
    requires delays > 0 ==> c.autoRetry && c.maxRetries > 0
    ensures Resting(Run(c, INITIAL, events), delays)
  {
    hide Run, Resting;
    events := [];
    if delays == 0 {
      NotRun(c);
    } else {
      events := DelaysCarried(c, delays - 1);
      var s := Run(c, INITIAL, events);
      DelayCarried(c, s, delays - 1);
      RunConcat(c, INITIAL, events, StoppedBetween(s.nextId));
      events := events + StoppedBetween(s.nextId);
    }
  }

  lemma NotRun(c: Config)
    ensures Resting(Run(c, INITIAL, []), 0)
  {
  }

  /** All delays that are running end, and each starts an attempt. */
  lemma {:induction false} DelaysEnd(c: Config, s: Session) returns (events: seq<Event>)
    requires s.retryCount == 0 && !s.hasInfo && s.attempts + s.waiting > 0
    requires s.attempts > 0 ==>
               s.nextId > 0 && s.nextId - 1 in s.pending && s.pending[s.nextId - 1].StartAttempt?
                   && s.nextId - 1 in s.inFlight
    ensures
      var s' := Run(c, s, events);
      Trying(s', 0, s.attempts + s.waiting - 1) && s'.initiated == s.initiated && s'.carried == s.carried
    decreases s.waiting
  {
    hide Run;
    events := [];
    if s.waiting == 0 {
      RunNone(c, s);
    } else {
      var s' := Step(c, s, RetryDelayOver);
      RunOne(c, s, RetryDelayOver);
      var more := DelaysEnd(c, s');
      RunConcat(c, s, [RetryDelayOver], more);
      events := [RetryDelayOver] + more;
    }
  }

  lemma RunNone(c: Config, s: Session)
    ensures Run(c, s, []) == s
  {
  }

  /** Each further start makes one attempt more. */
  lemma {:induction false} StartsAgain(c: Config, s: Session, starts: nat, more: nat) returns (events: seq<Event>)
    requires c.autoRetry && GivenUp(c, s, more)
    ensures
      var s' := Run(c, s, events);
      GivenUp(c, s', more + starts) && s'.initiated == s.initiated + starts && s'.carried == s.carried
    decreases starts
  {
    hide Run;
    events := [];
    if starts == 0 {
      RunNone(c, s);
    } else {
      var s1 := Step(c, s, Start(true));
      RunOne(c, s, Start(true));
      assert Trying(s1, c.maxRetries, more + 1);
      var failing := Exhaust(c, s1, c.maxRetries, more + 1);
      RunConcat(c, s, [Start(true)], failing);
      var rest := StartsAgain(c, Run(c, s1, failing), starts - 1, more + 1);
      RunConcat(c, s, [Start(true)] + failing, rest);
      events := [Start(true)] + failing + rest;
    }
  }

  /** For all numbers of starts and of carried delays there is a run that makes every attempt the bound allows. */
  lemma AttemptsAttained(c: Config, starts: nat, delays: nat) returns (events: seq<Event>)
    requires c.autoRetry && starts + delays > 0 && (delays > 0 ==> c.maxRetries > 0)
    ensures
      var s := Run(c, INITIAL, events);
      s.attempts == starts + delays + c.maxRetries && s.initiated == starts && s.carried == delays
  {
    hide Run;
    events := DelaysCarried(c, delays);
    var s := Run(c, INITIAL, events);
    if starts > 0 {
      RunConcat(c, INITIAL, events, [Start(true)]);
      RunOne(c, s, Start(true));
      events := events + [Start(true)];
      s := Step(c, s, Start(true));
    }
    var ends := DelaysEnd(c, s);
    RunConcat(c, INITIAL, events, ends);
    events, s := events + ends, Run(c, s, ends);
    var more := if starts > 0 then delays else delays - 1;
    var failing := Exhaust(c, s, 0, more);
    RunConcat(c, INITIAL, events, failing);
    events, s := events + failing, Run(c, s, failing);
    var again := StartsAgain(c, s, if starts > 0 then starts - 1 else 0, more);
    RunConcat(c, INITIAL, events, again);
    events := events + again;
  }

  ghost predicate Counts(c: Config, events: seq<Event>, starts: nat, delays: nat) {
    var s := Run(c, INITIAL, events);
    s.initiated == starts && s.carried == delays
  }

  /**
   For all numbers of starts and of carried delays: every run with these numbers keeps to the intended
   bound if and only if together they are one at the most.
   */
  lemma AttemptBoundIsExact(c: Config, starts: nat, delays: nat)
    requires c.autoRetry && (delays > 0 ==> c.maxRetries > 0)
    ensures
      starts + delays <= 1 <==>
        forall events | Counts(c, events, starts, delays) :: Run(c, INITIAL, events).attempts <= c.maxRetries + 1
  {
    hide Run;
    if starts + delays <= 1 {
      forall events | Counts(c, events, starts, delays)
        ensures Run(c, INITIAL, events).attempts <= c.maxRetries + 1
      {
        OneCallerAttempts(c, events);
      }
    } else {
      var events := AttemptsAttained(c, starts, delays);
      assert Counts(c, events, starts, delays);
    }
  }

  /** A second call of `start` after the first gave up: the count is not reset, and one more attempt is made. */
  lemma SecondStartGoesBeyond(c: Config) returns (events: seq<Event>)
    requires c.autoRetry
    ensures
      var s := Run(c, INITIAL, events);
      s.attempts == c.maxRetries + 2 && s.initiated == 2 && s.carried == 0
  {
    hide Run;
    events := AttemptsAttained(c, 2, 0);
  }

  /** One caller and one carried delay: the delay makes an attempt that no retry accounts for. */
  lemma CarriedDelayGoesBeyond(c: Config) returns (events: seq<Event>)
    requires c.autoRetry && c.maxRetries > 0
    ensures
      var s := Run(c, INITIAL, events);
      s.attempts == c.maxRetries + 2 && s.initiated == 1 && s.carried == 1
  {
    hide Run;
    events := AttemptsAttained(c, 1, 1);
  }

  // ---- The service ----

  class CompanionSessionService {
    const config: Config
    var state: SessionState
    var hasInfo: bool
    var transactionId: nat
    var pendingRequests: map<nat, Kind>
    var timers: set<nat>
    var inFlight: set<nat>
    var resumable: map<nat, (Kind, bool)>
    var retryCount: nat
    var waiting: nat
    var establishing: bool
    var settled: seq<Settled>
    var emitted: nat
    ghost var issued: seq<nat>
    ghost var received: nat
    ghost var initiated: nat
    ghost var attempts: nat
    ghost var carried: nat

    ghost function Now(): Session
      reads this
    {
      Session(state, hasInfo, transactionId, pendingRequests, timers, inFlight, resumable, retryCount, waiting,
              establishing, issued, settled, received, emitted, initiated, attempts, carried)
    }

    constructor (config: Config)
      ensures this.config == config && Now() == INITIAL
    {
      this.config := config;
      state, hasInfo, transactionId := Inactive, false, 1;
      pendingRequests, timers, inFlight, resumable := map[], {}, {}, map[];
      retryCount, waiting, establishing := 0, 0, false;
      settled, emitted := [], 0;
      issued, received, initiated, attempts, carried := [], 0, 0, 0, 0;
    }

    method GetNextTransactionId() returns (id: nat)
      modifies this`transactionId
      ensures id == old(transactionId) && transactionId == id + 1
    {
      id := transactionId;
      transactionId := transactionId + 1;
    }

    method SendRequest(kind: Kind)
      modifies this
      ensures Now() == Issue(old(Now()), kind)
    {
      var id := GetNextTransactionId();
      timers := timers + {id};
      pendingRequests := pendingRequests[id := kind];
      inFlight := inFlight + {id};
      issued := issued + [id];
    }

    method SettleRequest(id: nat, ending: Ending)
      modifies this
      ensures Now() == Settle(old(Now()), id, ending)
    {
      if id !in pendingRequests {
        return;
      }
      if pendingRequests[id] != Command {
        resumable := resumable[id := (pendingRequests[id], ending == Responded)];
      }
      timers := timers - {id};
      pendingRequests := pendingRequests - {id};
      settled := settled + [Settled(id, ending)];
    }

    method HandleMessage(transaction: Option<int>, isError: bool)
      modifies this
      ensures Now() == DoReceive(old(Now()), transaction, isError)
    {
      received := received + 1;
      if transaction.Some? && transaction.value >= 0 && transaction.value in pendingRequests {
        SettleRequest(transaction.value, if isError then ErrorResponse else Responded);
        return;
      }
      emitted := emitted + 1;
    }

    method PerformSessionStart()
      modifies this
      ensures Now() == PerformStart(old(Now()))
    {
      state := Starting;
      attempts := attempts + 1;
      SendRequest(StartAttempt);
    }

    method StartSession(ready: bool)
      modifies this
      ensures Now() == DoStart(old(Now()), ready)
    {
      if !ready || (state == Active && hasInfo) || (state == Starting && establishing) {
        return;
      }
      initiated := initiated + 1;
      establishing := true;
      PerformSessionStart();
    }

    method ResumeStart(id: nat, parsed: bool)
      modifies this
      ensures Now() == DoStartResumes(config, old(Now()), id, parsed)
    {
      if id !in resumable || !resumable[id].0.StartAttempt? {
        return;
      }
      var responded := resumable[id].1;
      resumable := resumable - {id};
      if responded && parsed {
        hasInfo := true;
        state := Active;
      } else if config.autoRetry && retryCount < config.maxRetries {
        retryCount := retryCount + 1;
        waiting := waiting + 1;
      } else {
        state := Error;
      }
    }

    method StopSession()
      modifies this
      ensures Now() == DoStop(old(Now()))
    {
      if state == Inactive || state == Stopped {
        return;
      }
      if !hasInfo {
        state := Stopped;
        return;
      }
      state := Stopping;
      SendRequest(StopRequest);
    }

    /** Every pending request is rejected, in the order in which they were made. */
    method RejectPending()
      modifies this
      ensures Now() == TerminateAll(old(Now()), PendingBelow(old(pendingRequests), old(transactionId)))
    {
      hide Settle, TerminateAll, PendingBelow;
      ghost var before, done := Now(), PendingBelow(pendingRequests, 0);
      var requests, last := pendingRequests, transactionId;
      TerminateNone(before, requests);
      for id := 0 to last
        invariant done == PendingBelow(requests, id) && Now() == TerminateAll(before, done)
      {
        PendingNext(requests, id);
        if id in requests {
          SettleRequest(id, Terminated);
          TerminateNext(before, done, id);
          done := done + [id];
        }
      }
    }

    method CleanUp()
      modifies this
      ensures Now() == Cleanup(old(Now()))
    {
      hide TerminateAll;
      TerminateFrame(Now(), PendingBelow(pendingRequests, transactionId));
      RejectPending();
      hasInfo, establishing, retryCount := false, false, 0;
      initiated, attempts, carried := 0, 0, waiting;
    }

    method ResumeStop(id: nat)
      modifies this
      ensures Now() == DoStopResumes(old(Now()), id)
    {
      hide Cleanup;
      if id in resumable && resumable[id].0.StopRequest? {
        resumable := resumable - {id};
        CleanUp();
        state := Stopped;
      }
    }

    method Dispatch(e: Event)
      modifies this
      ensures Now() == Step(config, old(Now()), e)
    {
      hide DoStopResumes, DoStop, DoStartResumes, DoStart, DoReceive, Settle, PerformStart, Issue;
      match e
      case SendCommand => SendRequest(Command);
      case SendOnly => var _ := GetNextTransactionId();
      case SendDone(id, ok) =>
        if id in inFlight {
          inFlight := inFlight - {id};
          if !ok {
            SettleRequest(id, SendFailed);
          }
        }
      case Timeout(id) =>
        if id in timers {
          SettleRequest(id, TimedOut);
        }
      case Receive(transaction, isError) => HandleMessage(transaction, isError);
      case Start(ready) => StartSession(ready);
      case StartResumes(id, parsed) => ResumeStart(id, parsed);
      case RetryDelayOver =>
        if waiting > 0 {
          waiting := waiting - 1;
          PerformSessionStart();
        }
      case Stop => StopSession();
      case StopResumes(id) => ResumeStop(id);
    }
  }

  lemma TerminateNone(s: Session, pending: map<nat, Kind>)
    ensures TerminateAll(s, PendingBelow(pending, 0)) == s
  {
  }

  lemma PendingNext(pending: map<nat, Kind>, n: nat)
    ensures PendingBelow(pending, n + 1) == PendingBelow(pending, n) + if n in pending then [n] else []
  {
  }

  lemma TerminateNext(s: Session, ids: seq<nat>, id: nat)
    ensures TerminateAll(s, ids + [id]) == Settle(TerminateAll(s, ids), id, Terminated)
  {
    assert (ids + [id])[..|ids|] == ids;
  }
}
