/**
 What the messages of a media remote do to what is playing, field by field, and what a player shows
 after any run of them (src/protocols/mrp/MRPPlayerState.ts).
 */
module NowPlaying {
  import opened Results
  import opened ByteStrings
  import opened PlayerStates

  // ---- One player ----

  ghost predicate SameIdentifier(a: Option<Item>, b: Option<Item>) {
    (if a.Some? then a.value.identifier else None) == (if b.Some? then b.value.identifier else None)
  }

  /** The first place of an identifier in a queue, -1 if it is not there. */
  ghost predicate IsFirstPlace(items: seq<Item>, id: Option<string>, i: int) {
    && -1 <= i < |items|
    && (i >= 0 ==> items[i].identifier == id)
    && forall j | 0 <= j < (if i < 0 then |items| else i) :: items[j].identifier != id
  }

  /** One event if the item at the player's location is another one than the last, and otherwise none. */
  ghost predicate Announces(p: Player, p': Player) {
    var item := if 0 <= p'.location < |p'.items| then Some(p'.items[p'.location]) else None;
    if SameIdentifier(item, p.lastItem) then p'.changes == p.changes && p'.lastItem == p.lastItem
    else
      && p'.lastItem == item
      && |p'.changes| == |p.changes| + 1 && p.changes <= p'.changes
      && var change := p'.changes[|p.changes|];
         && change.previous == p.lastItem && change.current == item
         && IsFirstPlace(p'.items, if item.Some? then item.value.identifier else None, change.location)
  }

  /** Every field that is present in a message is the player's afterwards, and the others stay. */
  ghost predicate TakesOver(p: Player, m: SetState, p': Player) {
    && p'.identifier == p.identifier && p'.displayName == p.displayName
    && p'.playbackState == (if m.playbackState.Some? then m.playbackState else p.playbackState)
    && p'.timestamp == (if m.timestamp.Some? then m.timestamp else p.timestamp)
    && p'.nowPlayingInfo == (if m.nowPlayingInfo.Some? then m.nowPlayingInfo else p.nowPlayingInfo)
    && p'.supportedCommands == (if m.supportedCommands.Some? then m.supportedCommands.value else p.supportedCommands)
    && p'.queueCapabilities == (if m.queueCapabilities.Some? then m.queueCapabilities else p.queueCapabilities)
    && match m.queue
       case None => p'.items == p.items && p'.location == p.location
       case Some(queue) =>
         && p'.items == queue.items
         && p'.location == if queue.location.Some? then queue.location.value else 0
  }

  ghost predicate IsOlder(p: Player, m: SetState) {
    m.timestamp.Some? && p.timestamp.Some? && m.timestamp.value < p.timestamp.value
  }

  /** A message that is not older is taken over and announced; an older one changes nothing. */
  ghost predicate ReceivesState(p: Player, m: SetState, p': Player) {
    if IsOlder(p, m) then p' == p else TakesOver(p, m, p') && Announces(p, p')
  }

  lemma StateIsReceived(p: Player, m: SetState)
    ensures ReceivesState(p, m, HandleSetState(p, m))
  {
    if !IsOlder(p, m) {
      var p' := HandleSetState(p, m);
      var item := if 0 <= p'.location < |p'.items| then Some(p'.items[p'.location]) else None;
      FindIndexIsFirst(p'.items, if item.Some? then item.value.identifier else None);
    }
  }

  /** A field of the update replaces the item's, metadata key by key; an absent one stays. */
  ghost predicate Merged(existing: Item, updated: Item, item: Item) {
    && item.identifier == existing.identifier
    && (if updated.metadata.None? then item.metadata == existing.metadata
        else
          && item.metadata.Some?
          && forall key: string ::
               && (key in item.metadata.value <==>
                     key in updated.metadata.value || (existing.metadata.Some? && key in existing.metadata.value))
               && (key in item.metadata.value ==>
                     item.metadata.value[key] == if key in updated.metadata.value then updated.metadata.value[key]
                                                 else existing.metadata.value[key]))
    && item.artworkData == (if updated.artworkData.Some? then updated.artworkData else existing.artworkData)
    && item.lyrics == (if updated.lyrics.Some? then updated.lyrics else existing.lyrics)
    && item.info == (if updated.info.Some? then updated.info else existing.info)
  }

  /** The items are those before, but for the one at i. */
  ghost predicate OnlyItem(p: Player, p': Player, i: int) {
    && p' == p.(items := p'.items)
    && |p'.items| == |p.items|
    && forall j | 0 <= j < |p.items| :: j == i || p'.items[j] == p.items[j]
  }

  /** An update is merged into the first item with its identifier, and changes nothing else. */
  lemma UpdateIsMerged(p: Player, updated: Item, i: int)
    requires PlayerValid(p) && IsFirstPlace(p.items, updated.identifier, i)
    ensures
      var p' := UpdateItem(p, updated);
      if updated.identifier.None? || i < 0 then p' == p
      else OnlyItem(p, p', i) && Merged(p.items[i], updated, p'.items[i])
  {
    FindIndexIsFirst(p.items, updated.identifier);
    if updated.identifier.Some? && i >= 0 {
      assert FindIndex(p.items, updated.identifier) == i;
      var merged := p.(items := p.items[i := Merge(p.items[i], updated)]);
      assert IdOf(CurrentItem(merged)) == IdOf(CurrentItem(p));
    }
  }

  /** Another player only in its name and in what its items hold beside their identifiers. */
  ghost predicate SameQueue(p: Player, p': Player) {
    && p' == p.(items := p'.items, displayName := p'.displayName)
    && |p'.items| == |p.items|
    && forall i | 0 <= i < |p.items| :: p'.items[i].identifier == p.items[i].identifier
  }

  lemma UpdateKeepsQueue(p: Player, updated: Item)
    requires PlayerValid(p)
    ensures SameQueue(p, UpdateItem(p, updated))
  {
    FindIndexIsFirst(p.items, updated.identifier);
    UpdateIsMerged(p, updated, FindIndex(p.items, updated.identifier));
  }

  lemma SameQueueTwice(p: Player, q: Player, r: Player)
    requires SameQueue(p, q) && SameQueue(q, r)
    ensures SameQueue(p, r)
  {
  }

  lemma {:induction false} UpdatesKeepQueue(p: Player, updates: seq<Item>)
    requires PlayerValid(p)
    ensures SameQueue(p, HandleContentItemUpdate(p, updates))
    decreases |updates|
  {
    hide PlayerValid, UpdateItem, SameQueue;
    if updates == [] {
      SameQueueAsItself(p);
    } else {
      UpdateKeepsQueue(p, updates[0]);
      UpdateKeeps(p, updates[0]);
      UpdatesKeepQueue(UpdateItem(p, updates[0]), updates[1..]);
      SameQueueTwice(p, UpdateItem(p, updates[0]), HandleContentItemUpdate(p, updates));
    }
  }

  lemma SameQueueAsItself(p: Player)
    ensures SameQueue(p, p)
  {
  }

  lemma UpdatesNext(p: Player, updates: seq<Item>, updated: Item)
    ensures HandleContentItemUpdate(p, updates + [updated]) == UpdateItem(HandleContentItemUpdate(p, updates), updated)
    decreases |updates|
  {
    if updates == [] {
      assert HandleContentItemUpdate(UpdateItem(p, updated), [updated][1..]) == UpdateItem(p, updated);
    } else {
      assert (updates + [updated])[1..] == updates[1..] + [updated];
    }
  }

  /** Of several updates the last one is merged last, into the first of the items with its identifier. */
  lemma LastUpdateIsLast(p: Player, updates: seq<Item>, updated: Item, i: int)
    requires PlayerValid(p) && IsFirstPlace(p.items, updated.identifier, i)
    ensures
      var p1, p2 := HandleContentItemUpdate(p, updates), HandleContentItemUpdate(p, updates + [updated]);
      && SameQueue(p, p1)
      && if updated.identifier.None? || i < 0 then p2 == p1
         else OnlyItem(p1, p2, i) && Merged(p1.items[i], updated, p2.items[i])
  {
    hide PlayerValid, UpdateItem, HandleContentItemUpdate, Merged;
    var p1 := HandleContentItemUpdate(p, updates);
    UpdatesNext(p, updates, updated);
    UpdatesKeepQueue(p, updates);
    ContentUpdateKeeps(p, updates);
    UpdateIsMerged(p1, updated, i);
  }

  // ---- The player a message is for ----

  /** The client and the player of a path; one that names no player means the player without an identifier. */
  ghost predicate Names(path: Path, bundle: string, key: string) {
    && NamesClient(path.client, bundle)
    && key == if path.player.Some? && path.player.value.identifier.Some? then path.player.value.identifier.value
              else ""
  }

  ghost predicate NamesClient(client: Option<ClientInfo>, bundle: string) {
    client.Some? && client.value.bundleIdentifier == Some(bundle) && bundle != ""
  }

  ghost predicate IsThere(s: State, bundle: string, key: string) {
    bundle in s.clients && key in s.clients[bundle].players
  }

  /** A player as a message finds it: with the name that the message gives it, or new. */
  ghost function FoundPlayer(s: State, path: Path, bundle: string, key: string): Player {
    var displayName := if path.player.Some? then path.player.value.displayName else None;
    if IsThere(s, bundle, key) then
      var p := s.clients[bundle].players[key];
      p.(displayName := if displayName.Some? then displayName else p.displayName)
    else
      Player(if path.player.Some? then path.player.value.identifier else None,
             displayName, None, None, None, [], 0, [], None, None, [])
  }

  /** No client and no player is another one than before, but for the client and the player that are named. */
  ghost predicate OthersStay(s: State, s': State, bundle: string, key: string) {
    && s'.activeClient == s.activeClient
    && (forall b | b != bundle :: (b in s.clients <==> b in s'.clients)
                                  && (b in s.clients ==> s'.clients[b] == s.clients[b]))
    && bundle in s'.clients
    && (forall k | k != key && k in s'.clients[bundle].players :: bundle in s.clients && k in s.clients[bundle].players)
    && (bundle in s.clients ==>
          && s'.clients[bundle].activePlayerId == s.clients[bundle].activePlayerId
          && s'.clients[bundle].supportedCommands == s.clients[bundle].supportedCommands
          && forall k | k != key && k in s.clients[bundle].players ::
               k in s'.clients[bundle].players && s'.clients[bundle].players[k] == s.clients[bundle].players[k])
  }

  /** The artwork of an event's item is there to be had, is not there yet, and has not been asked for. */
  ghost predicate IsMissing(s: State, change: Change, cached: set<string>) {
    match change.current
    case None => false
    case Some(item) =>
      && item.identifier.Some? && item.identifier.value != ""
      && item.metadata.Some? && "artworkAvailable" in item.metadata.value
      && item.metadata.value["artworkAvailable"] == Flag(true)
      && (item.artworkData.None? || item.artworkData.value == [])
      && item.identifier.value !in cached && item.identifier.value !in s.requested
  }

  /** Artwork is asked for when an event leaves it missing, and then it has been asked for. */
  lemma MissingIsRequested(s: State, change: Change, cached: set<string>)
    ensures
      var s' := RequestArtwork(s, change, cached);
      if IsMissing(s, change, cached) then
        && s'.requests == s.requests + [change.current.value.identifier.value]
        && s'.requested == s.requested + {change.current.value.identifier.value}
        && s'.clients == s.clients && s'.activeClient == s.activeClient
      else s' == s
  {
  }

  /** What is asked for after a message that made a player another: the artwork of its new event, if missing. */
  ghost predicate RequestsFor(s: State, s': State, p: Player, p': Player, cached: set<string>) {
    if |p'.changes| == |p.changes| + 1 && IsMissing(s, p'.changes[|p.changes|], cached) then
      var id := p'.changes[|p.changes|].current.value.identifier.value;
      s'.requests == s.requests + [id] && s'.requested == s.requested + {id}
    else s'.requests == s.requests && s'.requested == s.requested
  }

  lemma HandledIs(s: State, path: Path, bundle: string, key: string, cached: set<string>, handle: Player -> Player)
    requires Names(path, bundle, key)
    requires
      var p := FoundPlayer(s, path, bundle, key);
      p.changes <= handle(p).changes && |handle(p).changes| <= |p.changes| + 1
    ensures
      var p, s' := FoundPlayer(s, path, bundle, key), ForPlayer(s, path, cached, handle);
      && IsThere(s', bundle, key) && s'.clients[bundle].players[key] == handle(p)
      && OthersStay(s, s', bundle, key)
      && RequestsFor(s, s', p, handle(p), cached)
  {
    hide RequestAll, RequestArtwork, IsMissing, OthersStay;
    var p := FoundPlayer(s, path, bundle, key);
    var r := Resolved(s, path);
    ResolvedIs(s, path, bundle, key);
    ForPlayerIs(s, path, cached, handle);
    assert PlayerAt(r, path) == p;
    var changes := handle(p).changes[|p.changes|..];
    var c := r.clients[bundle];
    var stored := r.(clients := r.clients[bundle := c.(players := c.players[key := handle(p)])]);
    OthersStayStored(s, r, bundle, key, handle(p));
    assert ForPlayer(s, path, cached, handle) == RequestAll(stored, changes, cached);
    RequestedFor(stored, changes, cached);
    if changes != [] {
      MissingIsRequested(stored, changes[0], cached);
      MissingDepends(s, stored, changes[0], cached);
    }
    OthersStayRequested(s, stored, ForPlayer(s, path, cached, handle), bundle, key);
  }

  lemma MissingDepends(s: State, s': State, change: Change, cached: set<string>)
    requires s'.requested == s.requested
    ensures IsMissing(s, change, cached) == IsMissing(s', change, cached)
  {
  }

  lemma OthersStayRequested(s: State, stored: State, s': State, bundle: string, key: string)
    requires OthersStay(s, stored, bundle, key)
    requires s'.clients == stored.clients && s'.activeClient == stored.activeClient
    ensures OthersStay(s, s', bundle, key)
  {
  }

  lemma RequestedFor(s: State, changes: seq<Change>, cached: set<string>)
    requires |changes| <= 1
    ensures RequestAll(s, changes, cached) == if changes == [] then s else RequestArtwork(s, changes[0], cached)
    ensures RequestAll(s, changes, cached).clients == s.clients
    ensures RequestAll(s, changes, cached).activeClient == s.activeClient
  {
    if changes != [] {
      assert changes[1..] == [];
      assert RequestAll(RequestArtwork(s, changes[0], cached), [], cached) == RequestArtwork(s, changes[0], cached);
    }
  }

  lemma ResolvedIs(s: State, path: Path, bundle: string, key: string)
    requires Names(path, bundle, key)
    ensures Bundle(path.client) == Some(bundle) && KeyOf(Named(path).identifier) == key
    ensures
      var r := Resolved(s, path);
      && IsThere(r, bundle, key) && r.clients[bundle].players[key] == FoundPlayer(s, path, bundle, key)
      && OthersStay(s, r, bundle, key)
      && r.requests == s.requests && r.requested == s.requested
  {
  }

  lemma OthersStayStored(s: State, r: State, bundle: string, key: string, p: Player)
    requires OthersStay(s, r, bundle, key)
    ensures
      var c := r.clients[bundle];
      OthersStay(s, r.(clients := r.clients[bundle := c.(players := c.players[key := p])]), bundle, key)
  {
  }

  /** A state message reaches the player it names, or a new one, and no other; its event is acted on. */
  lemma StateReachesItsPlayer(s: State, path: Path, m: SetState, cached: set<string>, bundle: string, key: string)
    requires Names(path, bundle, key)
    ensures
      var p, s' := FoundPlayer(s, path, bundle, key), Step(s, SetStateMessage(path, m, cached));
      && IsThere(s', bundle, key) && ReceivesState(p, m, s'.clients[bundle].players[key])
      && OthersStay(s, s', bundle, key)
      && RequestsFor(s, s', p, s'.clients[bundle].players[key], cached)
  {
    hide OthersStay, HandleSetState, TakesOver, ForPlayer, RequestsFor;
    var p := FoundPlayer(s, path, bundle, key);
    var handle := (p: Player) => HandleSetState(p, m);
    StateIsReceived(p, m);
    HandledIs(s, path, bundle, key, cached, handle);
  }

  /** Updates of items reach the player they name, and send no event and no request. */
  lemma UpdatesReachTheirPlayer(s: State, path: Path, items: seq<Item>, cached: set<string>, bundle: string,
                                key: string)
    requires PlayerStates.Valid(s) && Names(path, bundle, key)
    ensures
      var p, s' := FoundPlayer(s, path, bundle, key), Step(s, UpdateContentItem(path, items, cached));
      && IsThere(s', bundle, key) && s'.clients[bundle].players[key] == HandleContentItemUpdate(p, items)
      && SameQueue(p, s'.clients[bundle].players[key])
      && OthersStay(s, s', bundle, key)
      && s'.requests == s.requests && s'.requested == s.requested
  {
    hide OthersStay, HandleContentItemUpdate, ForPlayer, PlayerStates.Valid, PlayerValid, SameQueue;
    var p := FoundPlayer(s, path, bundle, key);
    var handle := (p: Player) => HandleContentItemUpdate(p, items);
    FoundPlayerIsValid(s, path, bundle, key);
    ContentUpdateKeeps(p, items);
    UpdatesKeepQueue(p, items);
    HandledIs(s, path, bundle, key, cached, handle);
  }

  lemma FoundPlayerIsValid(s: State, path: Path, bundle: string, key: string)
    requires PlayerStates.Valid(s) && Names(path, bundle, key)
    ensures PlayerValid(FoundPlayer(s, path, bundle, key))
  {
    if IsThere(s, bundle, key) {
      assert ClientValid(s.clients[bundle]);
    }
  }

  // ---- Clients ----

  /** A client as a message finds it. */
  ghost function FoundClient(s: State, client: ClientInfo, bundle: string): Client {
    if bundle in s.clients then
      s.clients[bundle].(displayName := if client.displayName.Some? then client.displayName
                                        else s.clients[bundle].displayName)
    else Client(client.displayName, [], map[], None)
  }

  /** A message that names a client, and what it leaves of it. */
  ghost predicate OnlyClient(s: State, s': State, bundle: string, c: Client) {
    s' == s.(clients := s.clients[bundle := c])
  }

  /** The messages about clients: one becomes active, is renamed, or goes. */
  lemma ClientMessagesAre(s: State, client: ClientInfo, bundle: string)
    requires NamesClient(Some(client), bundle)
    ensures OnlyClient(s, Step(s, UpdateClient(client)), bundle, FoundClient(s, client, bundle))
    ensures Step(s, SetNowPlayingClient(client)) == Step(s, UpdateClient(client)).(activeClient := Some(bundle))
    ensures
      var s' := Step(s, RemoveClient(client));
      && s'.clients == s.clients - {bundle}
      && s'.activeClient == (if s.activeClient == Some(bundle) then None else s.activeClient)
      && s'.requests == s.requests && s'.requested == s.requested
    ensures Step(s, Cleanup) == State(map[], None, {}, [])
  {
  }

  /** The player that is active: the one recorded, or the default one. */
  ghost predicate IsActive(c: Client, key: string) {
    key in c.players && key == if c.activePlayerId.Some? then c.activePlayerId.value else "MediaRemote-DefaultPlayer"
  }

  lemma ActivePlayerIs(c: Client, key: string)
    requires IsActive(c, key)
    ensures ActivePlayer(c) == Some(c.players[key])
  {
  }

  /** A player is renamed, or made. */
  lemma UpdatePlayerIs(s: State, path: Path, bundle: string, key: string)
    requires Names(path, bundle, key) && path.player.Some?
    ensures
      var c, s' := FoundClient(s, path.client.value, bundle), Step(s, UpdatePlayer(path));
      OnlyClient(s, s', bundle, c.(players := c.players[key := FoundPlayer(s, path, bundle, key)]))
  {
  }

  /** A player is renamed, or made, and is the active one of its client; no other client changes. */
  lemma NowPlayingPlayerIs(s: State, path: Path, bundle: string, key: string)
    requires PlayerStates.Valid(s) && Names(path, bundle, key) && path.player.Some?
    ensures
      var c, s' := FoundClient(s, path.client.value, bundle), Step(s, SetNowPlayingPlayer(path));
      var p := FoundPlayer(s, path, bundle, key);
      && OnlyClient(s, s', bundle, c.(players := c.players[key := p], activePlayerId := p.identifier))
      && (key != "" ==> IsActive(s'.clients[bundle], key))
  {
    hide PlayerValid;
    assert bundle in s.clients ==> ClientValid(s.clients[bundle]);
  }

  /** A player with an identifier is gone, and no longer active; no other client or player changes. */
  lemma RemovePlayerIs(s: State, path: Path, bundle: string, key: string)
    requires PlayerStates.Valid(s) && Names(path, bundle, key) && path.player.Some?
    ensures
      var c, s' := FoundClient(s, path.client.value, bundle), Step(s, RemovePlayer(path));
      if key == "" then OnlyClient(s, s', bundle, c)
      else
        OnlyClient(s, s', bundle,
                   c.(players := c.players - {key},
                      activePlayerId := if IsActive(c, key) then None else c.activePlayerId))
  {
    hide PlayerValid;
    assert bundle in s.clients ==> ClientValid(s.clients[bundle]);
  }

  /** Commands are the client's; a path that names no player changes no more than the client's name. */
  lemma OtherMessagesAre(s: State, path: Path, commands: seq<int>, bundle: string)
    requires NamesClient(path.client, bundle)
    ensures
      var c := FoundClient(s, path.client.value, bundle);
      && OnlyClient(s, Step(s, SetDefaultCommands(path, commands)), bundle, c.(supportedCommands := commands))
      && OnlyClient(s, Step(s, ClientProperties(path)), bundle, c)
      && (path.player.None? ==>
            && OnlyClient(s, Step(s, UpdatePlayer(path)), bundle, c)
            && OnlyClient(s, Step(s, SetNowPlayingPlayer(path)), bundle, c)
            && OnlyClient(s, Step(s, RemovePlayer(path)), bundle, c))
  {
  }

  ghost function PathOf(m: Message): Option<Path> {
    match m
    case SetStateMessage(path, _, _) => Some(path)
    case UpdateContentItem(path, _, _) => Some(path)
    case UpdatePlayer(path) => Some(path)
    case SetNowPlayingPlayer(path) => Some(path)
    case RemovePlayer(path) => Some(path)
    case SetDefaultCommands(path, _) => Some(path)
    case ClientProperties(path) => Some(path)
    case SetNowPlayingClient(client) => Some(Path(Some(client), None))
    case UpdateClient(client) => Some(Path(Some(client), None))
    case RemoveClient(client) => Some(Path(Some(client), None))
    case Cleanup => None
  }

  /** A message without a client, or with an empty name for it, changes nothing. */
  lemma NamelessIsIgnored(s: State, m: Message)
    requires PathOf(m).Some? && forall bundle :: !NamesClient(PathOf(m).value.client, bundle)
    ensures Step(s, m) == s
  {
    var client := PathOf(m).value.client;
    if client.Some? && client.value.bundleIdentifier.Some? {
      assert !NamesClient(client, client.value.bundleIdentifier.value);
    }
  }

  // ---- Whole runs ----

  /** A state message for a player, or one that removes it. */
  ghost predicate Concerns(m: Message, bundle: string, key: string) {
    match m
    case SetStateMessage(path, _, _) => Names(path, bundle, key)
    case RemovePlayer(path) => Names(path, bundle, key)
    case RemoveClient(client) => NamesClient(Some(client), bundle)
    case Cleanup => true
    case _ => false
  }

  /** The player is still there, with the same queue, and has sent nothing. */
  ghost predicate Stays(s: State, s': State, bundle: string, key: string) {
    && IsThere(s, bundle, key) && IsThere(s', bundle, key)
    && SameQueue(s.clients[bundle].players[key], s'.clients[bundle].players[key])
  }

  lemma OthersStayAsTheyAre(s: State, s': State, bundle: string, key: string, b: string, k: string)
    requires OthersStay(s, s', bundle, key) && IsThere(s, b, k) && (b != bundle || k != key)
    ensures Stays(s, s', b, k)
  {
    SameQueueAsItself(s.clients[b].players[k]);
  }

  lemma FoundHasQueue(s: State, path: Path, bundle: string, key: string, p': Player)
    requires IsThere(s, bundle, key) && SameQueue(FoundPlayer(s, path, bundle, key), p')
    ensures SameQueue(s.clients[bundle].players[key], p')
  {
  }

  lemma StepStays(s: State, m: Message, bundle: string, key: string)
    requires PlayerStates.Valid(s) && IsThere(s, bundle, key) && !Concerns(m, bundle, key)
    ensures Stays(s, Step(s, m), bundle, key)
  {
    hide Step, PlayerStates.Valid, SameQueue;
    SameQueueAsItself(s.clients[bundle].players[key]);
    var path := PathOf(m).value;
    if path.client.Some? && path.client.value.bundleIdentifier.Some? && path.client.value.bundleIdentifier.value != "" {
      var b := path.client.value.bundleIdentifier.value;
      var k := if path.player.Some? && path.player.value.identifier.Some? then path.player.value.identifier.value
               else "";
      NamedStepStays(s, m, b, k, bundle, key);
    } else {
      NamelessIsIgnored(s, m);
    }
  }

  lemma NamedStepStays(s: State, m: Message, b: string, k: string, bundle: string, key: string)
    requires PlayerStates.Valid(s) && IsThere(s, bundle, key) && !Concerns(m, bundle, key)
    requires Names(PathOf(m).value, b, k)
    ensures Stays(s, Step(s, m), bundle, key)
  {
    hide Step, PlayerStates.Valid, SameQueue, FoundPlayer, HandleSetState, OthersStay;
    var p := s.clients[bundle].players[key];
    SameQueueAsItself(p);
    match m
    case SetStateMessage(path, state, cached) =>
      StateReachesItsPlayer(s, path, state, cached, b, k);
      OthersStayAsTheyAre(s, Step(s, m), b, k, bundle, key);
    case UpdateContentItem(path, items, cached) =>
      UpdatesReachTheirPlayer(s, path, items, cached, b, k);
      if b == bundle && k == key {
        FoundHasQueue(s, path, b, k, Step(s, m).clients[b].players[k]);
      } else {
        OthersStayAsTheyAre(s, Step(s, m), b, k, bundle, key);
      }
    case _ => ClientStepStays(s, m, b, k, bundle, key);
  }

  lemma ClientStepStays(s: State, m: Message, b: string, k: string, bundle: string, key: string)
    requires PlayerStates.Valid(s) && IsThere(s, bundle, key) && !Concerns(m, bundle, key)
    requires Names(PathOf(m).value, b, k) && !m.SetStateMessage? && !m.UpdateContentItem?
    ensures Stays(s, Step(s, m), bundle, key)
  {
    hide Step, PlayerStates.Valid, SameQueue, FoundPlayer, Stays;
    var path := PathOf(m).value;
    SameQueueAsItself(s.clients[bundle].players[key]);
    match m
    case SetNowPlayingClient(client) => ClientMessageStays(s, client, b, bundle, key);
    case UpdateClient(client) => ClientMessageStays(s, client, b, bundle, key);
    case RemoveClient(client) => ClientMessageStays(s, client, b, bundle, key);
    case SetDefaultCommands(_, commands) => OtherMessageStays(s, path, commands, b, bundle, key);
    case ClientProperties(_) => OtherMessageStays(s, path, [], b, bundle, key);
    case _ =>
      if path.player.Some? {
        PlayerMessageStays(s, m, path, b, k, bundle, key);
      } else {
        OtherMessageStays(s, path, [], b, bundle, key);
      }
  }

  lemma ClientMessageStays(s: State, client: ClientInfo, b: string, bundle: string, key: string)
    requires IsThere(s, bundle, key) && NamesClient(Some(client), b)
    ensures Stays(s, Step(s, SetNowPlayingClient(client)), bundle, key)
    ensures Stays(s, Step(s, UpdateClient(client)), bundle, key)
    ensures b != bundle ==> Stays(s, Step(s, RemoveClient(client)), bundle, key)
  {
    hide Step, SameQueue;
    SameQueueAsItself(s.clients[bundle].players[key]);
    ClientMessagesAre(s, client, b);
  }

  lemma OtherMessageStays(s: State, path: Path, commands: seq<int>, b: string, bundle: string, key: string)
    requires IsThere(s, bundle, key) && NamesClient(path.client, b)
    ensures Stays(s, Step(s, SetDefaultCommands(path, commands)), bundle, key)
    ensures Stays(s, Step(s, ClientProperties(path)), bundle, key)
    ensures path.player.None? ==>
              && Stays(s, Step(s, UpdatePlayer(path)), bundle, key)
              && Stays(s, Step(s, SetNowPlayingPlayer(path)), bundle, key)
              && Stays(s, Step(s, RemovePlayer(path)), bundle, key)
  {
    hide Step, SameQueue;
    SameQueueAsItself(s.clients[bundle].players[key]);
    OtherMessagesAre(s, path, commands, b);
  }

  lemma PlayerMessageStays(s: State, m: Message, path: Path, b: string, k: string, bundle: string, key: string)
    requires PlayerStates.Valid(s) && IsThere(s, bundle, key) && !Concerns(m, bundle, key)
    requires Names(path, b, k) && path.player.Some?
    requires m == UpdatePlayer(path) || m == SetNowPlayingPlayer(path) || m == RemovePlayer(path)
    ensures Stays(s, Step(s, m), bundle, key)
  {
    hide Step, PlayerStates.Valid, FoundPlayer, IsActive, SameQueue;
    SameQueueAsItself(s.clients[bundle].players[key]);
    if b == bundle && k == key {
      FoundItself(s, path, b, k);
    }
    match m
    case UpdatePlayer(_) => UpdatePlayerIs(s, path, b, k);
    case SetNowPlayingPlayer(_) => NowPlayingPlayerIs(s, path, b, k);
    case RemovePlayer(_) => RemovePlayerIs(s, path, b, k);
  }

  lemma FoundItself(s: State, path: Path, bundle: string, key: string)
    requires IsThere(s, bundle, key)
    ensures SameQueue(s.clients[bundle].players[key], FoundPlayer(s, path, bundle, key))
  {
  }

  lemma {:induction false} RunStays(s: State, messages: seq<Message>, bundle: string, key: string)
    requires PlayerStates.Valid(s) && IsThere(s, bundle, key)
    requires forall m | m in messages :: !Concerns(m, bundle, key)
    ensures Stays(s, Run(s, messages), bundle, key)
    decreases |messages|
  {
    hide Step, PlayerStates.Valid, SameQueue, Concerns;
    if messages == [] {
      SameQueueAsItself(s.clients[bundle].players[key]);
    } else {
      var s1 := Step(s, messages[0]);
      StepStays(s, messages[0], bundle, key);
      StepKeeps(s, messages[0]);
      RunStays(s1, messages[1..], bundle, key);
      SameQueueTwice(s.clients[bundle].players[key], s1.clients[bundle].players[key],
                     Run(s, messages).clients[bundle].players[key]);
    }
  }

  lemma RunConcat(s: State, before: seq<Message>, after: seq<Message>)
    ensures Run(s, before + after) == Run(Run(s, before), after)
    decreases |before|
  {
    if before == [] {
      assert before + after == after;
    } else {
      assert (before + after)[1..] == before[1..] + after;
    }
  }

  /** What a player shows once a state message has been received, and nothing about it comes after that. */
  ghost predicate Shows(p: Player, m: SetState, p': Player) {
    exists received :: ReceivesState(p, m, received) && SameQueue(received, p')
  }

  /**
   In every run: after the last state message for a player, whatever else comes that does not remove
   it, the player shows what the message left, with the same queue, location, state and events.
   */
  lemma LastStateIsShown(before: seq<Message>, path: Path, m: SetState, cached: set<string>, after: seq<Message>,
                         bundle: string, key: string)
    requires Names(path, bundle, key) && forall later | later in after :: !Concerns(later, bundle, key)
    ensures
      var s := Run(INITIAL, before + [SetStateMessage(path, m, cached)] + after);
      && IsThere(s, bundle, key)
      && Shows(FoundPlayer(Run(INITIAL, before), path, bundle, key), m, s.clients[bundle].players[key])
  {
    hide Step, Run, PlayerStates.Valid, SameQueue, Concerns, FoundPlayer, OthersStay, RequestsFor, ReceivesState;
    var s, last := Run(INITIAL, before), SetStateMessage(path, m, cached);
    EveryRun(before);
    RunConcat(INITIAL, before + [last], after);
    RunConcat(INITIAL, before, [last]);
    RunSingle(s, last);
    var s1 := Step(s, last);
    StepKeeps(s, last);
    StateReachesItsPlayer(s, path, m, cached, bundle, key);
    RunStays(s1, after, bundle, key);
  }

  lemma RunSingle(s: State, m: Message)
    ensures Run(s, [m]) == Step(s, m)
  {
    assert [m][1..] == [];
    assert Run(Step(s, m), []) == Step(s, m);
  }

  /** So the item at the location of the last queue is the current one, and the last event led to it. */
  lemma QueueIsNowPlaying(before: seq<Message>, path: Path, m: SetState, cached: set<string>, after: seq<Message>,
                          bundle: string, key: string)
    requires Names(path, bundle, key) && forall later | later in after :: !Concerns(later, bundle, key)
    requires m.queue.Some? && !IsOlder(FoundPlayer(Run(INITIAL, before), path, bundle, key), m)
    ensures
      var s := Run(INITIAL, before + [SetStateMessage(path, m, cached)] + after);
      var queue := m.queue.value;
      var location := if queue.location.Some? then queue.location.value else 0;
      var item := if 0 <= location < |queue.items| then Some(queue.items[location]) else None;
      && IsThere(s, bundle, key)
      && var p := s.clients[bundle].players[key];
         && p.location == location && |p.items| == |queue.items|
         && (forall i | 0 <= i < |p.items| :: p.items[i].identifier == queue.items[i].identifier)
         && SameIdentifier(CurrentItem(p), item)
         && if p.changes == [] then item.None? || item.value.identifier.None?
            else SameIdentifier(p.changes[|p.changes| - 1].current, item)
  {
    hide Run, Concerns, FoundPlayer, PlayerStates.Valid, PlayerValid;
    LastStateIsShown(before, path, m, cached, after, bundle, key);
    var messages := before + [SetStateMessage(path, m, cached)] + after;
    EveryRun(messages);
    var s := Run(INITIAL, messages);
    ThereIsValid(s, bundle, key);
    ShownQueue(FoundPlayer(Run(INITIAL, before), path, bundle, key), m, s.clients[bundle].players[key]);
  }

  lemma ThereIsValid(s: State, bundle: string, key: string)
    requires PlayerStates.Valid(s) && IsThere(s, bundle, key)
    ensures PlayerValid(s.clients[bundle].players[key])
  {
    assert ClientValid(s.clients[bundle]);
  }

  lemma ShownQueue(p: Player, m: SetState, p': Player)
    requires m.queue.Some? && !IsOlder(p, m) && Shows(p, m, p') && PlayerValid(p')
    ensures
      var queue := m.queue.value;
      var location := if queue.location.Some? then queue.location.value else 0;
      var item := if 0 <= location < |queue.items| then Some(queue.items[location]) else None;
      && p'.location == location && |p'.items| == |queue.items|
      && (forall i | 0 <= i < |p'.items| :: p'.items[i].identifier == queue.items[i].identifier)
      && SameIdentifier(CurrentItem(p'), item)
      && if p'.changes == [] then item.None? || item.value.identifier.None?
         else SameIdentifier(p'.changes[|p'.changes| - 1].current, item)
  {
    var received :| ReceivesState(p, m, received) && SameQueue(received, p');
  }
}
