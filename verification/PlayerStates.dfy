/**
 What is playing, as the media remote reports it (src/protocols/mrp/MRPPlayerState.ts): players with
 their queue, clients with their players, and the requests for artwork that changes of the current
 item lead to.
 */
module PlayerStates {
  import opened Results
  import opened ByteStrings

  datatype Value = Flag(set_: bool) | Number(n: int) | Text(s: string)

  /** The metadata fields that are present. */
  type Metadata = map<string, Value>

  datatype Item = Item(
    identifier: Option<string>, metadata: Option<Metadata>, artworkData: Option<Bytes>,
    lyrics: Option<Value>, info: Option<Value>)

  /** An `activeItemChange` event. */
  datatype Change = Change(previous: Option<Item>, current: Option<Item>, location: int)

  datatype Queue = Queue(items: seq<Item>, location: Option<int>)

  datatype SetState = SetState(
    playbackState: Option<int>, timestamp: Option<real>, nowPlayingInfo: Option<Value>,
    supportedCommands: Option<seq<int>>, queue: Option<Queue>, queueCapabilities: Option<Value>)

  // ---- Players ----

  datatype Player = Player(
    identifier: Option<string>,
    displayName: Option<string>,
    playbackState: Option<int>,
    timestamp: Option<real>,
    nowPlayingInfo: Option<Value>,
    items: seq<Item>,
    location: int,
    supportedCommands: seq<int>,
    queueCapabilities: Option<Value>,
    lastItem: Option<Item>,
    changes: seq<Change>)  // the events so far

  function NewPlayer(identifier: Option<string>, displayName: Option<string>): Player {
    Player(identifier, displayName, None, None, None, [], 0, [], None, None, [])
  }

  function IdOf(item: Option<Item>): Option<string> {
    match item
    case None => None
    case Some(i) => i.identifier
  }

  function ItemAt(items: seq<Item>, location: int): Option<Item> {
    if 0 <= location < |items| then Some(items[location]) else None
  }

  function CurrentItem(p: Player): Option<Item> {
    ItemAt(p.items, p.location)
  }

  /** The first item with an identifier, also an absent one; -1 if there is none. */
  function FindIndex(items: seq<Item>, id: Option<string>): int {
    if items == [] then -1
    else if items[0].identifier == id then 0
    else
      var rest := FindIndex(items[1..], id);
      if rest < 0 then -1 else rest + 1
  }

  function EmitIfItemChanged(p: Player): Player {
    var current := CurrentItem(p);
    if IdOf(current) == IdOf(p.lastItem) then p
    else
      var change := Change(p.lastItem, current, FindIndex(p.items, IdOf(current)));
      p.(lastItem := current, changes := p.changes + [change])
  }

  predicate ShouldApply(p: Player, timestamp: Option<real>) {
    timestamp.None? || p.timestamp.None? || timestamp.value >= p.timestamp.value
  }

  function Or<T>(update: Option<T>, current: Option<T>): Option<T> {
    if update.Some? then update else current
  }

  function HandleSetState(p: Player, m: SetState): Player {
    if !ShouldApply(p, m.timestamp) then p
    else
      EmitIfItemChanged(p.(
        playbackState := Or(m.playbackState, p.playbackState),
        timestamp := Or(m.timestamp, p.timestamp),
        nowPlayingInfo := Or(m.nowPlayingInfo, p.nowPlayingInfo),
        supportedCommands := if m.supportedCommands.Some? then m.supportedCommands.value else p.supportedCommands,
        items := if m.queue.Some? then m.queue.value.items else p.items,
        location := if m.queue.None? then p.location
                    else if m.queue.value.location.Some? then m.queue.value.location.value else 0,
        queueCapabilities := Or(m.queueCapabilities, p.queueCapabilities)))
  }

  /** Fields present in the update overwrite; the others stay. */
  function Merge(existing: Item, updated: Item): Item {
    existing.(
      metadata := if updated.metadata.None? then existing.metadata
                  else if existing.metadata.None? then updated.metadata
                  else Some(existing.metadata.value + updated.metadata.value),
      artworkData := Or(updated.artworkData, existing.artworkData),
      lyrics := Or(updated.lyrics, existing.lyrics),
      info := Or(updated.info, existing.info))
  }

  function UpdateItem(p: Player, updated: Item): Player {
    if updated.identifier.None? then p
    else
      var i := FindIndex(p.items, updated.identifier);
      if 0 <= i < |p.items| then EmitIfItemChanged(p.(items := p.items[i := Merge(p.items[i], updated)])) else p
  }

  function HandleContentItemUpdate(p: Player, updates: seq<Item>): Player
    decreases |updates|
  {
    if updates == [] then p else HandleContentItemUpdate(UpdateItem(p, updates[0]), updates[1..])
  }

  // ---- What a player keeps ----

  /** An event starts where the one before ended, and goes somewhere else. */
  ghost predicate Follows(changes: seq<Change>, i: nat)
    requires i < |changes|
  {
    && IdOf(changes[i].previous) != IdOf(changes[i].current)
    && IdOf(changes[i].previous) == if i == 0 then None else IdOf(changes[i - 1].current)
  }

  ghost predicate Chained(changes: seq<Change>) {
    forall i | 0 <= i < |changes| :: Follows(changes, i)
  }

  ghost predicate PlayerValid(p: Player) {
    && IdOf(p.lastItem) == IdOf(CurrentItem(p))
    && Chained(p.changes)
    && IdOf(p.lastItem) == if p.changes == [] then None else IdOf(p.changes[|p.changes| - 1].current)
  }

  ghost predicate NotEarlier(before: Option<real>, after: Option<real>) {
    before.Some? ==> after.Some? && before.value <= after.value
  }

  /** A player that has only received messages in between. */
  ghost predicate Continues(p: Player, p': Player) {
    && p'.identifier == p.identifier
    && NotEarlier(p.timestamp, p'.timestamp)
    && p.changes <= p'.changes
  }

  /** All of the state may change, but for the last item and the events. */
  lemma EmitKeeps(before: Player, p: Player)
    requires PlayerValid(before) && p.lastItem == before.lastItem && p.changes == before.changes
    ensures PlayerValid(EmitIfItemChanged(p)) && p.changes <= EmitIfItemChanged(p).changes
  {
    var changes := EmitIfItemChanged(p).changes;
    forall i | 0 <= i < |changes| ensures Follows(changes, i) {
      if i < |p.changes| {
        assert Follows(p.changes, i);
      }
    }
  }

  lemma SetStateKeeps(p: Player, m: SetState)
    requires PlayerValid(p)
    ensures PlayerValid(HandleSetState(p, m)) && Continues(p, HandleSetState(p, m))
  {
    hide Chained;
    if ShouldApply(p, m.timestamp) {
      var p' := HandleSetState(p, m);
      var queued := p.(
        playbackState := p'.playbackState, timestamp := p'.timestamp, nowPlayingInfo := p'.nowPlayingInfo,
        supportedCommands := p'.supportedCommands, items := p'.items, location := p'.location,
        queueCapabilities := p'.queueCapabilities);
      EmitKeeps(p, queued);
      assert p' == EmitIfItemChanged(queued);
    }
  }

  /** Merging leaves identifiers alone, so the current item stays the same one and no event is sent. */
  lemma UpdateKeeps(p: Player, updated: Item)
    requires PlayerValid(p)
    ensures PlayerValid(UpdateItem(p, updated)) && Continues(p, UpdateItem(p, updated))
    ensures UpdateItem(p, updated).changes == p.changes
  {
    hide Chained;
    var i := FindIndex(p.items, updated.identifier);
    if 0 <= i < |p.items| {
      var merged := p.(items := p.items[i := Merge(p.items[i], updated)]);
      assert IdOf(CurrentItem(merged)) == IdOf(CurrentItem(p));
      EmitKeeps(p, merged);
    }
  }

  lemma {:induction false} ContentUpdateKeeps(p: Player, updates: seq<Item>)
    requires PlayerValid(p)
    ensures
      var p' := HandleContentItemUpdate(p, updates);
      PlayerValid(p') && Continues(p, p') && p'.changes == p.changes
    decreases |updates|
  {
    hide PlayerValid, UpdateItem;
    if updates != [] {
      UpdateKeeps(p, updates[0]);
      ContentUpdateKeeps(UpdateItem(p, updates[0]), updates[1..]);
    }
  }

  /** An event names the first place in the queue where its item's identifier stands. */
  lemma {:induction false} FindIndexIsFirst(items: seq<Item>, id: Option<string>)
    ensures var i := FindIndex(items, id);
            && -1 <= i < |items|
            && (i >= 0 ==> items[i].identifier == id)
            && forall j | 0 <= j < (if i < 0 then |items| else i) :: items[j].identifier != id
  {
    if items != [] && items[0].identifier != id {
      FindIndexIsFirst(items[1..], id);
      assert forall j | 0 < j < |items| :: items[j] == items[1..][j - 1];
    }
  }

  // ---- Clients and their players ----

  datatype ClientInfo = ClientInfo(bundleIdentifier: Option<string>, displayName: Option<string>)
  datatype PlayerInfo = PlayerInfo(identifier: Option<string>, displayName: Option<string>)
  datatype Path = Path(client: Option<ClientInfo>, player: Option<PlayerInfo>)

  datatype Client = Client(
    displayName: Option<string>, supportedCommands: seq<int>,
    players: map<string, Player>, activePlayerId: Option<string>)

  const DEFAULT_PLAYER_ID := "MediaRemote-DefaultPlayer"

  datatype State = State(
    clients: map<string, Client>,
    activeClient: Option<string>,
    requested: set<string>,   // identifiers whose artwork has been asked for
    requests: seq<string>)    // the requests sent since the last cleanup

  const INITIAL := State(map[], None, {}, [])

  datatype Message =
    | SetStateMessage(path: Path, state: SetState, cached: set<string>)
    | UpdatePlayer(path: Path)
    | UpdateContentItem(path: Path, items: seq<Item>, cached: set<string>)
    | SetNowPlayingClient(client: ClientInfo)
    | SetNowPlayingPlayer(path: Path)
    | UpdateClient(client: ClientInfo)
    | RemoveClient(client: ClientInfo)
    | RemovePlayer(path: Path)
    | SetDefaultCommands(path: Path, commands: seq<int>)
    | ClientProperties(path: Path)
    | Cleanup

  /** An absent or empty identifier names no client. */
  function Bundle(client: Option<ClientInfo>): Option<string> {
    if client.Some? && client.value.bundleIdentifier.Some? && client.value.bundleIdentifier.value != ""
    then client.value.bundleIdentifier else None
  }

  function KeyOf(identifier: Option<string>): string {
    if identifier.Some? then identifier.value else ""
  }

  function GetOrCreateClient(s: State, bundle: string, displayName: Option<string>): State {
    var c := if bundle in s.clients
             then s.clients[bundle].(displayName := Or(displayName, s.clients[bundle].displayName))
             else Client(displayName, [], map[], None);
    s.(clients := s.clients[bundle := c])
  }

  function GetOrCreatePlayer(c: Client, info: PlayerInfo): Client {
    var key := KeyOf(info.identifier);
    var p := if key in c.players then c.players[key].(displayName := Or(info.displayName, c.players[key].displayName))
             else NewPlayer(info.identifier, info.displayName);
    c.(players := c.players[key := p])
  }

  function ActivePlayer(c: Client): Option<Player> {
    var id := if c.activePlayerId.Some? then c.activePlayerId.value else DEFAULT_PLAYER_ID;
    if id in c.players then Some(c.players[id]) else None
  }

  /** The player a path names; none named is one without an identifier. */
  function Named(path: Path): PlayerInfo {
    if path.player.Some? then path.player.value else PlayerInfo(None, None)
  }

  // ---- Artwork ----

  predicate WantsArtwork(c: Change, cached: set<string>) {
    && IdOf(c.current).Some? && IdOf(c.current).value != ""
    && c.current.value.metadata.Some?
    && "artworkAvailable" in c.current.value.metadata.value
    && c.current.value.metadata.value["artworkAvailable"] == Flag(true)
    && (c.current.value.artworkData.None? || c.current.value.artworkData.value == [])
    && IdOf(c.current).value !in cached
  }

  function RequestArtwork(s: State, c: Change, cached: set<string>): State {
    if WantsArtwork(c, cached) && IdOf(c.current).value !in s.requested then
      s.(requested := s.requested + {IdOf(c.current).value}, requests := s.requests + [IdOf(c.current).value])
    else s
  }

  function RequestAll(s: State, changes: seq<Change>, cached: set<string>): State
    decreases |changes|
  {
    if changes == [] then s else RequestAll(RequestArtwork(s, changes[0], cached), changes[1..], cached)
  }

  // ---- Steps ----

  /** A message for a player: client and player are created as needed, and changes are acted on. */
  function ForPlayer(s: State, path: Path, cached: set<string>, handle: Player -> Player): State {
    match Bundle(path.client)
    case None => s
    case Some(bundle) =>
      var s1 := GetOrCreateClient(s, bundle, path.client.value.displayName);
      var c := GetOrCreatePlayer(s1.clients[bundle], Named(path));
      var key := KeyOf(Named(path).identifier);
      var p := handle(c.players[key]);
      var s2 := s1.(clients := s1.clients[bundle := c.(players := c.players[key := p])]);
      RequestAll(s2, if |c.players[key].changes| <= |p.changes| then p.changes[|c.players[key].changes|..]
          else [], cached)
  }

  /** Client and player of a path are there. */
  predicate IsResolved(s: State, path: Path) {
    && Bundle(path.client).Some? && Bundle(path.client).value in s.clients
    && KeyOf(Named(path).identifier) in s.clients[Bundle(path.client).value].players
  }

  function Resolved(s: State, path: Path): (r: State)
    requires Bundle(path.client).Some?
    ensures IsResolved(r, path)
  {
    var bundle := Bundle(path.client).value;
    var s1 := GetOrCreateClient(s, bundle, path.client.value.displayName);
    s1.(clients := s1.clients[bundle := GetOrCreatePlayer(s1.clients[bundle], Named(path))])
  }

  function PlayerAt(s: State, path: Path): Player
    requires IsResolved(s, path)
  {
    s.clients[Bundle(path.client).value].players[KeyOf(Named(path).identifier)]
  }

  /** A player is replaced by what has become of it, and its new events are acted on. */
  function Handled(s: State, path: Path, before: Player, after: Player, cached: set<string>): State
    requires IsResolved(s, path)
  {
    var bundle, key := Bundle(path.client).value, KeyOf(Named(path).identifier);
    var c := s.clients[bundle];
    var s' := s.(clients := s.clients[bundle := c.(players := c.players[key := after])]);
    RequestAll(s', if |before.changes| <= |after.changes| then after.changes[|before.changes|..] else [], cached)
  }

  lemma ForPlayerIs(s: State, path: Path, cached: set<string>, handle: Player -> Player)
    requires Bundle(path.client).Some?
    ensures
      var before := PlayerAt(Resolved(s, path), path);
      ForPlayer(s, path, cached, handle) == Handled(Resolved(s, path), path, before, handle(before), cached)
  {
    hide RequestAll, GetOrCreateClient, GetOrCreatePlayer;
    var bundle, key := Bundle(path.client).value, KeyOf(Named(path).identifier);
    CreatedClientContinues(s, bundle, path.client.value.displayName);
    var s1 := GetOrCreateClient(s, bundle, path.client.value.displayName);
    PlayerIsThere(s1.clients[bundle], Named(path));
    var c := GetOrCreatePlayer(s1.clients[bundle], Named(path));
    var c' := c.(players := c.players[key := handle(c.players[key])]);
    assert s1.clients[bundle := c][bundle := c'] == s1.clients[bundle := c'];
  }

  lemma NoPlayerMeant(s: State, path: Path, cached: set<string>, handle: Player -> Player)
    requires Bundle(path.client).None?
    ensures ForPlayer(s, path, cached, handle) == s
  {
  }

  function ForClient(s: State, path: Path, handle: Client -> Client): State {
    match Bundle(path.client)
    case None => s
    case Some(bundle) =>
      var s1 := GetOrCreateClient(s, bundle, path.client.value.displayName);
      s1.(clients := s1.clients[bundle := handle(s1.clients[bundle])])
  }

  function ActivatePlayer(c: Client, info: PlayerInfo): Client {
    var c' := GetOrCreatePlayer(c, info);
    c'.(activePlayerId := c'.players[KeyOf(info.identifier)].identifier)
  }

  function DropPlayer(c: Client, id: string): Client {
    var wasActive := ActivePlayer(c).Some? && ActivePlayer(c).value.identifier == Some(id);
    c.(players := c.players - {id}, activePlayerId := if wasActive then None else c.activePlayerId)
  }

  function Step(s: State, m: Message): State {
    match m
    case SetStateMessage(path, state, cached) => ForPlayer(s, path, cached, (p: Player) => HandleSetState(p, state))
    case UpdateContentItem(path, items, cached) => ForPlayer(s, path, cached,
        (p: Player) => HandleContentItemUpdate(p, items))
    case UpdatePlayer(path) =>
      ForClient(s, path, (c: Client) => if path.player.Some? then GetOrCreatePlayer(c, path.player.value) else c)
    case SetNowPlayingPlayer(path) =>
      ForClient(s, path, (c: Client) => if path.player.Some? then ActivatePlayer(c, path.player.value) else c)
    case RemovePlayer(path) =>
      ForClient(s, path, (c: Client) =>
        if path.player.Some? && KeyOf(path.player.value.identifier) != ""
            then DropPlayer(c, KeyOf(path.player.value.identifier))
        else c)
    case SetDefaultCommands(path, commands) => ForClient(s, path, (c: Client) => c.(supportedCommands := commands))
    case ClientProperties(path) => ForClient(s, path, (c: Client) => c)
    case SetNowPlayingClient(client) =>
      (match Bundle(Some(client))
       case None => s
       case Some(bundle) => GetOrCreateClient(s, bundle, client.displayName).(activeClient := Some(bundle)))
    case UpdateClient(client) =>
      (match Bundle(Some(client))
       case None => s
       case Some(bundle) => GetOrCreateClient(s, bundle, client.displayName))
    case RemoveClient(client) =>
      (match Bundle(Some(client))
       case None => s
       case Some(bundle) =>
         s.(clients := s.clients - {bundle},
            activeClient := if s.activeClient == Some(bundle) then None else s.activeClient))
    case Cleanup => State(map[], None, {}, [])
  }

  function Run(s: State, messages: seq<Message>): State
    decreases |messages|
  {
    if messages == [] then s else Run(Step(s, messages[0]), messages[1..])
  }

  // ---- What every run keeps ----

  ghost predicate ClientValid(c: Client) {
    && (c.activePlayerId.Some? ==> c.activePlayerId.value in c.players)
    && forall k | k in c.players :: KeyOf(c.players[k].identifier) == k && PlayerValid(c.players[k])
  }

  /** One request for each identifier that has been asked for. */
  ghost predicate RequestsValid(requested: set<string>, requests: seq<string>) {
    && (forall i, j | 0 <= i < j < |requests| :: requests[i] != requests[j])
    && (forall i | 0 <= i < |requests| :: requests[i] in requested)
    && multiset(requests) == multiset(requested)
  }

  ghost predicate Valid(s: State) {
    && (s.activeClient.Some? ==> s.activeClient.value in s.clients)
    && (forall b | b in s.clients :: ClientValid(s.clients[b]))
    && RequestsValid(s.requested, s.requests)
  }

  lemma CreatedPlayerKeeps(c: Client, info: PlayerInfo)
    requires ClientValid(c)
    ensures ClientValid(GetOrCreatePlayer(c, info))
    ensures
      var key := KeyOf(info.identifier);
      key in c.players ==> Continues(c.players[key], GetOrCreatePlayer(c, info).players[key])
  {
    var key := KeyOf(info.identifier);
    if key in c.players {
      DisplayNameKeeps(c.players[key], Or(info.displayName, c.players[key].displayName));
    }
  }

  lemma DisplayNameKeeps(p: Player, displayName: Option<string>)
    requires PlayerValid(p)
    ensures PlayerValid(p.(displayName := displayName)) && Continues(p, p.(displayName := displayName))
  {
  }

  lemma CreatedClientKeeps(s: State, bundle: string, displayName: Option<string>)
    requires Valid(s)
    ensures Valid(GetOrCreateClient(s, bundle, displayName))
  {
    hide PlayerValid, RequestsValid;
  }

  lemma RequestKeeps(s: State, c: Change, cached: set<string>)
    requires RequestsValid(s.requested, s.requests)
    ensures
      var s' := RequestArtwork(s, c, cached);
      RequestsValid(s'.requested, s'.requests) && s.requests <= s'.requests
      && s'.clients == s.clients && s'.activeClient == s.activeClient
  {
    var s' := RequestArtwork(s, c, cached);
    if s' != s {
      var id := IdOf(c.current).value;
      assert multiset(s.requested + {id}) == multiset(s.requested) + multiset{id};
    }
  }

  lemma {:induction false} RequestAllKeeps(s: State, changes: seq<Change>, cached: set<string>)
    requires RequestsValid(s.requested, s.requests)
    ensures
      var s' := RequestAll(s, changes, cached);
      RequestsValid(s'.requested, s'.requests) && s.requests <= s'.requests
      && s'.clients == s.clients && s'.activeClient == s.activeClient
    decreases |changes|
  {
    hide RequestsValid, RequestArtwork;
    if changes != [] {
      RequestKeeps(s, changes[0], cached);
      RequestAllKeeps(RequestArtwork(s, changes[0], cached), changes[1..], cached);
    }
  }

  ghost predicate KeepsPlayer(handle: Player -> Player) {
    forall p :: PlayerValid(p) ==> PlayerValid(handle(p)) && Continues(p, handle(p))
  }

  lemma ForPlayerKeeps(s: State, path: Path, cached: set<string>, handle: Player -> Player)
    requires Valid(s) && KeepsPlayer(handle)
    ensures Valid(ForPlayer(s, path, cached, handle)) && PlayersContinue(s, ForPlayer(s, path, cached, handle))
    ensures s.requests <= ForPlayer(s, path, cached, handle).requests
  {
    hide PlayerValid, RequestsValid, Continues, GetOrCreateClient, GetOrCreatePlayer, RequestAll, ClientValid;
    if Bundle(path.client).Some? {
      var bundle := Bundle(path.client).value;
      var s1 := GetOrCreateClient(s, bundle, path.client.value.displayName);
      CreatedClientKeeps(s, bundle, path.client.value.displayName);
      CreatedClientContinues(s, bundle, path.client.value.displayName);
      var c := GetOrCreatePlayer(s1.clients[bundle], Named(path));
      var key := KeyOf(Named(path).identifier);
      CreatedPlayerHas(s1.clients[bundle], Named(path));
      var p := handle(c.players[key]);
      var c' := c.(players := c.players[key := p]);
      HandledKeeps(s1.clients[bundle], Named(path), handle);
      ClientReplaced(s1, bundle, c');
      PlayersContinueTwice(s, s1, bundle, c');
      var s2 := s1.(clients := s1.clients[bundle := c']);
      RequestAllKeeps(s2, if |c.players[key].changes| <= |p.changes| then p.changes[|c.players[key].changes|..]
          else [], cached);
    } else {
      NothingHappens(s);
    }
  }

  lemma HandledKeeps(c: Client, info: PlayerInfo, handle: Player -> Player)
    requires ClientValid(c) && KeepsPlayer(handle)
    ensures
      var c1, key := GetOrCreatePlayer(c, info), KeyOf(info.identifier);
      && key in c1.players
      && var c2 := c1.(players := c1.players[key := handle(c1.players[key])]);
         ClientValid(c2) && ClientContinues(c, c2)
  {
    hide PlayerValid, GetOrCreatePlayer, Continues;
    var c1, key := GetOrCreatePlayer(c, info), KeyOf(info.identifier);
    CreatedPlayerKeeps(c, info);
    CreatedPlayerHas(c, info);
    var p := handle(c1.players[key]);
    HandledPlayer(c1, key, p);
    var c2 := c1.(players := c1.players[key := p]);
    forall k | k in c.players && k in c2.players ensures Continues(c.players[k], c2.players[k]) {
      ContinuesTwice(c.players[k], c1.players[k], c2.players[k]);
    }
  }

  /** Players that are still there are the same ones, further on. */
  ghost predicate PlayersContinue(s: State, s': State) {
    forall b, k | b in s.clients && b in s'.clients && k in s.clients[b].players && k in s'.clients[b].players ::
      Continues(s.clients[b].players[k], s'.clients[b].players[k])
  }

  ghost predicate ClientContinues(c: Client, c': Client) {
    forall k | k in c.players && k in c'.players :: Continues(c.players[k], c'.players[k])
  }

  lemma ContinuesItself(p: Player)
    ensures Continues(p, p)
  {
  }

  lemma ContinuesTwice(p: Player, q: Player, r: Player)
    requires Continues(p, q) && Continues(q, r)
    ensures Continues(p, r)
  {
  }

  lemma CreatedClientContinues(s: State, bundle: string, displayName: Option<string>)
    ensures
      var s' := GetOrCreateClient(s, bundle, displayName);
      && bundle in s'.clients
      && s'.requests == s.requests && s'.requested == s.requested && s'.activeClient == s.activeClient
      && (forall b | b in s.clients :: b in s'.clients && s'.clients[b].players == s.clients[b].players)
  {
  }

  lemma CreatedPlayerHas(c: Client, info: PlayerInfo)
    requires ClientValid(c)
    ensures
      var c' := GetOrCreatePlayer(c, info);
      && KeyOf(info.identifier) in c'.players
      && (forall k | k in c.players :: k in c'.players && Continues(c.players[k], c'.players[k]))
      && c'.activePlayerId == c.activePlayerId
  {
    hide PlayerValid;
  }

  lemma HandledPlayer(c: Client, key: string, p: Player)
    requires ClientValid(c) && key in c.players && PlayerValid(p) && Continues(c.players[key], p)
    ensures ClientValid(c.(players := c.players[key := p]))
    ensures ClientContinues(c, c.(players := c.players[key := p]))
  {
    hide PlayerValid;
  }

  lemma ClientReplaced(s: State, bundle: string, c: Client)
    requires Valid(s) && bundle in s.clients && ClientValid(c)
    ensures Valid(s.(clients := s.clients[bundle := c]))
  {
    hide ClientValid, RequestsValid;
  }

  lemma PlayersContinueTwice(s: State, s1: State, bundle: string, c: Client)
    requires bundle in s1.clients
    requires forall b | b in s.clients :: b in s1.clients && s1.clients[b].players == s.clients[b].players
    requires bundle in s.clients ==>
               forall k | k in s.clients[bundle].players && k in c.players ::
                 Continues(s.clients[bundle].players[k], c.players[k])
    ensures PlayersContinue(s, s1.(clients := s1.clients[bundle := c]))
  {
    var s2 := s1.(clients := s1.clients[bundle := c]);
    forall b, k | b in s.clients && b in s2.clients && k in s.clients[b].players && k in s2.clients[b].players
      ensures Continues(s.clients[b].players[k], s2.clients[b].players[k])
    {
      if b != bundle {
        ContinuesItself(s.clients[b].players[k]);
      }
    }
  }

  ghost predicate KeepsClient(handle: Client -> Client) {
    forall c :: ClientValid(c) ==> ClientValid(handle(c)) && ClientContinues(c, handle(c))
  }

  lemma ForClientKeeps(s: State, path: Path, handle: Client -> Client)
    requires Valid(s) && KeepsClient(handle)
    ensures Valid(ForClient(s, path, handle)) && PlayersContinue(s, ForClient(s, path, handle))
  {
    hide RequestsValid, Continues, GetOrCreateClient, ClientValid;
    if Bundle(path.client).Some? {
      var bundle := Bundle(path.client).value;
      var s1 := GetOrCreateClient(s, bundle, path.client.value.displayName);
      CreatedClientKeeps(s, bundle, path.client.value.displayName);
      CreatedClientContinues(s, bundle, path.client.value.displayName);
      ClientReplaced(s1, bundle, handle(s1.clients[bundle]));
      PlayersContinueTwice(s, s1, bundle, handle(s1.clients[bundle]));
    } else {
      NothingHappens(s);
    }
  }

  lemma NothingHappens(s: State)
    ensures PlayersContinue(s, s)
  {
  }

  lemma ActivateKeeps(c: Client, info: PlayerInfo)
    requires ClientValid(c)
    ensures ClientValid(ActivatePlayer(c, info)) && ClientContinues(c, ActivatePlayer(c, info))
  {
    hide PlayerValid;
    CreatedPlayerKeeps(c, info);
    CreatedPlayerHas(c, info);
  }

  /** A removed player was the active one exactly if its key was recorded, or nothing was and it is the default. */
  lemma DropKeeps(c: Client, id: string)
    requires ClientValid(c) && id != ""
    ensures ClientValid(DropPlayer(c, id)) && ClientContinues(c, DropPlayer(c, id))
  {
    hide PlayerValid;
    if c.activePlayerId == Some(id) {
      assert KeyOf(c.players[id].identifier) == id;
    }
  }

  lemma StepKeeps(s: State, m: Message)
    requires Valid(s)
    ensures Valid(Step(s, m)) && PlayersContinue(s, Step(s, m))
  {
    hide ForPlayer, ForClient, Valid, ClientValid, PlayerValid, Continues, PlayersContinue, ClientContinues;
    match m
    case SetStateMessage(path, state, cached) =>
      forall p | PlayerValid(p)
        ensures PlayerValid(HandleSetState(p, state)) && Continues(p, HandleSetState(p, state))
      {
        SetStateKeeps(p, state);
      }
      ForPlayerKeeps(s, path, cached, (p: Player) => HandleSetState(p, state));
    case UpdateContentItem(path, items, cached) =>
      forall p | PlayerValid(p)
        ensures PlayerValid(HandleContentItemUpdate(p, items)) && Continues(p, HandleContentItemUpdate(p, items))
      {
        ContentUpdateKeeps(p, items);
      }
      ForPlayerKeeps(s, path, cached, (p: Player) => HandleContentItemUpdate(p, items));
    case UpdatePlayer(path) => UpdatePlayerKeeps(s, path);
    case SetNowPlayingPlayer(path) => ActivatePlayerKeeps(s, path);
    case RemovePlayer(path) => RemovePlayerKeeps(s, path);
    case SetDefaultCommands(path, commands) => PlayersUntouchedKeeps(s, path,
        (c: Client) => c.(supportedCommands := commands));
    case ClientProperties(path) => PlayersUntouchedKeeps(s, path, (c: Client) => c);
    case _ => ClientMessageKeeps(s, m);
  }

  lemma ClientContinuesItself(c: Client, c': Client)
    requires c'.players == c.players
    ensures ClientContinues(c, c')
    ensures c'.activePlayerId == c.activePlayerId && ClientValid(c) ==> ClientValid(c')
  {
  }

  lemma PlayersUntouchedKeeps(s: State, path: Path, handle: Client -> Client)
    requires Valid(s)
    requires forall c :: handle(c).players == c.players && handle(c).activePlayerId == c.activePlayerId
    ensures Valid(ForClient(s, path, handle)) && PlayersContinue(s, ForClient(s, path, handle))
  {
    hide ForClient, Valid, ClientValid, PlayersContinue, ClientContinues;
    forall c | ClientValid(c) ensures ClientValid(handle(c)) && ClientContinues(c, handle(c)) {
      ClientContinuesItself(c, handle(c));
    }
    ForClientKeeps(s, path, handle);
  }

  lemma UpdatePlayerKeeps(s: State, path: Path)
    requires Valid(s)
    ensures Valid(Step(s, UpdatePlayer(path))) && PlayersContinue(s, Step(s, UpdatePlayer(path)))
  {
    hide ForClient, Valid, ClientValid, PlayersContinue, GetOrCreatePlayer;
    var handle := (c: Client) => if path.player.Some? then GetOrCreatePlayer(c, path.player.value) else c;
    forall c | ClientValid(c) ensures ClientValid(handle(c)) && ClientContinues(c, handle(c)) {
      ClientContinuesItself(c, c);
      if path.player.Some? {
        CreatedPlayerKeeps(c, path.player.value);
        CreatedPlayerHas(c, path.player.value);
      }
    }
    ForClientKeeps(s, path, handle);
  }

  lemma ActivatePlayerKeeps(s: State, path: Path)
    requires Valid(s)
    ensures Valid(Step(s, SetNowPlayingPlayer(path))) && PlayersContinue(s, Step(s, SetNowPlayingPlayer(path)))
  {
    hide ForClient, Valid, ClientValid, PlayersContinue, ActivatePlayer, ClientContinues;
    var handle := (c: Client) => if path.player.Some? then ActivatePlayer(c, path.player.value) else c;
    forall c | ClientValid(c) ensures ClientValid(handle(c)) && ClientContinues(c, handle(c)) {
      ClientContinuesItself(c, c);
      if path.player.Some? {
        ActivateKeeps(c, path.player.value);
      }
    }
    ForClientKeeps(s, path, handle);
  }

  lemma RemovePlayerKeeps(s: State, path: Path)
    requires Valid(s)
    ensures Valid(Step(s, RemovePlayer(path))) && PlayersContinue(s, Step(s, RemovePlayer(path)))
  {
    hide ForClient, Valid, ClientValid, PlayersContinue, DropPlayer, ClientContinues;
    var handle := (c: Client) =>
      if path.player.Some? && KeyOf(path.player.value.identifier) != ""
          then DropPlayer(c, KeyOf(path.player.value.identifier))
      else c;
    forall c | ClientValid(c) ensures ClientValid(handle(c)) && ClientContinues(c, handle(c)) {
      ClientContinuesItself(c, c);
      if path.player.Some? && KeyOf(path.player.value.identifier) != "" {
        DropKeeps(c, KeyOf(path.player.value.identifier));
      }
    }
    ForClientKeeps(s, path, handle);
  }

  lemma ClientMessageKeeps(s: State, m: Message)
    requires Valid(s)
    requires m.SetNowPlayingClient? || m.UpdateClient? || m.RemoveClient? || m.Cleanup?
    ensures Valid(Step(s, m)) && PlayersContinue(s, Step(s, m))
  {
    hide ClientValid, GetOrCreateClient;
    match m
    case SetNowPlayingClient(client) => CreatedClientPlayers(s, Some(client));
    case UpdateClient(client) => CreatedClientPlayers(s, Some(client));
    case RemoveClient(client) =>
    case Cleanup =>
  }

  lemma CreatedClientPlayers(s: State, client: Option<ClientInfo>)
    requires Valid(s)
    ensures Bundle(client).Some? ==>
              var s' := GetOrCreateClient(s, Bundle(client).value, client.value.displayName);
              Valid(s') && Bundle(client).value in s'.clients && PlayersContinue(s, s')
  {
    hide Valid, GetOrCreateClient;
    if Bundle(client).Some? {
      CreatedClientKeeps(s, Bundle(client).value, client.value.displayName);
      CreatedClientContinues(s, Bundle(client).value, client.value.displayName);
    }
  }

  lemma {:induction false} RunKeepsValid(s: State, messages: seq<Message>)
    requires Valid(s)
    ensures Valid(Run(s, messages))
    decreases |messages|
  {
    hide Step, Valid;
    if messages != [] {
      StepKeeps(s, messages[0]);
      RunKeepsValid(Step(s, messages[0]), messages[1..]);
    }
  }

  /**
   After every sequence of messages: recorded ids are keys, every player's last item is its current
   one, its events are chained, and no artwork has been asked for twice since the last cleanup.
   */
  lemma EveryRun(messages: seq<Message>)
    ensures Valid(Run(INITIAL, messages))
  {
    hide Step, Run;
    NothingYet();
    RunKeepsValid(INITIAL, messages);
  }

  lemma NothingYet()
    ensures Valid(INITIAL)
  {
    assert multiset(INITIAL.requests) == multiset{};
  }

  /** And whatever message comes next, no accepted timestamp of a player goes back, and no event is lost. */
  lemma NextMessageContinues(messages: seq<Message>, next: Message)
    ensures
      var s := Run(INITIAL, messages);
      PlayersContinue(s, Step(s, next))
  {
    hide Step, Run;
    EveryRun(messages);
    StepKeeps(Run(INITIAL, messages), next);
  }

  // ---- The classes ----

  class PlayerState {
    const identifier: Option<string>
    var displayName: Option<string>
    var playbackState: Option<int>
    var playbackStateTimestamp: Option<real>
    var nowPlayingInfo: Option<Value>
    var items: seq<Item>
    var location: int
    var supportedCommands: seq<int>
    var queueCapabilities: Option<Value>
    var lastItem: Option<Item>
    /** The `activeItemChange` events sent. */
    var changes: seq<Change>

    ghost function Now(): Player
      reads this
    {
      Player(identifier, displayName, playbackState, playbackStateTimestamp, nowPlayingInfo, items, location,
             supportedCommands, queueCapabilities, lastItem, changes)
    }

    constructor (p: Player)
      ensures Now() == p
    {
      identifier, displayName := p.identifier, p.displayName;
      playbackState, playbackStateTimestamp, nowPlayingInfo := p.playbackState, p.timestamp, p.nowPlayingInfo;
      items, location, supportedCommands, queueCapabilities := p.items, p.location, p.supportedCommands,
          p.queueCapabilities;
      lastItem, changes := p.lastItem, p.changes;
    }

    method Snapshot() returns (p: Player)
      ensures p == Now()
    {
      p := Player(identifier, displayName, playbackState, playbackStateTimestamp, nowPlayingInfo, items, location,
                  supportedCommands, queueCapabilities, lastItem, changes);
    }

    method Find(id: Option<string>) returns (i: int)
      ensures i == FindIndex(items, id)
    {
      i := 0;
      while i < |items| && items[i].identifier != id
        invariant 0 <= i <= |items|
        invariant FindIndex(items, id) == var r := FindIndex(items[i..], id); if r < 0 then -1 else i + r
      {
        assert items[i..][1..] == items[i + 1..];
        i := i + 1;
      }
      if i == |items| {
        i := -1;
      }
    }

    method EmitChange()
      modifies this`lastItem, this`changes
      ensures Now() == EmitIfItemChanged(old(Now()))
    {
      var current := ItemAt(items, location);
      var currentLocation := Find(IdOf(current));
      if IdOf(current) != IdOf(lastItem) {
        changes := changes + [Change(lastItem, current, currentLocation)];
        lastItem := current;
      }
    }

    method Apply(m: SetState)
      modifies this
      ensures Now() == HandleSetState(old(Now()), m)
    {
      hide EmitIfItemChanged;
      if m.timestamp.Some? && playbackStateTimestamp.Some? && m.timestamp.value < playbackStateTimestamp.value {
        return;
      }
      playbackState := Or(m.playbackState, playbackState);
      playbackStateTimestamp := Or(m.timestamp, playbackStateTimestamp);
      nowPlayingInfo := Or(m.nowPlayingInfo, nowPlayingInfo);
      supportedCommands := if m.supportedCommands.Some? then m.supportedCommands.value else supportedCommands;
      if m.queue.Some? {
        items := m.queue.value.items;
        location := if m.queue.value.location.Some? then m.queue.value.location.value else 0;
      }
      queueCapabilities := Or(m.queueCapabilities, queueCapabilities);
      EmitChange();
    }

    method UpdateOne(updated: Item)
      modifies this
      ensures Now() == UpdateItem(old(Now()), updated)
    {
      hide EmitIfItemChanged;
      if updated.identifier.None? {
        return;
      }
      var i := Find(updated.identifier);
      FindIndexIsFirst(items, updated.identifier);
      if i < 0 {
        return;
      }
      var existing := items[i];
      if updated.metadata.Some? {
        if existing.metadata.Some? {
          existing := existing.(metadata := Some(existing.metadata.value + updated.metadata.value));
        } else {
          existing := existing.(metadata := updated.metadata);
        }
      }
      if updated.artworkData.Some? {
        existing := existing.(artworkData := updated.artworkData);
      }
      if updated.lyrics.Some? {
        existing := existing.(lyrics := updated.lyrics);
      }
      if updated.info.Some? {
        existing := existing.(info := updated.info);
      }
      items := items[i := existing];
      EmitChange();
    }

    method Update(updates: seq<Item>)
      modifies this
      ensures Now() == HandleContentItemUpdate(old(Now()), updates)
    {
      hide UpdateItem;
      assert updates[0..] == updates;
      for i := 0 to |updates|
        invariant HandleContentItemUpdate(old(Now()), updates) == HandleContentItemUpdate(Now(), updates[i..])
      {
        assert updates[i..][1..] == updates[i + 1..];
        UpdateOne(updates[i]);
      }
    }
  }

  /** A player is kept as a value, and is an object while it handles a message. */
  class MRPPlayerState {
    var clients: map<string, Client>
    var activeClientBundleId: Option<string>
    var additionalDataRequested: set<string>
    var requests: seq<string>

    ghost function Now(): State
      reads this
    {
      State(clients, activeClientBundleId, additionalDataRequested, requests)
    }

    constructor ()
      ensures Now() == INITIAL
    {
      clients, activeClientBundleId, additionalDataRequested, requests := map[], None, {}, [];
    }

    method ResolveClient(client: Option<ClientInfo>) returns (bundle: Option<string>)
      modifies this`clients
      ensures bundle == Bundle(client)
      ensures Now() == if bundle.None? then old(Now())
                       else GetOrCreateClient(old(Now()), bundle.value, client.value.displayName)
    {
      bundle := Bundle(client);
      if bundle.Some? {
        var id, displayName := bundle.value, client.value.displayName;
        if id in clients {
          clients := clients[id := clients[id].(displayName := Or(displayName, clients[id].displayName))];
        } else {
          clients := clients[id := Client(displayName, [], map[], None)];
        }
      }
    }

    /** The listener of a player's events. */
    method OnActiveItemChange(c: Change, cached: set<string>)
      modifies this`additionalDataRequested, this`requests
      ensures Now() == RequestArtwork(old(Now()), c, cached)
    {
      if !WantsArtwork(c, cached) {
        return;
      }
      var id := c.current.value.identifier.value;
      if id in additionalDataRequested {
        return;
      }
      additionalDataRequested := additionalDataRequested + {id};
      requests := requests + [id];
    }

    method OnChanges(changes: seq<Change>, cached: set<string>)
      modifies this`additionalDataRequested, this`requests
      ensures Now() == RequestAll(old(Now()), changes, cached)
    {
      hide RequestArtwork;
      assert changes[0..] == changes;
      for i := 0 to |changes|
        invariant RequestAll(old(Now()), changes, cached) == RequestAll(Now(), changes[i..], cached)
      {
        assert changes[i..][1..] == changes[i + 1..];
        OnActiveItemChange(changes[i], cached);
      }
    }

    /** The player that a message is for, if it names a client. */
    method ResolvePlayer(path: Path) returns (r: Option<Player>)
      modifies this`clients
      ensures r.Some? <==> Bundle(path.client).Some?
      ensures Now() == if r.None? then old(Now()) else Resolved(old(Now()), path)
      ensures r.Some? ==> r.value == PlayerAt(Now(), path)
    {
      hide GetOrCreateClient, GetOrCreatePlayer;
      var bundle := ResolveClient(path.client);
      if bundle.None? {
        return None;
      }
      CreatedClientContinues(old(Now()), bundle.value, path.client.value.displayName);
      PlayerIsThere(clients[bundle.value], Named(path));
      var c := GetOrCreatePlayer(clients[bundle.value], Named(path));
      clients := clients[bundle.value := c];
      r := Some(c.players[KeyOf(Named(path).identifier)]);
    }

    /** What has become of the player, and what it has sent. */
    method Store(path: Path, before: Player, after: Player, cached: set<string>)
      requires Bundle(path.client).Some? && IsResolved(Now(), path)
      modifies this
      ensures Now() == Handled(old(Now()), path, before, after, cached)
    {
      hide RequestAll;
      var bundle, key := Bundle(path.client).value, KeyOf(Named(path).identifier);
      clients := clients[bundle := clients[bundle].(players := clients[bundle].players[key := after])];
      OnChanges(if |before.changes| <= |after.changes| then after.changes[|before.changes|..] else [], cached);
    }

    method OnSetState(path: Path, state: SetState, cached: set<string>)
      modifies this
      ensures Now() == ForPlayer(old(Now()), path, cached, (p: Player) => HandleSetState(p, state))
    {
      hide ForPlayer, Resolved, Handled, HandleSetState;
      var before := ResolvePlayer(path);
      if before.None? {
        NoPlayerMeant(old(Now()), path, cached, (p: Player) => HandleSetState(p, state));
        return;
      }
      ForPlayerIs(old(Now()), path, cached, (p: Player) => HandleSetState(p, state));
      var player := new PlayerState(before.value);
      player.Apply(state);
      var after := player.Snapshot();
      Store(path, before.value, after, cached);
    }

    method OnUpdateContentItem(path: Path, items: seq<Item>, cached: set<string>)
      modifies this
      ensures Now() == ForPlayer(old(Now()), path, cached, (p: Player) => HandleContentItemUpdate(p, items))
    {
      hide ForPlayer, Resolved, Handled, HandleContentItemUpdate;
      var before := ResolvePlayer(path);
      if before.None? {
        NoPlayerMeant(old(Now()), path, cached, (p: Player) => HandleContentItemUpdate(p, items));
        return;
      }
      ForPlayerIs(old(Now()), path, cached, (p: Player) => HandleContentItemUpdate(p, items));
      var player := new PlayerState(before.value);
      player.Update(items);
      var after := player.Snapshot();
      Store(path, before.value, after, cached);
    }

    method OnClientMessage(path: Path, handle: Client -> Client)
      modifies this
      ensures Now() == ForClient(old(Now()), path, handle)
    {
      hide GetOrCreateClient;
      var bundle := ResolveClient(path.client);
      if bundle.Some? {
        CreatedClientContinues(old(Now()), bundle.value, path.client.value.displayName);
        clients := clients[bundle.value := handle(clients[bundle.value])];
      }
    }

    /** Every message is a step of the runs above. */
    method Handle(m: Message)
      modifies this
      ensures Now() == Step(old(Now()), m)
    {
      hide ForPlayer, ForClient;
      match m
      case SetStateMessage(path, state, cached) => OnSetState(path, state, cached);
      case UpdateContentItem(path, items, cached) => OnUpdateContentItem(path, items, cached);
      case UpdatePlayer(path) =>
        OnClientMessage(path, (c: Client) => if path.player.Some? then GetOrCreatePlayer(c, path.player.value) else c);
      case SetNowPlayingPlayer(path) =>
        OnClientMessage(path, (c: Client) => if path.player.Some? then ActivatePlayer(c, path.player.value) else c);
      case RemovePlayer(path) =>
        OnClientMessage(path, (c: Client) =>
          if path.player.Some? && KeyOf(path.player.value.identifier) != ""
              then DropPlayer(c, KeyOf(path.player.value.identifier))
          else c);
      case SetDefaultCommands(path, commands) => OnClientMessage(path,
          (c: Client) => c.(supportedCommands := commands));
      case ClientProperties(path) => OnClientMessage(path, (c: Client) => c);
      case SetNowPlayingClient(client) => SetActiveClient(client);
      case UpdateClient(client) => var _ := ResolveClient(Some(client));
      case RemoveClient(client) => RemoveOne(client);
      case Cleanup => CleanUp();
    }

    method CleanUp()
      modifies this
      ensures Now() == Step(old(Now()), Cleanup)
    {
      additionalDataRequested, requests := {}, [];
      clients := map[];
      activeClientBundleId := None;
    }

    method SetActiveClient(client: ClientInfo)
      modifies this
      ensures Now() == Step(old(Now()), SetNowPlayingClient(client))
    {
      var bundle := ResolveClient(Some(client));
      if bundle.Some? {
        activeClientBundleId := bundle;
      }
    }

    method RemoveOne(client: ClientInfo)
      modifies this
      ensures Now() == Step(old(Now()), RemoveClient(client))
    {
      var bundle := Bundle(Some(client));
      if bundle.Some? {
        clients := clients - {bundle.value};
        if activeClientBundleId == bundle {
          activeClientBundleId := None;
        }
      }
    }
  }

  lemma PlayerIsThere(c: Client, info: PlayerInfo)
    ensures KeyOf(info.identifier) in GetOrCreatePlayer(c, info).players
  {
  }
}
