/**
  One account as one Connect instance sees it: the devices connected here, the devices heard of from other
  instances, the remembered "anyone playing", and the frames sent to the account's sockets.
  The hub's handlers act on one account at a time; these functions say what each does to it.
 */
module ConnectAccount {
  import opened Basics
  import opened TextOrder

  type DeviceId = Text
  type Did = string
  type Sock = int
  type InstanceId = int

  /** Remote devices unheard of for this long are dropped: three heartbeats. */
  const HEARTBEAT_MS := 30_000
  const REMOTE_TTL_MS := HEARTBEAT_MS * 3

  datatype Station = Station(id: string, name: string, url: string, favicon: Option<string>)
  datatype Platform = Web | Cli | Other

  datatype PlaybackState = PlaybackState(
    playing: bool, station: Option<Station>, title: Option<string>, volume: real, muted: bool)

  datatype Device = Device(name: string, platform: Platform, state: PlaybackState, connectedAt: int)

  datatype Command =
    PlayPause | Play | Pause | Stop | SetVolume(value: real) | ToggleMute | PlayStation(station: Station)

  datatype ServerMsg =
    | Welcome(did: Did, id: DeviceId)
    | Devices(roster: map<DeviceId, Device>)
    | Commanded(from: DeviceId, cmd: Command)
    | Presence(anyPlaying: bool, cleanup: bool)

  /** A frame handed to the socket of the device `to`. */
  datatype Frame = Frame(to: DeviceId, sock: Sock, msg: ServerMsg)

  datatype RelayMsg =
    | JoinMsg(instance: InstanceId, did: Did, deviceId: DeviceId, device: Device)
    | UpdateMsg(instance: InstanceId, did: Did, deviceId: DeviceId, device: Device)
    | LeaveMsg(instance: InstanceId, did: Did, deviceId: DeviceId)
    | CommandMsg(instance: InstanceId, did: Did, target: DeviceId, from: DeviceId, cmd: Command)

  datatype Conn = Conn(sock: Sock, device: Device)
  datatype RemoteDevice = RemoteDevice(device: Device, origin: InstanceId, lastSeen: int)

  datatype Account = Account(
    local: map<DeviceId, Conn>,
    remote: map<DeviceId, RemoteDevice>,
    last: bool,
    sent: multiset<Frame>)

  /** Merged roster; a local connection wins over a stale remote copy. */
  function Roster(a: Account): (r: map<DeviceId, Device>)
    ensures r.Keys == a.remote.Keys + a.local.Keys
  {
    map id | id in a.remote.Keys + a.local.Keys ::
      if id in a.local then a.local[id].device else a.remote[id].device
  }

  predicate Playing(roster: map<DeviceId, Device>) {
    exists id :: id in roster && roster[id].state.playing
  }

  predicate AnyPlaying(a: Account) {
    Playing(Roster(a))
  }

  // ---- outgoing frames -------------------------------------------------------------------------

  /** One message to every device connected here. */
  function FramesTo(local: map<DeviceId, Conn>, msg: ServerMsg): set<Frame> {
    set id | id in local :: Frame(id, local[id].sock, msg)
  }

  function RosterFrames(a: Account): set<Frame> {
    FramesTo(a.local, Devices(Roster(a)))
  }

  function PresenceFrames(a: Account, playing: bool): set<Frame> {
    FramesTo(a.local, Presence(playing, false))
  }

  /** Whom this instance asks to clean up: the roster's lowest, if the account just fell silent and it is here. */
  ghost function CleanupTargets(a: Account): set<DeviceId> {
    set id | id in a.local && a.last && !AnyPlaying(a) && IsLowest(id, Roster(a).Keys)
  }

  ghost function CleanupFrames(a: Account): set<Frame> {
    set id | id in CleanupTargets(a) :: Frame(id, a.local[id].sock, Presence(false, true))
  }

  // ---- what the handlers do --------------------------------------------------------------------

  /** One frame to a device connected here. */
  function Sent(a: Account, to: DeviceId, msg: ServerMsg): (b: Account)
    requires to in a.local
    ensures b.local == a.local && b.remote == a.remote && b.last == a.last
  {
    a.(sent := a.sent + multiset{Frame(to, a.local[to].sock, msg)})
  }

  function Broadcast(a: Account): (b: Account)
    ensures b.local == a.local && b.remote == a.remote && b.last == a.last
  {
    a.(sent := a.sent + multiset(RosterFrames(a)))
  }

  ghost function Reconcile(a: Account): Account {
    var now := AnyPlaying(a);
    a.(last := now, sent := a.sent + multiset(CleanupFrames(a)) + multiset(PresenceFrames(a, now)))
  }

  /** Every change of membership or state ends with these two. */
  ghost function Refresh(a: Account): Account {
    Reconcile(Broadcast(a))
  }

  /** A registered device reports a new state. */
  function WithState(a: Account, id: DeviceId, state: PlaybackState): Account
    requires id in a.local
  {
    var conn := a.local[id];
    a.(local := a.local[id := conn.(device := conn.device.(state := state))])
  }

  function WithoutLocal(a: Account, id: DeviceId): Account {
    a.(local := a.local - {id})
  }

  function WithRemote(a: Account, id: DeviceId, r: RemoteDevice): Account {
    a.(remote := a.remote[id := r])
  }

  ghost function HearDevice(a: Account, id: DeviceId, r: RemoteDevice): Account {
    Refresh(WithRemote(a, id, r))
  }

  ghost function HearLeave(a: Account, id: DeviceId): Account {
    if id in a.remote then Refresh(a.(remote := a.remote - {id})) else a
  }

  function Fresh(remote: map<DeviceId, RemoteDevice>, cutoff: int): map<DeviceId, RemoteDevice> {
    map id | id in remote && remote[id].lastSeen >= cutoff :: remote[id]
  }

  ghost function Prune(a: Account, now: int): Account {
    var kept := Fresh(a.remote, now - REMOTE_TTL_MS);
    if kept == a.remote then a else Refresh(a.(remote := kept))
  }

  function DeliverCommand(a: Account, target: DeviceId, from: DeviceId, cmd: Command): Account {
    if target in a.local
    then Sent(a, target, Commanded(from, cmd))
    else a
  }

  /** A relayed message reaches instance `self`; its own echoes are ignored. */
  ghost function Hear(a: Account, self: InstanceId, msg: RelayMsg, now: int): Account {
    if msg.instance == self then a
    else match msg
      case CommandMsg(_, _, target, from, cmd) => DeliverCommand(a, target, from, cmd)
      case LeaveMsg(_, _, id) => HearLeave(a, id)
      case JoinMsg(origin, _, id, device) => HearDevice(a, id, RemoteDevice(device, origin, now))
      case UpdateMsg(origin, _, id, device) => HearDevice(a, id, RemoteDevice(device, origin, now))
  }

  /** A device that just said hello: it replaces any local connection of the same id. */
  function Hello(a: Account, did: Did, id: DeviceId, conn: Conn): Account {
    Greet(a.(local := a.local[id := conn]), did, id)
  }

  /** The greeting sets the remembered flag directly; a lone silent device is asked to clean up after a crash. */
  function Greet(b: Account, did: Did, id: DeviceId): Account
    requires id in b.local
  {
    var playing := AnyPlaying(b);
    var c := Broadcast(Sent(b, id, Welcome(did, id)));
    var d := Sent(c.(last := playing), id, Presence(playing, false));
    if |Roster(b)| == 1 && !b.local[id].device.state.playing && !playing
    then Sent(d, id, Presence(false, true))
    else d
  }

  // ---- the presence ledger ---------------------------------------------------------------------

  /** The remembered flag agrees with the merged roster. */
  predicate Settled(a: Account) {
    a.last == AnyPlaying(a)
  }

  predicate IsCleanup(f: Frame) {
    f.msg == Presence(false, true)
  }

  /** Refreshing settles the account and adds exactly the roster, cleanup and presence frames. */
  lemma RefreshSettles(a: Account)
    ensures Settled(Refresh(a)) && Roster(Refresh(a)) == Roster(a)
    ensures Refresh(a).local == a.local && Refresh(a).remote == a.remote
  {
  }

  lemma GreetSettles(b: Account, did: Did, id: DeviceId)
    requires id in b.local
    ensures Settled(Greet(b, did, id))
    ensures Greet(b, did, id).local == b.local && Greet(b, did, id).remote == b.remote
  {
    hide Roster, Broadcast, Sent;
    SameRoster(b, Greet(b, did, id));
  }

  /** The greeting asks for a cleanup exactly when the newcomer is alone and silent, and asks the newcomer. */
  lemma GreetCleanups(b: Account, did: Did, id: DeviceId, f: Frame)
    requires id in b.local && IsCleanup(f)
    ensures
      var alone := |Roster(b)| == 1 && !b.local[id].device.state.playing && !AnyPlaying(b);
      Greet(b, did, id).sent[f] == b.sent[f] + if alone && f == Frame(id, b.local[id].sock, f.msg) then 1 else 0
  {
    hide Roster;
    assert forall d :: f !in FramesTo(b.local, Devices(d));
  }

  lemma SameRoster(b: Account, c: Account)
    requires b.local == c.local && b.remote == c.remote
    ensures Roster(b) == Roster(c) && AnyPlaying(b) == AnyPlaying(c)
  {
  }

  /**
    A step that turns the settled account `a` into `changed` and refreshes it asks for a cleanup exactly when
    the account went from playing to silent and the lowest id of the merged roster is connected here. It asks
    that device, once, and nobody else.
   */
  lemma CleanupExactly(a: Account, changed: Account, f: Frame)
    requires Settled(a) && changed.last == a.last && changed.sent == a.sent && IsCleanup(f)
    ensures
      var falls := AnyPlaying(a) && !AnyPlaying(changed);
      var owner := f.to in changed.local && IsLowest(f.to, Roster(changed).Keys) && f.sock == changed.local[f.to].sock;
      Refresh(changed).sent[f] == a.sent[f] + if falls && owner then 1 else 0
  {
    var b := Broadcast(changed);
    assert Roster(b) == Roster(changed);
    assert f !in RosterFrames(changed) && f !in PresenceFrames(b, AnyPlaying(b));
    assert f in CleanupFrames(b) <==>
      a.last && !AnyPlaying(changed) && f.to in changed.local && IsLowest(f.to, Roster(changed).Keys)
      && f.sock == changed.local[f.to].sock;
  }

  /** At most one device here is ever asked to clean up by a step. */
  lemma CleanupTargetIsUnique(a: Account, x: DeviceId, y: DeviceId)
    requires x in CleanupTargets(a) && y in CleanupTargets(a)
    ensures x == y
  {
    LowestIsUnique(x, y, Roster(a).Keys);
  }
}
