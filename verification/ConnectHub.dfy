/** One instance of the Connect hub: its registries, and the handlers that update them in place. */
module ConnectHub {
  import opened Basics
  import opened TextOrder
  import opened ConnectAccount
  import opened ConnectRegistry
  import opened ConnectTelling

  class Hub {
    const instance: InstanceId
    const redis: bool
    var conns: map<Sock, LocalConn>
    var local: map<Did, map<DeviceId, Sock>>
    var remote: map<Did, map<DeviceId, RemoteDevice>>
    var remoteSlots: seq<Option<Did>>
    var lastAnyPlaying: map<Did, bool>
    var sent: map<Did, multiset<Frame>>
    var published: multiset<RelayMsg>
    var replaced: set<Sock>

    /** The account as this instance holds it. */
    ghost function View(did: Did): Account
      reads this`conns, this`local, this`remote, this`remoteSlots, this`lastAnyPlaying, this`sent
      requires Structured()
    {
      Account(
        LocalView(conns, local, did),
        Get(remote, did, map[]),
        Get(lastAnyPlaying, did, false),
        Get(sent, did, multiset{}))
    }

    ghost predicate Structured()
      reads this`conns, this`local, this`remote, this`remoteSlots
    {
      Linked(conns, local) && SlotsOf(remoteSlots, remote.Keys)
    }

    /** The presence ledger: for every account the remembered flag agrees with the merged roster. */
    ghost predicate Valid()
      reads this`conns, this`local, this`remote, this`remoteSlots, this`lastAnyPlaying, this`sent
    {
      Structured() && forall did :: Settled(View(did))
    }

    predicate Registered(sock: Sock)
      reads this`conns, this`local
      requires sock in conns
    {
      InRegistry(conns, local, sock)
    }

    constructor (instance: InstanceId, redis: bool)
      ensures Valid() && this.instance == instance && this.redis == redis
      ensures forall did :: View(did) == Account(map[], map[], false, multiset{})
      ensures conns == map[] && published == multiset{}
    {
      this.instance, this.redis := instance, redis;
      conns, local, remote, remoteSlots := map[], map[], map[], [];
      lastAnyPlaying, sent, published, replaced := map[], map[], multiset{}, {};
    }

    /** A registered socket is its device's connection in the account's view. */
    lemma RegisteredView(sock: Sock)
      requires Structured() && sock in conns && Registered(sock)
      ensures
        var c := conns[sock];
        c.deviceId in View(c.did).local && View(c.did).local[c.deviceId] == Conn(sock, c.device)
    {
    }

    lemma LocalKeys(did: Did)
      requires Structured()
      ensures View(did).local.Keys == Get(local, did, map[]).Keys
    {
    }

    // ---- registry look-ups ---------------------------------------------------------------------

    method LocalMap(did: Did)
      requires Structured()
      modifies this`local
      ensures Structured() && local == Touched(old(local), did)
      ensures forall d :: View(d) == old(View(d))
    {
      hide SlotsOf;
      if did !in local {
        local := local[did := map[]];
      }
    }

    method RemoteMap(did: Did)
      requires Structured()
      modifies this`remote, this`remoteSlots
      ensures Structured() && remote == Touched(old(remote), did)
      ensures remoteSlots == TouchedSlots(old(remoteSlots), did in old(remote), did)
      ensures forall d :: View(d) == old(View(d))
    {
      hide Linked, LocalView, SlotsOf;
      if did !in remote {
        SlotsGrow(remoteSlots, remote.Keys, did);
        remote := remote[did := map[]];
        remoteSlots := remoteSlots + [Some(did)];
        assert remote.Keys == old(remote.Keys) + {did};
      }
    }

    /** `localMap(did)`, as a value. */
    method LocalConns(did: Did) returns (here: map<DeviceId, Conn>)
      requires Structured()
      modifies this`local
      ensures Structured() && here == View(did).local
      ensures forall d :: View(d) == old(View(d))
    {
      LocalMap(did);
      here := map id | id in local[did] :: Conn(local[did][id], conns[local[did][id]].device);
    }

    method RosterOf(did: Did) returns (byId: map<DeviceId, Device>)
      requires Structured()
      modifies this`local, this`remote, this`remoteSlots
      ensures Structured() && byId == Roster(View(did))
      ensures remote == Touched(old(remote), did)
      ensures remoteSlots == TouchedSlots(old(remoteSlots), did in old(remote), did)
      ensures forall d :: View(d) == old(View(d))
    {
      RemoteMap(did);
      var there := remote[did];
      assert there == View(did).remote;
      hide View, Structured, Roster;
      var here := LocalConns(did);
      byId := Merge(there, here);
      RosterIs(View(did), byId);
    }

    method AnyPlayingNow(did: Did) returns (playing: bool)
      requires Structured()
      modifies this`local, this`remote, this`remoteSlots
      ensures Structured() && playing == AnyPlaying(View(did))
      ensures remote == Touched(old(remote), did)
      ensures remoteSlots == TouchedSlots(old(remoteSlots), did in old(remote), did)
      ensures forall d :: View(d) == old(View(d))
    {
      var all := RosterOf(did);
      playing := Playing(all);
    }

    // ---- single updates, as the account sees them ----------------------------------------------

    method SetLast(did: Did, playing: bool)
      requires Structured()
      modifies this`lastAnyPlaying
      ensures Structured() && View(did) == old(View(did)).(last := playing)
      ensures forall d :: d != did ==> View(d) == old(View(d))
    {
      hide Linked, LocalView, SlotsOf;
      lastAnyPlaying := lastAnyPlaying[did := playing];
    }

    method RememberedPlaying(did: Did) returns (playing: bool)
      requires Structured()
      ensures playing == View(did).last
    {
      playing := Get(lastAnyPlaying, did, false);
    }

    method SetState(sock: Sock, state: PlaybackState)
      requires Structured() && sock in conns
      modifies this`conns
      ensures Structured()
      ensures conns == old(conns)[sock := old(conns[sock]).(device := old(conns[sock].device).(state := state))]
      ensures
        var c := old(conns[sock]);
        var a := old(View(c.did));
        View(c.did) == if old(Registered(sock)) && c.deviceId in a.local then WithState(a, c.deviceId, state) else a
      ensures forall d :: d != old(conns[sock].did) ==> View(d) == old(View(d))
    {
      hide Linked, LocalView, SlotsOf;
      LocalViewAfterState(conns, local, sock, state);
      conns := conns[sock := conns[sock].(device := conns[sock].device.(state := state))];
    }

    method PutLocal(did: Did, id: DeviceId, sock: Sock, device: Device)
      requires Structured() && sock !in conns
      modifies this`conns, this`local, this`replaced
      ensures Structured() && conns == old(conns)[sock := LocalConn(did, id, device)] && Registered(sock)
      ensures View(did) == old(View(did)).(local := old(View(did)).local[id := Conn(sock, device)])
      ensures forall d :: d != did ==> View(d) == old(View(d))
      ensures replaced == old(replaced) + if id in old(View(did)).local then {old(View(did)).local[id].sock} else {}
    {
      hide Linked, LocalView, SlotsOf;
      LocalViewAfterPut(conns, local, did, id, sock, device);
      conns := conns[sock := LocalConn(did, id, device)];
      if did in local && id in local[did] {
        replaced := replaced + {local[did][id]};
      }
      local := local[did := Get(local, did, map[])[id := sock]];
    }

    method DropLocal(sock: Sock)
      requires Structured() && sock in conns && Registered(sock)
      modifies this`local
      ensures Structured()
      ensures var c := conns[sock]; View(c.did) == WithoutLocal(old(View(c.did)), c.deviceId)
      ensures forall d :: d != conns[sock].did ==> View(d) == old(View(d))
    {
      hide Linked, LocalView, SlotsOf;
      var c := conns[sock];
      LocalViewAfterDrop(conns, local, c.did, c.deviceId);
      var m := local[c.did] - {c.deviceId};
      local := if |m| == 0 then local - {c.did} else local[c.did := m];
    }

    method PutRemote(did: Did, id: DeviceId, r: RemoteDevice)
      requires Structured()
      modifies this`remote, this`remoteSlots
      ensures Structured() && View(did) == WithRemote(old(View(did)), id, r)
      ensures forall d :: d != did ==> View(d) == old(View(d))
    {
      hide Linked, LocalView, SlotsOf;
      RemoteMap(did);
      remote := remote[did := remote[did][id := r]];
      assert remote.Keys == Touched(old(remote), did).Keys;
    }

    /** Deletes a remote device; says whether there was one. */
    method DropRemote(did: Did, id: DeviceId) returns (found: bool)
      requires Structured()
      modifies this`remote
      ensures Structured() && found == (id in old(View(did)).remote)
      ensures
        var a := old(View(did));
        View(did) == if found then a.(remote := a.remote - {id}) else a
      ensures forall d :: d != did ==> View(d) == old(View(d))
    {
      hide Linked, LocalView, SlotsOf;
      found := did in remote && id in remote[did];
      if found {
        remote := remote[did := remote[did] - {id}];
        assert remote.Keys == old(remote.Keys);
      }
    }

    // ---- sending -------------------------------------------------------------------------------

    method Send(did: Did, to: DeviceId, sock: Sock, msg: ServerMsg)
      requires Structured()
      modifies this`sent
      ensures Structured()
      ensures View(did) == old(View(did)).(sent := old(View(did)).sent + multiset{Frame(to, sock, msg)})
      ensures forall d :: d != did ==> View(d) == old(View(d))
    {
      hide Linked, LocalView, SlotsOf;
      sent := sent[did := Get(sent, did, multiset{}) + multiset{Frame(to, sock, msg)}];
    }

    method SendTo(did: Did, to: DeviceId, msg: ServerMsg)
      requires Structured() && to in View(did).local
      modifies this`sent
      ensures Structured()
      ensures View(did) == Sent(old(View(did)), to, msg)
      ensures forall d :: d != did ==> View(d) == old(View(d))
    {
      Send(did, to, local[did][to], msg);
    }

    /** Sends one message to every device connected here. */
    method SendToAll(did: Did, msg: ServerMsg)
      requires Structured()
      modifies this`local, this`sent
      ensures Structured()
      ensures
        var a := old(View(did));
        View(did) == a.(sent := a.sent + multiset(FramesTo(a.local, msg)))
      ensures forall d :: d != did ==> View(d) == old(View(d))
    {
      hide View, Structured, FramesTo;
      ghost var a := View(did);
      var here := LocalConns(did);
      var todo := here.Keys;
      FramesToNone(here - todo, msg);
      while todo != {}
        invariant Structured() && todo <= here.Keys
        invariant View(did) == a.(sent := a.sent + multiset(FramesTo(here - todo, msg)))
        invariant forall d :: d != did ==> View(d) == old(View(d))
        decreases todo
      {
        var id :| id in todo;
        FramesToOneMore(here, todo, id, msg);
        SendTo(did, id, msg);
        todo := todo - {id};
      }
      assert here - todo == here;
    }

    method BroadcastRoster(did: Did)
      requires Structured()
      modifies this`local, this`remote, this`remoteSlots, this`sent
      ensures Structured() && View(did) == Broadcast(old(View(did)))
      ensures RostersTold(old(View(did)).sent, View(did))
      ensures forall d :: d != did ==> View(d) == old(View(d))
      ensures remote == Touched(old(remote), did)
      ensures remoteSlots == TouchedSlots(old(remoteSlots), did in old(remote), did)
    {
      hide View, Structured, Roster, RostersTold;
      BroadcastTells(View(did));
      var all := RosterOf(did);
      SendToAll(did, Devices(all));
    }

    /** The device with the lowest id, if it is connected here. */
    method CleanupOwner(did: Did) returns (owner: Option<DeviceId>)
      requires Structured()
      modifies this`local, this`remote, this`remoteSlots
      ensures Structured() && IsOwner(owner, View(did))
      ensures remote == Touched(old(remote), did)
      ensures remoteSlots == TouchedSlots(old(remoteSlots), did in old(remote), did)
      ensures forall d :: View(d) == old(View(d))
    {
      hide View, Structured, Roster, IsLowest, IsOwner, Touched, TouchedSlots;
      var all := RosterOf(did);
      if |all| == 0 {
        NobodyOwns(View(did));
        return None;
      }
      var best := LowestOf(all.Keys);
      LowestIsOwner(View(did), best);
      var here := LocalConns(did);
      return if best in here then Some(best) else None;
    }

    /** The cleanup frame of an account that played in view `a` and no longer does. */
    method AskOwner(did: Did, ghost a: Account)
      requires Structured() && View(did) == a.(last := false) && a.last && !AnyPlaying(a)
      modifies this`local, this`remote, this`remoteSlots, this`sent
      ensures Structured() && View(did) == old(View(did)).(sent := a.sent + multiset(CleanupFrames(a)))
      ensures forall d :: d != did ==> View(d) == old(View(d))
      ensures remote == Touched(old(remote), did)
      ensures remoteSlots == TouchedSlots(old(remoteSlots), did in old(remote), did)
    {
      hide View, Structured, AnyPlaying, Roster, CleanupFrames, IsLowest, Touched, TouchedSlots;
      SameRoster(a, View(did));
      var owner := CleanupOwner(did);
      if owner.Some? {
        SendTo(did, owner.value, Presence(false, true));
      }
      CleanupFramesAre(a, owner);
    }

    method ReconcilePresence(did: Did)
      requires Structured()
      modifies this`local, this`remote, this`remoteSlots, this`sent, this`lastAnyPlaying
      ensures Structured() && View(did) == Reconcile(old(View(did)))
      ensures SummariesTold(old(View(did)).sent, View(did))
      ensures forall d :: d != did ==> View(d) == old(View(d))
      ensures remote == Touched(old(remote), did)
      ensures remoteSlots == TouchedSlots(old(remoteSlots), did in old(remote), did)
    {
      hide View, Structured, AnyPlaying, Roster, CleanupFrames, FramesTo, IsLowest;
      ghost var a := View(did);
      ReconcileTells(a);
      hide SummariesTold;
      var now := AnyPlayingNow(did);
      var before := RememberedPlaying(did);
      SetLast(did, now);
      if before && !now {
        AskOwner(did, a);
      } else {
        NoCleanupFrames(a);
      }
      assert View(did) == a.(last := now, sent := a.sent + multiset(CleanupFrames(a)));
      SendToAll(did, Presence(now, false));
    }

    method Publish(msg: RelayMsg)
      modifies this`published
      ensures published == old(published) + if redis then multiset{msg} else multiset{}
    {
      if redis {
        published := published + multiset{msg};
      }
    }

    // ---- client messages -----------------------------------------------------------------------

    /** A state report. A socket replaced in the registry still publishes, but changes no local roster entry. */
    method HandleState(sock: Sock, state: PlaybackState)
      requires Valid() && sock in conns
      modifies this`conns, this`local, this`remote, this`remoteSlots, this`sent, this`lastAnyPlaying, this`published
      ensures Structured() && Valid()
      ensures
        var c := old(conns[sock]);
        var a := old(View(c.did));
        View(c.did) == Refresh(
          if old(Registered(sock)) && c.deviceId in a.local then WithState(a, c.deviceId, state) else a)
      ensures forall d :: d != old(conns[sock].did) ==> View(d) == old(View(d))
      ensures conns == old(conns)[sock := old(conns[sock]).(device := old(conns[sock].device).(state := state))]
      ensures
        var c := old(conns[sock]);
        published == old(published) +
          if redis then multiset{UpdateMsg(instance, c.did, c.deviceId, c.device.(state := state))} else multiset{}
      ensures Told(old(View(conns[sock].did)).sent, View(old(conns[sock].did)))
    {
      hide View, Structured, AnyPlaying, Broadcast, Reconcile, Told;
      SetState(sock, state);
      var c := conns[sock];
      Publish(UpdateMsg(instance, c.did, c.deviceId, c.device));
      ghost var a := View(c.did);
      BroadcastRoster(c.did);
      ReconcilePresence(c.did);
      RefreshSettles(a);
      RefreshTells(a);
    }

    method DeliverCommandTo(did: Did, target: DeviceId, from: DeviceId, cmd: Command) returns (landed: bool)
      requires Structured()
      modifies this`local, this`sent
      ensures Structured() && landed == (target in old(View(did)).local)
      ensures View(did) == DeliverCommand(old(View(did)), target, from, cmd)
      ensures forall d :: d != did ==> View(d) == old(View(d))
    {
      hide View, Structured;
      var here := LocalConns(did);
      if target !in here {
        return false;
      }
      SendTo(did, target, Commanded(from, cmd));
      return true;
    }

    method HandleCommand(sock: Sock, target: DeviceId, cmd: Command)
      requires Valid() && sock in conns
      modifies this`local, this`sent, this`published
      ensures Structured() && Valid()
      ensures
        var c := conns[sock];
        var a := old(View(c.did));
        var relayed := CommandMsg(instance, c.did, target, c.deviceId, cmd);
        && View(c.did) == (if target == c.deviceId then a else DeliverCommand(a, target, c.deviceId, cmd))
        && published == old(published) +
             if redis && target != c.deviceId && target !in a.local then multiset{relayed} else multiset{}
      ensures forall d :: d != conns[sock].did ==> View(d) == old(View(d))
    {
      hide View, Structured;
      var c := conns[sock];
      DeliverKeepsRoster(View(c.did), target, c.deviceId, cmd);
      if target == c.deviceId {
        return;
      }
      var landed := DeliverCommandTo(c.did, target, c.deviceId, cmd);
      if landed {
        return;
      }
      Publish(CommandMsg(instance, c.did, target, c.deviceId, cmd));
    }

    /** The socket closed. Closing a replaced socket changes nothing. */
    method RemoveConn(sock: Sock)
      requires Valid() && sock in conns
      modifies this`local, this`remote, this`remoteSlots, this`sent, this`lastAnyPlaying, this`published
      ensures Structured() && Valid()
      ensures
        var c := conns[sock];
        var a := old(View(c.did));
        var left := LeaveMsg(instance, c.did, c.deviceId);
        && View(c.did) == (if old(Registered(sock)) then Refresh(WithoutLocal(a, c.deviceId)) else a)
        && published == old(published) + if redis && old(Registered(sock)) then multiset{left} else multiset{}
      ensures old(Registered(sock)) ==> Told(old(View(conns[sock].did)).sent, View(conns[sock].did))
      ensures forall d :: d != conns[sock].did ==> View(d) == old(View(d))
    {
      hide View, Structured, AnyPlaying, Broadcast, Reconcile, Told;
      var c := conns[sock];
      if c.did !in local || c.deviceId !in local[c.did] || local[c.did][c.deviceId] != sock {
        return;
      }
      DropLocal(sock);
      Publish(LeaveMsg(instance, c.did, c.deviceId));
      ghost var a := View(c.did);
      BroadcastRoster(c.did);
      ReconcilePresence(c.did);
      RefreshSettles(a);
      RefreshTells(a);
    }

    /** A hello whose token was verified as `did`, on a socket that has not said hello before. */
    method OnHello(sock: Sock, did: Did, id: DeviceId, name: string, platform: Platform, state: PlaybackState, now: int)
      requires Valid() && sock !in conns
      modifies this
      ensures Structured() && Valid()
      ensures
        var device := Device(if name == "" then "Unknown device" else name, platform, state, now);
        && conns == old(conns)[sock := LocalConn(did, id, device)]
        && View(did) == Hello(old(View(did)), did, id, Conn(sock, device))
        && published == old(published) + if redis then multiset{JoinMsg(instance, did, id, device)} else multiset{}
      ensures forall d :: d != did ==> View(d) == old(View(d))
      ensures replaced == old(replaced) + if id in old(View(did)).local then {old(View(did)).local[id].sock} else {}
      ensures Greeted(old(View(did)).sent, View(did), did, id)
    {
      hide View, Structured, Settled, Greet, Greeted;
      var device := Device(if name == "" then "Unknown device" else name, platform, state, now);
      PutLocal(did, id, sock, device);
      GreetSettles(View(did), did, id);
      GreetTells(View(did), did, id);
      GreetDevice(did, id, sock, device);
    }

    /** The rest of onHello, once the connection is registered. */
    method GreetDevice(did: Did, id: DeviceId, sock: Sock, device: Device)
      requires Structured() && id in View(did).local && View(did).local[id] == Conn(sock, device)
      modifies this`local, this`remote, this`remoteSlots, this`sent, this`lastAnyPlaying, this`published
      ensures Structured() && View(did) == Greet(old(View(did)), did, id)
      ensures forall d :: d != did ==> View(d) == old(View(d))
      ensures published == old(published) + if redis then multiset{JoinMsg(instance, did, id, device)} else multiset{}
    {
      hide View, Structured, Roster, AnyPlaying, Broadcast, Sent;
      ghost var b := View(did);
      var all := RosterOf(did);
      var wasEmpty := |all| == 1;
      SendTo(did, id, Welcome(did, id));
      Publish(JoinMsg(instance, did, id, device));
      BroadcastRoster(did);
      SameRoster(b, View(did));
      var playing := AnyPlayingNow(did);
      SetLast(did, playing);
      SendTo(did, id, Presence(playing, false));
      if wasEmpty && !device.state.playing && !playing {
        SendTo(did, id, Presence(false, true));
      }
    }

    // ---- relay ---------------------------------------------------------------------------------

    method OnRelay(msg: RelayMsg, now: int)
      requires Valid()
      modifies this`local, this`remote, this`remoteSlots, this`sent, this`lastAnyPlaying
      ensures Structured() && Valid()
      ensures View(msg.did) == Hear(old(View(msg.did)), instance, msg, now)
      ensures forall d :: d != msg.did ==> View(d) == old(View(d))
      ensures msg.instance == instance ==> View(msg.did) == old(View(msg.did))
      ensures msg.instance != instance && (msg.JoinMsg? || msg.UpdateMsg?) ==>
        Told(old(View(msg.did)).sent, View(msg.did))
      ensures msg.instance != instance && msg.LeaveMsg? && msg.deviceId in old(View(msg.did)).remote ==>
        Told(old(View(msg.did)).sent, View(msg.did))
    {
      hide View, Structured, AnyPlaying, Broadcast, Reconcile, Told;
      if !msg.CommandMsg? {
        HearTells(View(msg.did), instance, msg, now);
      }
      if msg.instance == instance {
        return;
      }
      if msg.CommandMsg? {
        DeliverKeepsRoster(View(msg.did), msg.target, msg.from, msg.cmd);
        var _ := DeliverCommandTo(msg.did, msg.target, msg.from, msg.cmd);
        return;
      }
      if msg.LeaveMsg? {
        var found := DropRemote(msg.did, msg.deviceId);
        if found {
          ghost var a := View(msg.did);
          BroadcastRoster(msg.did);
          ReconcilePresence(msg.did);
          RefreshSettles(a);
        }
        return;
      }
      PutRemote(msg.did, msg.deviceId, RemoteDevice(msg.device, msg.instance, now));
      ghost var a := View(msg.did);
      BroadcastRoster(msg.did);
      ReconcilePresence(msg.did);
      RefreshSettles(a);
    }

    // ---- heartbeat -----------------------------------------------------------------------------

    /** Drops the account's devices unheard of for REMOTE_TTL_MS; an emptied account may re-enter the Map at its end. */
    method PruneRemote(did: Did, now: int)
      requires Valid()
      modifies this`local, this`remote, this`remoteSlots, this`sent, this`lastAnyPlaying
      ensures Valid() && View(did) == Prune(old(View(did)), now)
      ensures (exists id :: id in old(View(did)).remote && old(View(did)).remote[id].lastSeen < now - 90_000) ==>
        Told(old(View(did)).sent, View(did))
      ensures forall d :: d != did ==> View(d) == old(View(d))
      ensures (remote, remoteSlots) == Pruned(old(remote), old(remoteSlots), did, now - REMOTE_TTL_MS)
    {
      hide View, Structured, Broadcast, Reconcile, Fresh, Settled, Pruned, Without, Told;
      PruneTells(View(did), now);
      ghost var before := (remote, remoteSlots);
      RemoteOfView(did);
      if did !in remote {
        PrunedAbsent(remote, remoteSlots, did, now - REMOTE_TTL_MS);
        PruneOfEmpty(View(did), now);
        return;
      }
      var kept, changed := DropStale(remote[did], now - REMOTE_TTL_MS);
      StoreRemote(did, kept);
      if changed {
        BroadcastRoster(did);
        ReconcilePresence(did);
      }
      PrunedCases(before.0, before.1, did, now - REMOTE_TTL_MS);
      PruneSettles(old(View(did)), now);
    }

    /** Writes back what is left of an account's devices; none left means the account leaves the Map. */
    method StoreRemote(did: Did, m: map<DeviceId, RemoteDevice>)
      requires Structured() && did in remote
      modifies this`remote, this`remoteSlots
      ensures Structured() && View(did) == old(View(did)).(remote := m)
      ensures forall d :: d != did ==> View(d) == old(View(d))
      ensures remote == (if |m| == 0 then old(remote) - {did} else old(remote)[did := m])
      ensures remoteSlots == (if |m| == 0 then Without(old(remoteSlots), did) else old(remoteSlots))
    {
      hide Linked, LocalView, SlotsOf;
      if |m| == 0 {
        SlotsShrink(remoteSlots, remote.Keys, did);
        remote, remoteSlots := remote - {did}, Without(remoteSlots, did);
        assert remote.Keys == old(remote.Keys) - {did};
      } else {
        remote := remote[did := m];
        assert remote.Keys == old(remote.Keys);
      }
    }

    lemma RemoteOfView(did: Did)
      requires Structured()
      ensures View(did).remote == Get(remote, did, map[])
    {
    }

    /** A message that announces a device connected here. */
    ghost predicate Announces(m: RelayMsg)
      reads this`conns, this`local, this`remote, this`remoteSlots, this`lastAnyPlaying, this`sent
      requires Structured()
    {
      && m.UpdateMsg?
      && m.instance == instance
      && m.deviceId in View(m.did).local
      && m.device == View(m.did).local[m.deviceId].device
    }

    /** Announces every device of every account once. */
    method AnnounceAll()
      requires Structured()
      modifies this`published
      ensures forall m :: Counted(old(published)[m], published[m], redis && old(Announces(m)))
    {
      var accounts := local.Keys;
      forall m: RelayMsg
        ensures Announces(m) ==> m.did in accounts
      {
      }
      while accounts != {}
        invariant accounts <= local.Keys
        invariant forall m :: Counted(old(published)[m], published[m], redis && Announces(m) && m.did !in accounts)
        decreases accounts
      {
        var did :| did in accounts;
        AnnounceAccount(did);
        accounts := accounts - {did};
      }
    }

    method AnnounceAccount(did: Did)
      requires Structured() && did in local
      modifies this`published
      ensures forall m :: Counted(old(published)[m], published[m], redis && Announces(m) && m.did == did)
    {
      var here := map id | id in local[did] :: Conn(local[did][id], conns[local[did][id]].device);
      assert here == View(did).local;
      hide View, Structured;
      var todo := here.Keys;
      forall m: RelayMsg
        ensures Announces(m) && m.did == did ==> m.deviceId in todo
      {
      }
      while todo != {}
        invariant todo <= here.Keys
        invariant forall m ::
          Counted(old(published)[m], published[m], redis && Announces(m) && m.did == did && m.deviceId !in todo)
        decreases todo
      {
        var id :| id in todo;
        Publish(UpdateMsg(instance, did, id, here[id].device));
        todo := todo - {id};
      }
    }

    /**
      Re-announces every local device, then prunes while iterating the remote accounts live. Every account ends
      up pruned; none is visited more than twice, although pruning can re-insert an account behind the iterator.
     */
    method HeartbeatRemotePresence(now: int) returns (visits: multiset<Did>)
      requires Valid()
      modifies this`local, this`remote, this`remoteSlots, this`sent, this`lastAnyPlaying, this`published
      ensures Structured() && Valid()
      ensures forall did :: View(did) == Prune(old(View(did)), now)
      ensures forall m :: Counted(old(published)[m], published[m], redis && old(Announces(m)))
      ensures forall did :: visits[did] <= 2
    {
      hide View, Structured, Reconcile, Broadcast, Settled, Prune, Progress, Pruned, StaleAccounts, SlotsOf, Announces;
      AnnounceAll();
      ghost var announced := published;
      visits := multiset{};
      var i := 0;
      var cutoff := now - REMOTE_TTL_MS;
      SlotsOfView();
      ProgressStart(remote, remoteSlots);
      while i < |remoteSlots|
        invariant i <= |remoteSlots| && Valid() && published == announced
        invariant forall did :: Progress(did, visits[did], remote, remoteSlots[i..])
        invariant forall did :: View(did) == if visits[did] == 0 then old(View(did)) else Prune(old(View(did)), now)
        decreases StaleAccounts(remote, cutoff), |remoteSlots| - i
      {
        var slot := remoteSlots[i];
        i := i + 1;
        SlotsOfView();
        if slot.None? {
          ProgressSkip(remote, remoteSlots, i - 1, visits);
        } else {
          VisitedIsEmpty(slot.value, visits[slot.value], i - 1, now);
          ProgressStep(remote, remoteSlots, i - 1, visits, slot.value, cutoff);
          PruneRemote(slot.value, now);
          visits := visits + multiset{slot.value};
        }
      }
      forall did
        ensures View(did) == Prune(old(View(did)), now) && visits[did] <= 2
      {
        NeverVisitedIsEmpty(did, visits[did], now);
      }
    }

    lemma SlotsOfView()
      requires Structured()
      ensures SlotsOf(remoteSlots, remote.Keys)
    {
    }

    /** An account met again was emptied by its first visit, so pruning it again changes nothing the account shows. */
    lemma VisitedIsEmpty(did: Did, visits: nat, i: nat, now: int)
      requires Structured() && i < |remoteSlots| && remoteSlots[i] == Some(did)
      requires Progress(did, visits, remote, remoteSlots[i..])
      ensures visits <= 1 && (visits == 1 ==> Prune(View(did), now) == View(did))
    {
      assert remoteSlots[i..][0] == Some(did);
      RemoteOfView(did);
      if visits == 1 {
        PruneOfEmpty(View(did), now);
      }
    }

    lemma NeverVisitedIsEmpty(did: Did, visits: nat, now: int)
      requires Structured() && Progress(did, visits, remote, remoteSlots[|remoteSlots|..])
      ensures visits <= 2 && (visits == 0 ==> Prune(View(did), now) == View(did))
    {
      RemoteOfView(did);
      if visits == 0 {
        PruneOfEmpty(View(did), now);
      }
    }
  }
}
