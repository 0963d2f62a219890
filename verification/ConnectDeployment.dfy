/** Hub objects run together: their handlers and the relay produce exactly the cluster steps of ConnectCluster. */
module ConnectDeployment {
  import opened ConnectAccount
  import opened ConnectCluster
  import opened ConnectHub

  /** Distinct hubs with a working relay, each numbered by its place. */
  ghost predicate Deployed(hubs: seq<Hub>)
    reads hubs
  {
    && (forall i, j :: 0 <= i < j < |hubs| ==> hubs[i] != hubs[j])
    && forall i :: 0 <= i < |hubs| ==> hubs[i].Structured() && hubs[i].Valid() && hubs[i].instance == i && hubs[i].redis
  }

  ghost function Views(hubs: seq<Hub>, did: Did): (c: Cluster)
    reads hubs
    requires Deployed(hubs)
    ensures |c| == |hubs|
  {
    seq(|hubs|, i requires 0 <= i < |hubs| reads hubs requires Deployed(hubs) => hubs[i].View(did))
  }

  /** The views of every account but one are as they were. */
  twostate predicate OthersKept(hubs: seq<Hub>, did: Did)
    reads hubs
    requires Deployed(hubs) && old(Deployed(hubs))
  {
    forall i, d :: 0 <= i < |hubs| && d != did ==> hubs[i].View(d) == old(hubs[i].View(d))
  }

  // ---- handing over messages -------------------------------------------------------------------

  /** Every instance is handed a message from the channel, its publisher included; none publishes anything. */
  method Relay(hubs: seq<Hub>, msg: RelayMsg, now: int)
    requires Deployed(hubs)
    modifies hubs
    ensures Deployed(hubs) && OthersKept(hubs, msg.did)
    ensures forall i: nat :: i < |hubs| ==>
      && hubs[i].View(msg.did) == Hear(old(hubs[i].View(msg.did)), i, msg, now)
      && hubs[i].published == old(hubs[i].published)
  {
    hide Hear, Hub.Valid, Hub.Structured, Hub.View;
    for k := 0 to |hubs|
      invariant Deployed(hubs) && OthersKept(hubs, msg.did)
      invariant forall i: nat :: i < |hubs| ==>
        && hubs[i].View(msg.did)
             == (if i < k then Hear(old(hubs[i].View(msg.did)), i, msg, now) else old(hubs[i].View(msg.did)))
        && hubs[i].published == old(hubs[i].published)
    {
      hubs[k].OnRelay(msg, now);
    }
  }

  /** What an account becomes as its instance is handed the messages of all accounts in turn. */
  ghost function HearAll(a: Account, did: Did, self: InstanceId, inbox: seq<RelayMsg>, now: int): Account {
    if inbox == [] then a
    else
      var before := HearAll(a, did, self, inbox[..|inbox| - 1], now);
      var msg := inbox[|inbox| - 1];
      if msg.did == did then Hear(before, self, msg, now) else before
  }

  /** An instance handed everything that waits for it publishes nothing. */
  method HandOver(hub: Hub, inbox: seq<RelayMsg>, now: int)
    requires hub.Structured() && hub.Valid()
    modifies hub
    ensures hub.Structured() && hub.Valid() && hub.published == old(hub.published)
    ensures forall did :: hub.View(did) == HearAll(old(hub.View(did)), did, hub.instance, inbox, now)
  {
    hide Hear, Hub.Valid, Hub.Structured, Hub.View;
    for k := 0 to |inbox|
      invariant hub.Structured() && hub.Valid() && hub.published == old(hub.published)
      invariant forall did :: hub.View(did) == HearAll(old(hub.View(did)), did, hub.instance, inbox[..k], now)
    {
      assert inbox[..k + 1][..k] == inbox[..k];
      hub.OnRelay(inbox[k], now);
    }
    assert inbox[..|inbox|] == inbox;
  }

  /** So once every inbox is handed over, nothing is on its way any more: the relay is quiet. */
  method Drain(hubs: seq<Hub>, inboxes: seq<seq<RelayMsg>>, now: int)
    requires Deployed(hubs) && |inboxes| == |hubs|
    modifies hubs
    ensures Deployed(hubs)
    ensures forall i :: 0 <= i < |hubs| ==> hubs[i].published == old(hubs[i].published)
    ensures forall i: nat, did :: i < |hubs| ==>
      hubs[i].View(did) == HearAll(old(hubs[i].View(did)), did, i, inboxes[i], now)
  {
    hide HearAll, Hub.Valid, Hub.Structured, Hub.View;
    for k := 0 to |hubs|
      invariant Deployed(hubs)
      invariant forall i :: 0 <= i < |hubs| ==> hubs[i].published == old(hubs[i].published)
      invariant forall i: nat, did :: i < |hubs| ==>
        hubs[i].View(did) ==
          if i < k then HearAll(old(hubs[i].View(did)), did, i, inboxes[i], now) else old(hubs[i].View(did))
    {
      HandOver(hubs[k], inboxes[k], now);
    }
  }

  // ---- events, relayed -------------------------------------------------------------------------

  /** A state report on a registered socket, handled and relayed. */
  method ReportEverywhere(hubs: seq<Hub>, host: nat, sock: Sock, state: PlaybackState, now: int)
    requires Deployed(hubs) && host < |hubs| && sock in hubs[host].conns && hubs[host].Registered(sock)
    modifies hubs
    ensures Deployed(hubs) && OthersKept(hubs, old(hubs[host].conns[sock].did))
    ensures
      var conn := old(hubs[host].conns[sock]);
      var c := old(Views(hubs, hubs[host].conns[sock].did));
      var e := Report(host, conn.deviceId, state);
      Enabled(c, e) && Views(hubs, conn.did) == Relayed(conn.did, c, e, now)
  {
    hide Refresh, Settled, HearDevice, HearLeave, DeliverCommand, Hub.Valid, Hub.Structured, Hub.View, Hub.Registered;
    var conn := hubs[host].conns[sock];
    ghost var c, e := Views(hubs, conn.did), Report(host, conn.deviceId, state);
    hubs[host].RegisteredView(sock);
    hubs[host].HandleState(sock, state);
    var msg := UpdateMsg(host, conn.did, conn.deviceId, conn.device.(state := state));
    assert msg in hubs[host].published;
    assert Message(conn.did, c, e) == msg && hubs[host].View(conn.did) == Handled(conn.did, c, e);
    Relay(hubs, msg, now);
    forall i: nat | i < |hubs|
      ensures hubs[i].View(conn.did) == Relayed(conn.did, c, e, now)[i]
    {
    }
  }

  /** A registered socket closes; the departure is handled and relayed. */
  method DepartEverywhere(hubs: seq<Hub>, host: nat, sock: Sock, now: int)
    requires Deployed(hubs) && host < |hubs| && sock in hubs[host].conns && hubs[host].Registered(sock)
    modifies hubs
    ensures Deployed(hubs) && OthersKept(hubs, old(hubs[host].conns[sock].did))
    ensures
      var conn := old(hubs[host].conns[sock]);
      var c := old(Views(hubs, hubs[host].conns[sock].did));
      var e := Depart(host, conn.deviceId);
      Enabled(c, e) && Views(hubs, conn.did) == Relayed(conn.did, c, e, now)
  {
    hide Refresh, Settled, HearDevice, HearLeave, DeliverCommand, Hub.Valid, Hub.Structured, Hub.View, Hub.Registered;
    var conn := hubs[host].conns[sock];
    ghost var c, e := Views(hubs, conn.did), Depart(host, conn.deviceId);
    hubs[host].RegisteredView(sock);
    hubs[host].RemoveConn(sock);
    var msg := LeaveMsg(host, conn.did, conn.deviceId);
    assert msg in hubs[host].published;
    assert Message(conn.did, c, e) == msg && hubs[host].View(conn.did) == Handled(conn.did, c, e);
    Relay(hubs, msg, now);
    forall i: nat | i < |hubs|
      ensures hubs[i].View(conn.did) == Relayed(conn.did, c, e, now)[i]
    {
    }
  }

  /** A device new to the account says hello; its arrival is handled and relayed. */
  method ArriveEverywhere(
    hubs: seq<Hub>, host: nat, sock: Sock, did: Did, id: DeviceId, name: string, platform: Platform,
    state: PlaybackState, helloAt: int, now: int)
    requires Deployed(hubs) && host < |hubs| && sock !in hubs[host].conns && id !in AllIds(Views(hubs, did))
    modifies hubs
    ensures Deployed(hubs) && OthersKept(hubs, did)
    ensures
      var device := Device(if name == "" then "Unknown device" else name, platform, state, helloAt);
      Views(hubs, did) == Relayed(did, old(Views(hubs, did)), Arrive(host, id, Conn(sock, device)), now)
  {
    hide Greet, Settled, HearDevice, HearLeave, DeliverCommand, AllIds, Hub.Valid, Hub.Structured, Hub.View;
    ghost var c := Views(hubs, did);
    var device := Device(if name == "" then "Unknown device" else name, platform, state, helloAt);
    ghost var e := Arrive(host, id, Conn(sock, device));
    assert Enabled(c, e);
    hubs[host].OnHello(sock, did, id, name, platform, state, helloAt);
    var msg := JoinMsg(host, did, id, device);
    assert msg in hubs[host].published;
    assert Changed(c, e).local[id] == Conn(sock, device);
    assert hubs[host].View(did) == Greet(Changed(c, e), did, id);
    Relay(hubs, msg, now);
    assert hubs[host].View(did) == Greet(Changed(c, e), did, id);
    forall i: nat | i < |hubs|
      ensures hubs[i].View(did) == Relayed(did, c, e, now)[i]
    {
    }
  }

  // ---- commands, relayed -----------------------------------------------------------------------

  /** A command on a connected socket, handled and, when its target is not connected here, relayed. */
  method CommandEverywhere(hubs: seq<Hub>, host: nat, sock: Sock, target: DeviceId, cmd: Command, now: int)
    requires Deployed(hubs) && host < |hubs| && sock in hubs[host].conns
    modifies hubs
    ensures Deployed(hubs) && OthersKept(hubs, old(hubs[host].conns[sock].did))
    ensures
      var conn := old(hubs[host].conns[sock]);
      var c := old(Views(hubs, hubs[host].conns[sock].did));
      Views(hubs, conn.did) == Commands(conn.did, c, host, conn.deviceId, target, cmd, now)
  {
    hide DeliverCommand, HearDevice, HearLeave, Hub.Valid, Hub.Structured, Hub.View;
    var conn := hubs[host].conns[sock];
    ghost var c := Views(hubs, conn.did);
    var elsewhere := target != conn.deviceId && !(conn.did in hubs[host].local && target in hubs[host].local[conn.did]);
    hubs[host].LocalKeys(conn.did);
    hubs[host].HandleCommand(sock, target, cmd);
    if elsewhere {
      var msg := CommandMsg(host, conn.did, target, conn.deviceId, cmd);
      assert msg in hubs[host].published;
      NotHere(c[host], target, conn.deviceId, cmd);
      Relay(hubs, msg, now);
    }
    forall i: nat | i < |hubs|
      ensures hubs[i].View(conn.did) == Commands(conn.did, c, host, conn.deviceId, target, cmd, now)[i]
    {
    }
  }

  lemma NotHere(a: Account, target: DeviceId, from: DeviceId, cmd: Command)
    ensures target !in a.local ==> DeliverCommand(a, target, from, cmd) == a
  {
  }
}
