/**
  Hub instances of one account and the relay between them, with client actions, heartbeats and deliveries in any
  order. The relay channel hands every instance the same messages in the order they were published.
 */
module ConnectNet {
  import opened ConnectAccount
  import opened ConnectCluster

  /** The instances and, for each, the published messages it has not been handed yet. */
  datatype Net = Net(cluster: Cluster, inbox: seq<seq<RelayMsg>>)

  datatype Action =
    | Happens(event: Event)
    | Orders(host: nat, from: DeviceId, target: DeviceId, cmd: Command)
    | Beats(host: nat, now: int, order: seq<DeviceId>)
    | Delivered(dest: nat, now: int)
    | Crashes(host: nat)
  {
    /** The one instance an action works on. */
    function At(): nat {
      match this
      case Happens(e) => e.host
      case Orders(host, _, _, _) => host
      case Beats(host, _, _) => host
      case Delivered(dest, _) => dest
      case Crashes(host) => host
    }
  }

  /** A heartbeat announces every device connected here once, in the order of a Map. */
  ghost predicate EachOnce(order: seq<DeviceId>, ids: set<DeviceId>) {
    && (forall id :: id in order <==> id in ids)
    && forall i, j :: 0 <= i < j < |order| ==> order[i] != order[j]
  }

  ghost predicate Possible(n: Net, a: Action) {
    && |n.inbox| == |n.cluster|
    && a.At() < |n.cluster|
    && match a
       case Happens(e) => Enabled(n.cluster, e)
       case Beats(host, _, order) => EachOnce(order, n.cluster[host].local.Keys)
       case Delivered(dest, _) => n.inbox[dest] != []
       case _ => true
  }

  /** What the action makes of its instance's account. A crashed instance starts over with empty registries. */
  ghost function Acted(did: Did, n: Net, a: Action): Account
    requires Possible(n, a)
  {
    var b := n.cluster[a.At()];
    match a
    case Happens(e) => Handled(did, n.cluster, e)
    case Orders(_, from, target, cmd) => if target == from then b else DeliverCommand(b, target, from, cmd)
    case Beats(_, now, _) => Prune(b, now)
    case Delivered(dest, now) => Hear(b, dest, n.inbox[dest][0], now)
    case Crashes(_) => Account(map[], map[], false, b.sent)
  }

  /** What it publishes, in order. */
  function Published(did: Did, n: Net, a: Action): seq<RelayMsg>
    requires Possible(n, a)
  {
    match a
    case Happens(e) => [Message(did, n.cluster, e)]
    case Orders(host, from, target, cmd) =>
      if target == from || target in n.cluster[host].local then []
      else [CommandMsg(host, did, target, from, cmd)]
    case Beats(host, _, order) => Announced(did, host, n.cluster[host], order)
    case _ => []
  }

  function Announced(did: Did, host: nat, a: Account, order: seq<DeviceId>): (r: seq<RelayMsg>)
    requires forall id :: id in order ==> id in a.local
    ensures |r| == |order|
    ensures forall k :: 0 <= k < |r| ==> r[k] == UpdateMsg(host, did, order[k], a.local[order[k]].device)
  {
    seq(|order|, k requires 0 <= k < |order| => UpdateMsg(host, did, order[k], a.local[order[k]].device))
  }

  /** An instance's inbox once the message being delivered is off it; a crashed instance has lost its subscription. */
  function Waiting(n: Net, a: Action, i: nat): seq<RelayMsg>
    requires Possible(n, a) && i < |n.inbox|
  {
    if a.Delivered? && i == a.dest then n.inbox[i][1..]
    else if a.Crashes? && i == a.host then []
    else n.inbox[i]
  }

  ghost function Act(did: Did, n: Net, a: Action): (r: Net)
    requires Possible(n, a)
    ensures |r.cluster| == |n.cluster| == |r.inbox|
  {
    var news := Published(did, n, a);
    Net(n.cluster[a.At() := Acted(did, n, a)],
        seq(|n.inbox|, i requires 0 <= i < |n.inbox| => Waiting(n, a, i) + news))
  }

  ghost predicate PossibleRun(did: Did, n: Net, run: seq<Action>)
    decreases |run|
  {
    run == [] || (Possible(n, run[0]) && PossibleRun(did, Act(did, n, run[0]), run[1..]))
  }

  ghost function ActAll(did: Did, n: Net, run: seq<Action>): (r: Net)
    requires PossibleRun(did, n, run)
    ensures |r.cluster| == |n.cluster|
    decreases |run|
  {
    if run == [] then n else ActAll(did, Act(did, n, run[0]), run[1..])
  }

  /** No message is waiting. */
  predicate Quiet(n: Net) {
    |n.inbox| == |n.cluster| && forall i :: 0 <= i < |n.inbox| ==> n.inbox[i] == []
  }

  // ---- who is hosted where ---------------------------------------------------------------------

  /** Only client events and crashes change which devices an instance hosts. */
  lemma LocalsKept(did: Did, n: Net, a: Action)
    requires Possible(n, a) && !a.Happens? && !a.Crashes?
    ensures Acted(did, n, a).local == n.cluster[a.At()].local
  {
    hide Refresh, Roster;
    match a
    case Orders(_, _, _, _) =>
    case Beats(host, now, _) => PruneLocals(n.cluster[host], now);
    case Delivered(dest, now) => HearLocals(n.cluster[dest], dest, n.inbox[dest][0], now);
  }

  lemma PruneLocals(a: Account, now: int)
    ensures Prune(a, now).local == a.local
  {
    RefreshSettles(a.(remote := Fresh(a.remote, now - REMOTE_TTL_MS)));
  }

  lemma HearLocals(a: Account, self: InstanceId, msg: RelayMsg, now: int)
    ensures Hear(a, self, msg, now).local == a.local
  {
    hide Refresh;
    if msg.LeaveMsg? {
      RefreshSettles(a.(remote := a.remote - {msg.deviceId}));
    } else if !msg.CommandMsg? {
      RefreshSettles(WithRemote(a, msg.deviceId, RemoteDevice(msg.device, msg.instance, now)));
    }
  }

  /** An action keeps every device hosted at most once. */
  lemma ActHostedOnce(did: Did, n: Net, a: Action)
    requires HostedOnce(n.cluster) && Possible(n, a)
    ensures HostedOnce(Act(did, n, a).cluster)
  {
    hide Acted, Waiting, Published, HostedOnce;
    var after := Act(did, n, a).cluster;
    if a.Happens? {
      assert Acted(did, n, a) == Handled(did, n.cluster, a.event) by { ActedHappens(did, n, a); }
      HostsAfter(did, n.cluster, a.event);
    } else {
      assert after[a.At()].local.Keys <= n.cluster[a.At()].local.Keys by { LocalsShrink(did, n, a); }
      FewerHosted(n.cluster, after);
    }
  }

  lemma ActedHappens(did: Did, n: Net, a: Action)
    requires Possible(n, a) && a.Happens?
    ensures Acted(did, n, a) == Handled(did, n.cluster, a.event)
  {
  }

  lemma LocalsShrink(did: Did, n: Net, a: Action)
    requires Possible(n, a) && !a.Happens?
    ensures Acted(did, n, a).local.Keys <= n.cluster[a.At()].local.Keys
  {
    if !a.Crashes? {
      LocalsKept(did, n, a);
    }
  }

  lemma FewerHosted(c: Cluster, after: Cluster)
    requires HostedOnce(c) && |after| == |c|
    requires forall i :: 0 <= i < |c| ==> after[i].local.Keys <= c[i].local.Keys
    ensures HostedOnce(after)
  {
  }

  /** The device an event is about is hosted where the event says, or nowhere. */
  lemma OneHost(c: Cluster, e: Event, i: nat)
    requires HostedOnce(c) && Enabled(c, e) && i < |c|
    ensures e.id in c[i].local <==> i == e.host && !e.Arrive?
    ensures e.id in AllIds(c) <==> !e.Arrive?
  {
    assert !e.Arrive? ==> e.id in c[e.host].local;
  }

  lemma HostsAfter(did: Did, c: Cluster, e: Event)
    requires HostedOnce(c) && Enabled(c, e)
    ensures
      var after := c[e.host := Handled(did, c, e)];
      && HostedOnce(after)
      && AllIds(after) == (if e.Depart? then AllIds(c) - {e.id} else AllIds(c) + {e.id})
      && (forall i: nat, id :: i < |c| && id != e.id ==>
            (id in after[i].local <==> id in c[i].local)
            && (id in c[i].local ==> after[i].local[id] == c[i].local[id]))
      && (forall i: nat :: i < |c| ==> (e.id in after[i].local <==> i == e.host && !e.Depart?))
  {
    hide Handled, HostedOnce, AllIds;
    HandledIs(did, c, e);
    var after := c[e.host := Handled(did, c, e)];
    forall i: nat | i < |c|
      ensures e.id in c[i].local <==> i == e.host && !e.Arrive?
    {
      OneHost(c, e, i);
    }
    assert forall i: nat :: i < |c| ==> (e.id in after[i].local <==> i == e.host && !e.Depart?);
    StillHostedOnce(c, after, e.id, e.host);
    IdsChange(c, after, e.id, e.host, !e.Depart?);
  }

  lemma StillHostedOnce(c: Cluster, after: Cluster, id: DeviceId, host: nat)
    requires HostedOnce(c) && |after| == |c|
    requires forall i: nat, x :: i < |c| && x != id ==> (x in after[i].local <==> x in c[i].local)
    requires forall i: nat :: i < |c| && id in after[i].local ==> i == host
    ensures HostedOnce(after)
  {
  }

  lemma IdsChange(c: Cluster, after: Cluster, id: DeviceId, host: nat, hosted: bool)
    requires |after| == |c| && host < |c|
    requires forall i: nat, x :: i < |c| && x != id ==> (x in after[i].local <==> x in c[i].local)
    requires forall i: nat :: i < |c| ==> (id in after[i].local <==> i == host && hosted)
    ensures AllIds(after) == if hosted then AllIds(c) + {id} else AllIds(c) - {id}
  {
    forall x
      ensures x in AllIds(after) <==> if x == id then hosted else x in AllIds(c)
    {
      if x == id {
        assert hosted ==> id in after[host].local;
      } else {
        if x in AllIds(after) {
          var i: nat :| i < |after| && x in after[i].local;
          assert x in c[i].local;
        }
        if x in AllIds(c) {
          var i: nat :| i < |c| && x in c[i].local;
          assert x in after[i].local;
        }
      }
    }
  }
}
