/** Events that overlap: an instance may act again before earlier messages have reached it. The views still converge. */
module ConnectOverlap {
  import opened ConnectAccount
  import opened ConnectCluster
  import opened ConnectNet

  // ---- what an instance will know once it has been handed everything ---------------------------

  function DevicesOf(remote: map<DeviceId, RemoteDevice>): map<DeviceId, Device> {
    map id | id in remote :: remote[id].device
  }

  function Learn(known: map<DeviceId, Device>, self: InstanceId, msg: RelayMsg): map<DeviceId, Device> {
    if msg.instance == self || msg.CommandMsg? then known
    else if msg.LeaveMsg? then known - {msg.deviceId}
    else known[msg.deviceId := msg.device]
  }

  function LearnAll(known: map<DeviceId, Device>, self: InstanceId, inbox: seq<RelayMsg>): map<DeviceId, Device>
    decreases |inbox|
  {
    if inbox == [] then known else LearnAll(Learn(known, self, inbox[0]), self, inbox[1..])
  }

  /** Exactly the devices hosted on other instances, as they are there. */
  ghost predicate Describes(known: map<DeviceId, Device>, c: Cluster, i: nat)
    requires i < |c|
  {
    && known.Keys == AllIds(c) - c[i].local.Keys
    && forall j, id :: 0 <= j < |c| && j != i && id in c[j].local ==> id in known && known[id] == c[j].local[id].device
  }

  /** What instance i will know once its inbox is empty. */
  function Told(n: Net, i: nat): map<DeviceId, Device>
    requires i < |n.inbox| && |n.inbox| == |n.cluster|
  {
    LearnAll(DevicesOf(n.cluster[i].remote), i, n.inbox[i])
  }

  /** Every instance's view, completed by its inbox, is the true one. */
  ghost predicate Converging(n: Net) {
    && |n.inbox| == |n.cluster|
    && HostedOnce(n.cluster)
    && forall i :: 0 <= i < |n.cluster| ==> Settled(n.cluster[i]) && Describes(Told(n, i), n.cluster, i)
  }

  lemma {:induction false} LearnAppend(
    known: map<DeviceId, Device>, self: InstanceId, inbox: seq<RelayMsg>, msg: RelayMsg)
    ensures LearnAll(known, self, inbox + [msg]) == Learn(LearnAll(known, self, inbox), self, msg)
    decreases |inbox|
  {
    if inbox == [] {
      assert [] + [msg] == [msg] && [msg][1..] == [];
    } else {
      assert (inbox + [msg])[1..] == inbox[1..] + [msg];
      LearnAppend(Learn(known, self, inbox[0]), self, inbox[1..], msg);
    }
  }

  /** Hearing a message is learning it. */
  lemma HearLearns(a: Account, self: InstanceId, msg: RelayMsg, now: int)
    requires Settled(a)
    ensures
      var b := Hear(a, self, msg, now);
      b.local == a.local && DevicesOf(b.remote) == Learn(DevicesOf(a.remote), self, msg) && Settled(b)
  {
    hide Settled, Refresh, Roster;
    if msg.instance == self {
    } else if msg.CommandMsg? {
      DeliverSettles(a, msg.target, msg.from, msg.cmd);
    } else if msg.LeaveMsg? {
      RefreshSettles(a.(remote := a.remote - {msg.deviceId}));
      LeaveLearns(a.remote, msg.deviceId);
    } else {
      var r := RemoteDevice(msg.device, msg.instance, now);
      RefreshSettles(WithRemote(a, msg.deviceId, r));
      DeviceLearns(a.remote, msg.deviceId, r);
    }
  }

  lemma DeliverSettles(a: Account, target: DeviceId, from: DeviceId, cmd: Command)
    requires Settled(a)
    ensures Settled(DeliverCommand(a, target, from, cmd))
    ensures DeliverCommand(a, target, from, cmd).local == a.local
    ensures DeliverCommand(a, target, from, cmd).remote == a.remote
  {
  }

  lemma LeaveLearns(remote: map<DeviceId, RemoteDevice>, id: DeviceId)
    ensures DevicesOf(remote - {id}) == DevicesOf(remote) - {id}
    ensures id !in remote ==> DevicesOf(remote) - {id} == DevicesOf(remote)
  {
  }

  lemma DeviceLearns(remote: map<DeviceId, RemoteDevice>, id: DeviceId, r: RemoteDevice)
    ensures DevicesOf(remote[id := r]) == DevicesOf(remote)[id := r.device]
  {
  }

  // ---- every step keeps the inboxes complete ---------------------------------------------------

  /** An instance that will know the truth about the others still will, once told of the event. */
  lemma EventDescribed(did: Did, c: Cluster, e: Event, i: nat, known: map<DeviceId, Device>)
    requires HostedOnce(c) && Enabled(c, e) && i < |c| && Describes(known, c, i)
    ensures Describes(Learn(known, i, Message(did, c, e)), c[e.host := Handled(did, c, e)], i)
  {
    hide HostedOnce, Handled, Message, Learn, AllIds;
    var after := c[e.host := Handled(did, c, e)];
    var learned := Learn(known, i, Message(did, c, e));
    HostsAfter(did, c, e);
    OneHost(c, e, i);
    LearnsEvent(did, c, e, i, known);
    assert learned.Keys == AllIds(after) - after[i].local.Keys;
    forall j: nat, id | j < |c| && j != i && id in after[j].local
      ensures id in learned && learned[id] == after[j].local[id].device
    {
      if id != e.id {
        assert id in c[j].local;
      }
    }
  }

  /** What a message teaches an instance: the event's device as its host now has it. */
  lemma LearnsEvent(did: Did, c: Cluster, e: Event, i: nat, known: map<DeviceId, Device>)
    requires Enabled(c, e) && i < |c|
    ensures
      var learned := Learn(known, i, Message(did, c, e));
      var b := Handled(did, c, e);
      && (i == e.host ==> learned == known)
      && (i != e.host && e.Depart? ==> learned == known - {e.id})
      && (i != e.host && !e.Depart? ==> e.id in b.local && learned == known[e.id := b.local[e.id].device])
  {
    hide Handled;
    HandledIs(did, c, e);
  }

  /** Nothing is lost for good: no instance crashes, and a heartbeat finds nothing unheard of for the TTL. */
  predicate Smooth(n: Net, a: Action) {
    && !a.Crashes?
    && (a.Beats? && a.host < |n.cluster| ==>
          var remote := n.cluster[a.host].remote;
          Fresh(remote, a.now - REMOTE_TTL_MS) == remote)
  }

  ghost predicate SmoothRun(did: Did, n: Net, run: seq<Action>)
    requires PossibleRun(did, n, run)
    decreases |run|
  {
    run == [] || (Smooth(n, run[0]) && SmoothRun(did, Act(did, n, run[0]), run[1..]))
  }

  lemma {:induction false} LearnConcat(
    known: map<DeviceId, Device>, self: InstanceId, a: seq<RelayMsg>, b: seq<RelayMsg>)
    ensures LearnAll(known, self, a + b) == LearnAll(LearnAll(known, self, a), self, b)
    decreases |a|
  {
    if a == [] {
      assert a + b == b;
    } else {
      assert (a + b)[1..] == a[1..] + b;
      LearnConcat(Learn(known, self, a[0]), self, a[1..], b);
    }
  }

  /** Being told again what is already known, or of commands, teaches nothing. */
  lemma {:induction false} LearnNothing(known: map<DeviceId, Device>, self: InstanceId, news: seq<RelayMsg>)
    requires forall k :: 0 <= k < |news| ==>
      || news[k].instance == self
      || news[k].CommandMsg?
      || (news[k].UpdateMsg? && news[k].deviceId in known && known[news[k].deviceId] == news[k].device)
    ensures LearnAll(known, self, news) == known
    decreases |news|
  {
    if news != [] {
      assert Learn(known, self, news[0]) == known;
      LearnNothing(known, self, news[1..]);
    }
  }

  /** What a quiet action publishes is nothing new to instance i. */
  lemma NewsIsKnown(did: Did, n: Net, a: Action, i: nat, known: map<DeviceId, Device>)
    requires Possible(n, a) && !a.Happens? && i < |n.cluster| && Describes(known, n.cluster, i)
    ensures LearnAll(known, i, Published(did, n, a)) == known
  {
    hide AllIds;
    LearnNothing(known, i, Published(did, n, a));
  }

  /** Of its own and the others' actions, an instance is told or learns, but ends up told the same. */
  lemma ToldSame(did: Did, n: Net, a: Action, i: nat)
    requires Possible(n, a) && Smooth(n, a) && !a.Happens? && i < |n.cluster|
    requires Settled(n.cluster[i]) && Settled(n.cluster[a.At()]) && Describes(Told(n, i), n.cluster, i)
    ensures Told(Act(did, n, a), i) == Told(n, i) && Settled(Act(did, n, a).cluster[i])
  {
    hide Describes, Settled, LearnAll, Published;
    var n' := Act(did, n, a);
    var remote := DevicesOf(n'.cluster[i].remote);
    LearnConcat(remote, i, Waiting(n, a, i), Published(did, n, a));
    NewsIsKnown(did, n, a, i, Told(n, i));
    ActedLearns(did, n, a);
    LearnFirst(DevicesOf(n.cluster[i].remote), i, n.inbox[i]);
    assert LearnAll(remote, i, Waiting(n, a, i)) == Told(n, i);
  }

  /** What acting does to the devices an instance knows: only a delivery teaches it any. */
  lemma ActedLearns(did: Did, n: Net, a: Action)
    requires Possible(n, a) && Smooth(n, a) && !a.Happens? && Settled(n.cluster[a.At()])
    ensures
      var (before, after) := (n.cluster[a.At()], Acted(did, n, a));
      && Settled(after)
      && DevicesOf(after.remote) ==
           if a.Delivered? then Learn(DevicesOf(before.remote), a.dest, n.inbox[a.dest][0])
           else DevicesOf(before.remote)
  {
    hide Settled, Hear, Learn;
    match a
    case Orders(host, from, target, cmd) => DeliverSettles(n.cluster[host], target, from, cmd);
    case Beats(_, _, _) =>
    case Delivered(dest, now) => HearLearns(n.cluster[dest], dest, n.inbox[dest][0], now);
  }

  lemma QuietlyConverges(did: Did, n: Net, a: Action)
    requires Converging(n) && Possible(n, a) && Smooth(n, a) && !a.Happens?
    ensures Converging(Act(did, n, a))
  {
    var n' := Act(did, n, a);
    LocalsKept(did, n, a);
    hide HostedOnce, Describes, Settled, LearnAll, Acted, Waiting, Published;
    forall i: nat | i < |n.cluster|
      ensures n'.cluster[i].local == n.cluster[i].local && Settled(n'.cluster[i]) && Told(n', i) == Told(n, i)
    {
      ToldSame(did, n, a, i);
    }
    hide Act;
    SameHostsConverge(n, n');
  }

  lemma HappensConverges(did: Did, n: Net, e: Event)
    requires Converging(n) && Possible(n, Happens(e))
    ensures Converging(Act(did, n, Happens(e)))
  {
    ActHostedOnce(did, n, Happens(e));
    hide HostedOnce, Describes, Settled, LearnAll, Act;
    var n' := Act(did, n, Happens(e));
    forall i: nat | i < |n.cluster|
      ensures Settled(n'.cluster[i]) && Describes(Told(n', i), n'.cluster, i)
    {
      HappensAt(did, n, e, i);
    }
  }

  lemma HappensShape(did: Did, n: Net, e: Event)
    requires Possible(n, Happens(e))
    ensures
      var n' := Act(did, n, Happens(e));
      && n'.cluster == n.cluster[e.host := Handled(did, n.cluster, e)]
      && forall i :: 0 <= i < |n.inbox| ==> n'.inbox[i] == n.inbox[i] + [Message(did, n.cluster, e)]
  {
  }

  lemma HappensAt(did: Did, n: Net, e: Event, i: nat)
    requires HostedOnce(n.cluster) && Possible(n, Happens(e)) && i < |n.cluster|
    requires Settled(n.cluster[i]) && Describes(Told(n, i), n.cluster, i)
    ensures
      var n' := Act(did, n, Happens(e));
      Settled(n'.cluster[i]) && Describes(Told(n', i), n'.cluster, i)
  {
    hide HostedOnce, Handled, Describes, Settled, AllIds, Message, Learn, LearnAll, Act;
    HappensShape(did, n, e);
    HandledIs(did, n.cluster, e);
    LearnAppend(DevicesOf(n.cluster[i].remote), i, n.inbox[i], Message(did, n.cluster, e));
    EventDescribed(did, n.cluster, e, i, Told(n, i));
  }

  lemma SameHosts(c: Cluster, after: Cluster, i: nat, known: map<DeviceId, Device>)
    requires |after| == |c| && i < |c| && forall j :: 0 <= j < |c| ==> after[j].local == c[j].local
    ensures HostedOnce(c) ==> HostedOnce(after)
    ensures Describes(known, c, i) ==> Describes(known, after, i)
  {
    assert AllIds(after) == AllIds(c);
  }

  lemma LearnFirst(known: map<DeviceId, Device>, self: InstanceId, inbox: seq<RelayMsg>)
    ensures inbox != [] ==> LearnAll(known, self, inbox) == LearnAll(Learn(known, self, inbox[0]), self, inbox[1..])
  {
  }

  lemma SameHostsConverge(n: Net, n': Net)
    requires Converging(n) && |n'.cluster| == |n.cluster| && |n'.inbox| == |n.inbox|
    requires forall i :: 0 <= i < |n.cluster| ==>
      && n'.cluster[i].local == n.cluster[i].local && Settled(n'.cluster[i])
      && Told(n', i) == Told(n, i)
    ensures Converging(n')
  {
    hide HostedOnce, Describes, Settled, LearnAll;
    assert HostedOnce(n'.cluster) by {
      if n.cluster == [] {
        assert n'.cluster == n.cluster;
      } else {
        SameHosts(n.cluster, n'.cluster, 0, map[]);
      }
    }
    forall i: nat | i < |n.cluster|
      ensures Describes(Told(n', i), n'.cluster, i)
    {
      SameHosts(n.cluster, n'.cluster, i, Told(n, i));
    }
  }

  lemma {:induction false} RunConverges(did: Did, n: Net, run: seq<Action>)
    requires Converging(n) && PossibleRun(did, n, run) && SmoothRun(did, n, run)
    ensures Converging(ActAll(did, n, run))
    decreases |run|
  {
    hide Act, Converging, Smooth;
    if run != [] {
      if run[0].Happens? {
        HappensConverges(did, n, run[0].event);
      } else {
        QuietlyConverges(did, n, run[0]);
      }
      RunConverges(did, Act(did, n, run[0]), run[1..]);
    }
  }

  lemma QuietMeansSynced(n: Net)
    requires Quiet(n)
    ensures Converging(n) <==> Synced(n.cluster)
  {
    hide Mirrors, Describes, Settled, HostedOnce;
    forall i | 0 <= i < |n.cluster|
      ensures Told(n, i) == DevicesOf(n.cluster[i].remote)
      ensures Describes(DevicesOf(n.cluster[i].remote), n.cluster, i) <==> Mirrors(n.cluster, i)
    {
      assert n.inbox[i] == [];
      DescribesItself(n.cluster, i);
    }
  }

  lemma DescribesItself(c: Cluster, i: nat)
    requires i < |c|
    ensures Describes(DevicesOf(c[i].remote), c, i) <==> Mirrors(c, i)
  {
    hide AllIds;
    var known := DevicesOf(c[i].remote);
    assert known.Keys == c[i].remote.Keys;
  }

  /**
    However client events, commands, heartbeats and deliveries interleave, once no message is waiting every
    instance again knows exactly the devices of the others, as they are.
   */
  lemma OverlapConverges(did: Did, n: Net, run: seq<Action>)
    requires Quiet(n) && Synced(n.cluster) && PossibleRun(did, n, run) && SmoothRun(did, n, run)
    requires Quiet(ActAll(did, n, run))
    ensures Synced(ActAll(did, n, run).cluster)
  {
    hide Converging, Quiet, Synced;
    QuietMeansSynced(n);
    RunConverges(did, n, run);
    QuietMeansSynced(ActAll(did, n, run));
  }
}
