/**
  Overlapping state reports: as long as no device arrives or leaves meanwhile, only the instance of the lowest
  device ever asks for a cleanup, and the account never ends silent without one.
 */
module ConnectReports {
  import opened TextOrder
  import opened ConnectAccount
  import opened ConnectCluster
  import opened ConnectNet
  import opened ConnectOverlap
  import opened ConnectFrames
  import opened ConnectCleanups

  /** The client events of the run are state reports. */
  predicate ReportsOnly(run: seq<Action>) {
    forall k :: 0 <= k < |run| && run[k].Happens? ==> run[k].event.Report?
  }

  /** A message that brings no device and takes none away. */
  predicate KeepsMembers(msg: RelayMsg, ids: set<DeviceId>) {
    msg.CommandMsg? || (msg.UpdateMsg? && msg.deviceId in ids)
  }

  /** Every instance knows of exactly the devices `ids`, and so do the messages waiting. */
  ghost predicate Members(n: Net, ids: set<DeviceId>) {
    && |n.inbox| == |n.cluster|
    && (forall i :: 0 <= i < |n.cluster| ==> Roster(n.cluster[i]).Keys == ids)
    && forall i, k :: 0 <= i < |n.inbox| && 0 <= k < |n.inbox[i]| ==> KeepsMembers(n.inbox[i][k], ids)
  }

  lemma RefreshMembers(a: Account)
    ensures Refresh(a).local == a.local && Roster(Refresh(a)).Keys == Roster(a).Keys
  {
    hide Reconcile;
    RefreshSettles(a);
  }

  lemma ReportMembers(did: Did, c: Cluster, e: Event)
    requires Enabled(c, e) && e.Report?
    ensures Handled(did, c, e).local.Keys == c[e.host].local.Keys
    ensures Roster(Handled(did, c, e)).Keys == Roster(c[e.host]).Keys
  {
    hide Refresh;
    RefreshMembers(Changed(c, e));
  }

  lemma HearMembers(a: Account, self: InstanceId, msg: RelayMsg, now: int, ids: set<DeviceId>)
    requires Roster(a).Keys == ids && KeepsMembers(msg, ids)
    ensures Hear(a, self, msg, now).local == a.local && Roster(Hear(a, self, msg, now)).Keys == ids
  {
    hide Refresh;
    if msg.UpdateMsg? {
      RefreshMembers(WithRemote(a, msg.deviceId, RemoteDevice(msg.device, msg.instance, now)));
    }
  }

  lemma ActedMembers(did: Did, n: Net, a: Action, ids: set<DeviceId>)
    requires Possible(n, a) && Smooth(n, a) && (a.Happens? ==> a.event.Report?) && Members(n, ids)
    ensures Acted(did, n, a).local.Keys == n.cluster[a.At()].local.Keys
    ensures Roster(Acted(did, n, a)).Keys == ids
    ensures forall k :: 0 <= k < |Published(did, n, a)| ==> KeepsMembers(Published(did, n, a)[k], ids)
  {
    hide Handled, Hear, Prune;
    match a
    case Happens(e) => ReportMembers(did, n.cluster, e);
    case Orders(_, _, _, _) =>
    case Beats(host, now, _) => PruneNothing(n.cluster[host], now);
    case Delivered(dest, now) => HearMembers(n.cluster[dest], dest, n.inbox[dest][0], now, ids);
  }

  lemma PruneNothing(a: Account, now: int)
    requires Fresh(a.remote, now - REMOTE_TTL_MS) == a.remote
    ensures Prune(a, now) == a
  {
  }

  lemma ActMembers(did: Did, n: Net, a: Action, ids: set<DeviceId>)
    requires Possible(n, a) && Smooth(n, a) && (a.Happens? ==> a.event.Report?) && Members(n, ids)
    ensures Members(Act(did, n, a), ids)
    ensures forall i :: 0 <= i < |n.cluster| ==> Act(did, n, a).cluster[i].local.Keys == n.cluster[i].local.Keys
  {
    ActedMembers(did, n, a, ids);
    hide Acted, Published, KeepsMembers, Roster, Waiting;
    forall i: nat | i < |n.inbox|
      ensures forall k :: 0 <= k < |Act(did, n, a).inbox[i]| ==> KeepsMembers(Act(did, n, a).inbox[i][k], ids)
    {
      WaitingMembers(n, a, i, ids);
    }
  }

  lemma WaitingMembers(n: Net, a: Action, i: nat, ids: set<DeviceId>)
    requires Possible(n, a) && Members(n, ids) && i < |n.inbox|
    ensures forall k :: 0 <= k < |Waiting(n, a, i)| ==> KeepsMembers(Waiting(n, a, i)[k], ids)
  {
    hide KeepsMembers, Roster;
    forall k | 0 <= k < |Waiting(n, a, i)|
      ensures KeepsMembers(Waiting(n, a, i)[k], ids)
    {
      var j := if a.Delivered? && i == a.dest then k + 1 else k;
      assert Waiting(n, a, i)[k] == n.inbox[i][j];
    }
  }

  /** How often the view of instance o falls silent along the run. */
  ghost function Falls(did: Did, n: Net, run: seq<Action>, o: nat): nat
    requires PossibleRun(did, n, run) && o < |n.cluster|
    decreases |run|
  {
    if run == [] then 0
    else
      (if run[0].At() == o && AnyPlaying(n.cluster[o]) && !AnyPlaying(Acted(did, n, run[0])) then 1 else 0)
      + Falls(did, Act(did, n, run[0]), run[1..], o)
  }

  /** The lowest device's instance is the only one that can pass the guard, and passes it whenever its view falls. */
  lemma OwnerAsks(did: Did, n: Net, a: Action, ids: set<DeviceId>, owner: DeviceId, o: nat)
    requires HostedOnce(n.cluster) && Possible(n, a) && Smooth(n, a) && (a.Happens? ==> a.event.Report?)
    requires Members(n, ids) && IsLowest(owner, ids) && o < |n.cluster| && owner in n.cluster[o].local
    ensures Passes(did, n, a) <==> a.At() == o && AnyPlaying(n.cluster[o]) && !AnyPlaying(Acted(did, n, a))
    ensures forall f :: Asks(did, n, a, f) ==> f.to == owner
  {
    ActedMembers(did, n, a, ids);
    hide Acted, Roster, AnyPlaying, Published, Members, IsLowest, KeepsMembers, HostedOnce;
    var after := Acted(did, n, a);
    forall f | Asks(did, n, a, f)
      ensures f.to == owner && a.At() == o
    {
      LowestIsUnique(f.to, owner, ids);
      OnlyHost(n.cluster, a.At(), o, owner);
    }
    if a.At() == o && AnyPlaying(n.cluster[o]) && !AnyPlaying(after) {
      assert Asks(did, n, a, Frame(owner, after.local[owner].sock, Presence(false, true)));
    }
  }

  lemma OnlyHost(c: Cluster, i: nat, j: nat, id: DeviceId)
    requires HostedOnce(c) && i < |c| && j < |c| && id in c[i].local && id in c[j].local
    ensures i == j
  {
  }

  lemma {:induction false} OwnerAsksAlways(
    did: Did, n: Net, run: seq<Action>, ids: set<DeviceId>, owner: DeviceId, o: nat, i: nat, f: Frame)
    requires HostedOnce(n.cluster) && PossibleRun(did, n, run) && SmoothRun(did, n, run) && ReportsOnly(run)
    requires Members(n, ids) && IsLowest(owner, ids) && o < |n.cluster| && owner in n.cluster[o].local
    requires i < |n.cluster| && IsCleanup(f)
    ensures Passed(did, n, run) == Falls(did, n, run, o)
    ensures !(i == o && f.to == owner) ==> TimesAsked(did, n, run, i, f) == 0
    decreases |run|
  {
    hide Act, Acted, Passes, Asks, Members, Smooth, AnyPlaying, HostedOnce, IsLowest, IsCleanup;
    if run != [] {
      var a, rest := run[0], run[1..];
      assert ReportsOnly(rest);
      OwnerAsks(did, n, a, ids, owner, o);
      ActMembers(did, n, a, ids);
      ActHostedOnce(did, n, a);
      OwnerStays(did, n, a, owner, o);
      OwnerAsksAlways(did, Act(did, n, a), rest, ids, owner, o, i, f);
      AskPasses(did, n, a, f);
    }
  }

  lemma AskPasses(did: Did, n: Net, a: Action, f: Frame)
    requires Possible(n, a)
    ensures Asks(did, n, a, f) ==> Passes(did, n, a)
  {
  }

  lemma OwnerStays(did: Did, n: Net, a: Action, owner: DeviceId, o: nat)
    requires Possible(n, a) && o < |n.cluster| && owner in n.cluster[o].local
    requires Act(did, n, a).cluster[o].local.Keys == n.cluster[o].local.Keys
    ensures owner in Act(did, n, a).cluster[o].local
  {
  }

  lemma {:induction false} FallsAtLeast(did: Did, n: Net, run: seq<Action>, o: nat)
    requires PossibleRun(did, n, run) && o < |n.cluster|
    requires AnyPlaying(n.cluster[o]) && !AnyPlaying(ActAll(did, n, run).cluster[o])
    ensures Falls(did, n, run, o) >= 1
    decreases |run|
  {
    hide Acted, AnyPlaying, Waiting, Published;
    if run != [] && AnyPlaying(Act(did, n, run[0]).cluster[o]) {
      FallsAtLeast(did, Act(did, n, run[0]), run[1..], o);
    }
  }

  lemma MembersAtRest(n: Net)
    requires Quiet(n) && Synced(n.cluster)
    ensures Members(n, AllIds(n.cluster)) && HostedOnce(n.cluster) && AllSettled(n.cluster)
    ensures forall i :: 0 <= i < |n.cluster| ==> (AnyPlaying(n.cluster[i]) <==> WorldPlaying(n.cluster))
  {
    hide Roster, AllIds, WorldPlaying, AnyPlaying, Mirrors;
    forall i: nat | i < |n.cluster|
      ensures Roster(n.cluster[i]).Keys == AllIds(n.cluster)
      ensures AnyPlaying(n.cluster[i]) <==> WorldPlaying(n.cluster)
    {
      MirrorSeesWorld(n.cluster, i);
    }
  }

  /**
    From rest, let state reports, commands, heartbeats and deliveries overlap in any way. Every cleanup goes to the
    lowest device, as often as its instance's view fell silent; and if the account played at the start and is
    silent, at rest, at the end, at least one was sent.
   */
  lemma ReportsNeverLoseCleanup(did: Did, n: Net, run: seq<Action>, o: nat, owner: DeviceId, i: nat, f: Frame)
    requires Quiet(n) && Synced(n.cluster) && PossibleRun(did, n, run) && SmoothRun(did, n, run) && ReportsOnly(run)
    requires IsLowest(owner, AllIds(n.cluster)) && o < |n.cluster| && owner in n.cluster[o].local
    requires i < |n.cluster| && IsCleanup(f)
    ensures
      var after := ActAll(did, n, run);
      && Total(after.cluster, IsCleanup) == Total(n.cluster, IsCleanup) + Falls(did, n, run, o)
      && (!(i == o && f.to == owner) ==> after.cluster[i].sent[f] == n.cluster[i].sent[f])
      && (WorldPlaying(n.cluster) && Quiet(after) && !WorldPlaying(after.cluster) ==> Falls(did, n, run, o) >= 1)
  {
    hide Quiet, Synced, AllIds, WorldPlaying, AnyPlaying, Members, ActAll, PossibleRun, SmoothRun, ReportsOnly;
    hide IsLowest, HostedOnce, AllSettled, IsCleanup, Total, Falls, Passed, TimesAsked;
    MembersAtRest(n);
    TotalCleanupsOfAnyRun(did, n, run);
    CleanupsOfAnyRun(did, n, run, i, f);
    OwnerAsksAlways(did, n, run, AllIds(n.cluster), owner, o, i, f);
    var after := ActAll(did, n, run);
    if WorldPlaying(n.cluster) && Quiet(after) && !WorldPlaying(after.cluster) {
      OverlapConverges(did, n, run);
      MembersAtRest(after);
      FallsAtLeast(did, n, run, o);
    }
  }
}
