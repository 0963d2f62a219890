/**
  Several hub instances serving one account, and the relay between them. `Hub` proves that its handlers act
  on an account as the functions of ConnectAccount say; here those functions are composed across instances.
 */
module ConnectCluster {
  import opened TextOrder
  import opened ConnectAccount

  /** The account as each instance holds it; an instance's id is its index. */
  type Cluster = seq<Account>

  predicate HostedOnce(c: Cluster) {
    forall i, j :: 0 <= i < j < |c| ==> c[i].local.Keys !! c[j].local.Keys
  }

  function AllIds(c: Cluster): set<DeviceId> {
    set i, id | 0 <= i < |c| && id in c[i].local :: id
  }

  predicate WorldPlaying(c: Cluster) {
    exists i, id :: 0 <= i < |c| && id in c[i].local && c[i].local[id].device.state.playing
  }

  /** Instance i knows exactly the devices hosted elsewhere, with their current state. */
  ghost predicate Mirrors(c: Cluster, i: nat)
    requires i < |c|
  {
    && c[i].remote.Keys == AllIds(c) - c[i].local.Keys
    && forall j, id :: 0 <= j < |c| && j != i && id in c[j].local ==>
         id in c[i].remote && c[i].remote[id].device == c[j].local[id].device
  }

  ghost predicate Synced(c: Cluster) {
    HostedOnce(c) && forall i :: 0 <= i < |c| ==> Mirrors(c, i) && Settled(c[i])
  }

  // ---- one client event, relayed to every instance ---------------------------------------------

  datatype Event =
    | Report(host: nat, id: DeviceId, state: PlaybackState)
    | Depart(host: nat, id: DeviceId)
    | Arrive(host: nat, id: DeviceId, conn: Conn)

  /** Reports and departures come from hosted devices; an arriving device is new to the account. */
  predicate Enabled(c: Cluster, e: Event) {
    && e.host < |c|
    && match e
       case Report(host, id, _) => id in c[host].local
       case Depart(host, id) => id in c[host].local
       case Arrive(_, id, _) => id !in AllIds(c)
  }

  /** What the event does to the account at its host, before broadcasting and reconciling. */
  function Changed(c: Cluster, e: Event): Account
    requires Enabled(c, e)
  {
    var a := c[e.host];
    match e
    case Report(_, id, state) => WithState(a, id, state)
    case Depart(_, id) => WithoutLocal(a, id)
    case Arrive(_, id, conn) => a.(local := a.local[id := conn])
  }

  function Message(did: Did, c: Cluster, e: Event): RelayMsg
    requires Enabled(c, e)
  {
    match e
    case Report(host, id, state) => UpdateMsg(host, did, id, c[host].local[id].device.(state := state))
    case Depart(host, id) => LeaveMsg(host, did, id)
    case Arrive(host, id, conn) => JoinMsg(host, did, id, conn.device)
  }

  /** The host's account once it has handled the event. */
  ghost function Handled(did: Did, c: Cluster, e: Event): Account
    requires Enabled(c, e)
  {
    if e.Arrive? then Greet(Changed(c, e), did, e.id) else Refresh(Changed(c, e))
  }

  /** The event handled at its host and its message delivered everywhere; deliveries commute, each on one instance. */
  ghost function Relayed(did: Did, c: Cluster, e: Event, now: int): (after: Cluster)
    requires Enabled(c, e)
    ensures |after| == |c|
  {
    seq(|c|, i requires 0 <= i < |c| =>
      if i == e.host then Handled(did, c, e) else Hear(c[i], i, Message(did, c, e), now))
  }

  /** What instance i's account becomes before it is refreshed. */
  ghost function ChangedAt(did: Did, c: Cluster, e: Event, now: int, i: nat): Account
    requires Enabled(c, e) && i < |c|
  {
    if i == e.host then Changed(c, e)
    else match e
      case Depart(_, id) => c[i].(remote := c[i].remote - {id})
      case _ => WithRemote(c[i], e.id, RemoteDevice(Message(did, c, e).device, e.host, now))
  }

  // ---- cleanup ---------------------------------------------------------------------------------

  /** The cleanup frame an event calls for: to the lowest id left by a fall silent, or to a lone silent arrival. */
  ghost predicate Due(c: Cluster, after: Cluster, e: Event, i: nat, f: Frame)
    requires i < |after|
  {
    && IsCleanup(f)
    && f.to in after[i].local && f.sock == after[i].local[f.to].sock
    && IsLowest(f.to, AllIds(after))
    && if e.Arrive? then AllIds(c) == {} && !WorldPlaying(after)
       else WorldPlaying(c) && !WorldPlaying(after)
  }

  // ---- what a synchronised instance sees -------------------------------------------------------

  lemma MirrorSeesWorld(c: Cluster, i: nat)
    requires i < |c| && HostedOnce(c) && Mirrors(c, i)
    ensures Roster(c[i]).Keys == AllIds(c)
    ensures AnyPlaying(c[i]) <==> WorldPlaying(c)
  {
    hide Roster, Mirrors, HostedOnce;
    MirrorKeys(c, i);
    var r := Roster(c[i]);
    forall j: nat, id | j < |c| && id in c[j].local
      ensures id in r && r[id] == c[j].local[id].device
    {
      MirrorEntry(c, i, j, id);
    }
    if AnyPlaying(c[i]) {
      var id :| id in r && r[id].state.playing;
      var j: nat :| j < |c| && id in c[j].local;
      assert r[id] == c[j].local[id].device;
    }
    if WorldPlaying(c) {
      var j: nat, id :| j < |c| && id in c[j].local && c[j].local[id].device.state.playing;
      assert id in r && r[id].state.playing;
    }
  }

  lemma MirrorKeys(c: Cluster, i: nat)
    requires i < |c| && Mirrors(c, i)
    ensures Roster(c[i]).Keys == AllIds(c)
  {
    assert forall id :: id in c[i].local ==> id in AllIds(c);
  }

  lemma MirrorEntry(c: Cluster, i: nat, j: nat, id: DeviceId)
    requires i < |c| && HostedOnce(c) && Mirrors(c, i) && j < |c| && id in c[j].local
    ensures id in Roster(c[i]) && Roster(c[i])[id] == c[j].local[id].device
  {
  }

  /** A handled event changes nothing but its own device, at its host. */
  lemma HandledIs(did: Did, c: Cluster, e: Event)
    requires Enabled(c, e)
    ensures
      var b := Handled(did, c, e);
      b.local == Changed(c, e).local && b.remote == c[e.host].remote && Settled(b)
  {
    hide Refresh, Greet, Settled, Roster;
    if e.Arrive? {
      GreetSettles(Changed(c, e), did, e.id);
    } else {
      RefreshSettles(Changed(c, e));
    }
  }

  lemma IdHosted(c: Cluster, i: nat, id: DeviceId)
    requires i < |c| && id in c[i].local
    ensures id in AllIds(c)
  {
  }

  /** Everywhere, the event's outcome is the changed account, greeted or refreshed. */
  lemma RelayedIs(did: Did, c: Cluster, e: Event, now: int, i: nat)
    requires Synced(c) && Enabled(c, e) && i < |c|
    ensures
      var after, b := Relayed(did, c, e, now)[i], ChangedAt(did, c, e, now, i);
      && after == (if e.Arrive? && i == e.host then Greet(b, did, e.id) else Refresh(b))
      && after.local == b.local && after.remote == b.remote && Settled(after)
      && b.last == c[i].last && b.sent == c[i].sent
  {
    hide Refresh, Greet, Settled, Roster;
    if i == e.host {
      HandledIs(did, c, e);
    } else {
      if e.Depart? {
        hide AllIds;
        assert Mirrors(c, i) && e.id in c[e.host].local && e.id in AllIds(c) by { IdHosted(c, e.host, e.id); }
        assert e.id !in c[i].local;
      }
      RefreshSettles(ChangedAt(did, c, e, now, i));
    }
  }

  /** An event changes only its own device, only at its host. */
  lemma LocalsAfter(did: Did, c: Cluster, e: Event, now: int)
    requires Synced(c) && Enabled(c, e)
    ensures HostedOnce(Relayed(did, c, e, now))
    ensures
      var after := Relayed(did, c, e, now);
      && (forall i: nat, id :: i < |c| && id != e.id ==> (id in after[i].local <==> id in c[i].local))
      && (forall i: nat :: i < |c| ==> (e.id in after[i].local <==> i == e.host && !e.Depart?))
  {
    hide Relayed, Synced, Settled, Refresh, Greet, AllIds;
    SyncedIsHostedOnce(c);
    forall i: nat | i < |c|
      ensures Relayed(did, c, e, now)[i].local == ChangedAt(did, c, e, now, i).local
      ensures e.id in c[i].local <==> i == e.host && !e.Arrive?
    {
      RelayedIs(did, c, e, now, i);
      KnownEverywhere(c, e, i);
    }
  }

  lemma IdsAfter(did: Did, c: Cluster, e: Event, now: int)
    requires Synced(c) && Enabled(c, e)
    ensures HostedOnce(Relayed(did, c, e, now))
    ensures
      AllIds(Relayed(did, c, e, now)) ==
        match e
        case Report(_, _, _) => AllIds(c)
        case Depart(_, id) => AllIds(c) - {id}
        case Arrive(_, id, _) => AllIds(c) + {id}
  {
    hide Relayed, Synced, Settled, HostedOnce;
    var after := Relayed(did, c, e, now);
    LocalsAfter(did, c, e, now);
    KnownEverywhere(c, e, e.host);
    forall id | id != e.id
      ensures id in AllIds(after) <==> id in AllIds(c)
    {
      if id in AllIds(after) {
        var i: nat :| i < |after| && id in after[i].local;
        assert id in c[i].local;
      }
      if id in AllIds(c) {
        var i: nat :| i < |c| && id in c[i].local;
        assert id in after[i].local;
      }
    }
    assert e.id in AllIds(after) <==> !e.Depart? by {
      assert !e.Depart? ==> e.id in after[e.host].local;
    }
  }

  lemma SyncedIsHostedOnce(c: Cluster)
    requires Synced(c)
    ensures HostedOnce(c)
  {
  }

  lemma MirrorsAfter(did: Did, c: Cluster, e: Event, now: int, i: nat)
    requires Synced(c) && Enabled(c, e) && i < |c|
    ensures Mirrors(Relayed(did, c, e, now), i)
  {
    hide Relayed, Synced, AllIds, HostedOnce, Enabled, Mirrors;
    var after := Relayed(did, c, e, now);
    RemoteKeysAfter(did, c, e, now, i);
    forall j: nat, id | j < |c| && j != i && id in after[j].local
      ensures id in after[i].remote && after[i].remote[id].device == after[j].local[id].device
    {
      RemoteEntryAfter(did, c, e, now, i, j, id);
    }
    MirrorsIs(after, i);
  }

  lemma MirrorsIs(c: Cluster, i: nat)
    requires i < |c| && c[i].remote.Keys == AllIds(c) - c[i].local.Keys
    requires forall j: nat, id :: j < |c| && j != i && id in c[j].local ==>
      id in c[i].remote && c[i].remote[id].device == c[j].local[id].device
    ensures Mirrors(c, i)
  {
    hide AllIds;
  }

  lemma RemoteKeysAfter(did: Did, c: Cluster, e: Event, now: int, i: nat)
    requires Synced(c) && Enabled(c, e) && i < |c|
    ensures
      var after := Relayed(did, c, e, now);
      after[i].remote.Keys == AllIds(after) - after[i].local.Keys
  {
    hide Relayed, Synced, HostedOnce, Mirrors, Settled, Refresh, Greet, AllIds;
    IdsAfter(did, c, e, now);
    RelayedIs(did, c, e, now, i);
    KnownEverywhere(c, e, i);
  }

  /** The device an event is about, in the views before it. */
  lemma KnownEverywhere(c: Cluster, e: Event, i: nat)
    requires Synced(c) && Enabled(c, e) && i < |c|
    ensures c[i].remote.Keys == AllIds(c) - c[i].local.Keys && c[i].local.Keys <= AllIds(c)
    ensures e.id in AllIds(c) <==> !e.Arrive?
    ensures i != e.host ==> e.id !in c[i].local
    ensures i != e.host && !e.Arrive? ==> e.id in c[i].remote
  {
    assert Mirrors(c, i);
    assert forall id :: id in c[i].local ==> id in AllIds(c);
    assert !e.Arrive? ==> e.id in c[e.host].local;
  }

  lemma EntryBefore(c: Cluster, i: nat, j: nat, id: DeviceId)
    requires Synced(c) && i < |c| && j < |c| && i != j && id in c[j].local
    ensures id in c[i].remote && c[i].remote[id].device == c[j].local[id].device && id !in c[i].local
  {
    assert Mirrors(c, i);
  }

  lemma RemoteEntryAfter(did: Did, c: Cluster, e: Event, now: int, i: nat, j: nat, id: DeviceId)
    requires Synced(c) && Enabled(c, e) && i < |c| && j < |c| && j != i
    requires id in Relayed(did, c, e, now)[j].local
    ensures
      var after := Relayed(did, c, e, now);
      id in after[i].remote && after[i].remote[id].device == after[j].local[id].device
  {
    hide Relayed, Synced, HostedOnce, Mirrors, Settled, Refresh, Greet, AllIds;
    RelayedIs(did, c, e, now, i);
    RelayedIs(did, c, e, now, j);
    KnownEverywhere(c, e, i);
    KnownEverywhere(c, e, j);
    if id in c[j].local {
      EntryBefore(c, i, j, id);
    }
  }

  // ---- exactly one cleanup ---------------------------------------------------------------------

  /** At an instance that refreshes, the due frame and no other cleanup is sent. */
  lemma RefreshedCleanup(did: Did, c: Cluster, e: Event, now: int, i: nat, f: Frame)
    requires Synced(c) && Enabled(c, e) && i < |c| && IsCleanup(f)
    requires !(e.Arrive? && i == e.host)
    requires var after := Relayed(did, c, e, now); HostedOnce(after) && Mirrors(after, i)
    ensures
      var after := Relayed(did, c, e, now);
      after[i].sent[f] == c[i].sent[f] + if Due(c, after, e, i, f) then 1 else 0
  {
    var after, b := Relayed(did, c, e, now), ChangedAt(did, c, e, now, i);
    RelayedIs(did, c, e, now, i);
    IdsAfter(did, c, e, now);
    MirrorSeesWorld(after, i);
    MirrorSeesWorld(c, i);
    SameRoster(b, after[i]);
    CleanupExactly(c[i], b, f);
    hide Relayed, Refresh, Mirrors, Roster, AnyPlaying;
    if e.Arrive? {
      ArrivalKeepsPlaying(did, c, e, now);
    }
  }

  lemma ArrivalKeepsPlaying(did: Did, c: Cluster, e: Event, now: int)
    requires Synced(c) && Enabled(c, e) && e.Arrive?
    ensures WorldPlaying(c) ==> WorldPlaying(Relayed(did, c, e, now))
  {
    var after := Relayed(did, c, e, now);
    if WorldPlaying(c) {
      var j: nat, id :| j < |c| && id in c[j].local && c[j].local[id].device.state.playing;
      RelayedIs(did, c, e, now, j);
      assert id in AllIds(c);
      assert id in after[j].local && after[j].local[id].device.state.playing;
    }
  }

  /** At the host of an arrival, only a lone silent device is asked to clean up. */
  lemma GreetedCleanup(did: Did, c: Cluster, e: Event, now: int, f: Frame)
    requires Synced(c) && Enabled(c, e) && e.Arrive? && IsCleanup(f)
    requires var after := Relayed(did, c, e, now); HostedOnce(after) && Mirrors(after, e.host)
    ensures
      var after := Relayed(did, c, e, now);
      after[e.host].sent[f] == c[e.host].sent[f] + if Due(c, after, e, e.host, f) then 1 else 0
  {
    var i := e.host;
    var after, b := Relayed(did, c, e, now), Changed(c, e);
    RelayedIs(did, c, e, now, i);
    IdsAfter(did, c, e, now);
    MirrorSeesWorld(after, i);
    SameRoster(b, after[i]);
    GreetCleanups(b, did, e.id, f);
    LoneArrival(did, c, e, now);
    hide Relayed, Greet, Mirrors, Roster, AnyPlaying, WorldPlaying, AllIds;
    assert f.to in after[i].local && |AllIds(after)| == 1 ==> f.to == e.id;
  }

  lemma LoneArrival(did: Did, c: Cluster, e: Event, now: int)
    requires Synced(c) && Enabled(c, e) && e.Arrive?
    ensures
      var after := Relayed(did, c, e, now);
      && (|AllIds(after)| == 1 <==> AllIds(c) == {})
      && (AllIds(c) == {} ==> IsLowest(e.id, AllIds(after)) && forall id :: id in after[e.host].local ==> id == e.id)
      && (e.conn.device.state.playing ==> WorldPlaying(after))
  {
    var after, ids := Relayed(did, c, e, now), AllIds(c);
    IdsAfter(did, c, e, now);
    ArrivedIsHosted(did, c, e, now);
    hide Relayed, Synced, Enabled;
    if ids == {} {
      assert AllIds(after) == {e.id};
      assert forall id :: id in after[e.host].local ==> id in AllIds(after);
    } else {
      var x :| x in ids;
      hide AllIds;
      if |AllIds(after)| == 1 {
        OneElement(AllIds(after), x, e.id);
      }
    }
  }

  lemma ArrivedIsHosted(did: Did, c: Cluster, e: Event, now: int)
    requires Synced(c) && Enabled(c, e) && e.Arrive?
    ensures
      var after := Relayed(did, c, e, now);
      && e.id in after[e.host].local && e.id in AllIds(after) && e.id !in AllIds(c)
      && (e.conn.device.state.playing ==> WorldPlaying(after))
  {
    RelayedIs(did, c, e, now, e.host);
    hide Relayed, Synced;
    var after := Relayed(did, c, e, now);
    assert e.id in after[e.host].local && after[e.host].local[e.id].device == e.conn.device;
  }

  lemma OneElement<T>(s: set<T>, x: T, y: T)
    requires |s| == 1 && x in s && y in s
    ensures x == y
  {
    assert |s - {x}| == 0;
  }

  /**
    From a synchronised cluster, an event and its relay leave the cluster synchronised, and over all instances
    exactly the due cleanup frame is sent, once.
   */
  lemma OneCleanup(did: Did, c: Cluster, e: Event, now: int)
    requires Synced(c) && Enabled(c, e)
    ensures Synced(Relayed(did, c, e, now))
    ensures
      var after := Relayed(did, c, e, now);
      forall i: nat, f :: i < |c| && IsCleanup(f) ==>
        after[i].sent[f] == c[i].sent[f] + if Due(c, after, e, i, f) then 1 else 0
  {
    hide Relayed, Mirrors, Settled, Due, AllIds, WorldPlaying, HostedOnce, Enabled;
    var after := Relayed(did, c, e, now);
    IdsAfter(did, c, e, now);
    forall i: nat | i < |c|
      ensures Mirrors(after, i) && Settled(after[i])
    {
      MirrorsAfter(did, c, e, now, i);
      RelayedIs(did, c, e, now, i);
    }
    forall i: nat, f | i < |c| && IsCleanup(f)
      ensures after[i].sent[f] == c[i].sent[f] + if Due(c, after, e, i, f) then 1 else 0
    {
      if e.Arrive? && i == e.host {
        GreetedCleanup(did, c, e, now, f);
      } else {
        RefreshedCleanup(did, c, e, now, i, f);
      }
    }
  }

  /** At most one frame at one instance is due. */
  lemma DueIsUnique(did: Did, c: Cluster, e: Event, now: int)
    requires Synced(c) && Enabled(c, e)
    ensures
      var after := Relayed(did, c, e, now);
      forall i: nat, j: nat, f, g ::
        i < |after| && j < |after| && Due(c, after, e, i, f) && Due(c, after, e, j, g) ==> i == j && f == g
  {
    var after := Relayed(did, c, e, now);
    IdsAfter(did, c, e, now);
    hide Relayed, Synced, WorldPlaying, AllIds;
    forall i: nat, j: nat, f, g | i < |after| && j < |after| && Due(c, after, e, i, f) && Due(c, after, e, j, g)
      ensures i == j && f == g
    {
      LowestIsUnique(f.to, g.to, AllIds(after));
    }
  }

  /** And one is due exactly when the account fell silent with a device left, or a device arrived alone and silent. */
  lemma DueExists(did: Did, c: Cluster, e: Event, now: int)
    requires Synced(c) && Enabled(c, e)
    ensures
      var after := Relayed(did, c, e, now);
      var called :=
        AllIds(after) != {} && !WorldPlaying(after) && if e.Arrive? then AllIds(c) == {} else WorldPlaying(c);
      called <==> exists i: nat, f :: i < |after| && Due(c, after, e, i, f)
  {
    hide Relayed, Synced, WorldPlaying;
    var after := Relayed(did, c, e, now);
    if AllIds(after) != {} {
      var id := Lowest(AllIds(after));
      var i: nat :| i < |after| && id in after[i].local;
      var f := Frame(id, after[i].local[id].sock, Presence(false, true));
      assert !WorldPlaying(after) && (if e.Arrive? then AllIds(c) == {} else WorldPlaying(c)) ==>
        Due(c, after, e, i, f);
    }
  }

  // ---- whole runs ------------------------------------------------------------------------------

  ghost predicate EnabledRun(did: Did, c: Cluster, run: seq<(Event, int)>)
    decreases |run|
  {
    run == [] || (Enabled(c, run[0].0) && EnabledRun(did, Relayed(did, c, run[0].0, run[0].1), run[1..]))
  }

  ghost function Run(did: Did, c: Cluster, run: seq<(Event, int)>): Cluster
    requires EnabledRun(did, c, run)
    decreases |run|
  {
    if run == [] then c else Run(did, Relayed(did, c, run[0].0, run[0].1), run[1..])
  }

  /** How many times along the run device `f.to`, on instance i, was due to clean up through frame f. */
  ghost function TimesDue(did: Did, c: Cluster, run: seq<(Event, int)>, i: nat, f: Frame): nat
    requires EnabledRun(did, c, run) && i < |c|
    decreases |run|
  {
    if run == [] then 0
    else
      var after := Relayed(did, c, run[0].0, run[0].1);
      (if Due(c, after, run[0].0, i, f) then 1 else 0) + TimesDue(did, after, run[1..], i, f)
  }

  /** Along any run, every cleanup frame is sent exactly as often as it was due, on every instance. */
  lemma {:induction false} CleanupsOfRun(did: Did, c: Cluster, run: seq<(Event, int)>)
    requires Synced(c) && EnabledRun(did, c, run)
    ensures Synced(Run(did, c, run)) && |Run(did, c, run)| == |c|
    ensures forall i: nat, f :: i < |c| && IsCleanup(f) ==>
      Run(did, c, run)[i].sent[f] == c[i].sent[f] + TimesDue(did, c, run, i, f)
    decreases |run|
  {
    hide Relayed, Due, Synced;
    if run != [] {
      OneCleanup(did, c, run[0].0, run[0].1);
      CleanupsOfRun(did, Relayed(did, c, run[0].0, run[0].1), run[1..]);
    }
  }

  // ---- commands --------------------------------------------------------------------------------

  /** A command handled at `host` and, when the target is not there, relayed to every other instance. */
  ghost function Commands(
    did: Did, c: Cluster, host: nat, from: DeviceId, target: DeviceId, cmd: Command, now: int): Cluster
    requires host < |c|
  {
    if target == from then c
    else if target in c[host].local then c[host := DeliverCommand(c[host], target, from, cmd)]
    else seq(|c|, i requires 0 <= i < |c| => Hear(c[i], i, CommandMsg(host, did, target, from, cmd), now))
  }

  /**
    Over the whole cluster a command becomes exactly one frame, at the instance hosting the target, unless the
    target is the sender or hosted nowhere; then it becomes none. Nothing but that frame changes anywhere.
   */
  lemma OneCommandFrame(
    did: Did, c: Cluster, host: nat, from: DeviceId, target: DeviceId, cmd: Command, now: int, i: nat)
    requires HostedOnce(c) && host < |c| && i < |c|
    ensures
      var after := Commands(did, c, host, from, target, cmd, now);
      && |after| == |c|
      && after[i] == if target != from && target in c[i].local then Sent(c[i], target, Commanded(from, cmd)) else c[i]
  {
    if target != from && target !in c[host].local {
      var msg := CommandMsg(host, did, target, from, cmd);
      assert Commands(did, c, host, from, target, cmd, now)[i] == Hear(c[i], i, msg, now);
    }
  }
}
