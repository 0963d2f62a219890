/** Heartbeats and the relay's anti-entropy: how instances whose views diverged come to agree again. */
module ConnectHeartbeat {
  import opened ConnectAccount
  import opened ConnectCluster

  /** A message on its way to one instance. */
  datatype Packet = Packet(dest: nat, msg: RelayMsg)

  /** The instances of an account and the messages in the air between them, in no particular order. */
  datatype Air = Air(cluster: Cluster, flight: multiset<Packet>)

  datatype Turn = Beat(i: nat, now: int) | Deliver(packet: Packet, now: int)

  predicate CanTake(n: Air, a: Turn) {
    match a
    case Beat(i, _) => i < |n.cluster|
    case Deliver(packet, _) => packet in n.flight && packet.dest < |n.cluster|
  }

  /** One update for every local device of instance i, to every other instance. */
  function Announcements(did: Did, c: Cluster, i: nat): set<Packet>
    requires i < |c|
  {
    set j, id | 0 <= j < |c| && j != i && id in c[i].local :: Packet(j, UpdateMsg(i, did, id, c[i].local[id].device))
  }

  ghost function Taken(did: Did, n: Air, a: Turn): Air
    requires CanTake(n, a)
  {
    match a
    case Beat(i, now) =>
      Air(n.cluster[i := Prune(n.cluster[i], now)], n.flight + multiset(Announcements(did, n.cluster, i)))
    case Deliver(p, now) =>
      Air(n.cluster[p.dest := Hear(n.cluster[p.dest], p.dest, p.msg, now)], n.flight - multiset{p})
  }

  ghost predicate CanTakeAll(did: Did, n: Air, run: seq<Turn>)
    decreases |run|
  {
    run == [] || (CanTake(n, run[0]) && CanTakeAll(did, Taken(did, n, run[0]), run[1..]))
  }

  ghost function TakenAll(did: Did, n: Air, run: seq<Turn>): Air
    requires CanTakeAll(did, n, run)
    decreases |run|
  {
    if run == [] then n else TakenAll(did, Taken(did, n, run[0]), run[1..])
  }

  predicate BeatsIn(run: seq<Turn>, i: nat) {
    exists k :: 0 <= k < |run| && run[k].Beat? && run[k].i == i
  }

  /** Everything happens within one TTL of `start`. */
  predicate Within(run: seq<Turn>, start: int) {
    forall k :: 0 <= k < |run| ==> start <= run[k].now <= start + REMOTE_TTL_MS
  }

  /** Every message in flight announces a device at its one host, as it is. */
  ghost predicate FlightIsCurrent(did: Did, n: Air) {
    forall p :: p in n.flight ==>
      && p.msg.UpdateMsg? && p.msg.did == did
      && 0 <= p.msg.instance < |n.cluster| && p.msg.instance != p.dest
      && p.msg.deviceId in n.cluster[p.msg.instance].local
      && p.msg.device == n.cluster[p.msg.instance].local[p.msg.deviceId].device
  }

  /** Instance j has heard of device `id` of instance i since `start`, as it is, or is about to. */
  ghost predicate Heard(did: Did, n: Air, i: nat, j: nat, id: DeviceId, start: int)
    requires i < |n.cluster| && j < |n.cluster| && id in n.cluster[i].local
  {
    var device := n.cluster[i].local[id].device;
    || Packet(j, UpdateMsg(i, did, id, device)) in n.flight
    || (id in n.cluster[j].remote
        && n.cluster[j].remote[id].device == device
        && n.cluster[j].remote[id].lastSeen >= start)
  }

  /** The invariant of a heartbeat round. */
  ghost predicate Spreading(did: Did, n: Air, beaten: set<nat>, start: int) {
    && HostedOnce(n.cluster)
    && FlightIsCurrent(did, n)
    && forall i: nat, j: nat, id ::
         i in beaten && i < |n.cluster| && j < |n.cluster| && j != i && id in n.cluster[i].local ==>
           Heard(did, n, i, j, id, start)
  }

  lemma HearUpdate(a: Account, self: InstanceId, msg: RelayMsg, now: int)
    requires msg.UpdateMsg? && msg.instance != self
    ensures Hear(a, self, msg, now).local == a.local
    ensures Hear(a, self, msg, now).remote == a.remote[msg.deviceId := RemoteDevice(msg.device, msg.instance, now)]
  {
    RefreshSettles(WithRemote(a, msg.deviceId, RemoteDevice(msg.device, msg.instance, now)));
  }

  lemma PruneKeeps(a: Account, now: int)
    ensures Prune(a, now).local == a.local
    ensures Prune(a, now).remote == Fresh(a.remote, now - REMOTE_TTL_MS)
  {
    RefreshSettles(a.(remote := Fresh(a.remote, now - REMOTE_TTL_MS)));
  }

  lemma TakenLength(did: Did, n: Air, a: Turn)
    requires CanTake(n, a)
    ensures |Taken(did, n, a).cluster| == |n.cluster|
  {
  }

  /** No action of a round changes which devices are hosted where. */
  lemma LocalsKept(did: Did, n: Air, a: Turn, i: nat)
    requires CanTake(n, a) && FlightIsCurrent(did, n) && i < |n.cluster|
    ensures |Taken(did, n, a).cluster| == |n.cluster|
    ensures Taken(did, n, a).cluster[i].local == n.cluster[i].local
  {
    match a
    case Beat(k, now) => PruneKeeps(n.cluster[k], now);
    case Deliver(p, now) => HearUpdate(n.cluster[p.dest], p.dest, p.msg, now);
  }

  lemma BeatConverges(did: Did, n: Air, beaten: set<nat>, k: nat, now: int, start: int)
    requires Spreading(did, n, beaten, start) && k < |n.cluster| && start <= now <= start + REMOTE_TTL_MS
    ensures Spreading(did, Taken(did, n, Beat(k, now)), beaten + {k}, start)
  {
    hide Prune, Hear, Announcements;
    var n' := Taken(did, n, Beat(k, now));
    PruneKeeps(n.cluster[k], now);
    assert FlightIsCurrent(did, n') by {
      AnnouncementsAre(did, n.cluster, k);
    }
    forall i: nat, j: nat, id |
      i in beaten + {k} && i < |n.cluster| && j < |n.cluster| && j != i && id in n'.cluster[i].local
      ensures Heard(did, n', i, j, id, start)
    {
      if i == k {
        AnnouncementsAre(did, n.cluster, k);
      } else {
        assert Heard(did, n, i, j, id, start);
      }
    }
  }

  lemma AnnouncementsAre(did: Did, c: Cluster, i: nat)
    requires i < |c|
    ensures forall j: nat, id :: j < |c| && j != i && id in c[i].local ==>
      Packet(j, UpdateMsg(i, did, id, c[i].local[id].device)) in Announcements(did, c, i)
    ensures forall p :: p in Announcements(did, c, i) ==>
      && p.msg.UpdateMsg? && p.msg.did == did && p.msg.instance == i && p.dest != i
      && p.msg.deviceId in c[i].local && p.msg.device == c[i].local[p.msg.deviceId].device
  {
  }

  lemma DeliverConverges(did: Did, n: Air, beaten: set<nat>, p: Packet, now: int, start: int)
    requires Spreading(did, n, beaten, start) && CanTake(n, Deliver(p, now)) && start <= now
    ensures Spreading(did, Taken(did, n, Deliver(p, now)), beaten, start)
  {
    hide Taken, Heard, FlightIsCurrent, HostedOnce;
    var n' := Taken(did, n, Deliver(p, now));
    TakenLength(did, n, Deliver(p, now));
    forall i: nat | i < |n.cluster|
      ensures n'.cluster[i].local == n.cluster[i].local
    {
      LocalsKept(did, n, Deliver(p, now), i);
    }
    FlightKept(did, n, p, now);
    forall i: nat, j: nat, id | i in beaten && i < |n.cluster| && j < |n.cluster| && j != i && id in n'.cluster[i].local
      ensures Heard(did, n', i, j, id, start)
    {
      HeardAfterDelivery(did, n, p, now, i, j, id, start);
    }
  }

  lemma FlightKept(did: Did, n: Air, p: Packet, now: int)
    requires HostedOnce(n.cluster) && FlightIsCurrent(did, n) && CanTake(n, Deliver(p, now))
    requires
      var n' := Taken(did, n, Deliver(p, now));
      |n'.cluster| == |n.cluster| && forall i: nat :: i < |n.cluster| ==> n'.cluster[i].local == n.cluster[i].local
    ensures
      HostedOnce(Taken(did, n, Deliver(p, now)).cluster) && FlightIsCurrent(did, Taken(did, n, Deliver(p, now)))
  {
    var n' := Taken(did, n, Deliver(p, now));
    assert n'.flight <= n.flight;
    hide Taken;
    SameHosted(n.cluster, n'.cluster);
    hide HostedOnce;
    SameFlight(did, n, n');
  }

  lemma SameHosted(c: Cluster, after: Cluster)
    requires HostedOnce(c) && |after| == |c| && forall i: nat :: i < |c| ==> after[i].local == c[i].local
    ensures HostedOnce(after)
  {
  }

  lemma SameFlight(did: Did, n: Air, n': Air)
    requires FlightIsCurrent(did, n) && n'.flight <= n.flight && |n'.cluster| == |n.cluster|
    requires forall i: nat :: i < |n.cluster| ==> n'.cluster[i].local == n.cluster[i].local
    ensures FlightIsCurrent(did, n')
  {
    forall p | p in n'.flight
      ensures p in n.flight
    {
    }
  }

  lemma HostIsUnique(c: Cluster, i: nat, k: nat, id: DeviceId)
    requires HostedOnce(c) && i < |c| && k < |c| && id in c[i].local && id in c[k].local
    ensures i == k
  {
  }

  lemma HeardAfterDelivery(did: Did, n: Air, p: Packet, now: int, i: nat, j: nat, id: DeviceId, start: int)
    requires HostedOnce(n.cluster) && FlightIsCurrent(did, n) && CanTake(n, Deliver(p, now)) && start <= now
    requires i < |n.cluster| && j < |n.cluster| && j != i && id in n.cluster[i].local
    requires Heard(did, n, i, j, id, start)
    requires
      var n' := Taken(did, n, Deliver(p, now));
      |n'.cluster| == |n.cluster| && n'.cluster[i].local == n.cluster[i].local
    ensures Heard(did, Taken(did, n, Deliver(p, now)), i, j, id, start)
  {
    hide Hear;
    HearUpdate(n.cluster[p.dest], p.dest, p.msg, now);
    if p.dest == j && p.msg.deviceId == id {
      HostIsUnique(n.cluster, p.msg.instance, i, id);
    }
  }

  lemma {:induction false} RoundConverges(did: Did, n: Air, run: seq<Turn>, beaten: set<nat>, start: int)
    requires Spreading(did, n, beaten, start) && CanTakeAll(did, n, run) && Within(run, start)
    ensures
      var n' := TakenAll(did, n, run);
      && |n'.cluster| == |n.cluster|
      && (forall i: nat :: i < |n.cluster| ==> n'.cluster[i].local == n.cluster[i].local)
      && Spreading(did, n', beaten + (set i: nat | i < |n.cluster| && BeatsIn(run, i)), start)
    decreases |run|
  {
    hide Taken, Heard;
    var beating := set i: nat | i < |n.cluster| && BeatsIn(run, i);
    if run == [] {
      assert beaten + beating == beaten;
    } else {
      var a, rest := run[0], run[1..];
      forall i: nat | i < |n.cluster|
        ensures |Taken(did, n, a).cluster| == |n.cluster| && Taken(did, n, a).cluster[i].local == n.cluster[i].local
      {
        LocalsKept(did, n, a, i);
      }
      var also := if a.Beat? then {a.i} else {};
      if a.Beat? {
        BeatConverges(did, n, beaten, a.i, a.now, start);
      } else {
        DeliverConverges(did, n, beaten, a.packet, a.now, start);
        assert beaten + also == beaten;
      }
      TakenLength(did, n, a);
      RoundConverges(did, Taken(did, n, a), rest, beaten + also, start);
      forall i: nat
        ensures BeatsIn(run, i) <==> BeatsIn(rest, i) || i in also
      {
        BeatsSplit(run, i);
      }
      assert beaten + beating == (beaten + also) + (set i: nat | i < |n.cluster| && BeatsIn(rest, i));
    }
  }

  lemma BeatsSplit(run: seq<Turn>, i: nat)
    requires run != []
    ensures BeatsIn(run, i) <==> BeatsIn(run[1..], i) || (run[0].Beat? && run[0].i == i)
  {
    if k :| 0 <= k < |run[1..]| && run[1..][k].Beat? && run[1..][k].i == i {
      assert run[k + 1] == run[1..][k];
    }
    if k :| 0 <= k < |run| && run[k].Beat? && run[k].i == i && k > 0 {
      assert run[k] == run[1..][k - 1];
    }
  }

  /**
    From any views, however diverged, with no old message in flight: once every instance has beaten and all its
    announcements are delivered, in any interleaving within one TTL, every instance's roster shows every live
    device with its current state.
   */
  lemma AntiEntropy(did: Did, c: Cluster, run: seq<Turn>, start: int, i: nat, j: nat, id: DeviceId)
    requires HostedOnce(c) && i < |c| && j < |c| && id in c[i].local
    requires CanTakeAll(did, Air(c, multiset{}), run) && Within(run, start)
    requires forall k: nat :: k < |c| ==> BeatsIn(run, k)
    requires TakenAll(did, Air(c, multiset{}), run).flight == multiset{}
    ensures
      var after := TakenAll(did, Air(c, multiset{}), run).cluster;
      |after| == |c| && id in Roster(after[j]) && Roster(after[j])[id] == c[i].local[id].device
  {
    var n := Air(c, multiset{});
    RoundConverges(did, n, run, {}, start);
    var n' := TakenAll(did, n, run);
    hide CanTakeAll, TakenAll;
    assert i in {} + set k: nat | k < |c| && BeatsIn(run, k);
    if i != j {
      assert Heard(did, n', i, j, id, start);
      assert id !in n'.cluster[j].local;
    }
  }

  /** Deliveries publish nothing, so in-flight messages strictly decrease until the relay is quiet. */
  lemma {:induction false} DeliveriesDrain(did: Did, n: Air, run: seq<Turn>)
    requires CanTakeAll(did, n, run) && forall k :: 0 <= k < |run| ==> run[k].Deliver?
    ensures |TakenAll(did, n, run).flight| + |run| == |n.flight|
    decreases |run|
  {
    if run != [] {
      DeliveriesDrain(did, Taken(did, n, run[0]), run[1..]);
    }
  }

  // ---- after one TTL: the departed are gone too ------------------------------------------------

  /** What instance j knows of a device is so: it is hosted at its origin, not here, and is as known. */
  ghost predicate IsSo(c: Cluster, j: nat, id: DeviceId)
    requires j < |c| && id in c[j].remote
  {
    var r := c[j].remote[id];
    && 0 <= r.origin < |c| && r.origin != j
    && id in c[r.origin].local && c[r.origin].local[id].device == r.device
  }

  /** What was heard after s0 is so, and instances in `beaten` know nothing else. */
  ghost predicate Truthful(c: Cluster, beaten: set<nat>, s0: int) {
    forall j: nat :: j < |c| ==> TruthfulAt(c, j, j in beaten, s0)
  }

  ghost predicate TruthfulAt(c: Cluster, j: nat, beaten: bool, s0: int)
    requires j < |c|
  {
    && Settled(c[j])
    && forall id :: id in c[j].remote ==>
         (beaten ==> c[j].remote[id].lastSeen > s0) && (c[j].remote[id].lastSeen > s0 ==> IsSo(c, j, id))
  }

  lemma FlightStays(did: Did, n: Air, a: Turn)
    requires HostedOnce(n.cluster) && FlightIsCurrent(did, n) && CanTake(n, a)
    ensures HostedOnce(Taken(did, n, a).cluster) && FlightIsCurrent(did, Taken(did, n, a))
    ensures |Taken(did, n, a).cluster| == |n.cluster|
    ensures forall i: nat :: i < |n.cluster| ==> Taken(did, n, a).cluster[i].local == n.cluster[i].local
  {
    hide Prune, Hear, Announcements;
    forall i: nat | i < |n.cluster|
      ensures |Taken(did, n, a).cluster| == |n.cluster|
      ensures Taken(did, n, a).cluster[i].local == n.cluster[i].local
    {
      LocalsKept(did, n, a, i);
    }
    TakenLength(did, n, a);
    match a
    case Beat(k, now) => AnnouncementsAre(did, n.cluster, k);
    case Deliver(p, now) => FlightKept(did, n, p, now);
  }

  /** Which instances have pruned everything up to s0. */
  function BeatenBy(beaten: set<nat>, a: Turn, s0: int): set<nat> {
    if a.Beat? && a.now > s0 + REMOTE_TTL_MS then beaten + {a.i} else beaten
  }

  lemma OtherTruthful(c: Cluster, after: Cluster, j: nat, beaten: bool, s0: int)
    requires j < |c| == |after| && TruthfulAt(c, j, beaten, s0) && after[j] == c[j]
    requires forall i :: 0 <= i < |c| ==> after[i].local == c[i].local
    ensures TruthfulAt(after, j, beaten, s0)
  {
    hide Settled;
    forall id | id in c[j].remote && c[j].remote[id].lastSeen > s0
      ensures IsSo(after, j, id)
    {
      assert IsSo(c, j, id);
    }
  }

  lemma PrunedTruthful(c: Cluster, after: Cluster, j: nat, beaten: bool, s0: int, now: int)
    requires j < |c| == |after| && TruthfulAt(c, j, beaten, s0) && after[j] == Prune(c[j], now)
    requires forall i :: 0 <= i < |c| ==> after[i].local == c[i].local
    ensures TruthfulAt(after, j, beaten || now > s0 + REMOTE_TTL_MS, s0)
  {
    PruneKeeps(c[j], now);
    assert Settled(after[j]) by {
      RefreshSettles(c[j].(remote := Fresh(c[j].remote, now - REMOTE_TTL_MS)));
    }
    hide Settled, Prune;
    forall id | id in after[j].remote
      ensures after[j].remote[id] == c[j].remote[id] && after[j].remote[id].lastSeen >= now - REMOTE_TTL_MS
      ensures after[j].remote[id].lastSeen > s0 ==> IsSo(after, j, id)
    {
      assert c[j].remote[id].lastSeen > s0 ==> IsSo(c, j, id);
    }
  }

  lemma HeardTruthful(c: Cluster, after: Cluster, j: nat, beaten: bool, s0: int, msg: RelayMsg, now: int)
    requires j < |c| == |after| && TruthfulAt(c, j, beaten, s0) && after[j] == Hear(c[j], j, msg, now) && now > s0
    requires forall i :: 0 <= i < |c| ==> after[i].local == c[i].local
    requires msg.UpdateMsg? && 0 <= msg.instance < |c| && msg.instance != j
    requires msg.deviceId in c[msg.instance].local && msg.device == c[msg.instance].local[msg.deviceId].device
    ensures TruthfulAt(after, j, beaten, s0)
  {
    var r := RemoteDevice(msg.device, msg.instance, now);
    HearUpdate(c[j], j, msg, now);
    assert Settled(after[j]) by {
      RefreshSettles(WithRemote(c[j], msg.deviceId, r));
    }
    hide Settled, Hear;
    forall id | id in after[j].remote
      ensures beaten ==> after[j].remote[id].lastSeen > s0
      ensures after[j].remote[id].lastSeen > s0 ==> IsSo(after, j, id)
    {
      if id == msg.deviceId {
        assert after[j].remote[id] == r;
      } else {
        assert c[j].remote[id].lastSeen > s0 ==> IsSo(c, j, id);
      }
    }
  }

  lemma TakenCluster(did: Did, n: Air, a: Turn)
    requires CanTake(n, a)
    ensures
      Taken(did, n, a).cluster ==
        match a
        case Beat(i, now) => n.cluster[i := Prune(n.cluster[i], now)]
        case Deliver(p, now) => n.cluster[p.dest := Hear(n.cluster[p.dest], p.dest, p.msg, now)]
  {
  }

  lemma TruthfulStep(did: Did, n: Air, beaten: set<nat>, a: Turn, s0: int)
    requires HostedOnce(n.cluster) && FlightIsCurrent(did, n) && CanTake(n, a) && a.now > s0
    requires Truthful(n.cluster, beaten, s0)
    ensures Truthful(Taken(did, n, a).cluster, BeatenBy(beaten, a, s0), s0)
  {
    hide Taken, TruthfulAt, HostedOnce;
    FlightStays(did, n, a);
    forall j: nat | j < |n.cluster|
      ensures TruthfulAt(Taken(did, n, a).cluster, j, j in BeatenBy(beaten, a, s0), s0)
    {
      TruthfulStepAt(did, n, beaten, a, s0, j);
    }
  }

  lemma TruthfulStepAt(did: Did, n: Air, beaten: set<nat>, a: Turn, s0: int, j: nat)
    requires FlightIsCurrent(did, n) && CanTake(n, a) && a.now > s0 && j < |n.cluster|
    requires TruthfulAt(n.cluster, j, j in beaten, s0)
    requires
      var after := Taken(did, n, a).cluster;
      |after| == |n.cluster| && forall i: nat :: i < |n.cluster| ==> after[i].local == n.cluster[i].local
    ensures TruthfulAt(Taken(did, n, a).cluster, j, j in BeatenBy(beaten, a, s0), s0)
  {
    TakenCluster(did, n, a);
    var c, after := n.cluster, Taken(did, n, a).cluster;
    hide Taken, TruthfulAt, Prune, Hear;
    if a.Beat? && a.i == j {
      PrunedTruthful(c, after, j, j in beaten, s0, a.now);
    } else if a.Deliver? && a.packet.dest == j {
      HeardTruthful(c, after, j, j in beaten, s0, a.packet.msg, a.now);
    } else {
      OtherTruthful(c, after, j, j in beaten, s0);
    }
  }

  /** Everything happens after `start`. */
  predicate After(run: seq<Turn>, start: int) {
    forall k :: 0 <= k < |run| ==> run[k].now > start
  }

  lemma {:induction false} RunTruthful(did: Did, n: Air, run: seq<Turn>, beaten: set<nat>, s0: int)
    requires HostedOnce(n.cluster) && FlightIsCurrent(did, n) && CanTakeAll(did, n, run) && After(run, s0)
    requires Truthful(n.cluster, beaten, s0)
    ensures
      var n' := TakenAll(did, n, run);
      && |n'.cluster| == |n.cluster| && HostedOnce(n'.cluster) && FlightIsCurrent(did, n')
      && Truthful(n'.cluster, beaten + LateBeats(run, s0), s0)
    decreases |run|
  {
    hide Taken, Truthful, HostedOnce, FlightIsCurrent;
    if run == [] {
      assert beaten + LateBeats(run, s0) == beaten;
    } else {
      var a, rest := run[0], run[1..];
      FlightStays(did, n, a);
      TruthfulStep(did, n, beaten, a, s0);
      RunTruthful(did, Taken(did, n, a), rest, BeatenBy(beaten, a, s0), s0);
      assert beaten + LateBeats(run, s0) == BeatenBy(beaten, a, s0) + LateBeats(rest, s0);
    }
  }

  /** The instances that beat late enough to prune everything up to s0. */
  function LateBeats(run: seq<Turn>, s0: int): set<nat> {
    if run == [] then {}
    else LateBeats(run[1..], s0) + if run[0].Beat? && run[0].now > s0 + REMOTE_TTL_MS then {run[0].i} else {}
  }

  lemma {:induction false} BeatsAreLate(run: seq<Turn>, s0: int, i: nat)
    requires BeatsIn(run, i) && After(run, s0 + REMOTE_TTL_MS)
    ensures i in LateBeats(run, s0)
  {
    BeatsSplit(run, i);
    if BeatsIn(run[1..], i) {
      BeatsAreLate(run[1..], s0, i);
    }
  }

  /**
    From any settled views, whatever devices of gone instances they still show: once the clock has passed one TTL
    since any of that was heard, a round in which every instance beats and all is delivered leaves the whole
    cluster synchronised. Every live device is shown as it is, and departed or moved copies are gone.
   */
  lemma SyncedAfterTtl(did: Did, n: Air, early: seq<Turn>, late: seq<Turn>, s0: int, start: int)
    requires HostedOnce(n.cluster) && FlightIsCurrent(did, n)
    requires forall j: nat :: j < |n.cluster| ==> Settled(n.cluster[j])
    requires forall j: nat, id ::
      j < |n.cluster| && id in n.cluster[j].remote ==> n.cluster[j].remote[id].lastSeen <= s0
    requires CanTakeAll(did, n, early) && After(early, s0) && CanTakeAll(did, TakenAll(did, n, early), late)
    requires start > s0 + REMOTE_TTL_MS && Within(late, start)
    requires forall k: nat :: k < |n.cluster| ==> BeatsIn(late, k)
    requires TakenAll(did, TakenAll(did, n, early), late).flight == multiset{}
    ensures Synced(TakenAll(did, TakenAll(did, n, early), late).cluster)
  {
    hide CanTakeAll, TakenAll, HostedOnce, FlightIsCurrent, Settled;
    assert Truthful(n.cluster, {}, s0);
    RunTruthful(did, n, early, {}, s0);
    var m := TakenAll(did, n, early);
    WeakerTruth(m.cluster, {} + LateBeats(early, s0), s0);
    hide Truthful;
    RunTruthful(did, m, late, {}, s0);
    RoundConverges(did, m, late, {}, start);
    var after := TakenAll(did, m, late);
    var pruned, beaten := {} + LateBeats(late, s0), {} + set k: nat | k < |m.cluster| && BeatsIn(late, k);
    forall i: nat | i < |after.cluster|
      ensures i in pruned && i in beaten
    {
      BeatsAreLate(late, s0, i);
    }
    AllTold(did, after, pruned, beaten, s0, start);
  }

  lemma WeakerTruth(c: Cluster, beaten: set<nat>, s0: int)
    requires Truthful(c, beaten, s0)
    ensures Truthful(c, {}, s0)
  {
    hide Settled, IsSo;
    forall j: nat | j < |c|
      ensures TruthfulAt(c, j, false, s0)
    {
      assert TruthfulAt(c, j, j in beaten, s0);
    }
  }

  lemma AllTold(did: Did, n: Air, pruned: set<nat>, beaten: set<nat>, s0: int, start: int)
    requires Spreading(did, n, beaten, start) && Truthful(n.cluster, pruned, s0) && n.flight == multiset{}
    requires forall i: nat :: i < |n.cluster| ==> i in pruned && i in beaten
    ensures Synced(n.cluster)
  {
    var c := n.cluster;
    forall j: nat | j < |c|
      ensures Mirrors(c, j) && Settled(c[j])
    {
      assert TruthfulAt(c, j, j in pruned, s0);
      MirrorsWhenTold(did, n, beaten, j, s0, start);
    }
    hide Mirrors, Settled, Truthful;
  }

  lemma MirrorsWhenTold(did: Did, n: Air, beaten: set<nat>, j: nat, s0: int, start: int)
    requires Spreading(did, n, beaten, start) && n.flight == multiset{} && j < |n.cluster|
    requires TruthfulAt(n.cluster, j, true, s0) && forall i: nat :: i < |n.cluster| ==> i in beaten
    ensures Mirrors(n.cluster, j)
  {
    hide Settled, FlightIsCurrent;
    var c := n.cluster;
    forall i: nat, id | i < |c| && i != j && id in c[i].local
      ensures id in c[j].remote && c[j].remote[id].device == c[i].local[id].device && id !in c[j].local
    {
      assert Heard(did, n, i, j, id, start);
    }
    forall id | id in c[j].remote
      ensures id in AllIds(c) && id !in c[j].local
    {
      assert IsSo(c, j, id);
      HostIsElsewhere(c, c[j].remote[id].origin, j, id);
    }
    hide HostedOnce, Heard, IsSo;
    forall id | id in AllIds(c) && id !in c[j].local
      ensures id in c[j].remote
    {
      var i: nat :| i < |c| && id in c[i].local;
    }
  }

  lemma HostIsElsewhere(c: Cluster, i: nat, j: nat, id: DeviceId)
    requires HostedOnce(c) && i < |c| && j < |c| && i != j && id in c[i].local
    ensures id in AllIds(c) && id !in c[j].local
  {
  }

  // ---- expiry ----------------------------------------------------------------------------------

  /** The account after `ticks` heartbeats, the first at `first`, with nothing heard in between. */
  ghost function Ticked(a: Account, first: int, ticks: nat): Account {
    if ticks == 0 then a else Prune(Ticked(a, first, ticks - 1), first + (ticks - 1) * HEARTBEAT_MS)
  }

  /** A silent device is still there after a tick exactly when the tick came within one TTL of its last news. */
  lemma {:induction false} SilentDeviceExpires(a: Account, first: int, ticks: nat, id: DeviceId)
    requires id in a.remote && ticks > 0
    ensures id in Ticked(a, first, ticks).remote <==>
      first + (ticks - 1) * HEARTBEAT_MS <= a.remote[id].lastSeen + REMOTE_TTL_MS
    ensures id in Ticked(a, first, ticks).remote ==> Ticked(a, first, ticks).remote[id] == a.remote[id]
  {
    hide Prune;
    PruneKeeps(Ticked(a, first, ticks - 1), first + (ticks - 1) * HEARTBEAT_MS);
    if ticks > 1 {
      SilentDeviceExpires(a, first, ticks - 1, id);
    }
  }

  /** With ticks 30 s apart, it survives 90 s of silence and is gone by 120 s. */
  lemma GoneBy120Seconds(a: Account, first: int, id: DeviceId)
    requires id in a.remote
    requires a.remote[id].lastSeen < first <= a.remote[id].lastSeen + HEARTBEAT_MS
    ensures id in Ticked(a, first, 3).remote
    ensures
      var fourth := first + 3 * HEARTBEAT_MS;
      && a.remote[id].lastSeen + 90_000 < fourth <= a.remote[id].lastSeen + 120_000
      && id !in Ticked(a, first, 4).remote
  {
    SilentDeviceExpires(a, first, 3, id);
    SilentDeviceExpires(a, first, 4, id);
  }
}
