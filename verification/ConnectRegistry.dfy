/**
  The registries of a Connect instance as values: nested maps, the key order of a live Map, and how pruning
  while iterating changes them.
 */
module ConnectRegistry {
  import opened Basics
  import opened TextOrder
  import opened ConnectAccount

  /** What a socket that said hello is connected as. The object survives being replaced in the registry. */
  datatype LocalConn = LocalConn(did: Did, deviceId: DeviceId, device: Device)

  function Get<K, V>(m: map<K, V>, k: K, default: V): V {
    if k in m then m[k] else default
  }

  /** A count went up by one exactly when a condition holds. */
  predicate Counted(before: nat, now: nat, holds: bool) {
    now == if holds then before + 1 else before
  }

  /** What looking an account up does to a registry: it is inserted, empty, when missing. */
  function Touched<V>(m: map<Did, map<DeviceId, V>>, did: Did): map<Did, map<DeviceId, V>> {
    if did in m then m else m[did := map[]]
  }

  /** A Map's keys in insertion order; deleting leaves a hole for live iteration (section 24.1.5 of ECMA-262). */
  ghost predicate SlotsOf(slots: seq<Option<Did>>, keys: set<Did>) {
    && (forall did :: did in keys <==> Some(did) in slots)
    && (forall i, j :: 0 <= i < j < |slots| && slots[i].Some? ==> slots[i] != slots[j])
  }

  function TouchedSlots(slots: seq<Option<Did>>, present: bool, did: Did): seq<Option<Did>> {
    if present then slots else slots + [Some(did)]
  }

  /** Registered sockets are known, under the account and device id they are registered for. */
  ghost predicate Linked(conns: map<Sock, LocalConn>, local: map<Did, map<DeviceId, Sock>>) {
    forall did, id :: did in local && id in local[did] ==>
      var sock := local[did][id];
      sock in conns && conns[sock].did == did && conns[sock].deviceId == id
  }

  /** An account's devices connected here; a missing registry entry and an empty one look the same. */
  ghost function LocalView(
    conns: map<Sock, LocalConn>, local: map<Did, map<DeviceId, Sock>>, did: Did): map<DeviceId, Conn>
    requires Linked(conns, local)
  {
    map id | id in Get(local, did, map[]) :: Conn(local[did][id], conns[local[did][id]].device)
  }

  /** Whether a socket is the one registered for its account and device id. */
  predicate InRegistry(conns: map<Sock, LocalConn>, local: map<Did, map<DeviceId, Sock>>, sock: Sock)
    requires sock in conns
  {
    var c := conns[sock];
    c.did in local && c.deviceId in local[c.did] && local[c.did][c.deviceId] == sock
  }

  /** How the live iteration stands with one account: how often visited, and whether it is still ahead. */
  ghost predicate Progress(
    did: Did, visits: nat, remote: map<Did, map<DeviceId, RemoteDevice>>, ahead: seq<Option<Did>>)
  {
    && visits <= 2
    && (visits == 0 && did in remote ==> Some(did) in ahead)
    && (visits == 1 && Some(did) in ahead ==> did in remote && remote[did] == map[])
    && (visits == 2 ==> Some(did) !in ahead)
  }

  ghost function StaleAccounts(remote: map<Did, map<DeviceId, RemoteDevice>>, cutoff: int): set<Did> {
    set did | did in remote && Fresh(remote[did], cutoff) != remote[did]
  }

  /** The slot of a deleted key becomes a hole. */
  function Without(slots: seq<Option<Did>>, did: Did): (r: seq<Option<Did>>)
    ensures |r| == |slots|
  {
    seq(|slots|, i requires 0 <= i < |slots| => if slots[i] == Some(did) then None else slots[i])
  }

  /** The Map of remote accounts after pruning one of them. */
  function Pruned(remote: map<Did, map<DeviceId, RemoteDevice>>, slots: seq<Option<Did>>, did: Did, cutoff: int)
    : (map<Did, map<DeviceId, RemoteDevice>>, seq<Option<Did>>)
  {
    if did !in remote then (remote, slots)
    else
      var kept := Fresh(remote[did], cutoff);
      if kept != map[] then (remote[did := kept], slots)
      else if remote[did] == map[] then (remote - {did}, Without(slots, did))
      else (remote[did := map[]], Without(slots, did) + [Some(did)])
  }

  lemma PrunedCases(remote: map<Did, map<DeviceId, RemoteDevice>>, slots: seq<Option<Did>>, did: Did, cutoff: int)
    requires did in remote
    ensures
      var kept := Fresh(remote[did], cutoff);
      var stored := if |kept| == 0 then remote - {did} else remote[did := kept];
      var left := if |kept| == 0 then Without(slots, did) else slots;
      Pruned(remote, slots, did, cutoff) ==
        if kept == remote[did] then (stored, left)
        else (Touched(stored, did), TouchedSlots(left, did in stored, did))
  {
    var kept := Fresh(remote[did], cutoff);
    assert |kept| == 0 <==> kept == map[];
    assert (remote - {did})[did := map[]] == remote[did := map[]];
  }

  lemma PrunedAbsent(remote: map<Did, map<DeviceId, RemoteDevice>>, slots: seq<Option<Did>>, did: Did, cutoff: int)
    requires did !in remote
    ensures Pruned(remote, slots, did, cutoff) == (remote, slots)
  {
  }

  lemma PruneSettles(a: Account, now: int)
    requires Settled(a)
    ensures Settled(Prune(a, now))
  {
    RefreshSettles(a.(remote := Fresh(a.remote, now - REMOTE_TTL_MS)));
  }

  lemma PruneOfEmpty(a: Account, now: int)
    requires a.remote == map[]
    ensures Prune(a, now) == a
  {
  }

  lemma ProgressStart(remote: map<Did, map<DeviceId, RemoteDevice>>, slots: seq<Option<Did>>)
    requires SlotsOf(slots, remote.Keys)
    ensures forall did :: Progress(did, 0, remote, slots[0..])
  {
    assert slots[0..] == slots;
  }

  lemma ProgressSkip(
    remote: map<Did, map<DeviceId, RemoteDevice>>, slots: seq<Option<Did>>, i: nat, visits: multiset<Did>)
    requires i < |slots| && slots[i].None?
    requires forall did :: Progress(did, visits[did], remote, slots[i..])
    ensures forall did :: Progress(did, visits[did], remote, slots[i + 1..])
  {
    forall did
      ensures Progress(did, visits[did], remote, slots[i + 1..])
    {
      assert Progress(did, visits[did], remote, slots[i..]);
      AheadSkips(slots, i, did);
    }
  }

  lemma AheadSkips(slots: seq<Option<Did>>, i: nat, did: Did)
    requires i < |slots| && slots[i] != Some(did)
    ensures Some(did) in slots[i..] <==> Some(did) in slots[i + 1..]
  {
    assert slots[i..] == [slots[i]] + slots[i + 1..];
  }

  /** One visit: the measure drops, and every account's standing is kept. */
  lemma ProgressStep(
    remote: map<Did, map<DeviceId, RemoteDevice>>, slots: seq<Option<Did>>, i: nat, visits: multiset<Did>, did: Did,
    cutoff: int)
    requires i < |slots| && slots[i] == Some(did) && SlotsOf(slots, remote.Keys)
    requires forall d :: Progress(d, visits[d], remote, slots[i..])
    ensures
      var (remote', slots') := Pruned(remote, slots, did, cutoff);
      && |slots'| > i
      && (forall d :: Progress(d, (visits + multiset{did})[d], remote', slots'[i + 1..]))
      && (StaleAccounts(remote', cutoff) < StaleAccounts(remote, cutoff)
          || (StaleAccounts(remote', cutoff) == StaleAccounts(remote, cutoff) && |slots'| == |slots|))
  {
    var (remote', slots') := Pruned(remote, slots, did, cutoff);
    assert Some(did) in slots;
    assert slots[i..] == [slots[i]] + slots[i + 1..];
    assert Some(did) in slots[i..];
    StaleAfter(remote, slots, did, cutoff);
    forall d
      ensures Progress(d, (visits + multiset{did})[d], remote', slots'[i + 1..])
    {
      assert Progress(d, visits[d], remote, slots[i..]);
      AheadAfter(remote, slots, i, did, d, cutoff);
    }
  }

  lemma AheadAfter(
    remote: map<Did, map<DeviceId, RemoteDevice>>, slots: seq<Option<Did>>, i: nat, did: Did, d: Did, cutoff: int)
    requires i < |slots| && slots[i] == Some(did) && SlotsOf(slots, remote.Keys) && did in remote
    ensures
      var slots' := Pruned(remote, slots, did, cutoff).1;
      && |slots'| > i
      && (d != did ==> (Some(d) in slots'[i + 1..] <==> Some(d) in slots[i..]))
      && (Some(did) in slots'[i + 1..] <==> Fresh(remote[did], cutoff) == map[] && remote[did] != map[])
  {
    var r := Without(slots, did);
    var grown := r + [Some(did)];
    assert slots[i..] == [Some(did)] + slots[i + 1..];
    forall k | i + 1 <= k < |slots|
      ensures slots[k] != Some(did) && r[k] == slots[k]
    {
    }
    assert r[i + 1..] == slots[i + 1..];
    assert grown[i + 1..] == r[i + 1..] + [Some(did)];
  }

  lemma StaleAfter(remote: map<Did, map<DeviceId, RemoteDevice>>, slots: seq<Option<Did>>, did: Did, cutoff: int)
    requires did in remote
    ensures
      var (remote', slots') := Pruned(remote, slots, did, cutoff);
      || StaleAccounts(remote', cutoff) < StaleAccounts(remote, cutoff)
      || (StaleAccounts(remote', cutoff) == StaleAccounts(remote, cutoff) && |slots'| == |slots|)
  {
    var kept := Fresh(remote[did], cutoff);
    var remote' := Pruned(remote, slots, did, cutoff).0;
    assert Fresh(kept, cutoff) == kept && Fresh(map[], cutoff) == map[];
    assert forall d :: d != did ==> (d in StaleAccounts(remote', cutoff) <==> d in StaleAccounts(remote, cutoff));
    assert did !in StaleAccounts(remote', cutoff);
    if kept != remote[did] {
      assert did in StaleAccounts(remote, cutoff);
      assert StaleAccounts(remote', cutoff) <= StaleAccounts(remote, cutoff);
    } else {
      assert StaleAccounts(remote', cutoff) == StaleAccounts(remote, cutoff);
    }
  }

  lemma SlotsShrink(slots: seq<Option<Did>>, keys: set<Did>, did: Did)
    requires SlotsOf(slots, keys) && did in keys
    ensures SlotsOf(Without(slots, did), keys - {did})
  {
    var r := Without(slots, did);
    forall d
      ensures d in keys - {did} <==> Some(d) in r
    {
      if d in keys - {did} {
        var i :| 0 <= i < |slots| && slots[i] == Some(d);
        assert r[i] == Some(d);
      }
    }
  }

  lemma SlotsGrow(slots: seq<Option<Did>>, keys: set<Did>, did: Did)
    requires SlotsOf(slots, keys) && did !in keys
    ensures SlotsOf(slots + [Some(did)], keys + {did})
  {
    var grown := slots + [Some(did)];
    assert grown[|slots|] == Some(did);
    forall d
      ensures d in keys + {did} <==> Some(d) in grown
    {
      if d in keys {
        var i :| 0 <= i < |slots| && slots[i] == Some(d);
        assert grown[i] == Some(d);
      }
    }
  }

  /** The account's lowest device if it is connected here, none exactly when it is not. */
  ghost predicate IsOwner(owner: Option<DeviceId>, a: Account) {
    if owner.Some? then owner.value in a.local && IsLowest(owner.value, Roster(a).Keys)
    else forall id :: id in a.local ==> !IsLowest(id, Roster(a).Keys)
  }

  lemma LowestIsOwner(a: Account, best: DeviceId)
    requires forall id :: IsLowest(id, Roster(a).Keys) <==> id == best
    ensures IsOwner(if best in a.local then Some(best) else None, a)
  {
  }

  lemma NobodyOwns(a: Account)
    requires |Roster(a)| == 0
    ensures IsOwner(None, a)
  {
  }

  lemma CleanupFramesAre(a: Account, owner: Option<DeviceId>)
    requires a.last && !AnyPlaying(a) && IsOwner(owner, a)
    ensures CleanupFrames(a) ==
      if owner.Some? then {Frame(owner.value, a.local[owner.value].sock, Presence(false, true))} else {}
  {
    forall x | x in CleanupTargets(a)
      ensures owner.Some? && x == owner.value
    {
      if owner.Some? {
        LowestIsUnique(x, owner.value, Roster(a).Keys);
      }
    }
    assert owner.Some? ==> owner.value in CleanupTargets(a);
  }

  lemma NoCleanupFrames(a: Account)
    requires !(a.last && !AnyPlaying(a))
    ensures CleanupFrames(a) == {}
  {
  }

  lemma RosterIs(a: Account, byId: map<DeviceId, Device>)
    requires byId.Keys == a.remote.Keys + a.local.Keys
    requires forall id :: id in byId ==> byId[id] == if id in a.local then a.local[id].device else a.remote[id].device
    ensures byId == Roster(a)
  {
  }

  lemma DeliverKeepsRoster(a: Account, target: DeviceId, from: DeviceId, cmd: Command)
    ensures Settled(DeliverCommand(a, target, from, cmd)) == Settled(a)
  {
  }

  // ---- the local registry as accounts ----------------------------------------------------------

  lemma LocalViewAfterState(
    conns: map<Sock, LocalConn>, local: map<Did, map<DeviceId, Sock>>, sock: Sock, state: PlaybackState)
    requires Linked(conns, local) && sock in conns
    ensures
      var c := conns[sock];
      var device := c.device.(state := state);
      var after := conns[sock := c.(device := device)];
      && Linked(after, local)
      && forall d :: LocalView(after, local, d) ==
           if d == c.did && InRegistry(conns, local, sock)
           then LocalView(conns, local, d)[c.deviceId := Conn(sock, device)]
           else LocalView(conns, local, d)
    ensures InRegistry(conns, local, sock) ==>
      conns[sock].deviceId in LocalView(conns, local, conns[sock].did)
      && LocalView(conns, local, conns[sock].did)[conns[sock].deviceId] == Conn(sock, conns[sock].device)
  {
  }

  lemma LocalViewAfterPut(
    conns: map<Sock, LocalConn>, local: map<Did, map<DeviceId, Sock>>, did: Did, id: DeviceId, sock: Sock,
    device: Device)
    requires Linked(conns, local) && sock !in conns
    ensures
      var after := conns[sock := LocalConn(did, id, device)];
      var registry := local[did := Get(local, did, map[])[id := sock]];
      var before := LocalView(conns, local, did);
      && Linked(after, registry)
      && LocalView(after, registry, did) == before[id := Conn(sock, device)]
      && (forall d :: d != did ==> LocalView(after, registry, d) == LocalView(conns, local, d))
      && ((did in local && id in local[did]) <==> id in before)
      && (id in before ==> before[id].sock == local[did][id])
  {
    LinkedAfterPut(conns, local, did, id, sock, device);
    var after := conns[sock := LocalConn(did, id, device)];
    var registry := local[did := Get(local, did, map[])[id := sock]];
    hide Linked, LocalView;
    LocalViewOf(conns, local, did);
    OwnViewAfterPut(conns, local, did, id, sock, device);
    forall d | d != did
      ensures LocalView(after, registry, d) == LocalView(conns, local, d)
    {
      SameLocalView(conns, local, after, registry, d);
    }
  }

  lemma LocalViewOf(conns: map<Sock, LocalConn>, local: map<Did, map<DeviceId, Sock>>, did: Did)
    requires Linked(conns, local)
    ensures LocalView(conns, local, did).Keys == Get(local, did, map[]).Keys
    ensures forall id :: id in LocalView(conns, local, did) ==>
      var sock := local[did][id];
      sock in conns && LocalView(conns, local, did)[id] == Conn(sock, conns[sock].device)
  {
  }

  lemma OwnViewAfterPut(
    conns: map<Sock, LocalConn>, local: map<Did, map<DeviceId, Sock>>, did: Did, id: DeviceId, sock: Sock,
    device: Device)
    requires Linked(conns, local) && sock !in conns
    requires Linked(conns[sock := LocalConn(did, id, device)], local[did := Get(local, did, map[])[id := sock]])
    ensures
      LocalView(conns[sock := LocalConn(did, id, device)], local[did := Get(local, did, map[])[id := sock]], did)
        == LocalView(conns, local, did)[id := Conn(sock, device)]
  {
    var after := conns[sock := LocalConn(did, id, device)];
    var registry := local[did := Get(local, did, map[])[id := sock]];
    LocalViewOf(conns, local, did);
    LocalViewOf(after, registry, did);
    hide Linked, LocalView;
    var m := LocalView(conns, local, did)[id := Conn(sock, device)];
    assert LocalView(after, registry, did).Keys == m.Keys;
  }

  lemma LinkedAfterPut(
    conns: map<Sock, LocalConn>, local: map<Did, map<DeviceId, Sock>>, did: Did, id: DeviceId, sock: Sock,
    device: Device)
    requires Linked(conns, local) && sock !in conns
    ensures Linked(conns[sock := LocalConn(did, id, device)], local[did := Get(local, did, map[])[id := sock]])
  {
  }

  lemma SameLocalView(
    conns: map<Sock, LocalConn>, local: map<Did, map<DeviceId, Sock>>,
    conns': map<Sock, LocalConn>, local': map<Did, map<DeviceId, Sock>>, did: Did)
    requires Linked(conns, local) && Linked(conns', local')
    requires Get(local, did, map[]) == Get(local', did, map[])
    requires forall sock :: sock in conns ==> sock in conns' && conns'[sock] == conns[sock]
    ensures LocalView(conns, local, did) == LocalView(conns', local', did)
  {
  }

  lemma LocalViewAfterDrop(
    conns: map<Sock, LocalConn>, local: map<Did, map<DeviceId, Sock>>, did: Did, id: DeviceId)
    requires Linked(conns, local) && did in local && id in local[did]
    ensures
      var m := local[did] - {id};
      var registry := if |m| == 0 then local - {did} else local[did := m];
      && Linked(conns, registry)
      && LocalView(conns, registry, did) == LocalView(conns, local, did) - {id}
      && (forall d :: d != did ==> LocalView(conns, registry, d) == LocalView(conns, local, d))
  {
  }

  // ---- frames and ids --------------------------------------------------------------------------

  lemma FramesToNone(local: map<DeviceId, Conn>, msg: ServerMsg)
    requires local.Keys == {}
    ensures FramesTo(local, msg) == {}
  {
  }

  lemma FramesToOneMore(here: map<DeviceId, Conn>, todo: set<DeviceId>, id: DeviceId, msg: ServerMsg)
    requires id in todo && todo <= here.Keys
    ensures
      multiset(FramesTo(here - (todo - {id}), msg))
        == multiset(FramesTo(here - todo, msg)) + multiset{Frame(id, here[id].sock, msg)}
  {
    var sofar := here - todo;
    var frame := Frame(id, here[id].sock, msg);
    assert here - (todo - {id}) == sofar[id := here[id]];
    forall f
      ensures f in FramesTo(sofar[id := here[id]], msg) <==> f in FramesTo(sofar, msg) + {frame}
    {
      if f in FramesTo(sofar, msg) {
        assert f.to in sofar && f == Frame(f.to, sofar[f.to].sock, msg);
        assert f.to in sofar[id := here[id]];
      }
      assert id in sofar[id := here[id]];
    }
    assert FramesTo(sofar[id := here[id]], msg) == FramesTo(sofar, msg) + {frame};
    assert frame !in FramesTo(sofar, msg);
  }

  /** The deletion loop of pruneRemote. */
  method DropStale(before: map<DeviceId, RemoteDevice>, cutoff: int)
    returns (m: map<DeviceId, RemoteDevice>, changed: bool)
    ensures m == Fresh(before, cutoff) && changed == (m != before)
  {
    m, changed := before, false;
    var todo := m.Keys;
    while todo != {}
      invariant todo <= m.Keys <= before.Keys
      invariant forall id :: id in before ==> (id in m <==> id in todo || before[id].lastSeen >= cutoff)
      invariant forall id :: id in m ==> m[id] == before[id]
      invariant changed <==> m.Keys != before.Keys
      decreases todo
    {
      var id :| id in todo;
      if m[id].lastSeen < cutoff {
        m := m - {id};
        changed := true;
      }
      todo := todo - {id};
    }
    assert changed ==> m != before;
  }

  /** The roster's map: remote devices first, then local ones over them. */
  method Merge(there: map<DeviceId, RemoteDevice>, here: map<DeviceId, Conn>) returns (byId: map<DeviceId, Device>)
    ensures byId.Keys == there.Keys + here.Keys
    ensures forall id :: id in byId ==> byId[id] == if id in here then here[id].device else there[id].device
  {
    byId := map[];
    var todo := there.Keys;
    while todo != {}
      invariant todo <= there.Keys
      invariant byId.Keys == there.Keys - todo
      invariant forall id :: id in byId ==> byId[id] == there[id].device
      decreases todo
    {
      var id :| id in todo;
      byId := byId[id := there[id].device];
      todo := todo - {id};
    }
    todo := here.Keys;
    while todo != {}
      invariant todo <= here.Keys
      invariant byId.Keys == there.Keys + (here.Keys - todo)
      invariant forall id :: id in byId ==>
        byId[id] == if id in here && id !in todo then here[id].device else there[id].device
      decreases todo
    {
      var id :| id in todo;
      byId := byId[id := here[id].device];
      todo := todo - {id};
    }
  }
}
