/** Why a command needs its target to stay: a device that moves while the command is on its way is framed twice. */
module ConnectOverlapCommand {
  import opened Basics
  import opened ConnectAccount
  import opened ConnectCluster
  import opened ConnectNet
  import opened ConnectFrames
  import opened ConnectCommands

  const S: DeviceId := [1]
  const T: DeviceId := [2]

  function Known(): Device {
    Device("device", Web, PlaybackState(false, None, None, 1.0, false), 0)
  }

  /** S on instance 0 and T on instance 1, both silent; instance 2 hosts nothing. */
  function Hosts(): Cluster {
    [Account(map[S := Conn(1, Known())], map[T := RemoteDevice(Known(), 1, 0)], false, multiset{}),
     Account(map[T := Conn(2, Known())], map[S := RemoteDevice(Known(), 0, 0)], false, multiset{}),
     Account(map[], map[S := RemoteDevice(Known(), 0, 0), T := RemoteDevice(Known(), 1, 0)], false, multiset{})]
  }

  function Start(): Net {
    Net(Hosts(), [[], [], []])
  }

  /** S stops T. */
  function Order(): Action {
    Orders(0, S, T, Stop)
  }

  /** T's instance is handed the command; T moves to instance 2, which is handed it after. */
  function Moving(now: int): seq<Action> {
    [Delivered(1, now)] +
    ([Happens(Depart(1, T))] + ([Happens(Arrive(2, T, Conn(3, Known())))] + ([Delivered(2, now)] + [])))
  }

  function Any(): Pick {
    (to: DeviceId, from: DeviceId, cmd: Command) => true
  }

  lemma FramedNext(did: Did, n: Net, a: Action, rest: seq<Action>, j: nat, p: Pick)
    requires Possible(n, a) && PossibleRun(did, Act(did, n, a), rest) && j < |n.cluster|
    ensures PossibleRun(did, n, [a] + rest)
    ensures Framed(did, n, [a] + rest, j, p) <==>
      if HandsOver(n, a, j, p) then Lands(n, a, p) else Framed(did, Act(did, n, a), rest, j, p)
  {
    assert ([a] + rest)[1..] == rest;
  }

  /** Where T is hosted and what instance 2 still has to be handed. */
  ghost predicate At(n: Net, home: nat, msg: RelayMsg) {
    && |n.cluster| == 3 == |n.inbox|
    && (forall i :: 0 <= i < 3 ==> (T in n.cluster[i].local <==> i == home))
    && n.inbox[2] != [] && n.inbox[2][0] == msg
  }

  lemma Ordered(did: Did)
    ensures Possible(Start(), Order())
    ensures
      var (m, msg) := (Act(did, Start(), Order()), CommandMsg(0, did, T, S, Stop));
      At(m, 1, msg) && m.inbox[1] == [msg]
  {
    ActInbox(did, Start(), Order(), 1);
    ActInbox(did, Start(), Order(), 2);
  }

  lemma Moves(did: Did, n: Net, a: Action, home: nat, msg: RelayMsg)
    requires Possible(n, a) && At(n, home, msg) && !(a.Delivered? && a.dest == 2) && !a.Crashes?
    requires a.Happens? ==> a.event.id == T && !a.event.Report?
    ensures At(Act(did, n, a), if !a.Happens? then home else if a.event.Depart? then 3 else a.event.host, msg)
  {
    ActInbox(did, n, a, 2);
    WaitingIs(n, a, 2);
    hide Published, Waiting;
    var after := Act(did, n, a).cluster;
    assert after == n.cluster[a.At() := Acted(did, n, a)];
    if a.Happens? {
      assert Acted(did, n, a) == Handled(did, n.cluster, a.event);
      HandledIs(did, n.cluster, a.event);
      OneHome(n.cluster, home);
      hide Act, Acted, Handled, AllIds;
      assert a.event.Depart? ==> a.At() == home;
      assert T in after[a.At()].local <==> !a.event.Depart?;
    } else {
      LocalsKept(did, n, a);
      hide Act, Acted;
      assert after[a.At()].local == n.cluster[a.At()].local;
    }
    var h := if !a.Happens? then home else if a.event.Depart? then 3 else a.event.host;
    assert forall i :: 0 <= i < 3 ==> (T in after[i].local <==> i == h);
    assert Act(did, n, a).inbox[2] == n.inbox[2] + Published(did, n, a);
  }

  lemma OneHome(c: Cluster, home: nat)
    requires |c| == 3 && forall i :: 0 <= i < 3 ==> (T in c[i].local <==> i == home)
    ensures T in AllIds(c) <==> home < 3
  {
    assert home < 3 ==> T in c[home].local;
  }

  lemma FramedTwice(did: Did, now: int)
    ensures Possible(Start(), Order())
    ensures
      var m := Act(did, Start(), Order());
      PossibleRun(did, m, Moving(now)) && Framers(did, m, Moving(now), Any()) == {1, 2}
  {
    hide Act, Start, Order;
    var msg := CommandMsg(0, did, T, S, Stop);
    var a, b := Delivered(1, now), Happens(Depart(1, T));
    var c, d := Happens(Arrive(2, T, Conn(3, Known()))), Delivered(2, now);
    Ordered(did);
    var m0 := Act(did, Start(), Order());
    Moves(did, m0, a, 1, msg);
    var m1 := Act(did, m0, a);
    Moves(did, m1, b, 1, msg);
    var m2 := Act(did, m1, b);
    OneHome(m2.cluster, 3);
    Moves(did, m2, c, 3, msg);
    var m3 := Act(did, m2, c);
    assert PossibleRun(did, m0, Moving(now)) by {
      FramedNext(did, m3, d, [], 0, Any());
      FramedNext(did, m2, c, [d] + [], 0, Any());
      FramedNext(did, m1, b, [c] + ([d] + []), 0, Any());
      FramedNext(did, m0, a, [b] + ([c] + ([d] + [])), 0, Any());
    }
    forall j: nat | j < 3
      ensures Framed(did, m0, Moving(now), j, Any()) <==> j == 1 || j == 2
    {
      FramedNext(did, m3, d, [], j, Any());
      FramedNext(did, m2, c, [d] + [], j, Any());
      FramedNext(did, m1, b, [c] + ([d] + []), j, Any());
      FramedNext(did, m0, a, [b] + ([c] + ([d] + [])), j, Any());
    }
    hide Framed, Moving;
    hide PossibleRun;
    assert forall j: nat :: j in Framers(did, m0, Moving(now), Any()) <==> j < 3 && (j == 1 || j == 2);
  }

  lemma {:induction false} AlwaysHostedOnce(did: Did, n: Net, run: seq<Action>)
    requires HostedOnce(n.cluster) && PossibleRun(did, n, run)
    ensures HostedOnce(ActAll(did, n, run).cluster)
    decreases |run|
  {
    hide Act, HostedOnce;
    if run != [] {
      ActHostedOnce(did, n, run[0]);
      AlwaysHostedOnce(did, Act(did, n, run[0]), run[1..]);
    }
  }

  /** From synchronised views, with every device hosted at most once throughout, one command becomes two frames. */
  lemma MovingTargetIsFramedTwice(did: Did, now: int)
    ensures Synced(Hosts()) && Quiet(Start()) && Possible(Start(), Order())
    ensures
      var m := Act(did, Start(), Order());
      && PossibleRun(did, m, Moving(now))
      && HostedOnce(ActAll(did, m, Moving(now)).cluster)
      && Total(ActAll(did, m, Moving(now)).cluster, Framing(Any())) == Total(Hosts(), Framing(Any())) + 2
  {
    hide Act, ActAll, PossibleRun, Total, Framers, Framing, Synced, Quiet, HostedOnce, Start, Order, Hosts, Moving, Any;
    hide NoneIssued, Absent, Possible;
    HostsSynced();
    Prepared(now);
    FramedTwice(did, now);
    ActHostedOnce(did, Start(), Order());
    AlwaysHostedOnce(did, Act(did, Start(), Order()), Moving(now));
    OneCommand(did, Start(), 0, S, T, Stop, Moving(now), Any());
    assert |{1, 2}| == 2;
  }

  lemma Prepared(now: int)
    ensures Start().cluster == Hosts() && HostedOnce(Hosts()) && Order() == Orders(0, S, T, Stop)
    ensures |Hosts()| == 3 && T !in Hosts()[0].local && T != S
    ensures forall j :: 0 <= j < |Start().inbox| ==> Absent(Start().inbox[j], Any())
    ensures Any()(T, S, Stop) && NoneIssued(Moving(now), Any())
  {
  }

  lemma HostsSynced()
    ensures Synced(Hosts()) && Quiet(Start())
  {
    HostsOnce();
    hide Hosts;
    forall i: nat | i < 3
      ensures Mirrors(Hosts(), i) && Settled(Hosts()[i])
    {
      HostMirrors(i);
    }
    hide Mirrors, Settled, HostedOnce;
  }

  lemma HostsOnce()
    ensures HostedOnce(Hosts()) && |Hosts()| == 3 && Quiet(Start()) && Start().cluster == Hosts()
  {
  }

  lemma HostMirrors(i: nat)
    requires i < 3
    ensures Mirrors(Hosts(), i) && Settled(Hosts()[i])
  {
    hide AllIds, Settled, Known;
    IdsOfHosts();
    HostSettled(i);
    var c := Hosts();
    if i == 0 {
      assert c[0].local.Keys == {S} && c[0].remote.Keys == {T};
    } else if i == 1 {
      assert c[1].local.Keys == {T} && c[1].remote.Keys == {S};
    } else {
      assert c[2].local.Keys == {} && c[2].remote.Keys == {S, T};
    }
  }

  lemma HostSettled(i: nat)
    requires i < 3
    ensures Settled(Hosts()[i])
  {
    SilentIsSettled(Hosts()[i]);
  }

  lemma IdsOfHosts()
    ensures AllIds(Hosts()) == {S, T}
  {
    var c := Hosts();
    assert S in c[0].local && T in c[1].local;
  }

  lemma SilentIsSettled(a: Account)
    requires !a.last
    requires forall id :: id in a.local ==> !a.local[id].device.state.playing
    requires forall id :: id in a.remote ==> !a.remote[id].device.state.playing
    ensures Settled(a)
  {
  }
}
