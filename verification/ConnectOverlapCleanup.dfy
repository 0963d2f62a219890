/** Why a cleanup needs the relay to settle between events: overlapping ones can lose it, or send it twice. */
module ConnectOverlapCleanup {
  import opened Basics
  import opened TextOrder
  import opened ConnectAccount
  import opened ConnectCluster
  import opened ConnectNet
  import opened ConnectFrames
  import opened ConnectCleanups

  const A: DeviceId := [1]
  const B: DeviceId := [2]

  function Reported(playing: bool): PlaybackState {
    PlaybackState(playing, None, None, 1.0, false)
  }

  function Known(playing: bool): Device {
    Device("device", Web, Reported(playing), 0)
  }

  /** A plays nothing on instance 0; B plays on instance 1. */
  function OfA(): Account {
    Account(map[A := Conn(1, Known(false))], map[B := RemoteDevice(Known(true), 1, 0)], true, multiset{})
  }

  function OfB(): Account {
    Account(map[B := Conn(2, Known(true))], map[A := RemoteDevice(Known(false), 0, 0)], true, multiset{})
  }

  lemma Chain(did: Did, n: Net, a: Action, rest: seq<Action>)
    requires Possible(n, a) && PossibleRun(did, Act(did, n, a), rest)
    ensures PossibleRun(did, n, [a] + rest) && ActAll(did, n, [a] + rest) == ActAll(did, Act(did, n, a), rest)
  {
    assert ([a] + rest)[1..] == rest;
  }

  /** One action in a cluster of two. */
  lemma TwoAct(did: Did, n: Net, a: Action)
    requires Possible(n, a) && |n.cluster| == 2
    ensures
      var (acted, news) := (Acted(did, n, a), Published(did, n, a));
      Act(did, n, a) == Net(
        if a.At() == 0 then [acted, n.cluster[1]] else [n.cluster[0], acted],
        [Waiting(n, a, 0) + news, Waiting(n, a, 1) + news])
  {
    hide Acted, Published, Waiting;
  }

  /** Refreshing an account that does not fall silent, or whose lowest device is elsewhere, asks for nothing. */
  lemma NoCleanup(a: Account, changed: Account)
    requires Settled(a) && changed.last == a.last && changed.sent == a.sent
    requires
      || !AnyPlaying(a) || AnyPlaying(changed)
      || forall id :: id in changed.local ==> !IsLowest(id, Roster(changed).Keys)
    ensures forall f :: IsCleanup(f) ==> Refresh(changed).sent[f] == a.sent[f]
  {
    hide Refresh, Roster, AnyPlaying, Settled;
    forall f | IsCleanup(f)
      ensures Refresh(changed).sent[f] == a.sent[f]
    {
      CleanupExactly(a, changed, f);
    }
  }

  /** The instance A leaves, and then hears that B fell silent: no cleanup, B is not connected there. */
  lemma LeaverAsksNobody(now: int)
    ensures
      var a := OfA();
      var left := Refresh(WithoutLocal(a, A));
      var last := HearDevice(left, B, RemoteDevice(Known(false), 1, now));
      && left.local == map[] && left.remote == a.remote && Settled(left)
      && last.local == map[] && forall f :: IsCleanup(f) ==> last.sent[f] == 0
  {
    hide Refresh;
    var a := OfA();
    assert a.remote[B].device.state.playing && B in Roster(a) && Roster(a)[B].state.playing;
    RefreshSettles(WithoutLocal(a, A));
    NoCleanup(a, WithoutLocal(a, A));
    var left := Refresh(WithoutLocal(a, A));
    RefreshUnsent(WithoutLocal(a, A));
    var heard := WithRemote(left, B, RemoteDevice(Known(false), 1, now));
    RefreshSettles(heard);
    NoCleanup(left, heard);
  }

  lemma RefreshUnsent(a: Account)
    ensures Refresh(a).last == AnyPlaying(a)
  {
  }

  /** The instance of B, which fell silent and then hears that A left: A was the lowest, so again nobody here. */
  lemma StopperAsksNobody()
    ensures
      var a := OfB();
      var stopped := Refresh(WithState(a, B, Reported(false)));
      var last := HearLeave(stopped, A);
      && stopped.local == map[B := Conn(2, Known(false))] && stopped.remote == a.remote && Settled(stopped)
      && last.local == stopped.local && forall f :: IsCleanup(f) ==> last.sent[f] == 0
  {
    hide Refresh;
    var a := OfB();
    var silent := WithState(a, B, Reported(false));
    assert B in Roster(a) && Roster(a)[B].state.playing;
    assert A in Roster(silent).Keys && !Less(B, A);
    NoCleanup(a, silent);
    RefreshSettles(silent);
    RefreshUnsent(silent);
    var stopped := Refresh(silent);
    var left := stopped.(remote := stopped.remote - {A});
    RefreshSettles(left);
    NoCleanup(stopped, left);
  }

  // ---- a cleanup lost --------------------------------------------------------------------------

  /** B stops while A leaves; every instance is then handed both messages. */
  function StopAndLeave(now: int): seq<Action> {
    [Happens(Report(1, B, Reported(false)))] + ([Happens(Depart(0, A))] + TwoEach(now))
  }

  function TwoEach(now: int): seq<Action> {
    [Delivered(0, now)] + ([Delivered(0, now)] + ([Delivered(1, now)] + ([Delivered(1, now)] + [])))
  }

  /** Both messages reach both instances; each ignores its own. */
  lemma BothDelivered(did: Did, now: int, a: Account, b: Account, first: RelayMsg, second: RelayMsg)
    requires first.instance == 1 && second.instance == 0
    ensures
      var n := Net([a, b], [[first, second], [first, second]]);
      && PossibleRun(did, n, TwoEach(now))
      && ActAll(did, n, TwoEach(now)) == Net([Hear(a, 0, first, now), Hear(b, 1, second, now)], [[], []])
  {
    var a', b' := Hear(a, 0, first, now), Hear(b, 1, second, now);
    assert Hear(a', 0, second, now) == a' && Hear(b, 1, first, now) == b;
    hide Hear, Act, Possible;
    assert [first] + [second] == [first, second] && [second] + [] == [second];
    var n0 := Net([a, b], [[first, second], [first, second]]);
    var n1 := Net([a', b], [[second], [first, second]]);
    var n2 := Net([a', b], [[], [first, second]]);
    var n3 := Net([a', b], [[], [second]]);
    HandedTo0(did, a, b, first, [second], [first, second], now);
    HandedTo0(did, a', b, second, [], [first, second], now);
    HandedTo1(did, a', b, first, [second], [], now);
    HandedTo1(did, a', b, second, [], [], now);
    FourSteps(did, n0, n1, n2, n3, Delivered(0, now), Delivered(0, now), Delivered(1, now), Delivered(1, now));
  }

  lemma HandedTo0(
    did: Did, a: Account, b: Account, msg: RelayMsg, rest: seq<RelayMsg>, other: seq<RelayMsg>, now: int)
    ensures
      var n := Net([a, b], [[msg] + rest, other]);
      Possible(n, Delivered(0, now)) && Act(did, n, Delivered(0, now)) == Net([Hear(a, 0, msg, now), b], [rest, other])
  {
    hide Hear;
    TwoAct(did, Net([a, b], [[msg] + rest, other]), Delivered(0, now));
    assert ([msg] + rest)[1..] == rest && rest + [] == rest && other + [] == other;
  }

  lemma HandedTo1(
    did: Did, a: Account, b: Account, msg: RelayMsg, rest: seq<RelayMsg>, other: seq<RelayMsg>, now: int)
    ensures
      var n := Net([a, b], [other, [msg] + rest]);
      Possible(n, Delivered(1, now)) && Act(did, n, Delivered(1, now)) == Net([a, Hear(b, 1, msg, now)], [other, rest])
  {
    hide Hear;
    TwoAct(did, Net([a, b], [other, [msg] + rest]), Delivered(1, now));
    assert ([msg] + rest)[1..] == rest && rest + [] == rest && other + [] == other;
  }

  lemma FourSteps(did: Did, n0: Net, n1: Net, n2: Net, n3: Net, a: Action, b: Action, c: Action, d: Action)
    requires Possible(n0, a) && Act(did, n0, a) == n1 && Possible(n1, b) && Act(did, n1, b) == n2
    requires Possible(n2, c) && Act(did, n2, c) == n3 && Possible(n3, d)
    ensures
      var run := [a] + ([b] + ([c] + ([d] + [])));
      PossibleRun(did, n0, run) && ActAll(did, n0, run) == Act(did, n3, d)
  {
    hide Act, Possible;
    Chain(did, n3, d, []);
    Chain(did, n2, c, [d] + []);
    Chain(did, n1, b, [c] + ([d] + []));
    Chain(did, n0, a, [b] + ([c] + ([d] + [])));
  }

  lemma StopAndLeaveRuns(did: Did, now: int)
    ensures
      var n := Net([OfA(), OfB()], [[], []]);
      var left, stopped := Refresh(WithoutLocal(OfA(), A)), Refresh(WithState(OfB(), B, Reported(false)));
      && PossibleRun(did, n, StopAndLeave(now))
      && ActAll(did, n, StopAndLeave(now)) ==
           Net([HearDevice(left, B, RemoteDevice(Known(false), 1, now)), HearLeave(stopped, A)], [[], []])
  {
    hide Refresh;
    var a, b := OfA(), OfB();
    var left, stopped := Refresh(WithoutLocal(a, A)), Refresh(WithState(b, B, Reported(false)));
    var update, leave := UpdateMsg(1, did, B, Known(false)), LeaveMsg(0, did, A);
    var stop, depart := Happens(Report(1, B, Reported(false))), Happens(Depart(0, A));
    var n0 := Net([a, b], [[], []]);
    var n1 := Net([a, stopped], [[update], [update]]);
    var n2 := Net([left, stopped], [[update, leave], [update, leave]]);
    assert Handled(did, [a, b], stop.event) == stopped && Message(did, [a, b], stop.event) == update;
    assert Handled(did, [a, stopped], depart.event) == left && Message(did, [a, stopped], depart.event) == leave;
    hide WithState, WithoutLocal, Handled, Message;
    assert [a, b][1 := stopped] == [a, stopped] && [a, stopped][0 := left] == [left, stopped];
    assert [] + [update] == [update] && [update] + [leave] == [update, leave];
    TwoAct(did, n0, stop);
    TwoAct(did, n1, depart);
    assert Act(did, n0, stop) == n1;
    assert Act(did, n1, depart) == n2;
    BothDelivered(did, now, left, stopped, update, leave);
    hide Act, HearDevice, HearLeave, TwoEach;
    Chain(did, n1, depart, TwoEach(now));
    Chain(did, n0, stop, [depart] + TwoEach(now));
  }

  /**
    A cleanup can be lost: B stops playing on one instance while A, the lowest device, leaves on the other. The
    account falls silent and B remains, but nobody is ever asked to clean up.
   */
  lemma OverlapLosesCleanup(did: Did, now: int)
    ensures Synced([OfA(), OfB()]) && WorldPlaying([OfA(), OfB()])
    ensures PossibleRun(did, Net([OfA(), OfB()], [[], []]), StopAndLeave(now))
    ensures
      var r := ActAll(did, Net([OfA(), OfB()], [[], []]), StopAndLeave(now));
      && Quiet(r) && |r.cluster| == 2
      && !WorldPlaying(r.cluster) && B in AllIds(r.cluster)
      && Passed(did, Net([OfA(), OfB()], [[], []]), StopAndLeave(now)) == 0
      && Total(r.cluster, IsCleanup) == 0
      && forall i, f :: 0 <= i < 2 && IsCleanup(f) ==> r.cluster[i].sent[f] == 0
  {
    TwoInstances();
    LeaverAsksNobody(now);
    StopperAsksNobody();
    StopAndLeaveRuns(did, now);
    hide Refresh, HearDevice, HearLeave, Synced, WorldPlaying, AllIds, PossibleRun, ActAll;
    hide StopAndLeave, Known, Reported;
    hide Passed, Total, IsCleanup;
    var left, stopped := Refresh(WithoutLocal(OfA(), A)), Refresh(WithState(OfB(), B, Reported(false)));
    var a, b := HearDevice(left, B, RemoteDevice(Known(false), 1, now)), HearLeave(stopped, A);
    OnlySilentB(a, b);
    NoneSent(a);
    NoneSent(b);
    CountsOfTwo(did, OfA(), OfB(), StopAndLeave(now), a, b);
  }

  lemma NoneSent(a: Account)
    requires forall f :: IsCleanup(f) ==> a.sent[f] == 0
    ensures |Only(a.sent, IsCleanup)| == 0
  {
    NoFrames(a.sent, IsCleanup);
  }

  lemma OneSent(a: Account, g: Frame)
    requires IsCleanup(g) && forall f :: IsCleanup(f) ==> a.sent[f] == if f == g then 1 else 0
    ensures |Only(a.sent, IsCleanup)| == 1
  {
    NoFrames(multiset{}, IsCleanup);
    OneMore(multiset{}, a.sent, IsCleanup, g);
  }

  /** In a cluster of two that had sent nothing, the guard is passed as often as there are cleanups at the end. */
  lemma CountsOfTwo(did: Did, a: Account, b: Account, run: seq<Action>, x: Account, y: Account)
    requires Synced([a, b]) && a.sent == b.sent == multiset{} && PossibleRun(did, Net([a, b], [[], []]), run)
    requires ActAll(did, Net([a, b], [[], []]), run) == Net([x, y], [[], []])
    ensures Passed(did, Net([a, b], [[], []]), run) == |Only(x.sent, IsCleanup)| + |Only(y.sent, IsCleanup)|
    ensures Total([x, y], IsCleanup) == |Only(x.sent, IsCleanup)| + |Only(y.sent, IsCleanup)|
  {
    hide Synced, PossibleRun, ActAll, Passed, AllSettled, IsCleanup, Total;
    SyncedIsSettled([a, b]);
    TotalCleanupsOfAnyRun(did, Net([a, b], [[], []]), run);
    NoFrames(multiset{}, IsCleanup);
    TotalOfTwo(a, b, IsCleanup);
    TotalOfTwo(x, y, IsCleanup);
  }

  lemma SyncedIsSettled(c: Cluster)
    requires Synced(c)
    ensures AllSettled(c)
  {
  }

  lemma TwoInstances()
    ensures Synced([OfA(), OfB()]) && WorldPlaying([OfA(), OfB()])
  {
    var a, b := OfA(), OfB();
    var c := [a, b];
    assert c[1].local.Keys == {B} && c[0].local.Keys == {A};
    assert B in c[1].local && c[1].local[B].device.state.playing;
    assert AllIds(c) == {A, B} by {
      assert A in c[0].local;
    }
    assert Roster(a)[B].state.playing && Roster(b)[B].state.playing;
  }

  lemma OnlySilentB(a: Account, b: Account)
    requires a.local == map[] && b.local == map[B := Conn(2, Known(false))]
    ensures !WorldPlaying([a, b]) && B in AllIds([a, b])
  {
    var c := [a, b];
    assert B in c[1].local;
  }

  // ---- a cleanup sent twice --------------------------------------------------------------------

  /** The same account before A arrives. */
  function BeforeA(): Account {
    Account(map[], map[B := RemoteDevice(Known(true), 1, 0)], true, multiset{})
  }

  function OnlyB(): Account {
    Account(map[B := Conn(2, Known(true))], map[], true, multiset{})
  }

  function ArrivalOfA(): Event {
    Arrive(0, A, Conn(1, Known(false)))
  }

  /** B stops while A arrives, silent. */
  function StopAndArrive(now: int): seq<Action> {
    [Happens(Report(1, B, Reported(false)))] + ([Happens(ArrivalOfA())] + TwoEach(now))
  }

  function Arrived(did: Did): Account {
    Greet(BeforeA().(local := map[A := Conn(1, Known(false))]), did, A)
  }

  /** A frame that asks a device to clean up. */
  function Ask(to: DeviceId, sock: Sock): Frame {
    Frame(to, sock, Presence(false, true))
  }

  /** The two accounts once both messages are delivered. */
  ghost function EndOfA(did: Did, now: int): Account {
    HearDevice(Arrived(did), B, RemoteDevice(Known(false), 1, now))
  }

  ghost function EndOfB(now: int): Account {
    HearDevice(Refresh(WithState(OnlyB(), B, Reported(false))), A, RemoteDevice(Known(false), 0, now))
  }

  /** A arrives where B is still thought to be playing, then hears that B stopped: A, the lowest, is asked. */
  lemma ArriverIsAsked(did: Did, now: int)
    ensures
      && Arrived(did).local == map[A := Conn(1, Known(false))] && Arrived(did).remote == BeforeA().remote
      && forall f :: IsCleanup(f) ==> EndOfA(did, now).sent[f] == if f == Ask(A, 1) then 1 else 0
  {
    hide Refresh, Greet;
    var b := BeforeA().(local := map[A := Conn(1, Known(false))]);
    assert B in Roster(b) && Roster(b)[B].state.playing;
    GreetSettles(b, did, A);
    var a := Arrived(did);
    assert Roster(a)[B].state.playing;
    var heard := WithRemote(a, B, RemoteDevice(Known(false), 1, now));
    assert Roster(heard).Keys == {A, B} && Less(A, B);
    LessIsTotal(A, B);
    forall f | IsCleanup(f)
      ensures Refresh(heard).sent[f] == if f == Ask(A, 1) then 1 else 0
    {
      GreetCleanups(b, did, A, f);
      CleanupExactly(a, heard, f);
    }
  }

  /** B stops where A is not known yet, so B is asked; the news of A changes nothing. */
  lemma StopperIsAsked(now: int)
    ensures
      var stopped := Refresh(WithState(OnlyB(), B, Reported(false)));
      && stopped.local == map[B := Conn(2, Known(false))] && stopped.remote == map[]
      && forall f :: IsCleanup(f) ==> EndOfB(now).sent[f] == if f == Ask(B, 2) then 1 else 0
  {
    hide Refresh;
    var a := OnlyB();
    assert B in Roster(a) && Roster(a)[B].state.playing;
    var silent := WithState(a, B, Reported(false));
    assert Roster(silent).Keys == {B};
    forall f | IsCleanup(f)
      ensures Refresh(silent).sent[f] == if f == Ask(B, 2) then 1 else 0
    {
      CleanupExactly(a, silent, f);
    }
    RefreshSettles(silent);
    RefreshUnsent(silent);
    var stopped := Refresh(silent);
    var heard := WithRemote(stopped, A, RemoteDevice(Known(false), 0, now));
    NoCleanup(stopped, heard);
  }

  lemma StopAndArriveRuns(did: Did, now: int)
    ensures
      var n := Net([BeforeA(), OnlyB()], [[], []]);
      && PossibleRun(did, n, StopAndArrive(now))
      && ActAll(did, n, StopAndArrive(now)) == Net([EndOfA(did, now), EndOfB(now)], [[], []])
  {
    hide Refresh, Greet;
    var a, b, arrived := BeforeA(), OnlyB(), Arrived(did);
    var stopped := Refresh(WithState(b, B, Reported(false)));
    StopperIsAsked(now);
    var update, join := UpdateMsg(1, did, B, Known(false)), JoinMsg(0, did, A, Known(false));
    var stop, arrive := Happens(Report(1, B, Reported(false))), Happens(ArrivalOfA());
    var n0 := Net([a, b], [[], []]);
    var n1 := Net([a, stopped], [[update], [update]]);
    var n2 := Net([arrived, stopped], [[update, join], [update, join]]);
    assert Handled(did, [a, b], stop.event) == stopped && Message(did, [a, b], stop.event) == update;
    assert Changed([a, stopped], arrive.event).local == map[A := Conn(1, Known(false))];
    assert Handled(did, [a, stopped], arrive.event) == arrived && Message(did, [a, stopped], arrive.event) == join;
    hide WithState, WithoutLocal, Handled, Message, Arrived;
    assert [a, b][1 := stopped] == [a, stopped] && [a, stopped][0 := arrived] == [arrived, stopped];
    assert [] + [update] == [update] && [update] + [join] == [update, join];
    TwoAct(did, n0, stop);
    TwoAct(did, n1, arrive);
    assert Act(did, n0, stop) == n1;
    assert Act(did, n1, arrive) == n2;
    BothDelivered(did, now, arrived, stopped, update, join);
    hide Act, HearDevice, HearLeave, TwoEach;
    Chain(did, n1, arrive, TwoEach(now));
    Chain(did, n0, stop, [arrive] + TwoEach(now));
  }

  lemma OnlyBIsSynced()
    ensures Synced([BeforeA(), OnlyB()])
  {
    var c := [BeforeA(), OnlyB()];
    assert AllIds(c) == {B} by {
      assert B in c[1].local;
    }
    assert Roster(c[0])[B].state.playing && Roster(c[1])[B].state.playing;
  }

  /** A cleanup can be sent twice: B stops while A arrives on the other instance; both are asked to clean up. */
  lemma OverlapRepeatsCleanup(did: Did, now: int)
    ensures Synced([BeforeA(), OnlyB()])
    ensures PossibleRun(did, Net([BeforeA(), OnlyB()], [[], []]), StopAndArrive(now))
    ensures
      var r := ActAll(did, Net([BeforeA(), OnlyB()], [[], []]), StopAndArrive(now));
      && Quiet(r) && |r.cluster| == 2
      && r.cluster[0].sent[Ask(A, 1)] == 1 && r.cluster[1].sent[Ask(B, 2)] == 1
      && Passed(did, Net([BeforeA(), OnlyB()], [[], []]), StopAndArrive(now)) == 2
      && Total(r.cluster, IsCleanup) == 2
  {
    hide BeforeA, OnlyB, EndOfA, EndOfB, StopAndArrive, Ask;
    hide Synced, PossibleRun, ActAll, Passed, Total, IsCleanup, Only;
    OnlyBIsSynced();
    BothAsked(did, now);
    StopAndArriveRuns(did, now);
    CountsOfTwo(did, BeforeA(), OnlyB(), StopAndArrive(now), EndOfA(did, now), EndOfB(now));
  }

  lemma BothAsked(did: Did, now: int)
    ensures EndOfA(did, now).sent[Ask(A, 1)] == 1 && |Only(EndOfA(did, now).sent, IsCleanup)| == 1
    ensures EndOfB(now).sent[Ask(B, 2)] == 1 && |Only(EndOfB(now).sent, IsCleanup)| == 1
    ensures BeforeA().sent == OnlyB().sent == multiset{}
  {
    ArriverIsAsked(did, now);
    StopperIsAsked(now);
    hide EndOfA, EndOfB;
    OneSent(EndOfA(did, now), Ask(A, 1));
    OneSent(EndOfB(now), Ask(B, 2));
  }
}
