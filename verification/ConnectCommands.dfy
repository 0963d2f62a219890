/**
  Remote-control commands while events, heartbeats, crashes and deliveries overlap: how many command frames they
  become over all instances.
 */
module ConnectCommands {
  import opened ConnectAccount
  import opened ConnectCluster
  import opened ConnectNet
  import opened ConnectFrames

  /** Which commands to count, by target, sender and content. */
  type Pick = (DeviceId, DeviceId, Command) -> bool

  function Framing(p: Pick): Frame -> bool {
    (f: Frame) => f.msg.Commanded? && p(f.to, f.msg.from, f.msg.cmd)
  }

  /** A relayed command of the kind counted. */
  predicate Carries(msg: RelayMsg, p: Pick) {
    msg.CommandMsg? && p(msg.target, msg.from, msg.cmd)
  }

  /** The action hands such a command to its target's socket. */
  ghost predicate Lands(n: Net, a: Action, p: Pick)
    requires Possible(n, a)
  {
    var here := n.cluster[a.At()].local;
    match a
    case Orders(_, from, target, cmd) => p(target, from, cmd) && target != from && target in here
    case Delivered(dest, _) =>
      var msg := n.inbox[dest][0];
      Carries(msg, p) && msg.instance != dest && msg.target in here
    case _ => false
  }

  // ---- one action ------------------------------------------------------------------------------

  lemma RefreshFrames(a: Account, f: Frame)
    requires f.msg.Commanded?
    ensures Refresh(a).sent[f] == a.sent[f]
  {
    hide Roster, AnyPlaying;
  }

  lemma GreetFrames(b: Account, did: Did, id: DeviceId, f: Frame)
    requires id in b.local && f.msg.Commanded?
    ensures Greet(b, did, id).sent[f] == b.sent[f]
  {
    hide Roster, AnyPlaying;
  }

  lemma DeliverFrames(a: Account, target: DeviceId, from: DeviceId, cmd: Command, p: Pick)
    ensures
      |Only(DeliverCommand(a, target, from, cmd).sent, Framing(p))|
        == |Only(a.sent, Framing(p))| + if target in a.local && p(target, from, cmd) then 1 else 0
  {
    hide Only;
    var b := DeliverCommand(a, target, from, cmd);
    if target in a.local && p(target, from, cmd) {
      OneMore(a.sent, b.sent, Framing(p), Frame(target, a.local[target].sock, Commanded(from, cmd)));
    } else {
      SameFrames(a.sent, b.sent, Framing(p));
    }
  }

  /** No action but a command landing sends a command frame. */
  lemma QuietFrames(did: Did, n: Net, a: Action, f: Frame)
    requires Possible(n, a) && !a.Orders? && f.msg.Commanded?
    requires a.Delivered? ==> !n.inbox[a.dest][0].CommandMsg?
    ensures Acted(did, n, a).sent[f] == n.cluster[a.At()].sent[f]
  {
    hide Refresh, Greet;
    match a
    case Happens(e) =>
      if e.Arrive? {
        GreetFrames(Changed(n.cluster, e), did, e.id, f);
      } else {
        RefreshFrames(Changed(n.cluster, e), f);
      }
    case Beats(host, now, _) => PruneFrames(n.cluster[host], now, f);
    case Delivered(dest, now) => HearFrames(n.cluster[dest], dest, n.inbox[dest][0], now, f);
    case Crashes(_) =>
  }

  lemma PruneFrames(a: Account, now: int, f: Frame)
    requires f.msg.Commanded?
    ensures Prune(a, now).sent[f] == a.sent[f]
  {
    hide Refresh;
    RefreshFrames(a.(remote := Fresh(a.remote, now - REMOTE_TTL_MS)), f);
  }

  lemma HearFrames(a: Account, self: InstanceId, msg: RelayMsg, now: int, f: Frame)
    requires f.msg.Commanded? && !msg.CommandMsg?
    ensures Hear(a, self, msg, now).sent[f] == a.sent[f]
  {
    hide Refresh;
    if msg.LeaveMsg? {
      RefreshFrames(a.(remote := a.remote - {msg.deviceId}), f);
    } else {
      RefreshFrames(WithRemote(a, msg.deviceId, RemoteDevice(msg.device, msg.instance, now)), f);
    }
  }

  lemma ActedFrames(did: Did, n: Net, a: Action, p: Pick)
    requires Possible(n, a)
    ensures
      |Only(Acted(did, n, a).sent, Framing(p))|
        == |Only(n.cluster[a.At()].sent, Framing(p))| + if Lands(n, a, p) then 1 else 0
  {
    hide Only;
    var before, after := n.cluster[a.At()], Acted(did, n, a);
    if a.Orders? {
      hide DeliverCommand;
      DeliverFrames(before, a.target, a.from, a.cmd, p);
    } else if a.Delivered? && n.inbox[a.dest][0].CommandMsg? {
      hide DeliverCommand;
      var msg := n.inbox[a.dest][0];
      DeliverFrames(before, msg.target, msg.from, msg.cmd, p);
    } else {
      hide Acted;
      forall f | Framing(p)(f)
        ensures after.sent[f] == before.sent[f]
      {
        QuietFrames(did, n, a, f);
      }
      SameFrames(before.sent, after.sent, Framing(p));
    }
  }

  // ---- whole runs ------------------------------------------------------------------------------

  ghost function Landed(did: Did, n: Net, run: seq<Action>, p: Pick): nat
    requires PossibleRun(did, n, run)
    decreases |run|
  {
    if run == [] then 0
    else (if Lands(n, run[0], p) then 1 else 0) + Landed(did, Act(did, n, run[0]), run[1..], p)
  }

  /** Along any run, the command frames over all instances grow by exactly the commands that land. */
  lemma {:induction false} FramesOfAnyRun(did: Did, n: Net, run: seq<Action>, p: Pick)
    requires PossibleRun(did, n, run)
    ensures Total(ActAll(did, n, run).cluster, Framing(p)) == Total(n.cluster, Framing(p)) + Landed(did, n, run, p)
    decreases |run|
  {
    hide Acted, Lands, Total, Only, Waiting, Published, Framing;
    if run != [] {
      ActedFrames(did, n, run[0], p);
      TotalUpdate(n.cluster, run[0].At(), Acted(did, n, run[0]), Framing(p));
      FramesOfAnyRun(did, Act(did, n, run[0]), run[1..], p);
    }
  }

  // ---- one command -----------------------------------------------------------------------------

  /** At most one of the messages is a command of the kind counted, and it is `msg`. */
  predicate AtMostOne(inbox: seq<RelayMsg>, p: Pick, msg: RelayMsg) {
    && (forall i :: 0 <= i < |inbox| && Carries(inbox[i], p) ==> inbox[i] == msg)
    && forall i, j :: 0 <= i < j < |inbox| ==> !(Carries(inbox[i], p) && Carries(inbox[j], p))
  }

  predicate Absent(inbox: seq<RelayMsg>, p: Pick) {
    forall i :: 0 <= i < |inbox| ==> !Carries(inbox[i], p)
  }

  /** No command of the kind counted is issued. */
  predicate NoneIssued(run: seq<Action>, p: Pick) {
    forall k :: 0 <= k < |run| && run[k].Orders? ==> !p(run[k].target, run[k].from, run[k].cmd)
  }

  /** Instance j is handed the command while it hosts the target, and did not publish it itself. */
  ghost predicate Framed(did: Did, n: Net, run: seq<Action>, j: nat, p: Pick)
    requires PossibleRun(did, n, run) && j < |n.cluster|
    decreases |run|
  {
    run != [] &&
    if HandsOver(n, run[0], j, p) then Lands(n, run[0], p)
    else Framed(did, Act(did, n, run[0]), run[1..], j, p)
  }

  ghost predicate HandsOver(n: Net, a: Action, j: nat, p: Pick)
    requires Possible(n, a) && j < |n.cluster|
  {
    a.Delivered? && a.dest == j && Carries(n.inbox[j][0], p)
  }

  ghost function Framers(did: Did, n: Net, run: seq<Action>, p: Pick): set<nat>
    requires PossibleRun(did, n, run)
  {
    set j: nat | j < |n.cluster| && Framed(did, n, run, j, p)
  }

  /** Only issuing a command adds one to the inboxes. */
  lemma NoNews(did: Did, n: Net, a: Action, p: Pick)
    requires Possible(n, a) && (a.Orders? ==> !p(a.target, a.from, a.cmd))
    ensures Absent(Published(did, n, a), p)
  {
  }

  lemma InboxAfter(did: Did, n: Net, a: Action, j: nat, p: Pick, msg: RelayMsg)
    requires Possible(n, a) && (a.Orders? ==> !p(a.target, a.from, a.cmd)) && j < |n.inbox|
    ensures AtMostOne(n.inbox[j], p, msg) ==> AtMostOne(Act(did, n, a).inbox[j], p, msg)
    ensures Absent(n.inbox[j], p) ==> Absent(Act(did, n, a).inbox[j], p)
    ensures AtMostOne(n.inbox[j], p, msg) && HandsOver(n, a, j, p) ==> Absent(Act(did, n, a).inbox[j], p)
    ensures !HandsOver(n, a, j, p) && !(a.Crashes? && a.host == j) && !Absent(n.inbox[j], p)
      ==> !Absent(Act(did, n, a).inbox[j], p)
  {
    NoNews(did, n, a, p);
    var kept, news := Waiting(n, a, j), Published(did, n, a);
    var inbox := Act(did, n, a).inbox[j];
    hide Published, Carries, Act;
    assert inbox == kept + news by { ActInbox(did, n, a, j); }
    hide Waiting;
    WaitingIs(n, a, j);
    if !HandsOver(n, a, j, p) && !(a.Crashes? && a.host == j) && !Absent(n.inbox[j], p) {
      var i :| 0 <= i < |n.inbox[j]| && Carries(n.inbox[j][i], p);
      var k := if a.Delivered? && a.dest == j then i - 1 else i;
      assert inbox[k] == kept[k] == n.inbox[j][i];
    }
  }

  lemma ActInbox(did: Did, n: Net, a: Action, j: nat)
    requires Possible(n, a) && j < |n.inbox|
    ensures Act(did, n, a).inbox[j] == Waiting(n, a, j) + Published(did, n, a)
  {
  }

  lemma WaitingIs(n: Net, a: Action, j: nat)
    requires Possible(n, a) && j < |n.inbox|
    ensures
      var (old', kept) := (n.inbox[j], Waiting(n, a, j));
      if a.Crashes? && a.host == j then kept == []
      else if a.Delivered? && a.dest == j then kept == old'[1..]
      else kept == old'
  {
  }

  lemma {:induction false} NeverFramed(did: Did, n: Net, run: seq<Action>, j: nat, p: Pick)
    requires PossibleRun(did, n, run) && NoneIssued(run, p) && j < |n.cluster| == |n.inbox| && Absent(n.inbox[j], p)
    ensures !Framed(did, n, run, j, p)
    decreases |run|
  {
    hide Act, Lands, Carries;
    if run != [] {
      InboxAfter(did, n, run[0], j, p, CommandMsg(0, did, [], [], Stop));
      assert NoneIssued(run[1..], p);
      NeverFramed(did, Act(did, n, run[0]), run[1..], j, p);
    }
  }

  /** While one command is on its way, the instances that frame it are exactly as many as the landings. */
  lemma {:induction false} LandedIsFramers(did: Did, n: Net, run: seq<Action>, p: Pick, msg: RelayMsg)
    requires PossibleRun(did, n, run) && NoneIssued(run, p) && |n.inbox| == |n.cluster|
    requires forall j :: 0 <= j < |n.inbox| ==> AtMostOne(n.inbox[j], p, msg)
    ensures Landed(did, n, run, p) == |Framers(did, n, run, p)|
    decreases |run|
  {
    hide Act, Carries, AtMostOne;
    if run != [] {
      var a, rest := run[0], run[1..];
      var m := Act(did, n, a);
      forall j: nat | j < |n.inbox|
        ensures AtMostOne(m.inbox[j], p, msg)
      {
        InboxAfter(did, n, a, j, p, msg);
      }
      assert NoneIssued(rest, p);
      LandedIsFramers(did, m, rest, p, msg);
      FramersStep(did, n, run, p, msg);
    }
  }

  lemma FramersStep(did: Did, n: Net, run: seq<Action>, p: Pick, msg: RelayMsg)
    requires run != [] && PossibleRun(did, n, run) && NoneIssued(run, p) && |n.inbox| == |n.cluster|
    requires forall j :: 0 <= j < |n.inbox| ==> AtMostOne(n.inbox[j], p, msg)
    ensures
      |Framers(did, n, run, p)|
        == |Framers(did, Act(did, n, run[0]), run[1..], p)| + if Lands(n, run[0], p) then 1 else 0
  {
    var a, rest := run[0], run[1..];
    var m := Act(did, n, a);
    var before, after := Framers(did, n, run, p), Framers(did, m, rest, p);
    if a.Delivered? && Carries(n.inbox[a.dest][0], p) {
      var d := a.dest;
      InboxAfter(did, n, a, d, p, msg);
      assert NoneIssued(rest, p);
      NeverFramed(did, m, rest, d, p);
      hide Act, Lands, Carries, AtMostOne;
      assert forall j: nat :: j < |n.cluster| && j != d ==> (j in before <==> j in after);
      assert d !in after && (d in before <==> Lands(n, a, p));
      assert before == if Lands(n, a, p) then after + {d} else after;
    } else {
      assert !Lands(n, a, p);
      hide Act, Lands, Carries, AtMostOne;
      assert before == after;
    }
  }

  /** What issuing a command leaves in the inboxes: itself everywhere when it is relayed, nothing when it is not. */
  lemma OrderInboxes(did: Did, n: Net, a: Action, j: nat, p: Pick)
    requires Possible(n, a) && a.Orders? && p(a.target, a.from, a.cmd) && j < |n.inbox| && Absent(n.inbox[j], p)
    ensures
      var (inbox, msg) := (Act(did, n, a).inbox[j], CommandMsg(a.host, did, a.target, a.from, a.cmd));
      && AtMostOne(inbox, p, msg)
      && (Absent(inbox, p) <==> a.target == a.from || a.target in n.cluster[a.host].local)
  {
    var msg := CommandMsg(a.host, did, a.target, a.from, a.cmd);
    ActInbox(did, n, a, j);
    WaitingIs(n, a, j);
    var inbox := Act(did, n, a).inbox[j];
    if a.target != a.from && a.target !in n.cluster[a.host].local {
      assert Published(did, n, a) == [msg];
      assert Carries(inbox[|n.inbox[j]|], p);
    }
  }

  /**
    A command issued while no other like it is about: over all instances it becomes no frame if the sender is the
    target, one if the target is connected where it was issued, and else one for every other instance that hosts
    the target when it is handed the command.
   */
  lemma OneCommand(
    did: Did, n: Net, host: nat, from: DeviceId, target: DeviceId, cmd: Command, rest: seq<Action>, p: Pick)
    requires p(target, from, cmd) && NoneIssued(rest, p)
    requires Possible(n, Orders(host, from, target, cmd)) && forall j :: 0 <= j < |n.inbox| ==> Absent(n.inbox[j], p)
    requires PossibleRun(did, Act(did, n, Orders(host, from, target, cmd)), rest)
    ensures
      var m := Act(did, n, Orders(host, from, target, cmd));
      Total(ActAll(did, m, rest).cluster, Framing(p)) == Total(n.cluster, Framing(p)) +
        if target == from then 0
        else if target in n.cluster[host].local then 1
        else |Framers(did, m, rest, p)|
  {
    var a := Orders(host, from, target, cmd);
    var m := Act(did, n, a);
    forall j: nat | j < |n.inbox|
      ensures AtMostOne(m.inbox[j], p, CommandMsg(host, did, target, from, cmd))
      ensures Absent(m.inbox[j], p) <==> target == from || target in n.cluster[host].local
    {
      OrderInboxes(did, n, a, j, p);
    }
    ActedFrames(did, n, a, p);
    TotalUpdate(n.cluster, host, Acted(did, n, a), Framing(p));
    assert m.cluster == n.cluster[host := Acted(did, n, a)];
    FramesOfAnyRun(did, m, rest, p);
    hide Act, Acted, Total, Only, ActAll, PossibleRun, Framed, Carries, AtMostOne, NoneIssued, Framing;
    LandedIsFramers(did, m, rest, p, CommandMsg(host, did, target, from, cmd));
    if target == from || target in n.cluster[host].local {
      forall j: nat | j < |m.cluster|
        ensures !Framed(did, m, rest, j, p)
      {
        NeverFramed(did, m, rest, j, p);
      }
      assert Framers(did, m, rest, p) == {};
    }
  }

  // ---- a target that stays where it is ---------------------------------------------------------

  /** The target neither arrives nor leaves, and its host does not crash. */
  predicate StaysPut(run: seq<Action>, target: DeviceId, host: nat) {
    forall k :: 0 <= k < |run| ==>
      && (run[k].Happens? && run[k].event.id == target ==> run[k].event.Report?)
      && (run[k].Crashes? ==> run[k].host != host)
  }

  /** Whether instance j hosts the target changes only with the target's own events, or a crash. */
  lemma HostKept(did: Did, n: Net, a: Action, target: DeviceId, j: nat)
    requires Possible(n, a) && j < |n.cluster| && (a.Happens? && a.event.id == target ==> a.event.Report?)
    ensures target in Act(did, n, a).cluster[j].local ==> target in n.cluster[j].local
    ensures !(a.Crashes? && a.host == j) && target in n.cluster[j].local ==> target in Act(did, n, a).cluster[j].local
  {
    hide Published, Waiting;
    if a.At() == j {
      assert Act(did, n, a).cluster[j] == Acted(did, n, a);
      if a.Happens? {
        HandledIs(did, n.cluster, a.event);
      } else if !a.Crashes? {
        LocalsKept(did, n, a);
      }
    }
  }

  lemma {:induction false} ElsewhereNotFramed(
    did: Did, n: Net, run: seq<Action>, j: nat, p: Pick, msg: RelayMsg, host: nat)
    requires PossibleRun(did, n, run) && NoneIssued(run, p) && j < |n.cluster| == |n.inbox|
    requires AtMostOne(n.inbox[j], p, msg) && msg.CommandMsg? && StaysPut(run, msg.target, host)
    requires msg.target !in n.cluster[j].local || msg.instance == j
    ensures !Framed(did, n, run, j, p)
    decreases |run|
  {
    hide Act, Carries;
    if run != [] {
      var a, rest := run[0], run[1..];
      InboxAfter(did, n, a, j, p, msg);
      HostKept(did, n, a, msg.target, j);
      assert NoneIssued(rest, p) && StaysPut(rest, msg.target, host);
      if HandsOver(n, a, j, p) {
        assert n.inbox[j][0] == msg;
      } else {
        ElsewhereNotFramed(did, Act(did, n, a), rest, j, p, msg, host);
      }
    }
  }

  lemma {:induction false} HostFrames(did: Did, n: Net, run: seq<Action>, host: nat, p: Pick, msg: RelayMsg)
    requires PossibleRun(did, n, run) && NoneIssued(run, p) && host < |n.cluster| == |n.inbox|
    requires AtMostOne(n.inbox[host], p, msg) && msg.CommandMsg? && StaysPut(run, msg.target, host)
    requires msg.target in n.cluster[host].local && msg.instance != host && !Absent(n.inbox[host], p)
    requires |ActAll(did, n, run).inbox| == |n.cluster| && Absent(ActAll(did, n, run).inbox[host], p)
    ensures Framed(did, n, run, host, p)
    decreases |run|
  {
    hide Act, Carries, Absent;
    if run != [] {
      var a, rest := run[0], run[1..];
      InboxAfter(did, n, a, host, p, msg);
      HostKept(did, n, a, msg.target, host);
      assert NoneIssued(rest, p) && StaysPut(rest, msg.target, host);
      assert !(a.Crashes? && a.host == host);
      if HandsOver(n, a, host, p) {
        assert n.inbox[host][0] == msg;
      } else {
        HostFrames(did, Act(did, n, a), rest, host, p, msg);
      }
    }
  }

  /**
    If the target's host does not change between the command and its delivery, the command becomes exactly one
    frame over all instances, however everything else interleaves; none if the sender is the target.
   */
  lemma SteadyTargetIsFramedOnce(
    did: Did, n: Net, host: nat, from: DeviceId, target: DeviceId, cmd: Command, rest: seq<Action>, p: Pick, home: nat)
    requires p(target, from, cmd) && NoneIssued(rest, p) && HostedOnce(n.cluster)
    requires Possible(n, Orders(host, from, target, cmd)) && forall j :: 0 <= j < |n.inbox| ==> Absent(n.inbox[j], p)
    requires PossibleRun(did, Act(did, n, Orders(host, from, target, cmd)), rest)
    requires home < |n.cluster| && target in n.cluster[home].local && StaysPut(rest, target, home)
    requires
      var after := ActAll(did, Act(did, n, Orders(host, from, target, cmd)), rest);
      |after.inbox| == |n.cluster| && Absent(after.inbox[home], p)
    ensures
      var m := Act(did, n, Orders(host, from, target, cmd));
      Total(ActAll(did, m, rest).cluster, Framing(p))
        == Total(n.cluster, Framing(p)) + if target == from then 0 else 1
  {
    var a := Orders(host, from, target, cmd);
    var m := Act(did, n, a);
    OneCommand(did, n, host, from, target, cmd, rest, p);
    if target != from && target !in n.cluster[host].local {
      hide ActAll, PossibleRun, StaysPut, NoneIssued, Carries, AtMostOne, Absent, Total, Framers, Act;
      forall j: nat | j < |n.inbox|
        ensures AtMostOne(m.inbox[j], p, CommandMsg(host, did, target, from, cmd)) && !Absent(m.inbox[j], p)
        ensures target in m.cluster[j].local <==> j == home
      {
        OrderInboxes(did, n, a, j, p);
        HostKept(did, n, a, target, j);
      }
      HomeFrames(did, m, rest, home, p, CommandMsg(host, did, target, from, cmd));
    }
  }

  lemma HomeFrames(did: Did, m: Net, rest: seq<Action>, home: nat, p: Pick, msg: RelayMsg)
    requires PossibleRun(did, m, rest) && NoneIssued(rest, p) && home < |m.cluster| == |m.inbox|
    requires forall j: nat :: j < |m.inbox| ==> AtMostOne(m.inbox[j], p, msg) && !Absent(m.inbox[j], p)
    requires msg.CommandMsg? && msg.instance != home && StaysPut(rest, msg.target, home)
    requires forall j: nat :: j < |m.cluster| ==> (msg.target in m.cluster[j].local <==> j == home)
    requires |ActAll(did, m, rest).inbox| == |m.cluster| && Absent(ActAll(did, m, rest).inbox[home], p)
    ensures |Framers(did, m, rest, p)| == 1
  {
    hide ActAll, PossibleRun, Framed, StaysPut, NoneIssued, Carries, AtMostOne, Absent;
    forall j: nat | j < |m.cluster|
      ensures Framed(did, m, rest, j, p) <==> j == home
    {
      if j == home {
        HostFrames(did, m, rest, home, p, msg);
      } else {
        ElsewhereNotFramed(did, m, rest, j, p, msg, home);
      }
    }
    assert Framers(did, m, rest, p) == {home};
  }

  // ---- a command relayed before anything else happens ------------------------------------------

  /** Over the whole cluster the command becomes exactly one frame, or none if the target is the sender or nowhere. */
  lemma RelayedCommandIsCounted(
    did: Did, c: Cluster, host: nat, from: DeviceId, target: DeviceId, cmd: Command, now: int, p: Pick)
    requires HostedOnce(c) && host < |c|
    ensures
      Total(Commands(did, c, host, from, target, cmd, now), Framing(p))
        == Total(c, Framing(p)) + if target != from && target in AllIds(c) && p(target, from, cmd) then 1 else 0
  {
    hide Commands, Total, Only, Framing;
    if target != from && target in AllIds(c) {
      var home: nat :| home < |c| && target in c[home].local;
      CommandAt(did, c, host, from, target, cmd, now, home);
      DeliverFrames(c[home], target, from, cmd, p);
      TotalUpdate(c, home, Sent(c[home], target, Commanded(from, cmd)), Framing(p));
    } else {
      OneCommandFrame(did, c, host, from, target, cmd, now, host);
      forall i: nat | i < |c|
        ensures Commands(did, c, host, from, target, cmd, now)[i] == c[i]
      {
        OneCommandFrame(did, c, host, from, target, cmd, now, i);
        assert target in c[i].local ==> target in AllIds(c);
      }
      assert Commands(did, c, host, from, target, cmd, now) == c;
    }
  }

  lemma CommandAt(
    did: Did, c: Cluster, host: nat, from: DeviceId, target: DeviceId, cmd: Command, now: int, home: nat)
    requires HostedOnce(c) && host < |c| && target != from && home < |c| && target in c[home].local
    ensures
      Commands(did, c, host, from, target, cmd, now) == c[home := Sent(c[home], target, Commanded(from, cmd))]
  {
    hide Commands, Sent;
    var after := Commands(did, c, host, from, target, cmd, now);
    OneCommandFrame(did, c, host, from, target, cmd, now, host);
    forall i: nat | i < |c|
      ensures after[i] == if i == home then Sent(c[home], target, Commanded(from, cmd)) else c[i]
    {
      OneCommandFrame(did, c, host, from, target, cmd, now, i);
    }
  }
}
