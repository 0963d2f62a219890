/**
  Cleanup frames along runs in which events, heartbeats, crashes and deliveries overlap: they are sent exactly as
  often as an instance sees its account fall silent while it hosts the lowest device it knows of, or greets a lone
  silent arrival.
 */
module ConnectCleanups {
  import opened TextOrder
  import opened ConnectAccount
  import opened ConnectCluster
  import opened ConnectNet
  import opened ConnectOverlap
  import opened ConnectFrames

  /** One instance's view falls silent, and the frame goes to the lowest device it knows of, which it hosts. */
  ghost predicate FallAsks(before: Account, after: Account, f: Frame) {
    && IsCleanup(f) && f.to in after.local && f.sock == after.local[f.to].sock
    && AnyPlaying(before) && !AnyPlaying(after) && IsLowest(f.to, Roster(after).Keys)
  }

  /** One instance greets a silent device that is alone in its view. */
  ghost predicate LoneAsks(after: Account, id: DeviceId, f: Frame) {
    && IsCleanup(f) && f.to == id && id in after.local && f.sock == after.local[id].sock
    && |Roster(after)| == 1 && !AnyPlaying(after)
  }

  /** The guard an action passes to ask for a cleanup through frame f. */
  ghost predicate Asks(did: Did, n: Net, a: Action, f: Frame)
    requires Possible(n, a)
  {
    if a.Happens? && a.event.Arrive? then LoneAsks(Acted(did, n, a), a.event.id, f)
    else FallAsks(n.cluster[a.At()], Acted(did, n, a), f)
  }

  ghost predicate AllSettled(c: Cluster) {
    forall i :: 0 <= i < |c| ==> Settled(c[i])
  }

  // ---- one action ------------------------------------------------------------------------------

  lemma RefreshAsks(a: Account, changed: Account, f: Frame)
    requires Settled(a) && changed.last == a.last && changed.sent == a.sent && IsCleanup(f)
    ensures Settled(Refresh(changed))
    ensures Refresh(changed).sent[f] == a.sent[f] + if FallAsks(a, Refresh(changed), f) then 1 else 0
  {
    hide Refresh, Roster, AnyPlaying;
    RefreshSettles(changed);
    SameRoster(changed, Refresh(changed));
    CleanupExactly(a, changed, f);
  }

  lemma DeliverAsks(a: Account, target: DeviceId, from: DeviceId, cmd: Command, f: Frame)
    requires IsCleanup(f)
    ensures DeliverCommand(a, target, from, cmd).sent[f] == a.sent[f]
    ensures !FallAsks(a, DeliverCommand(a, target, from, cmd), f)
  {
    hide AnyPlaying, Roster;
    SameRoster(a, DeliverCommand(a, target, from, cmd));
  }

  lemma HearAsks(a: Account, self: InstanceId, msg: RelayMsg, now: int, f: Frame)
    requires Settled(a) && IsCleanup(f)
    ensures Settled(Hear(a, self, msg, now))
    ensures Hear(a, self, msg, now).sent[f] == a.sent[f] + if FallAsks(a, Hear(a, self, msg, now), f) then 1 else 0
  {
    hide Refresh, FallAsks, DeliverCommand, Settled;
    NoFallWithoutChange(a, f);
    if msg.instance == self {
    } else if msg.CommandMsg? {
      DeliverSettles(a, msg.target, msg.from, msg.cmd);
      DeliverAsks(a, msg.target, msg.from, msg.cmd, f);
    } else if msg.LeaveMsg? {
      RefreshAsks(a, a.(remote := a.remote - {msg.deviceId}), f);
    } else {
      RefreshAsks(a, WithRemote(a, msg.deviceId, RemoteDevice(msg.device, msg.instance, now)), f);
    }
  }

  lemma NoFallWithoutChange(a: Account, f: Frame)
    ensures !FallAsks(a, a, f)
  {
  }

  lemma PruneAsks(a: Account, now: int, f: Frame)
    requires Settled(a) && IsCleanup(f)
    ensures Settled(Prune(a, now))
    ensures Prune(a, now).sent[f] == a.sent[f] + if FallAsks(a, Prune(a, now), f) then 1 else 0
  {
    hide Refresh, FallAsks, Settled;
    NoFallWithoutChange(a, f);
    RefreshAsks(a, a.(remote := Fresh(a.remote, now - REMOTE_TTL_MS)), f);
  }

  lemma HandledAsks(did: Did, c: Cluster, e: Event, f: Frame)
    requires Enabled(c, e) && Settled(c[e.host]) && IsCleanup(f)
    ensures Settled(Handled(did, c, e))
    ensures
      var after := Handled(did, c, e);
      after.sent[f] == c[e.host].sent[f] +
        if (if e.Arrive? then LoneAsks(after, e.id, f) else FallAsks(c[e.host], after, f)) then 1 else 0
  {
    hide Refresh, Greet, FallAsks, LoneAsks, Settled;
    HandledIs(did, c, e);
    if e.Arrive? {
      GreetAsks(Changed(c, e), did, e.id, f);
    } else {
      RefreshAsks(c[e.host], Changed(c, e), f);
    }
  }

  lemma GreetAsks(b: Account, did: Did, id: DeviceId, f: Frame)
    requires id in b.local && IsCleanup(f)
    ensures Greet(b, did, id).sent[f] == b.sent[f] + if LoneAsks(Greet(b, did, id), id, f) then 1 else 0
  {
    hide Greet;
    GreetSettles(b, did, id);
    SameRoster(b, Greet(b, did, id));
    GreetCleanups(b, did, id, f);
    assert id in Roster(b) && Roster(b)[id] == b.local[id].device;
  }

  /** An action sends a cleanup frame exactly when it passes the guard for it. */
  lemma ActedCleanup(did: Did, n: Net, a: Action, f: Frame)
    requires Possible(n, a) && Settled(n.cluster[a.At()]) && IsCleanup(f)
    ensures Settled(Acted(did, n, a))
    ensures Acted(did, n, a).sent[f] == n.cluster[a.At()].sent[f] + if Asks(did, n, a, f) then 1 else 0
  {
    hide FallAsks, LoneAsks, Handled, Hear, Prune, DeliverCommand, Settled;
    match a
    case Happens(e) => HandledAsks(did, n.cluster, e, f);
    case Orders(host, from, target, cmd) =>
      NoFallWithoutChange(n.cluster[host], f);
      DeliverSettles(n.cluster[host], target, from, cmd);
      DeliverAsks(n.cluster[host], target, from, cmd, f);
    case Beats(host, now, _) => PruneAsks(n.cluster[host], now, f);
    case Delivered(dest, now) => HearAsks(n.cluster[dest], dest, n.inbox[dest][0], now, f);
    case Crashes(host) => CrashAsks(n.cluster[host], f);
  }

  lemma CrashAsks(a: Account, f: Frame)
    ensures Settled(Account(map[], map[], false, a.sent)) && !FallAsks(a, Account(map[], map[], false, a.sent), f)
  {
  }

  /** An action never asks two devices. */
  lemma AskIsUnique(did: Did, n: Net, a: Action, f: Frame, g: Frame)
    requires Possible(n, a) && Asks(did, n, a, f) && Asks(did, n, a, g)
    ensures f == g
  {
    hide Acted, AnyPlaying, Roster;
    if !(a.Happens? && a.event.Arrive?) {
      LowestIsUnique(f.to, g.to, Roster(Acted(did, n, a)).Keys);
    }
  }

  /** Some cleanup is asked for. */
  ghost predicate Passes(did: Did, n: Net, a: Action)
    requires Possible(n, a)
  {
    exists f :: Asks(did, n, a, f)
  }

  lemma ActedCleanups(did: Did, n: Net, a: Action)
    requires Possible(n, a) && AllSettled(n.cluster)
    ensures AllSettled(Act(did, n, a).cluster)
    ensures Total(Act(did, n, a).cluster, IsCleanup) == Total(n.cluster, IsCleanup) + if Passes(did, n, a) then 1 else 0
  {
    hide Acted, Passes, Settled, Published, Waiting, IsCleanup, Total, Only;
    ActedCount(did, n, a);
    TotalUpdate(n.cluster, a.At(), Acted(did, n, a), IsCleanup);
  }

  lemma ActedCount(did: Did, n: Net, a: Action)
    requires Possible(n, a) && Settled(n.cluster[a.At()])
    ensures Settled(Acted(did, n, a))
    ensures
      |Only(Acted(did, n, a).sent, IsCleanup)|
        == |Only(n.cluster[a.At()].sent, IsCleanup)| + if Passes(did, n, a) then 1 else 0
  {
    hide Acted, Asks, Settled, IsCleanup, Only;
    var before, after := n.cluster[a.At()], Acted(did, n, a);
    forall f | IsCleanup(f)
      ensures after.sent[f] == before.sent[f] + if Asks(did, n, a, f) then 1 else 0
      ensures Settled(after)
    {
      ActedCleanup(did, n, a, f);
    }
    CleanupIsAFrame();
    if g :| Asks(did, n, a, g) {
      AsksCleanup(did, n, a, g);
      forall f | IsCleanup(f) && Asks(did, n, a, f)
        ensures f == g
      {
        AskIsUnique(did, n, a, f, g);
      }
      OneMore(before.sent, after.sent, IsCleanup, g);
    } else {
      SameFrames(before.sent, after.sent, IsCleanup);
    }
  }

  lemma CleanupIsAFrame()
    ensures exists f :: IsCleanup(f)
  {
    assert IsCleanup(Frame([], 0, Presence(false, true)));
  }

  lemma AsksCleanup(did: Did, n: Net, a: Action, f: Frame)
    requires Possible(n, a) && Asks(did, n, a, f)
    ensures IsCleanup(f)
  {
  }

  // ---- whole runs ------------------------------------------------------------------------------

  /** How many actions of the run ask for a cleanup. */
  ghost function Passed(did: Did, n: Net, run: seq<Action>): nat
    requires PossibleRun(did, n, run)
    decreases |run|
  {
    if run == [] then 0
    else (if Passes(did, n, run[0]) then 1 else 0) + Passed(did, Act(did, n, run[0]), run[1..])
  }

  /** How many of them are actions of instance i that ask through frame f. */
  ghost function TimesAsked(did: Did, n: Net, run: seq<Action>, i: nat, f: Frame): nat
    requires PossibleRun(did, n, run)
    decreases |run|
  {
    if run == [] then 0
    else
      (if run[0].At() == i && Asks(did, n, run[0], f) then 1 else 0)
      + TimesAsked(did, Act(did, n, run[0]), run[1..], i, f)
  }

  /** Along any run whatever, each instance sends each cleanup frame exactly as often as it passes the guard for it. */
  lemma {:induction false} CleanupsOfAnyRun(did: Did, n: Net, run: seq<Action>, i: nat, f: Frame)
    requires AllSettled(n.cluster) && PossibleRun(did, n, run) && i < |n.cluster| && IsCleanup(f)
    ensures
      ActAll(did, n, run).cluster[i].sent[f] == n.cluster[i].sent[f] + TimesAsked(did, n, run, i, f)
    decreases |run|
  {
    hide Acted, Asks, Settled, Published, Waiting, IsCleanup;
    if run != [] {
      ActedCleanups(did, n, run[0]);
      ActedCleanup(did, n, run[0], f);
      CleanupsOfAnyRun(did, Act(did, n, run[0]), run[1..], i, f);
    }
  }

  /**
    Over all instances, the run sends as many cleanups as its actions pass the guard: exactly one if and only if
    exactly one action does, none if and only if none does.
   */
  lemma {:induction false} TotalCleanupsOfAnyRun(did: Did, n: Net, run: seq<Action>)
    requires AllSettled(n.cluster) && PossibleRun(did, n, run)
    ensures AllSettled(ActAll(did, n, run).cluster)
    ensures Total(ActAll(did, n, run).cluster, IsCleanup) == Total(n.cluster, IsCleanup) + Passed(did, n, run)
    decreases |run|
  {
    hide Act, Passes, AllSettled, Total;
    if run != [] {
      ActedCleanups(did, n, run[0]);
      TotalCleanupsOfAnyRun(did, Act(did, n, run[0]), run[1..]);
    }
  }

  /** For each action of the run, whether it passes the guard. */
  ghost function Passing(did: Did, n: Net, run: seq<Action>): (r: seq<bool>)
    requires PossibleRun(did, n, run)
    ensures |r| == |run|
    decreases |run|
  {
    if run == [] then [] else [Passes(did, n, run[0])] + Passing(did, Act(did, n, run[0]), run[1..])
  }

  function Trues(s: seq<bool>): nat {
    if s == [] then 0 else (if s[0] then 1 else 0) + Trues(s[1..])
  }

  predicate OnlyAt(s: seq<bool>, k: nat) {
    k < |s| && s[k] && forall j :: 0 <= j < |s| && j != k ==> !s[j]
  }

  lemma {:induction false} TruesIs(s: seq<bool>)
    ensures Trues(s) == 0 <==> forall j :: 0 <= j < |s| ==> !s[j]
    ensures Trues(s) == 1 <==> exists k: nat :: OnlyAt(s, k)
  {
    if s != [] {
      var t := s[1..];
      TruesIs(t);
      assert forall j :: 0 < j < |s| ==> s[j] == t[j - 1];
      if k: nat :| OnlyAt(t, k) {
        assert !s[0] ==> OnlyAt(s, k + 1);
      }
      if k: nat :| OnlyAt(s, k) {
        assert forall j :: 0 <= j < |t| ==> t[j] == s[j + 1];
        assert k > 0 ==> OnlyAt(t, k - 1);
      }
      if s[0] && Trues(t) == 0 {
        assert OnlyAt(s, 0);
      }
    }
  }

  lemma {:induction false} PassedIs(did: Did, n: Net, run: seq<Action>)
    requires PossibleRun(did, n, run)
    ensures Passed(did, n, run) == Trues(Passing(did, n, run))
    decreases |run|
  {
    hide Act, Passes;
    if run != [] {
      PassedIs(did, Act(did, n, run[0]), run[1..]);
      assert Passing(did, n, run)[1..] == Passing(did, Act(did, n, run[0]), run[1..]);
    }
  }

  /**
    Whatever overlaps, the account's cleanup is asked for exactly once along the run if and only if exactly one
    action passes the guard: an instance sees its account fall silent while it hosts the lowest device it knows
    of, or greets a silent device it knows to be alone.
   */
  lemma OneCleanupExactly(did: Did, n: Net, run: seq<Action>)
    requires AllSettled(n.cluster) && PossibleRun(did, n, run)
    ensures
      Total(ActAll(did, n, run).cluster, IsCleanup) == Total(n.cluster, IsCleanup) + 1 <==>
        exists k: nat :: OnlyAt(Passing(did, n, run), k)
  {
    hide Passing, Passed, Total, AllSettled, OnlyAt;
    TotalCleanupsOfAnyRun(did, n, run);
    PassedIs(did, n, run);
    TruesIs(Passing(did, n, run));
  }
}
