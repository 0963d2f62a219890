/**
  What the frames of a step say, frame by frame, in terms of the connections and devices an instance holds after it:
  who gets a roster, a summary or a welcome, and what is in it.
 */
module ConnectTelling {
  import opened ConnectAccount

  // ---- what the frames say -----------------------------------------------------------------------------

  /** The frame goes to a device connected here, on its own socket. */
  predicate Reaches(f: Frame, a: Account) {
    f.to in a.local && f.sock == a.local[f.to].sock
  }

  /** Some device connected here plays, or some other that was heard of. */
  ghost predicate SomePlaying(a: Account) {
    || (exists id :: id in a.local && a.local[id].device.state.playing)
    || (exists id :: id in a.remote && id !in a.local && a.remote[id].device.state.playing)
  }

  /** The roster shows exactly the devices connected here, as they are, and the others as they were last heard of. */
  ghost predicate Shows(roster: map<DeviceId, Device>, a: Account) {
    && (forall id :: id in roster <==> id in a.local || id in a.remote)
    && (forall id :: id in a.local ==> id in roster && roster[id] == a.local[id].device)
    && (forall id :: id in a.remote && id !in a.local ==> id in roster && roster[id] == a.remote[id].device)
  }

  /** Every summary says whether the account plays, and reaches each device connected here once. */
  ghost predicate SummariesTold(before: multiset<Frame>, after: Account) {
    forall f: Frame :: f.msg.Presence? && !f.msg.cleanup ==>
      after.sent[f] == before[f] + if Reaches(f, after) && (f.msg.anyPlaying <==> SomePlaying(after)) then 1 else 0
  }

  /** Every roster shows the account, and reaches each device connected here once. */
  ghost predicate RostersTold(before: multiset<Frame>, after: Account) {
    forall f: Frame :: f.msg.Devices? ==>
      after.sent[f] == before[f] + if Reaches(f, after) && Shows(f.msg.roster, after) then 1 else 0
  }

  /** No other frame was sent, cleanups apart. */
  ghost predicate NothingElseTold(before: multiset<Frame>, after: Account) {
    forall f: Frame :: f.msg.Welcome? || f.msg.Commanded? || (f.msg.Presence? && f.msg.cleanup && f.msg.anyPlaying) ==>
      after.sent[f] == before[f]
  }

  /** What every step that refreshes an account sends. */
  ghost predicate Told(before: multiset<Frame>, after: Account) {
    SummariesTold(before, after) && RostersTold(before, after) && NothingElseTold(before, after)
  }

  /** What a greeting sends: a welcome and a summary to the newcomer, a roster to everyone here. */
  ghost predicate Greeted(before: multiset<Frame>, after: Account, did: Did, id: DeviceId) {
    && RostersTold(before, after)
    && (forall f: Frame :: f.msg.Presence? && !f.msg.cleanup ==>
          after.sent[f] == before[f] +
            if f.to == id && Reaches(f, after) && (f.msg.anyPlaying <==> SomePlaying(after)) then 1 else 0)
    && (forall f: Frame :: f.msg.Welcome? ==>
          after.sent[f] == before[f] + if f.to == id && Reaches(f, after) && f.msg == Welcome(did, id) then 1 else 0)
    && (forall f: Frame :: f.msg.Commanded? || (f.msg.Presence? && f.msg.cleanup && f.msg.anyPlaying) ==>
          after.sent[f] == before[f])
  }

  lemma PlayingIsSome(a: Account)
    ensures AnyPlaying(a) <==> SomePlaying(a)
  {
    var r := Roster(a);
    if id :| id in a.local && a.local[id].device.state.playing {
      assert id in r && r[id].state.playing;
    }
    if id :| id in a.remote && id !in a.local && a.remote[id].device.state.playing {
      assert id in r && r[id].state.playing;
    }
    if AnyPlaying(a) {
      var id :| id in r && r[id].state.playing;
      if id in a.local {
        assert a.local[id].device.state.playing;
      } else {
        assert id in a.remote && a.remote[id].device.state.playing;
      }
    }
  }

  lemma RosterShows(a: Account, roster: map<DeviceId, Device>)
    ensures Shows(roster, a) <==> roster == Roster(a)
  {
    if Shows(roster, a) {
      assert roster.Keys == Roster(a).Keys;
    }
  }

  lemma FramesToCount(local: map<DeviceId, Conn>, msg: ServerMsg, f: Frame)
    ensures multiset(FramesTo(local, msg))[f] ==
      if f.to in local && f.sock == local[f.to].sock && f.msg == msg then 1 else 0
  {
  }

  /** Of all frames but cleanups and those `p` picks, none was sent. */
  ghost predicate NoOthers(before: multiset<Frame>, after: Account, p: Frame -> bool) {
    forall f: Frame :: !p(f) && !IsCleanup(f) ==> after.sent[f] == before[f]
  }

  lemma ReconcileTells(a: Account)
    ensures SummariesTold(a.sent, Reconcile(a))
    ensures NoOthers(a.sent, Reconcile(a), (f: Frame) => f.msg.Presence? && !f.msg.cleanup)
  {
    hide Roster, AnyPlaying, FramesTo, CleanupTargets, SomePlaying;
    var after := Reconcile(a);
    SameRoster(a, after);
    PlayingIsSome(after);
    forall f: Frame | !IsCleanup(f)
      ensures after.sent[f] == a.sent[f] + ToAll(a, Presence(AnyPlaying(a), false), f)
    {
      FramesToCount(a.local, Presence(AnyPlaying(a), false), f);
      assert f !in CleanupFrames(a);
    }
  }

  lemma BroadcastTells(a: Account)
    ensures RostersTold(a.sent, Broadcast(a)) && NoOthers(a.sent, Broadcast(a), (f: Frame) => f.msg.Devices?)
    ensures forall f :: IsCleanup(f) ==> Broadcast(a).sent[f] == a.sent[f]
  {
    hide Roster, FramesTo, Shows;
    var after := Broadcast(a);
    SameRoster(a, after);
    forall f: Frame
      ensures after.sent[f] == a.sent[f] + ToAll(a, Devices(Roster(a)), f)
      ensures f.msg.Devices? ==> (Shows(f.msg.roster, after) <==> f.msg.roster == Roster(a))
    {
      FramesToCount(a.local, Devices(Roster(a)), f);
      if f.msg.Devices? {
        RosterShows(after, f.msg.roster);
      }
    }
  }

  /** One message to everyone here, counted for one frame. */
  function ToAll(a: Account, msg: ServerMsg, f: Frame): nat {
    if Reaches(f, a) && f.msg == msg then 1 else 0
  }

  lemma RefreshCount(a: Account, f: Frame)
    requires !IsCleanup(f)
    ensures
      Refresh(a).sent[f] == a.sent[f] + ToAll(a, Devices(Roster(a)), f) + ToAll(a, Presence(AnyPlaying(a), false), f)
  {
    hide Roster, AnyPlaying, FramesTo, CleanupTargets;
    SameRoster(a, Broadcast(a));
    FramesToCount(a.local, Devices(Roster(a)), f);
    FramesToCount(a.local, Presence(AnyPlaying(a), false), f);
    assert f !in CleanupFrames(Broadcast(a));
  }

  lemma RefreshTells(a: Account)
    ensures Told(a.sent, Refresh(a))
  {
    hide Refresh, Roster, AnyPlaying, Shows, SomePlaying;
    var after := Refresh(a);
    RefreshSettles(a);
    SameRoster(a, after);
    PlayingIsSome(after);
    forall f: Frame | !IsCleanup(f)
      ensures
        after.sent[f] == a.sent[f] + ToAll(a, Devices(Roster(a)), f) + ToAll(a, Presence(AnyPlaying(a), false), f)
      ensures f.msg.Devices? ==> (Shows(f.msg.roster, after) <==> f.msg.roster == Roster(a))
    {
      RefreshCount(a, f);
      if f.msg.Devices? {
        RosterShows(after, f.msg.roster);
      }
    }
  }

  lemma GreetCount(b: Account, did: Did, id: DeviceId, f: Frame)
    requires id in b.local && !IsCleanup(f)
    ensures
      Greet(b, did, id).sent[f] == b.sent[f] + ToAll(b, Devices(Roster(b)), f)
        + (if f.to == id then ToAll(b, Welcome(did, id), f) + ToAll(b, Presence(AnyPlaying(b), false), f) else 0)
  {
    hide Roster, AnyPlaying, FramesTo;
    FramesToCount(b.local, Devices(Roster(b)), f);
    SameRoster(b, Sent(b, id, Welcome(did, id)));
  }

  lemma GreetTells(b: Account, did: Did, id: DeviceId)
    requires id in b.local
    ensures Greeted(b.sent, Greet(b, did, id), did, id)
  {
    hide Greet, Roster, AnyPlaying, Shows, SomePlaying;
    var after := Greet(b, did, id);
    GreetSettles(b, did, id);
    SameRoster(b, after);
    PlayingIsSome(after);
    forall f: Frame | !IsCleanup(f)
      ensures
        after.sent[f] == b.sent[f] + ToAll(b, Devices(Roster(b)), f)
          + (if f.to == id then ToAll(b, Welcome(did, id), f) + ToAll(b, Presence(AnyPlaying(b), false), f) else 0)
      ensures f.msg.Devices? ==> (Shows(f.msg.roster, after) <==> f.msg.roster == Roster(b))
    {
      GreetCount(b, did, id, f);
      if f.msg.Devices? {
        RosterShows(after, f.msg.roster);
      }
    }
  }

  // ---- the steps ------------------------------------------------------------------------------------------

  lemma HearTells(a: Account, self: InstanceId, msg: RelayMsg, now: int)
    requires !msg.CommandMsg?
    ensures
      var b := Hear(a, self, msg, now);
      if msg.instance == self || (msg.LeaveMsg? && msg.deviceId !in a.remote) then b == a else Told(a.sent, b)
  {
    hide Refresh, Told;
    if msg.LeaveMsg? {
      RefreshTells(a.(remote := a.remote - {msg.deviceId}));
    } else {
      RefreshTells(WithRemote(a, msg.deviceId, RemoteDevice(msg.device, msg.instance, now)));
    }
  }

  lemma PruneTells(a: Account, now: int)
    ensures
      var b := Prune(a, now);
      if forall id :: id in a.remote ==> a.remote[id].lastSeen >= now - 90_000 then b == a else Told(a.sent, b)
  {
    hide Refresh, Told;
    var kept := Fresh(a.remote, now - REMOTE_TTL_MS);
    RefreshTells(a.(remote := kept));
    if forall id :: id in a.remote ==> a.remote[id].lastSeen >= now - 90_000 {
      assert kept == a.remote;
    } else {
      var id :| id in a.remote && a.remote[id].lastSeen < now - 90_000;
      assert id !in kept;
    }
  }
}
