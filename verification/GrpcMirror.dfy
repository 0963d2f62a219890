/**
  The gRPC control client: a local mirror edited at once, commands queued to the server, and snapshots that are
  taken over only when no command is outstanding. `A` is the audio settings, `adjust` the DSP row tweak.
 */
module GrpcMirror {
  import opened Basics

  datatype Station = Station(id: string, name: string, url: string)
  datatype Device = Device(id: string, name: string)

  /** The fields a controller can edit. */
  datatype Controls<A> = Controls(
    playing: bool, station: Option<Station>, volume: real, muted: bool, audio: A, connectTarget: Option<string>)

  datatype Snapshot<A> = Snapshot(controls: Controls<A>, title: Option<string>, devices: seq<Device>, online: bool)

  datatype Mirror<A> = Mirror(
    controls: Controls<A>, title: Option<string>, devices: seq<Device>, online: bool, connError: bool)

  datatype Source = Favorites | Stations | Recent

  datatype Cmd =
    | PlayPause
    | Stop
    | ToggleMute
    | SetVolume(volume: real)
    | LoadStation(station: Station)
    | AdjustDspRow(row: nat, dir: int)
    | Favorite(favorite: Station)
    | Comment(subject: Station, text: string)
    | SetConnectTarget(target: Option<string>)
    | ListStations(source: Source)
  {
    /** List fetches do not take part in the pending count. */
    predicate IsState() {
      !ListStations?
    }
  }

  function Clamp(v: real): real {
    if v < 0.0 then 0.0 else if v > 1.0 then 1.0 else v
  }

  /** What issuing a command does to the mirror at once. */
  function Edited<A>(c: Controls<A>, cmd: Cmd, adjust: (A, nat, int) -> A): Controls<A> {
    match cmd
    case PlayPause => c.(playing := !c.playing)
    case Stop => c.(playing := false, station := None)
    case ToggleMute => c.(muted := !c.muted)
    case SetVolume(v) => c.(volume := v)
    case LoadStation(s) => c.(station := Some(s), playing := true)
    case AdjustDspRow(row, dir) => c.(audio := adjust(c.audio, row, dir))
    case SetConnectTarget(id) => c.(connectTarget := id)
    case _ => c
  }

  /** What a command shows at once, field by field. */
  ghost predicate Shows<A>(before: Controls<A>, cmd: Cmd, after: Controls<A>, adjust: (A, nat, int) -> A) {
    && after.playing == (if cmd.PlayPause? then !before.playing else (before.playing || cmd.LoadStation?) && !cmd.Stop?)
    && (cmd.Stop? ==> after.station == None)
    && (cmd.LoadStation? ==> after.station == Some(cmd.station))
    && (!cmd.Stop? && !cmd.LoadStation? ==> after.station == before.station)
    && after.muted == (if cmd.ToggleMute? then !before.muted else before.muted)
    && after.volume == (if cmd.SetVolume? then cmd.volume else before.volume)
    && after.audio == (if cmd.AdjustDspRow? then adjust(before.audio, cmd.row, cmd.dir) else before.audio)
    && after.connectTarget == (if cmd.SetConnectTarget? then cmd.target else before.connectTarget)
  }

  /** A volume within 0 and 1, the asked one if it is. */
  ghost predicate InRange(asked: real, chosen: real) {
    && 0.0 <= chosen <= 1.0
    && (0.0 <= asked <= 1.0 ==> chosen == asked)
    && (asked < 0.0 ==> chosen == 0.0)
    && (asked > 1.0 ==> chosen == 1.0)
  }

  /** The edits folded into the mirror are exactly those. */
  lemma EditedShows<A>(before: Controls<A>, cmd: Cmd, after: Controls<A>, adjust: (A, nat, int) -> A)
    ensures Shows(before, cmd, after, adjust) <==> after == Edited(before, cmd, adjust)
  {
  }

  /** Playing and pausing, or muting and unmuting, undo themselves. */
  lemma TogglesUndo<A>(c: Controls<A>, cmd: Cmd, adjust: (A, nat, int) -> A)
    requires cmd.PlayPause? || cmd.ToggleMute?
    ensures FoldEdits(c, [Edit(cmd)], adjust) != c && FoldEdits(c, [Edit(cmd), Edit(cmd)], adjust) == c
  {
    var one: seq<Event<A>> := [Edit(cmd)];
    var two: seq<Event<A>> := [Edit(cmd), Edit(cmd)];
    assert one[1..] == [] && two[1..] == one;
    var next := Edited(c, cmd, adjust);
    assert FoldEdits(c, one, adjust) == FoldEdits(next, [], adjust) == next;
    assert FoldEdits(c, two, adjust) == FoldEdits(next, one, adjust) == FoldEdits(c, [], adjust);
  }

  /** apply_state: roster and title are always taken, the editable fields only when settled. */
  function Applied<A>(m: Mirror<A>, s: Snapshot<A>, settled: bool): Mirror<A> {
    Mirror(if settled then s.controls else m.controls, s.title, s.devices, s.online, m.connError)
  }

  // ---- the machine -----------------------------------------------------------------------------

  datatype State<A> = State(mirror: Mirror<A>, queue: seq<Cmd>, inFlight: Option<Cmd>, pending: nat)

  /** The steps the UI thread, the command loop and the watch loop take, each under its lock or atomic. */
  datatype Event<A> =
    | Edit(edit: Cmd)
    | Send(sent: Cmd)
    | Receive
    | Done(done: Cmd, ok: bool)
    | Watched(snapshot: Snapshot<A>)
    | Lost

  function One(cmd: Cmd): nat {
    if cmd.IsState() then 1 else 0
  }

  predicate Possible<A>(s: State<A>, e: Event<A>) {
    match e
    case Receive => s.inFlight.None? && s.queue != []
    case Done(cmd, _) => s.inFlight == Some(cmd)
    case _ => true
  }

  /** The atomic counter is decremented by one; only an invariant keeps it from wrapping. */
  function Step<A>(s: State<A>, e: Event<A>, adjust: (A, nat, int) -> A): State<A> {
    match e
    case Edit(cmd) => s.(mirror := s.mirror.(controls := Edited(s.mirror.controls, cmd, adjust)))
    case Send(cmd) => s.(pending := s.pending + One(cmd), queue := s.queue + [cmd])
    case Receive => if s.queue == [] then s else s.(inFlight := Some(s.queue[0]), queue := s.queue[1..])
    case Done(cmd, ok) =>
      s.(inFlight := None,
         pending := if One(cmd) <= s.pending then s.pending - One(cmd) else 0xFFFF_FFFF_FFFF_FFFF,
         mirror := if ok then s.mirror else s.mirror.(connError := true))
    case Watched(snapshot) =>
      s.(mirror := Applied(s.mirror.(connError := false), snapshot, s.pending == 0))
    case Lost => s.(mirror := s.mirror.(connError := true))
  }

  predicate PossibleRun<A>(s: State<A>, trace: seq<Event<A>>, adjust: (A, nat, int) -> A)
    decreases |trace|
  {
    trace == [] || (Possible(s, trace[0]) && PossibleRun(Step(s, trace[0], adjust), trace[1..], adjust))
  }

  function Run<A>(s: State<A>, trace: seq<Event<A>>, adjust: (A, nat, int) -> A): State<A>
    decreases |trace|
  {
    if trace == [] then s else Run(Step(s, trace[0], adjust), trace[1..], adjust)
  }

  function Outstanding(cmds: seq<Cmd>): nat {
    if cmds == [] then 0 else One(cmds[0]) + Outstanding(cmds[1..])
  }

  lemma {:induction false} OutstandingAppend(cmds: seq<Cmd>, cmd: Cmd)
    ensures Outstanding(cmds + [cmd]) == Outstanding(cmds) + One(cmd)
  {
    if cmds == [] {
      assert cmds + [cmd] == [cmd];
    } else {
      OutstandingAppend(cmds[1..], cmd);
      assert (cmds + [cmd])[1..] == cmds[1..] + [cmd];
    }
  }

  function Flying(inFlight: Option<Cmd>): seq<Cmd> {
    if inFlight.None? then [] else [inFlight.value]
  }

  /** Pending is exactly the state commands queued or in flight. */
  predicate Accounted<A>(s: State<A>) {
    s.pending == Outstanding(Flying(s.inFlight)) + Outstanding(s.queue)
  }

  /** Every step keeps the account, and a completion never takes the counter below zero. */
  lemma StepAccounted<A>(s: State<A>, e: Event<A>, adjust: (A, nat, int) -> A)
    requires Accounted(s) && Possible(s, e)
    ensures Accounted(Step(s, e, adjust))
    ensures e.Done? ==> One(e.done) <= s.pending
  {
    match e
    case Send(cmd) => OutstandingAppend(s.queue, cmd);
    case Receive => OutstandingOne(s.queue[0]);
    case Done(cmd, _) => OutstandingOne(cmd);
    case _ =>
  }

  lemma OutstandingOne(cmd: Cmd)
    ensures Outstanding([cmd]) == One(cmd)
  {
    assert [cmd][1..] == [];
  }

  lemma {:induction false} RunAccounted<A>(s: State<A>, trace: seq<Event<A>>, adjust: (A, nat, int) -> A)
    requires Accounted(s) && PossibleRun(s, trace, adjust)
    ensures Accounted(Run(s, trace, adjust))
    decreases |trace|
  {
    if trace != [] {
      StepAccounted(s, trace[0], adjust);
      RunAccounted(Step(s, trace[0], adjust), trace[1..], adjust);
    }
  }

  // ---- commands reach the server in order, none lost -------------------------------------------

  function SentBy<A>(e: Event<A>): seq<Cmd> {
    if e.Send? then [e.sent] else []
  }

  function DoneBy<A>(e: Event<A>): seq<Cmd> {
    if e.Done? then [e.done] else []
  }

  function SentIn<A>(trace: seq<Event<A>>): seq<Cmd> {
    if trace == [] then [] else SentBy(trace[0]) + SentIn(trace[1..])
  }

  function DoneIn<A>(trace: seq<Event<A>>): seq<Cmd> {
    if trace == [] then [] else DoneBy(trace[0]) + DoneIn(trace[1..])
  }

  /** Commands completed, then in flight, then queued, are the commands there were, then those sent, in order. */
  lemma {:induction false} InOrder<A>(s: State<A>, trace: seq<Event<A>>, adjust: (A, nat, int) -> A)
    requires PossibleRun(s, trace, adjust)
    ensures
      var r := Run(s, trace, adjust);
      DoneIn(trace) + Flying(r.inFlight) + r.queue == Flying(s.inFlight) + s.queue + SentIn(trace)
    decreases |trace|
  {
    if trace != [] {
      hide Step, Flying;
      var t := Step(s, trace[0], adjust);
      InOrder(t, trace[1..], adjust);
      InOrderStep(s, trace[0], adjust);
      var r := Run(t, trace[1..], adjust);
      Chained(
        DoneBy(trace[0]), DoneIn(trace[1..]), Flying(r.inFlight), r.queue,
        Flying(t.inFlight), t.queue, SentIn(trace[1..]),
        Flying(s.inFlight), s.queue, SentBy(trace[0]));
    }
  }

  lemma Chained<T>(
    done: seq<T>, rest: seq<T>, a: seq<T>, b: seq<T>, c: seq<T>, d: seq<T>, later: seq<T>, e: seq<T>, f: seq<T>,
    sent: seq<T>)
    requires rest + a + b == c + d + later
    requires done + c + d == e + f + sent
    ensures (done + rest) + a + b == e + f + (sent + later)
  {
    assert (done + rest) + a + b == done + (rest + a + b);
    assert done + (c + d + later) == (done + c + d) + later;
    assert (e + f + sent) + later == e + f + (sent + later);
  }

  lemma InOrderStep<A>(s: State<A>, e: Event<A>, adjust: (A, nat, int) -> A)
    requires Possible(s, e)
    ensures
      var t := Step(s, e, adjust);
      DoneBy(e) + Flying(t.inFlight) + t.queue
        == Flying(s.inFlight) + s.queue + SentBy(e)
  {
  }

  // ---- the mirror is the last settled snapshot plus the edits since ----------------------------

  /** State commands sent and not completed along a trace. */
  function Unacked<A>(trace: seq<Event<A>>): int {
    Outstanding(SentIn(trace)) - Outstanding(DoneIn(trace))
  }

  function FoldEdits<A>(c: Controls<A>, trace: seq<Event<A>>, adjust: (A, nat, int) -> A): Controls<A>
    decreases |trace|
  {
    if trace == [] then c
    else FoldEdits(if trace[0].Edit? then Edited(c, trace[0].edit, adjust) else c, trace[1..], adjust)
  }

  /** A snapshot that arrives while, counting from `unacked` at the start, nothing is unacknowledged. */
  predicate SettledAt<A>(trace: seq<Event<A>>, i: nat, unacked: int)
    requires i < |trace|
  {
    trace[i].Watched? && unacked + Unacked(trace[..i]) == 0
  }

  lemma {:induction false} OutstandingConcat(a: seq<Cmd>, b: seq<Cmd>)
    ensures Outstanding(a + b) == Outstanding(a) + Outstanding(b)
  {
    if a == [] {
      assert a + b == b;
    } else {
      OutstandingConcat(a[1..], b);
      assert (a + b)[1..] == a[1..] + b;
    }
  }

  /** The counter is the initial count plus what the trace left unacknowledged. */
  lemma {:induction false} PendingIsUnacked<A>(s: State<A>, trace: seq<Event<A>>, adjust: (A, nat, int) -> A)
    requires Accounted(s) && PossibleRun(s, trace, adjust)
    ensures Run(s, trace, adjust).pending == s.pending + Unacked(trace)
    decreases |trace|
  {
    if trace != [] {
      StepAccounted(s, trace[0], adjust);
      PendingIsUnacked(Step(s, trace[0], adjust), trace[1..], adjust);
      OutstandingConcat(SentBy(trace[0]), SentIn(trace[1..]));
      OutstandingConcat(DoneBy(trace[0]), DoneIn(trace[1..]));
    }
  }

  /** Without a settled snapshot, the mirror only collects the local edits. */
  lemma {:induction false} UnsettledOnlyEdits<A>(s: State<A>, trace: seq<Event<A>>, adjust: (A, nat, int) -> A)
    requires Accounted(s) && PossibleRun(s, trace, adjust)
    requires forall i :: 0 <= i < |trace| ==> !SettledAt(trace, i, s.pending)
    ensures Run(s, trace, adjust).mirror.controls == FoldEdits(s.mirror.controls, trace, adjust)
    decreases |trace|
  {
    if trace != [] {
      var e, rest := trace[0], trace[1..];
      var t := Step(s, e, adjust);
      StepAccounted(s, e, adjust);
      assert !SettledAt(trace, 0, s.pending) && trace[..0] == [];
      forall i | 0 <= i < |rest|
        ensures !SettledAt(rest, i, t.pending)
      {
        assert !SettledAt(trace, i + 1, s.pending);
        UnackedCons(trace, i);
      }
      UnsettledOnlyEdits(t, rest, adjust);
    }
  }

  lemma UnackedCons<A>(trace: seq<Event<A>>, i: nat)
    requires i < |trace|
    ensures
      Unacked(trace[..i + 1]) == Unacked(trace[1..][..i])
        + (if trace[0].Send? then One(trace[0].sent) else 0) - (if trace[0].Done? then One(trace[0].done) else 0)
  {
    var head := trace[..i + 1];
    assert head[1..] == trace[1..][..i];
    OutstandingConcat(SentBy(head[0]), SentIn(head[1..]));
    OutstandingConcat(DoneBy(head[0]), DoneIn(head[1..]));
  }

  lemma {:induction false} RunConcat<A>(s: State<A>, a: seq<Event<A>>, b: seq<Event<A>>, adjust: (A, nat, int) -> A)
    requires PossibleRun(s, a + b, adjust)
    ensures PossibleRun(s, a, adjust) && PossibleRun(Run(s, a, adjust), b, adjust)
    ensures Run(s, a + b, adjust) == Run(Run(s, a, adjust), b, adjust)
    decreases |a|
  {
    if a == [] {
      assert a + b == b;
    } else {
      assert (a + b)[1..] == a[1..] + b;
      RunConcat(Step(s, a[0], adjust), a[1..], b, adjust);
    }
  }

  /**
    Over every interleaving: the editable fields are the last settled snapshot with all later local edits folded
    over it in order.
   */
  lemma SettledPlusEdits<A>(s: State<A>, trace: seq<Event<A>>, i: nat, adjust: (A, nat, int) -> A)
    requires Accounted(s) && PossibleRun(s, trace, adjust)
    requires i < |trace| && SettledAt(trace, i, s.pending)
    requires forall j :: i < j < |trace| ==> !SettledAt(trace, j, s.pending)
    ensures
      Run(s, trace, adjust).mirror.controls == FoldEdits(trace[i].snapshot.controls, trace[i + 1..], adjust)
  {
    var before, rest := trace[..i], trace[i + 1..];
    assert trace == before + ([trace[i]] + rest);
    hide Step, Unacked, FoldEdits, Possible;
    RunConcat(s, before, [trace[i]] + rest, adjust);
    RunAccounted(s, before, adjust);
    PendingIsUnacked(s, before, adjust);
    var t := Run(s, before, adjust);
    assert ([trace[i]] + rest)[1..] == rest && ([trace[i]] + rest)[0] == trace[i];
    SettledStep(t, trace[i], adjust);
    var u := Step(t, trace[i], adjust);
    StepAccounted(t, trace[i], adjust);
    NoneSettledAfter(trace, i, s.pending, rest);
    hide SettledAt;
    UnsettledOnlyEdits(u, rest, adjust);
  }

  lemma NoneSettledAfter<A>(trace: seq<Event<A>>, i: nat, unacked: int, rest: seq<Event<A>>)
    requires i < |trace| && SettledAt(trace, i, unacked) && rest == trace[i + 1..]
    requires forall j :: i < j < |trace| ==> !SettledAt(trace, j, unacked)
    ensures forall j :: 0 <= j < |rest| ==> !SettledAt(rest, j, 0)
  {
    hide Unacked;
    forall j | 0 <= j < |rest|
      ensures !SettledAt(rest, j, 0)
    {
      assert !SettledAt(trace, i + 1 + j, unacked);
      UnackedAcross(trace, i, j);
    }
  }

  lemma SettledStep<A>(t: State<A>, e: Event<A>, adjust: (A, nat, int) -> A)
    requires e.Watched? && t.pending == 0
    ensures Step(t, e, adjust).pending == 0 && Step(t, e, adjust).mirror.controls == e.snapshot.controls
  {
  }

  lemma UnackedConcat<A>(a: seq<Event<A>>, b: seq<Event<A>>)
    ensures Unacked(a + b) == Unacked(a) + Unacked(b)
  {
    hide SentIn, DoneIn, Outstanding;
    SentConcat(a, b);
    DoneConcat(a, b);
    OutstandingConcat(SentIn(a), SentIn(b));
    OutstandingConcat(DoneIn(a), DoneIn(b));
  }

  lemma UnackedAcross<A>(trace: seq<Event<A>>, i: nat, j: nat)
    requires i + 1 + j < |trace| && trace[i].Watched?
    ensures Unacked(trace[..i + 1 + j]) == Unacked(trace[..i]) + Unacked(trace[i + 1..][..j])
  {
    assert trace[..i + 1 + j] == trace[..i] + ([trace[i]] + trace[i + 1..][..j]);
    UnackedConcat(trace[..i], [trace[i]] + trace[i + 1..][..j]);
    UnackedConcat([trace[i]], trace[i + 1..][..j]);
    assert [trace[i]][1..] == [];
    assert SentIn([trace[i]]) == [] && DoneIn([trace[i]]) == [];
  }

  /** A snapshot that finds nothing pending makes the whole mirror equal to it. */
  lemma SettledSnapshotWins<A>(s: State<A>, trace: seq<Event<A>>, snapshot: Snapshot<A>, adjust: (A, nat, int) -> A)
    requires Accounted(s) && PossibleRun(s, trace + [Watched(snapshot)], adjust) && s.pending + Unacked(trace) == 0
    ensures
      var m := Run(s, trace + [Watched(snapshot)], adjust).mirror;
      Snapshot(m.controls, m.title, m.devices, m.online) == snapshot && !m.connError
  {
    RunConcat(s, trace, [Watched(snapshot)], adjust);
    PendingIsUnacked(s, trace, adjust);
    assert [Watched(snapshot)][1..] == [];
    var t := Run(s, trace, adjust);
    assert Run(t, [Watched(snapshot)], adjust) == Step(t, Watched(snapshot), adjust);
  }

  /** While a command sent is not completed, no snapshot undoes the edits: they are only added to. */
  lemma {:induction false} PendingProtects<A>(s: State<A>, trace: seq<Event<A>>, adjust: (A, nat, int) -> A)
    requires Accounted(s) && PossibleRun(s, trace, adjust)
    requires forall i :: 0 <= i < |trace| ==> s.pending + Unacked(trace[..i]) > 0
    ensures Run(s, trace, adjust).mirror.controls == FoldEdits(s.mirror.controls, trace, adjust)
  {
    UnsettledOnlyEdits(s, trace, adjust);
  }

  // ---- an edit and its command -----------------------------------------------------------------

  lemma {:induction false} SentConcat<A>(a: seq<Event<A>>, b: seq<Event<A>>)
    ensures SentIn(a + b) == SentIn(a) + SentIn(b)
  {
    hide SentBy;
    if a == [] {
      assert a + b == b;
    } else {
      SentConcat(a[1..], b);
      assert (a + b)[1..] == a[1..] + b;
      Assoc(SentBy(a[0]), SentIn(a[1..]), SentIn(b));
    }
  }

  lemma {:induction false} DoneConcat<A>(a: seq<Event<A>>, b: seq<Event<A>>)
    ensures DoneIn(a + b) == DoneIn(a) + DoneIn(b)
  {
    hide DoneBy;
    if a == [] {
      assert a + b == b;
    } else {
      DoneConcat(a[1..], b);
      assert (a + b)[1..] == a[1..] + b;
      Assoc(DoneBy(a[0]), DoneIn(a[1..]), DoneIn(b));
    }
  }

  lemma Assoc<T>(a: seq<T>, b: seq<T>, c: seq<T>)
    ensures a + (b + c) == (a + b) + c
  {
  }

  lemma {:induction false} OutstandingHas(cmds: seq<Cmd>, i: nat)
    requires i < |cmds| && cmds[i].IsState()
    ensures Outstanding(cmds) > 0
  {
    if i > 0 {
      OutstandingHas(cmds[1..], i - 1);
    }
  }

  /** Fewer commands have completed than were queued up to the one sent at s, so that one has not. */
  predicate NotDone<A>(s: State<A>, trace: seq<Event<A>>, sent: nat)
    requires sent <= |trace|
  {
    |DoneIn(trace)| <= |Flying(s.inFlight)| + |s.queue| + |SentIn(trace[..sent])|
  }

  /** The completions of a prefix come first. */
  lemma DoneOfPrefix<A>(s: State<A>, trace: seq<Event<A>>, sent: nat, i: nat)
    requires sent <= i <= |trace| && NotDone(s, trace, sent)
    ensures NotDone(s, trace[..i], sent)
  {
    assert trace == trace[..i] + trace[i..];
    DoneConcat(trace[..i], trace[i..]);
    assert trace[..i][..sent] == trace[..sent];
  }

  /** A state command that was sent and has not completed is counted. */
  lemma CountedUntilDone<A>(s: State<A>, trace: seq<Event<A>>, sent: nat, adjust: (A, nat, int) -> A)
    requires Accounted(s) && PossibleRun(s, trace, adjust)
    requires sent < |trace| && trace[sent].Send? && trace[sent].sent.IsState() && NotDone(s, trace, sent)
    ensures s.pending + Unacked(trace) > 0
  {
    hide Unacked, Step, Possible, SentIn, DoneIn, Run, PossibleRun, Flying, Outstanding;
    PendingIsUnacked(s, trace, adjust);
    RunAccounted(s, trace, adjust);
    InOrder(s, trace, adjust);
    SentAt(trace, sent);
    var r := Run(s, trace, adjust);
    var sofar := |SentIn(trace[..sent])|;
    LeftOver(Flying(s.inFlight), s.queue, SentIn(trace), DoneIn(trace), Flying(r.inFlight), r.queue, sofar);
  }

  /** Of commands taken from one end and put at the other, one put and not taken is among those left. */
  lemma LeftOver(
    flying: seq<Cmd>, queue: seq<Cmd>, sent: seq<Cmd>, done: seq<Cmd>, stillFlying: seq<Cmd>, stillQueued: seq<Cmd>,
    k: nat)
    requires done + stillFlying + stillQueued == flying + queue + sent
    requires k < |sent| && sent[k].IsState() && |done| <= |flying| + |queue| + k
    ensures Outstanding(stillFlying) + Outstanding(stillQueued) > 0
  {
    hide Outstanding;
    Assoc(done, stillFlying, stillQueued);
    SamePlace(done, stillFlying + stillQueued, flying + queue, sent, k);
    OutstandingHas(stillFlying + stillQueued, |flying + queue| + k - |done|);
    OutstandingConcat(stillFlying, stillQueued);
  }

  lemma SamePlace<T>(done: seq<T>, left: seq<T>, before: seq<T>, sent: seq<T>, k: nat)
    requires done + left == before + sent && k < |sent| && |done| <= |before| + k
    ensures |before| + k - |done| < |left| && left[|before| + k - |done|] == sent[k]
  {
    assert (done + left)[|before| + k] == (before + sent)[|before| + k];
  }

  lemma SentAt<A>(trace: seq<Event<A>>, sent: nat)
    requires sent < |trace| && trace[sent].Send?
    ensures |SentIn(trace[..sent])| < |SentIn(trace)| && SentIn(trace)[|SentIn(trace[..sent])|] == trace[sent].sent
  {
    var rest := trace[sent..];
    assert trace == trace[..sent] + rest && rest[0] == trace[sent];
    SentConcat(trace[..sent], rest);
  }

  /** No snapshot is taken over from position `from` on. */
  ghost predicate Untouched<A>(trace: seq<Event<A>>, from: nat, unacked: int) {
    forall i :: from <= i < |trace| ==> !SettledAt(trace, i, unacked)
  }

  /** The mirror from a point on, when no snapshot is taken over. */
  lemma UntouchedFold<A>(s: State<A>, trace: seq<Event<A>>, e: nat, adjust: (A, nat, int) -> A)
    requires Accounted(s) && PossibleRun(s, trace, adjust) && e <= |trace| && Untouched(trace, e, s.pending)
    ensures PossibleRun(s, trace[..e], adjust)
    ensures
      Run(s, trace, adjust).mirror.controls == FoldEdits(Run(s, trace[..e], adjust).mirror.controls, trace[e..], adjust)
  {
    hide Step, Unacked, FoldEdits, Possible;
    var before, rest := trace[..e], trace[e..];
    assert trace == before + rest;
    RunConcat(s, before, rest, adjust);
    RunAccounted(s, before, adjust);
    PendingIsUnacked(s, before, adjust);
    var t := Run(s, before, adjust);
    forall j | 0 <= j < |rest|
      ensures !SettledAt(rest, j, t.pending)
    {
      assert !SettledAt(trace, e + j, s.pending);
      assert trace[..e + j] == before + rest[..j];
      UnackedConcat(before, rest[..j]);
    }
    UnsettledOnlyEdits(t, rest, adjust);
  }

  lemma {:induction false} LastSettled<A>(trace: seq<Event<A>>, from: nat, unacked: int) returns (l: nat)
    requires !Untouched(trace, from, unacked)
    ensures from <= l < |trace| && SettledAt(trace, l, unacked) && Untouched(trace, l + 1, unacked)
    decreases |trace| - from
  {
    if Untouched(trace, from + 1, unacked) {
      l := from;
    } else {
      l := LastSettled(trace, from + 1, unacked);
    }
  }

  /**
    An edit at e whose command is sent at s and not yet completed is still in the fold exactly when no snapshot
    between the two found nothing pending. If there was one, the mirror is the last such snapshot with only the
    edits after it.
   */
  lemma EditKeptExactly<A>(s0: State<A>, trace: seq<Event<A>>, e: nat, s: nat, adjust: (A, nat, int) -> A)
    requires Accounted(s0) && PossibleRun(s0, trace, adjust) && e < s < |trace|
    requires trace[e].Edit? && trace[s] == Send(trace[e].edit) && trace[e].edit.IsState() && NotDone(s0, trace, s)
    ensures Untouched(trace, e + 1, s0.pending) <==> forall i :: e < i < s ==> !SettledAt(trace, i, s0.pending)
    ensures Untouched(trace, e + 1, s0.pending) ==>
      && PossibleRun(s0, trace[..e], adjust)
      && Run(s0, trace, adjust).mirror.controls
           == FoldEdits(Run(s0, trace[..e], adjust).mirror.controls, trace[e..], adjust)
    ensures !Untouched(trace, e + 1, s0.pending) ==>
      exists l :: e < l < s && SettledAt(trace, l, s0.pending)
        && Run(s0, trace, adjust).mirror.controls == FoldEdits(trace[l].snapshot.controls, trace[l + 1..], adjust)
  {
    hide Run, PossibleRun, FoldEdits, Unacked, NotDone;
    forall i | s <= i < |trace|
      ensures !SettledAt(trace, i, s0.pending)
    {
      if i > s {
        NothingSettlesAfter(s0, trace, s, i, adjust);
      }
    }
    if Untouched(trace, e + 1, s0.pending) {
      assert Untouched(trace, e, s0.pending);
      UntouchedFold(s0, trace, e, adjust);
    } else {
      var l := LastSettled(trace, e + 1, s0.pending);
      SettledPlusEdits(s0, trace, l, adjust);
    }
  }

  lemma NothingSettlesAfter<A>(s0: State<A>, trace: seq<Event<A>>, s: nat, i: nat, adjust: (A, nat, int) -> A)
    requires Accounted(s0) && PossibleRun(s0, trace, adjust) && s < i < |trace|
    requires trace[s].Send? && trace[s].sent.IsState() && NotDone(s0, trace, s)
    ensures !SettledAt(trace, i, s0.pending)
  {
    hide Step, Possible, NotDone, Unacked, Run;
    assert trace == trace[..i] + trace[i..];
    RunConcat(s0, trace[..i], trace[i..], adjust);
    DoneOfPrefix(s0, trace, s, i);
    CountedUntilDone(s0, trace[..i], s, adjust);
  }

  /**
    The mirror is edited before the counter is raised, so a snapshot between the two can drop an edit whose
    command is then sent.
   */
  lemma EditBeforeSendCanBeDropped<A>(s: State<A>, stale: Snapshot<A>, adjust: (A, nat, int) -> A)
    requires Accounted(s) && s.pending == 0 && stale.controls.volume != 1.0
    ensures
      var trace := [Edit(SetVolume(1.0)), Watched(stale), Send(SetVolume(1.0))];
      var r := Run(s, trace, adjust);
      && PossibleRun(s, trace, adjust) && r.pending == 1
      && !Untouched(trace, 1, s.pending) && r.mirror.controls == stale.controls
  {
    var a, b, c: Event<A> := Edit(SetVolume(1.0)), Watched(stale), Send(SetVolume(1.0));
    var trace := [a, b, c];
    SentOfThree(a, b, c);
    ThreeSteps(s, a, b, c, adjust);
    FoldOfSend(stale.controls, c, adjust);
    hide Run, PossibleRun, SentIn, DoneIn, Step, Possible, Outstanding, FoldEdits, Untouched;
    assert trace[..1] == [a] && trace[..2] == [a, b];
    assert SettledAt(trace, 1, s.pending);
    PendingIsUnacked(s, trace, adjust);
    EditKeptExactly(s, trace, 0, 2, adjust);
    assert trace[2..] == [c];
  }

  lemma FoldOfSend<A>(controls: Controls<A>, e: Event<A>, adjust: (A, nat, int) -> A)
    requires e.Send?
    ensures FoldEdits(controls, [e], adjust) == controls
  {
    assert [e][1..] == [];
  }

  lemma ThreeSteps<A>(s: State<A>, a: Event<A>, b: Event<A>, c: Event<A>, adjust: (A, nat, int) -> A)
    requires a.Edit? && b.Watched? && c.Send?
    ensures PossibleRun(s, [a, b, c], adjust)
  {
    hide Step;
    assert [c][1..] == [] && [b, c][1..] == [c] && [a, b, c][1..] == [b, c];
    var s1 := Step(s, a, adjust);
    var s2 := Step(s1, b, adjust);
    assert PossibleRun(Step(s2, c, adjust), [], adjust);
    assert PossibleRun(s2, [c], adjust);
    assert PossibleRun(s1, [b, c], adjust);
  }

  lemma SentOfThree<A>(a: Event<A>, b: Event<A>, c: Event<A>)
    requires a.Edit? && b.Watched? && c.Send?
    ensures SentIn([a]) == [] && DoneIn([a]) == [] && SentIn([a, b]) == [] && DoneIn([a, b]) == []
    ensures SentIn([a, b, c]) == [c.sent] && DoneIn([a, b, c]) == [] && Outstanding([c.sent]) == One(c.sent)
  {
    assert [a, b] == [a] + [b] && [a, b, c] == [a, b] + [c];
    OutstandingOne(c.sent);
    hide SentIn, DoneIn;
    ByOne(a);
    ByOne(b);
    ByOne(c);
    SentConcat([a], [b]);
    SentConcat([a, b], [c]);
    DoneConcat([a], [b]);
    DoneConcat([a, b], [c]);
  }

  lemma ByOne<A>(e: Event<A>)
    ensures SentIn([e]) == SentBy(e) && DoneIn([e]) == DoneBy(e)
  {
    assert [e][1..] == [];
  }

  lemma RunTwo<A>(s: State<A>, a: Event<A>, b: Event<A>, adjust: (A, nat, int) -> A)
    ensures Run(s, [a, b], adjust) == Step(Step(s, a, adjust), b, adjust)
  {
    assert [a, b][1..] == [b] && [b][1..] == [];
    assert Run(Step(s, a, adjust), [b], adjust) == Step(Step(s, a, adjust), b, adjust);
  }

  // ---- the client object -----------------------------------------------------------------------

  class GrpcRemote<A> {
    const adjust: (A, nat, int) -> A
    var mirror: Mirror<A>
    var queue: seq<Cmd>
    var inFlight: Option<Cmd>
    var pending: nat

    ghost function Model(): State<A>
      reads this
    {
      State(mirror, queue, inFlight, pending)
    }

    ghost predicate Valid()
      reads this
    {
      Accounted(Model())
    }

    /** The mirror starts as the server's state at connect time, taken as settled. */
    constructor (adjust: (A, nat, int) -> A, initial: Snapshot<A>)
      ensures Valid() && this.adjust == adjust && pending == 0
      ensures mirror == Mirror(initial.controls, initial.title, initial.devices, initial.online, false)
    {
      this.adjust := adjust;
      mirror := Mirror(initial.controls, initial.title, initial.devices, initial.online, false);
      queue, inFlight, pending := [], None, 0;
    }

    method Send(cmd: Cmd)
      requires Valid() && cmd.IsState()
      modifies this`queue, this`pending
      ensures Valid() && Model() == Step(old(Model()), Event<A>.Send(cmd), adjust)
      ensures pending == old(pending) + 1 && queue == old(queue) + [cmd]
    {
      StepAccounted(Model(), Event<A>.Send(cmd), adjust);
      pending := pending + 1;
      queue := queue + [cmd];
    }

    /** play_pause, stop, toggle_mute, load_station, adjust_dsp_row, set_connect_target: edit, then send. */
    method Issue(cmd: Cmd)
      requires Valid() && cmd.IsState()
      modifies this`mirror, this`queue, this`pending
      ensures Valid() && Model() == Run(old(Model()), [Edit(cmd), Event<A>.Send(cmd)], adjust)
      ensures Shows(old(mirror.controls), cmd, mirror.controls, adjust)
      ensures mirror == old(mirror).(controls := mirror.controls)
      ensures pending == old(pending) + 1 && queue == old(queue) + [cmd]
    {
      ghost var s := Model();
      mirror := mirror.(controls :=
        match cmd
        case PlayPause => mirror.controls.(playing := !mirror.controls.playing)
        case Stop => mirror.controls.(playing := false, station := None)
        case ToggleMute => mirror.controls.(muted := !mirror.controls.muted)
        case SetVolume(v) => mirror.controls.(volume := v)
        case LoadStation(station) => mirror.controls.(station := Some(station), playing := true)
        case AdjustDspRow(row, dir) => mirror.controls.(audio := adjust(mirror.controls.audio, row, dir))
        case SetConnectTarget(id) => mirror.controls.(connectTarget := id)
        case _ => mirror.controls);
      assert Model() == Step(s, Edit(cmd), adjust);
      Send(cmd);
      RunTwo(s, Edit(cmd), Event<A>.Send(cmd), adjust);
    }

    method SetVolumeTo(v: real)
      requires Valid()
      modifies this`mirror, this`queue, this`pending
      ensures Valid()
      ensures Model() == Run(old(Model()), [Edit(SetVolume(Clamp(v))), Event<A>.Send(SetVolume(Clamp(v)))], adjust)
      ensures InRange(v, mirror.controls.volume)
      ensures mirror == old(mirror).(controls := old(mirror.controls).(volume := mirror.controls.volume))
      ensures queue == old(queue) + [SetVolume(mirror.controls.volume)]
    {
      Issue(SetVolume(Clamp(v)));
    }

    /** Relative to the last-known volume. */
    method BumpVolume(delta: real)
      requires Valid()
      modifies this`mirror, this`queue, this`pending
      ensures Valid()
      ensures
        var cmd := SetVolume(Clamp(old(mirror.controls.volume) + delta));
        Model() == Run(old(Model()), [Edit(cmd), Event<A>.Send(cmd)], adjust)
      ensures InRange(old(mirror.controls.volume) + delta, mirror.controls.volume)
      ensures mirror == old(mirror).(controls := old(mirror.controls).(volume := mirror.controls.volume))
      ensures queue == old(queue) + [SetVolume(mirror.controls.volume)]
    {
      SetVolumeTo(Clamp(mirror.controls.volume + delta));
    }

    /** Three read-only fetches, outside the pending count. */
    method RequestLists()
      requires Valid()
      modifies this`queue
      ensures Valid()
      ensures Model() == Run(old(Model()),
        [Event<A>.Send(ListStations(Favorites)), Event<A>.Send(ListStations(Stations)),
         Event<A>.Send(ListStations(Recent))], adjust)
      ensures pending == old(pending)
      ensures queue == old(queue) + [ListStations(Favorites), ListStations(Stations), ListStations(Recent)]
    {
      ghost var s := Model();
      ghost var a, b, c: Event<A> :=
        Event.Send(ListStations(Favorites)), Event.Send(ListStations(Stations)), Event.Send(ListStations(Recent));
      queue := queue + [ListStations(Favorites)];
      assert Model() == Step(s, a, adjust);
      queue := queue + [ListStations(Stations)];
      assert Model() == Step(Step(s, a, adjust), b, adjust);
      queue := queue + [ListStations(Recent)];
      assert [a, b, c][1..] == [b, c] && [b, c][1..] == [c] && [c][1..] == [];
      assert Model() == Step(Step(Step(s, a, adjust), b, adjust), c, adjust);
      assert Model() == Run(Step(Step(s, a, adjust), b, adjust), [c], adjust);
      assert Model() == Run(Step(s, a, adjust), [b, c], adjust);
      assert PossibleRun(Step(Step(s, a, adjust), b, adjust), [c], adjust);
      assert PossibleRun(Step(s, a, adjust), [b, c], adjust);
      RunAccounted(s, [a, b, c], adjust);
    }

    /** The command loop takes the next command. */
    method TakeNext()
      requires Valid() && inFlight.None? && queue != []
      modifies this`queue, this`inFlight
      ensures Valid() && Model() == Step(old(Model()), Event<A>.Receive, adjust)
      ensures inFlight == Some(old(queue[0])) && queue == old(queue[1..])
    {
      StepAccounted(Model(), Event<A>.Receive, adjust);
      inFlight := Some(queue[0]);
      queue := queue[1..];
    }

    /** Its call returned. The counter can be decremented: the command is still counted. */
    method Completed(ok: bool)
      requires Valid() && inFlight.Some?
      modifies this`mirror, this`inFlight, this`pending
      ensures Valid() && Model() == Step(old(Model()), Event<A>.Done(old(inFlight.value), ok), adjust)
      ensures inFlight == None
      ensures pending == if old(inFlight.value).ListStations? then old(pending) else old(pending) - 1
      ensures mirror == if ok then old(mirror) else old(mirror).(connError := true)
    {
      StepAccounted(Model(), Event<A>.Done(inFlight.value, ok), adjust);
      if inFlight.value.IsState() {
        pending := pending - 1;
      }
      if !ok {
        mirror := mirror.(connError := true);
      }
      inFlight := None;
    }

    /** The watch loop receives a snapshot. */
    method OnState(snapshot: Snapshot<A>)
      requires Valid()
      modifies this`mirror
      ensures Valid() && Model() == Step(old(Model()), Watched(snapshot), adjust)
      ensures mirror.devices == snapshot.devices && mirror.online == snapshot.online && mirror.title == snapshot.title
      ensures mirror.controls == (if pending == 0 then snapshot.controls else old(mirror.controls)) && !mirror.connError
    {
      mirror := mirror.(connError := false);
      var settled := pending == 0;
      mirror := mirror.(devices := snapshot.devices, online := snapshot.online);
      if settled {
        mirror := mirror.(controls := snapshot.controls, title := snapshot.title);
      } else {
        mirror := mirror.(title := snapshot.title);
      }
    }

    /** The stream breaks, or cannot be opened. */
    method OnLost()
      requires Valid()
      modifies this`mirror
      ensures Valid() && Model() == Step(old(Model()), Event<A>.Lost, adjust)
      ensures mirror == old(mirror).(connError := true)
    {
      mirror := mirror.(connError := true);
    }
  }
}
