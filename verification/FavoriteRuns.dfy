/**
  Several clients favoriting at once on one repository. Each client's run is a sequence of single repository
  operations, and the runs interleave in any order.
 */
module FavoriteRuns {
  import opened Basics
  import opened TextOrder
  import opened Favorites

  datatype Phase =
    | Putting
    | Listing(after: Option<Rkey>, found: seq<Rkey>)
    | Deleting(todo: seq<Rkey>)
    | Finished

  datatype Client = Client(station: StationId, phase: Phase)
  datatype World = World(repo: Repo, clients: seq<Client>)

  /** One operation of client i: what the server answered to a listing, and whether a listing or deletion succeeded. */
  datatype Move = Move(i: nat, page: seq<Rkey>, cursor: Option<Rkey>, ok: bool)

  function MatchesIn(repo: Repo, page: seq<Rkey>, station: StationId): seq<Rkey> {
    if page == [] then []
    else (if Matches(repo, page[0], station) then [page[0]] else []) + MatchesIn(repo, page[1..], station)
  }

  ghost predicate Possible(w: World, m: Move) {
    && m.i < |w.clients|
    && (w.clients[m.i].phase.Listing? && m.ok ==> IsPage(w.repo, w.clients[m.i].phase.after, m.page, m.cursor))
  }

  ghost function Step(canonical: StationId -> Rkey, w: World, m: Move): World
    requires Possible(w, m)
  {
    var c := w.clients[m.i];
    var own := canonical(c.station);
    match c.phase
    case Putting =>
      World(Canonical(w.repo, own, c.station), w.clients[m.i := c.(phase := Listing(None, []))])
    case Listing(after, found) =>
      if !m.ok then w.(clients := w.clients[m.i := c.(phase := Finished)])
      else
        var all := found + MatchesIn(w.repo, m.page, c.station);
        var next := if m.cursor.Some? && m.page != [] then Listing(m.cursor, all) else Deleting(all);
        w.(clients := w.clients[m.i := c.(phase := next)])
    case Deleting(todo) =>
      if todo == [] then w.(clients := w.clients[m.i := c.(phase := Finished)])
      else
        World(
          if todo[0] != own && m.ok then w.repo - {todo[0]} else w.repo,
          w.clients[m.i := c.(phase := Deleting(todo[1..]))])
    case Finished => w
  }

  ghost predicate PossibleRun(canonical: StationId -> Rkey, w: World, run: seq<Move>)
    decreases |run|
  {
    run == [] || (Possible(w, run[0]) && PossibleRun(canonical, Step(canonical, w, run[0]), run[1..]))
  }

  ghost function RunAll(canonical: StationId -> Rkey, w: World, run: seq<Move>): World
    requires PossibleRun(canonical, w, run)
    decreases |run|
  {
    if run == [] then w else RunAll(canonical, Step(canonical, w, run[0]), run[1..])
  }

  // ---- the invariant ---------------------------------------------------------------------------

  ghost predicate Injective(canonical: StationId -> Rkey) {
    forall s, t :: canonical(s) == canonical(t) ==> s == t
  }

  /** A canonical key never holds another station's record. */
  ghost predicate WellKeyed(canonical: StationId -> Rkey, repo: Repo) {
    forall s :: canonical(s) in repo ==> Matches(repo, canonical(s), s)
  }

  /** Keys a client means to delete: old random keys of its own station, or its canonical key, which it skips. */
  ghost predicate Owned(canonical: StationId -> Rkey, repo: Repo, station: StationId, keys: seq<Rkey>) {
    forall r :: r in keys && r != canonical(station) ==>
      && (forall t :: r != canonical(t))
      && (r in repo ==> Matches(repo, r, station))
  }

  /** Once put, a client's canonical record is there. */
  ghost predicate ClientSafe(canonical: StationId -> Rkey, repo: Repo, c: Client) {
    && (!c.phase.Putting? ==> canonical(c.station) in repo)
    && (c.phase.Listing? ==> Owned(canonical, repo, c.station, c.phase.found))
    && (c.phase.Deleting? ==> Owned(canonical, repo, c.station, c.phase.todo))
  }

  ghost predicate Safe(canonical: StationId -> Rkey, w: World) {
    WellKeyed(canonical, w.repo) && forall i :: 0 <= i < |w.clients| ==> ClientSafe(canonical, w.repo, w.clients[i])
  }

  predicate WillDelete(phase: Phase, r: Rkey) {
    match phase
    case Putting => true
    case Listing(after, found) => Beyond(after, r) || r in found
    case Deleting(todo) => r in todo
    case Finished => false
  }

  /** Every stray record of the client's station is still ahead of its listing, or noted for deletion. */
  ghost predicate Covered(canonical: StationId -> Rkey, repo: Repo, c: Client) {
    forall r :: Matches(repo, r, c.station) && r != canonical(c.station) ==> WillDelete(c.phase, r)
  }

  ghost predicate AllCovered(canonical: StationId -> Rkey, w: World) {
    forall i :: 0 <= i < |w.clients| ==> Covered(canonical, w.repo, w.clients[i])
  }

  lemma {:induction false} MatchesInIs(repo: Repo, page: seq<Rkey>, station: StationId)
    ensures forall r :: r in MatchesIn(repo, page, station) <==> r in page && Matches(repo, r, station)
  {
    if page != [] {
      MatchesInIs(repo, page[1..], station);
      assert forall r :: r in page <==> r == page[0] || r in page[1..];
    }
  }

  /** A step writes the mover's canonical record, or removes an old-keyed record of its station, or nothing. */
  lemma StepOnRepo(canonical: StationId -> Rkey, w: World, m: Move)
    requires Injective(canonical) && Safe(canonical, w) && Possible(w, m)
    ensures
      var (c, after) := (w.clients[m.i], Step(canonical, w, m).repo);
      || after == w.repo
      || (after == Canonical(w.repo, canonical(c.station), c.station) && c.phase.Putting?)
      || exists r ::
           after == w.repo - {r} && (forall t :: r != canonical(t)) && (r in w.repo ==> Matches(w.repo, r, c.station))
  {
    var c := w.clients[m.i];
    assert ClientSafe(canonical, w.repo, c);
    if c.phase.Deleting? && c.phase.todo != [] && c.phase.todo[0] != canonical(c.station) && m.ok {
      assert c.phase.todo[0] in c.phase.todo;
    }
  }

  /** Such a change keeps the other clients safe and covered. */
  lemma OthersKept(canonical: StationId -> Rkey, w: World, m: Move, c: Client)
    requires Injective(canonical) && Safe(canonical, w) && Possible(w, m) && ClientSafe(canonical, w.repo, c)
    ensures WellKeyed(canonical, Step(canonical, w, m).repo)
    ensures ClientSafe(canonical, Step(canonical, w, m).repo, c)
    ensures Covered(canonical, w.repo, c) ==> Covered(canonical, Step(canonical, w, m).repo, c)
  {
    StepOnRepo(canonical, w, m);
    hide Step;
    var (mover, after) := (w.clients[m.i], Step(canonical, w, m).repo);
    if after == w.repo {
    } else if after == Canonical(w.repo, canonical(mover.station), mover.station) {
      assert Matches(after, canonical(mover.station), mover.station);
    }
  }

  /** The mover itself stays safe. */
  lemma MoverSafe(canonical: StationId -> Rkey, w: World, m: Move)
    requires Injective(canonical) && Safe(canonical, w) && Possible(w, m)
    ensures ClientSafe(canonical, Step(canonical, w, m).repo, Step(canonical, w, m).clients[m.i])
  {
    var c := w.clients[m.i];
    assert ClientSafe(canonical, w.repo, c);
    OthersKept(canonical, w, m, c);
    match c.phase
    case Putting =>
    case Finished =>
    case Listing(after, found) =>
      MatchesInIs(w.repo, m.page, c.station);
      forall r | r in found + MatchesIn(w.repo, m.page, c.station) && r != canonical(c.station)
        ensures (forall t :: r != canonical(t)) && (r in w.repo ==> Matches(w.repo, r, c.station))
      {
      }
    case Deleting(todo) =>
      assert todo != [] ==> forall r :: r in todo[1..] ==> r in todo;
  }

  /** And covered, as long as its listings and deletions succeed. */
  lemma MoverCovered(canonical: StationId -> Rkey, w: World, m: Move)
    requires Injective(canonical) && Safe(canonical, w) && Possible(w, m)
    requires Covered(canonical, w.repo, w.clients[m.i]) && m.ok
    ensures Covered(canonical, Step(canonical, w, m).repo, Step(canonical, w, m).clients[m.i])
  {
    var c := w.clients[m.i];
    match c.phase
    case Putting =>
    case Finished =>
    case Listing(after, found) =>
      MatchesInIs(w.repo, m.page, c.station);
      PageAdvances(w.repo, after, m.page, m.cursor);
    case Deleting(todo) =>
      if todo != [] {
        var after := Step(canonical, w, m).repo;
        forall r | Matches(after, r, c.station) && r != canonical(c.station)
          ensures r in todo[1..]
        {
          assert Matches(w.repo, r, c.station) && WillDelete(c.phase, r);
          assert r != todo[0];
        }
      }
  }

  lemma StepSafe(canonical: StationId -> Rkey, w: World, m: Move)
    requires Injective(canonical) && Safe(canonical, w) && Possible(w, m)
    ensures Safe(canonical, Step(canonical, w, m))
    ensures AllCovered(canonical, w) && m.ok ==> AllCovered(canonical, Step(canonical, w, m))
  {
    var w' := Step(canonical, w, m);
    assert |w'.clients| == |w.clients|;
    assert forall i :: 0 <= i < |w.clients| && i != m.i ==> w'.clients[i] == w.clients[i];
    MoverSafe(canonical, w, m);
    OthersKept(canonical, w, m, w.clients[m.i]);
    hide Step, ClientSafe, Covered, WellKeyed;
    forall i | 0 <= i < |w.clients|
      ensures ClientSafe(canonical, w'.repo, w'.clients[i])
      ensures AllCovered(canonical, w) && m.ok ==> Covered(canonical, w'.repo, w'.clients[i])
    {
      if i == m.i {
        if AllCovered(canonical, w) && m.ok {
          MoverCovered(canonical, w, m);
        }
      } else {
        OthersKept(canonical, w, m, w.clients[i]);
      }
    }
  }

  // ---- whole runs ------------------------------------------------------------------------------

  /** Clients about to start, on a repository whose canonical keys hold their own stations. */
  ghost predicate Start(canonical: StationId -> Rkey, w: World) {
    WellKeyed(canonical, w.repo) && forall i :: 0 <= i < |w.clients| ==> w.clients[i].phase.Putting?
  }

  lemma {:induction false} RunSafe(canonical: StationId -> Rkey, w: World, run: seq<Move>)
    requires Injective(canonical) && Safe(canonical, w) && PossibleRun(canonical, w, run)
    ensures Safe(canonical, RunAll(canonical, w, run))
    ensures AllCovered(canonical, w) && (forall k :: 0 <= k < |run| ==> run[k].ok) ==>
      AllCovered(canonical, RunAll(canonical, w, run))
    decreases |run|
  {
    hide Step, Safe, AllCovered;
    if run != [] {
      StepSafe(canonical, w, run[0]);
      RunSafe(canonical, Step(canonical, w, run[0]), run[1..]);
    }
  }

  /**
    At every interruption point of every interleaving, whatever requests failed, a client that has put its
    record still has its station favorited.
   */
  lemma NeverLost(canonical: StationId -> Rkey, w: World, run: seq<Move>, i: nat)
    requires Injective(canonical) && Start(canonical, w) && PossibleRun(canonical, w, run)
    requires var after := RunAll(canonical, w, run); i < |after.clients| && !after.clients[i].phase.Putting?
    ensures
      var after := RunAll(canonical, w, run);
      var station := after.clients[i].station;
      canonical(station) in FavoritesOf(after.repo, station)
  {
    RunSafe(canonical, w, run);
    var after := RunAll(canonical, w, run);
    assert ClientSafe(canonical, after.repo, after.clients[i]);
  }

  // ---- one client's requests are enough --------------------------------------------------------

  /** Client i's own operations all succeed. */
  predicate Succeeds(run: seq<Move>, i: nat) {
    forall k :: 0 <= k < |run| && run[k].i == i ==> run[k].ok
  }

  /** A step keeps client i covered, whatever fails for the others. */
  lemma StepCovered(canonical: StationId -> Rkey, w: World, m: Move, i: nat)
    requires Injective(canonical) && Safe(canonical, w) && Possible(w, m) && i < |w.clients|
    requires Covered(canonical, w.repo, w.clients[i]) && (m.i == i ==> m.ok)
    ensures
      var after := Step(canonical, w, m);
      |after.clients| == |w.clients| && Covered(canonical, after.repo, after.clients[i])
  {
    if m.i == i {
      MoverCovered(canonical, w, m);
    } else {
      OthersKept(canonical, w, m, w.clients[i]);
    }
  }

  lemma {:induction false} RunCovered(canonical: StationId -> Rkey, w: World, run: seq<Move>, i: nat)
    requires Injective(canonical) && Safe(canonical, w) && PossibleRun(canonical, w, run)
    requires i < |w.clients| && Covered(canonical, w.repo, w.clients[i]) && Succeeds(run, i)
    ensures
      var after := RunAll(canonical, w, run);
      |after.clients| == |w.clients| && Covered(canonical, after.repo, after.clients[i])
    decreases |run|
  {
    hide Step, Safe, Covered;
    if run != [] {
      StepSafe(canonical, w, run[0]);
      StepCovered(canonical, w, run[0], i);
      assert Succeeds(run[1..], i);
      RunCovered(canonical, Step(canonical, w, run[0]), run[1..], i);
    }
  }

  lemma {:induction false} SameClients(canonical: StationId -> Rkey, w: World, run: seq<Move>)
    requires PossibleRun(canonical, w, run)
    ensures
      var after := RunAll(canonical, w, run).clients;
      |after| == |w.clients| && forall i :: 0 <= i < |after| ==> after[i].station == w.clients[i].station
    decreases |run|
  {
    if run != [] {
      SameClients(canonical, Step(canonical, w, run[0]), run[1..]);
    }
  }

  /**
    A client none of whose own requests failed leaves its canonical record as its station's only favorite,
    whatever failed for the others, through any interleaving.
   */
  lemma EndsWithCanonical(canonical: StationId -> Rkey, w: World, run: seq<Move>, i: nat)
    requires Injective(canonical) && Start(canonical, w) && PossibleRun(canonical, w, run)
    requires Succeeds(run, i)
    requires var after := RunAll(canonical, w, run); i < |after.clients| && after.clients[i].phase.Finished?
    ensures
      var after := RunAll(canonical, w, run);
      var station := after.clients[i].station;
      FavoritesOf(after.repo, station) == {canonical(station)}
  {
    SameClients(canonical, w, run);
    RunCovered(canonical, w, run, i);
    NeverLost(canonical, w, run, i);
  }

  // ---- what happens to a stray -----------------------------------------------------------------

  /** The move deletes record r: next on the mover's list, not the record it keeps, and the request succeeds. */
  predicate Deletes(canonical: StationId -> Rkey, w: World, m: Move, r: Rkey) {
    m.i < |w.clients| &&
    var c := w.clients[m.i];
    c.phase.Deleting? && c.phase.todo != [] && c.phase.todo[0] == r && r != canonical(c.station) && m.ok
  }

  /** Some request of the run deletes record r. */
  ghost predicate DeletedIn(canonical: StationId -> Rkey, w: World, run: seq<Move>, r: Rkey)
    requires PossibleRun(canonical, w, run)
    decreases |run|
  {
    run != [] &&
    (Deletes(canonical, w, run[0], r) || DeletedIn(canonical, Step(canonical, w, run[0]), run[1..], r))
  }

  lemma StrayStep(canonical: StationId -> Rkey, w: World, m: Move, r: Rkey, station: StationId)
    requires Possible(w, m) && forall s :: canonical(s) != r
    ensures
      Matches(Step(canonical, w, m).repo, r, station) <==> Matches(w.repo, r, station) && !Deletes(canonical, w, m, r)
  {
  }

  /** A record under no canonical key is still there exactly when it was and no request of the run deleted it. */
  lemma {:induction false} StrayExactly(
    canonical: StationId -> Rkey, w: World, run: seq<Move>, r: Rkey, station: StationId)
    requires PossibleRun(canonical, w, run) && forall s :: canonical(s) != r
    ensures
      Matches(RunAll(canonical, w, run).repo, r, station) <==>
        Matches(w.repo, r, station) && !DeletedIn(canonical, w, run, r)
    decreases |run|
  {
    hide Step, Matches, Deletes;
    if run != [] {
      StrayStep(canonical, w, run[0], r, station);
      StrayExactly(canonical, Step(canonical, w, run[0]), run[1..], r, station);
    }
  }

  /** A stray of a station is under no canonical key. */
  lemma StrayIsNotCanonical(canonical: StationId -> Rkey, repo: Repo, station: StationId, r: Rkey)
    requires WellKeyed(canonical, repo) && Matches(repo, r, station) && r != canonical(station)
    ensures forall s :: canonical(s) != r
  {
    forall s
      ensures canonical(s) != r
    {
      assert canonical(s) == r ==> Matches(repo, canonical(s), s);
    }
  }

  /**
    A client that has put its record leaves it as its station's only favorite exactly when every stray favorite
    there was at the start has been deleted by a request of the run, its own or another client's.
   */
  lemma OnlyCanonicalExactly(canonical: StationId -> Rkey, w: World, run: seq<Move>, i: nat)
    requires Injective(canonical) && Start(canonical, w) && PossibleRun(canonical, w, run)
    requires var after := RunAll(canonical, w, run); i < |after.clients| && !after.clients[i].phase.Putting?
    ensures
      var after := RunAll(canonical, w, run);
      var station := after.clients[i].station;
      FavoritesOf(after.repo, station) == {canonical(station)} <==>
        forall r :: r in FavoritesOf(w.repo, station) && r != canonical(station) ==> DeletedIn(canonical, w, run, r)
  {
    NeverLost(canonical, w, run, i);
    RunSafe(canonical, w, run);
    var after := RunAll(canonical, w, run);
    var station := after.clients[i].station;
    hide RunAll, PossibleRun, DeletedIn;
    forall r | r != canonical(station)
      ensures r in FavoritesOf(after.repo, station) <==>
        r in FavoritesOf(w.repo, station) && !DeletedIn(canonical, w, run, r)
    {
      if r in FavoritesOf(w.repo, station) {
        StrayIsNotCanonical(canonical, w.repo, station, r);
        StrayExactly(canonical, w, run, r, station);
      } else if r in FavoritesOf(after.repo, station) {
        StrayIsNotCanonical(canonical, after.repo, station, r);
        StrayExactly(canonical, w, run, r, station);
      }
    }
  }

  /** A step leaves the favorites of every station but the mover's as they were. */
  lemma OtherStationKept(canonical: StationId -> Rkey, w: World, m: Move, other: StationId)
    requires Injective(canonical) && Safe(canonical, w) && Possible(w, m) && w.clients[m.i].station != other
    ensures FavoritesOf(Step(canonical, w, m).repo, other) == FavoritesOf(w.repo, other)
  {
    StepOnRepo(canonical, w, m);
    hide Step;
    var (c, after) := (w.clients[m.i], Step(canonical, w, m).repo);
    forall r
      ensures Matches(after, r, other) <==> Matches(w.repo, r, other)
    {
      assert canonical(c.station) in w.repo ==> Matches(w.repo, canonical(c.station), c.station);
    }
  }

  /** Stations nobody is favoriting keep exactly their favorites through any interleaving, failures included. */
  lemma {:induction false} BystandersKept(canonical: StationId -> Rkey, w: World, run: seq<Move>, other: StationId)
    requires Injective(canonical) && Safe(canonical, w) && PossibleRun(canonical, w, run)
    requires forall i :: 0 <= i < |w.clients| ==> w.clients[i].station != other
    ensures FavoritesOf(RunAll(canonical, w, run).repo, other) == FavoritesOf(w.repo, other)
    decreases |run|
  {
    hide Safe;
    if run != [] {
      StepSafe(canonical, w, run[0]);
      OtherStationKept(canonical, w, run[0], other);
      BystandersKept(canonical, Step(canonical, w, run[0]), run[1..], other);
    }
  }

  // ---- a refused deletion ----------------------------------------------------------------------

  /** One client alone: it puts, lists everything in one page, has its two deletions refused, and ends. */
  function RefusedRun(page: seq<Rkey>): seq<Move> {
    [Move(0, [], None, true), Move(0, page, None, true), Move(0, [], None, false), Move(0, [], None, false),
     Move(0, [], None, true)]
  }

  function InOrder(a: Rkey, b: Rkey): seq<Rkey> {
    if Less(a, b) then [a, b] else [b, a]
  }

  lemma NextStep(canonical: StationId -> Rkey, w: World, v: World, run: seq<Move>, r: Rkey)
    requires run != [] && Possible(w, run[0]) && Step(canonical, w, run[0]) == v && PossibleRun(canonical, v, run[1..])
    ensures PossibleRun(canonical, w, run) && RunAll(canonical, w, run) == RunAll(canonical, v, run[1..])
    ensures
      DeletedIn(canonical, w, run, r) <==> Deletes(canonical, w, run[0], r) || DeletedIn(canonical, v, run[1..], r)
  {
  }

  lemma {:induction false} MatchesInAll(repo: Repo, page: seq<Rkey>, station: StationId)
    requires forall r :: r in page ==> Matches(repo, r, station)
    ensures MatchesIn(repo, page, station) == page
  {
    if page != [] {
      MatchesInAll(repo, page[1..], station);
    }
  }

  /** A page of nothing but the station's records is noted whole. */
  lemma WholeListing(canonical: StationId -> Rkey, repo: Repo, station: StationId, page: seq<Rkey>)
    requires IsPage(repo, None, page, None) && forall r :: r in page ==> Matches(repo, r, station)
    ensures
      var (w, m) := (World(repo, [Client(station, Listing(None, []))]), Move(0, page, None, true));
      Possible(w, m) && Step(canonical, w, m) == World(repo, [Client(station, Deleting(page))])
  {
    MatchesInAll(repo, page, station);
    hide IsPage, MatchesIn;
    assert [] + page == page;
  }

  lemma BothInOnePage(repo: Repo, a: Rkey, b: Rkey)
    requires a != b && repo.Keys == {a, b}
    ensures IsPage(repo, None, InOrder(a, b), None)
    ensures forall r :: r in InOrder(a, b) <==> r == a || r == b
  {
    LessIsTotal(a, b);
    hide Less;
  }

  /** A refused deletion only shortens the list. */
  lemma RefusedStep(canonical: StationId -> Rkey, repo: Repo, station: StationId, todo: seq<Rkey>, m: Move)
    requires m == Move(0, [], None, false) && todo != []
    ensures
      var w := World(repo, [Client(station, Deleting(todo))]);
      Possible(w, m) && Step(canonical, w, m) == World(repo, [Client(station, Deleting(todo[1..]))])
  {
  }

  lemma RefusedSteps(canonical: StationId -> Rkey, station: StationId, stray: Rkey)
    requires canonical(station) != stray
    ensures
      var w := World(map[stray := Record(Some(station))], [Client(station, Putting)]);
      var run := RefusedRun(InOrder(canonical(station), stray));
      && PossibleRun(canonical, w, run) && !DeletedIn(canonical, w, run, stray)
      && RunAll(canonical, w, run).clients == [Client(station, Phase.Finished)]
  {
    var own := canonical(station);
    var page := InOrder(own, stray);
    var run := RefusedRun(page);
    var before := map[stray := Record(Some(station))];
    var repo := before[own := Record(Some(station))];
    BothInOnePage(repo, own, stray);
    WholeListing(canonical, repo, station, page);
    RefusedStep(canonical, repo, station, page, run[2]);
    RefusedStep(canonical, repo, station, page[1..], run[3]);
    var w0 := World(before, [Client(station, Putting)]);
    var w1 := World(repo, [Client(station, Listing(None, []))]);
    var w2 := World(repo, [Client(station, Deleting(page))]);
    var w3 := World(repo, [Client(station, Deleting(page[1..]))]);
    var w4 := World(repo, [Client(station, Deleting([]))]);
    var w5 := World(repo, [Client(station, Finished)]);
    assert |page| == 2 && (page[1..])[1..] == page[2..] == [];
    assert Step(canonical, w4, run[4]) == w5 && Step(canonical, w0, run[0]) == w1;
    assert run[5..] == [] && PossibleRun(canonical, w5, run[5..]);
    hide IsPage, InOrder, Step, RefusedRun;
    NextStep(canonical, w4, w5, run[4..], stray);
    NextStep(canonical, w3, w4, run[3..], stray);
    NextStep(canonical, w2, w3, run[2..], stray);
    NextStep(canonical, w1, w2, run[1..], stray);
    NextStep(canonical, w0, w1, run, stray);
  }

  /** From a fresh start, a client whose deletion is refused finishes with a second favorite left behind. */
  lemma FailedDeletionLeavesStray(canonical: StationId -> Rkey, station: StationId, stray: Rkey)
    requires Injective(canonical) && forall s :: canonical(s) != stray
    ensures
      var w := World(map[stray := Record(Some(station))], [Client(station, Putting)]);
      var run := RefusedRun(InOrder(canonical(station), stray));
      && Start(canonical, w) && PossibleRun(canonical, w, run)
      && RunAll(canonical, w, run).clients == [Client(station, Phase.Finished)]
      && FavoritesOf(RunAll(canonical, w, run).repo, station) == {canonical(station), stray}
  {
    var w := World(map[stray := Record(Some(station))], [Client(station, Putting)]);
    var run := RefusedRun(InOrder(canonical(station), stray));
    RefusedSteps(canonical, station, stray);
    hide PossibleRun, RunAll, RefusedRun, DeletedIn;
    NeverLost(canonical, w, run, 0);
    RunSafe(canonical, w, run);
    var after := RunAll(canonical, w, run);
    forall r | r != canonical(station)
      ensures r in FavoritesOf(after.repo, station) <==> r == stray
    {
      if r == stray {
        StrayExactly(canonical, w, run, r, station);
      } else if r in FavoritesOf(after.repo, station) {
        StrayIsNotCanonical(canonical, after.repo, station, r);
        StrayExactly(canonical, w, run, r, station);
      }
    }
  }
}
