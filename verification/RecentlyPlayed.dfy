/** The getRecentlyPlayed endpoint: one entry per station, newest first, paged by the time of the latest play. */
module RecentlyPlayed {
  import opened Basics
  import opened JetstreamIndex

  /** An actor's plays by time. The table's primary key (did, playedAt) allows one play at a time. */
  function PlaysOf(plays: map<(Did, int), PlayFields>, did: Did): map<int, StationInfo> {
    map key | key in plays && key.0 == did :: key.1 := plays[key].station
  }

  datatype PlayView = PlayView(station: StationInfo, playedAt: int)
  datatype Page = Page(items: seq<PlayView>, cursor: Option<int>)

  /** `Math.min(Math.max(1, Number(raw) || fallback), 100)`; None is a missing or non-numeric limit. */
  function ClampLimit(raw: Option<int>, fallback: int): (limit: int)
    ensures 1 <= limit <= 100
    ensures raw.Some? && 1 <= raw.value <= 100 ==> limit == raw.value
    ensures raw.Some? && raw.value < 0 ==> limit == 1
    ensures raw.Some? && raw.value > 100 ==> limit == 100
    ensures (raw.None? || raw.value == 0) && 1 <= fallback <= 100 ==> limit == fallback
  {
    var n := if raw.Some? && raw.value != 0 then raw.value else fallback;
    var atLeastOne := if n < 1 then 1 else n;
    if atLeastOne > 100 then 100 else atLeastOne
  }

  // ---- the grouped query -----------------------------------------------------------------------

  /** The groups' maxima: times of plays that are their station's latest. */
  function LatestTimes(plays: map<int, StationInfo>): set<int> {
    set t | t in plays && forall u :: u in plays && plays[u].stationId == plays[t].stationId ==> u <= t
  }

  /** HAVING max < cursor */
  function Below(times: set<int>, cursor: Option<int>): set<int> {
    if cursor.None? then times else set t | t in times && t < cursor.value
  }

  lemma AnyOf<T>(s: set<T>) returns (x: T)
    requires s != {}
    ensures x in s
  {
    x :| x in s;
  }

  ghost predicate IsGreatest(t: int, times: set<int>) {
    t in times && forall u :: u in times ==> u <= t
  }

  lemma {:induction false} GreatestExists(times: set<int>)
    requires times != {}
    ensures exists t :: IsGreatest(t, times)
  {
    var t := AnyOf(times);
    var rest := times - {t};
    assert times == rest + {t};
    if rest == {} {
      assert IsGreatest(t, times);
    } else {
      GreatestExists(rest);
      var g :| IsGreatest(g, rest);
      assert IsGreatest(if g < t then t else g, times);
    }
  }

  ghost function Greatest(times: set<int>): (t: int)
    requires times != {}
    ensures IsGreatest(t, times)
  {
    GreatestExists(times);
    var t :| IsGreatest(t, times);
    t
  }

  /** ORDER BY max DESC */
  ghost function Descending(times: set<int>): (r: seq<int>)
    ensures forall t :: t in r <==> t in times
    ensures forall i, j :: 0 <= i < j < |r| ==> r[i] > r[j]
    decreases |times|
  {
    if times == {} then []
    else
      var t := Greatest(times);
      [t] + Descending(times - {t})
  }

  function First<T>(s: seq<T>, n: nat): (r: seq<T>)
    ensures |r| == if |s| <= n then |s| else n
    ensures forall i :: 0 <= i < |r| ==> r[i] == s[i]
  {
    if |s| <= n then s else s[..n]
  }

  predicate AllIn(plays: map<int, StationInfo>, times: seq<int>) {
    forall i :: 0 <= i < |times| ==> times[i] in plays
  }

  lemma RankedIn(plays: map<int, StationInfo>, cursor: Option<int>)
    ensures AllIn(plays, Descending(Below(LatestTimes(plays), cursor)))
  {
    var ranked := Descending(Below(LatestTimes(plays), cursor));
    forall i | 0 <= i < |ranked|
      ensures ranked[i] in plays
    {
      assert ranked[i] in ranked;
    }
  }

  ghost function Query(plays: map<int, StationInfo>, cursor: Option<int>, n: nat): (r: seq<int>)
    ensures AllIn(plays, r)
  {
    RankedIn(plays, cursor);
    First(Descending(Below(LatestTimes(plays), cursor)), n)
  }

  function Views(plays: map<int, StationInfo>, times: seq<int>): (r: seq<PlayView>)
    requires AllIn(plays, times)
    ensures |r| == |times|
    ensures forall i :: 0 <= i < |r| ==> r[i] == PlayView(plays[times[i]], times[i])
  {
    seq(|times|, i requires 0 <= i < |times| => PlayView(plays[times[i]], times[i]))
  }

  /** One request: asks for one row more than the limit to know whether there is a next page. */
  ghost function GetRecentlyPlayed(plays: map<int, StationInfo>, rawLimit: Option<int>, cursor: Option<int>): Page {
    var limit := ClampLimit(rawLimit, 30);
    var rows := Query(plays, cursor, limit + 1);
    var page := First(rows, limit);
    Page(Views(plays, page), if |rows| > limit then Some(page[|page| - 1]) else None)
  }

  // ---- following the cursors -------------------------------------------------------------------

  lemma {:induction false} BelowIsSuffix(times: set<int>, i: nat)
    requires 0 < i <= |Descending(times)|
    ensures Descending(Below(times, Some(Descending(times)[i - 1]))) == Descending(times)[i..]
    decreases i
  {
    hide Descending, Greatest, Below;
    DescendingStarts(times);
    var t := Greatest(times);
    var rest := times - {t};
    var r, tail := Descending(times), Descending(rest);
    assert r[i..] == tail[i - 1..];
    if i == 1 {
      BelowGreatest(times, t);
    } else {
      var c := tail[i - 2];
      assert r[i - 1] == c && c in tail;
      BelowOthers(times, t, c);
      BelowIsSuffix(rest, i - 1);
    }
  }

  lemma DescendingStarts(times: set<int>)
    requires Descending(times) != []
    ensures times != {} && Descending(times) == [Greatest(times)] + Descending(times - {Greatest(times)})
  {
  }

  lemma BelowOthers(times: set<int>, t: int, c: int)
    requires IsGreatest(t, times) && c in times
    ensures Below(times, Some(c)) == Below(times - {t}, Some(c))
  {
  }

  lemma BelowGreatest(times: set<int>, t: int)
    requires IsGreatest(t, times)
    ensures Below(times, Some(t)) == times - {t}
  {
  }

  lemma BelowTwice(times: set<int>, cursor: Option<int>, t: int)
    requires cursor.Some? ==> t <= cursor.value
    ensures Below(Below(times, cursor), Some(t)) == Below(times, Some(t))
  {
  }

  /** The cursor a page returns is one of its own times, so fewer groups lie below it. */
  lemma CursorAdvances(plays: map<int, StationInfo>, rawLimit: Option<int>, cursor: Option<int>)
    ensures
      var page := GetRecentlyPlayed(plays, rawLimit, cursor);
      var all := LatestTimes(plays);
      var limit, ranked := ClampLimit(rawLimit, 30), Descending(Below(all, cursor));
      && AllIn(plays, ranked)
      && if page.cursor.None? then page.items == Views(plays, ranked)
         else
           && |Below(all, page.cursor)| < |Below(all, cursor)|
           && limit < |ranked|
           && page.items == Views(plays, ranked[..limit])
           && Descending(Below(all, page.cursor)) == ranked[limit..]
  {
    hide Descending, LatestTimes, Views;
    var page, all := GetRecentlyPlayed(plays, rawLimit, cursor), LatestTimes(plays);
    var limit := ClampLimit(rawLimit, 30);
    var ranked := Descending(Below(all, cursor));
    RankedIn(plays, cursor);
    if page.cursor.Some? {
      var t := page.cursor.value;
      assert First(First(ranked, limit + 1), limit) == ranked[..limit];
      assert t == ranked[limit - 1] && t in ranked;
      BelowIsSuffix(Below(all, cursor), limit);
      BelowTwice(all, cursor, t);
      hide Below;
      FewerBelow(all, cursor, t);
    } else {
      assert First(First(ranked, limit + 1), limit) == ranked;
    }
  }

  lemma FewerBelow(times: set<int>, cursor: Option<int>, t: int)
    requires t in Below(times, cursor)
    ensures |Below(times, Some(t))| < |Below(times, cursor)|
  {
    assert Below(times, Some(t)) <= Below(times, cursor) - {t};
    NotLarger(Below(times, Some(t)), Below(times, cursor) - {t});
  }

  /** All the items a client collects that follows the cursors, asking for `limits(k)` items in its k-th request. */
  ghost function Follow(
    plays: map<int, StationInfo>, limits: nat -> Option<int>, k: nat, cursor: Option<int>): seq<PlayView>
    decreases |Below(LatestTimes(plays), cursor)|
  {
    var page := GetRecentlyPlayed(plays, limits(k), cursor);
    CursorAdvances(plays, limits(k), cursor);
    page.items + if page.cursor.Some? then Follow(plays, limits, k + 1, page.cursor) else []
  }

  /** On a fixed table, following the cursors terminates and collects exactly the ranking below the starting cursor. */
  lemma {:induction false} FollowIsRanking(
    plays: map<int, StationInfo>, limits: nat -> Option<int>, k: nat, cursor: Option<int>)
    ensures AllIn(plays, Descending(Below(LatestTimes(plays), cursor)))
    ensures Follow(plays, limits, k, cursor) == Views(plays, Descending(Below(LatestTimes(plays), cursor)))
    decreases |Below(LatestTimes(plays), cursor)|
  {
    var page, all := GetRecentlyPlayed(plays, limits(k), cursor), LatestTimes(plays);
    var limit := ClampLimit(limits(k), 30);
    var ranked := Descending(Below(all, cursor));
    CursorAdvances(plays, limits(k), cursor);
    hide Descending, LatestTimes, Below, GetRecentlyPlayed, ClampLimit, Views;
    if page.cursor.Some? {
      FollowIsRanking(plays, limits, k + 1, page.cursor);
      ViewsSplit(plays, ranked, limit);
    }
  }

  lemma ViewsSplit(plays: map<int, StationInfo>, times: seq<int>, n: nat)
    requires AllIn(plays, times) && n <= |times|
    ensures Views(plays, times) == Views(plays, times[..n]) + Views(plays, times[n..])
  {
  }

  /** Is item i of a list the one entry of its station, at that station's latest play? */
  ghost predicate OnlyEntryOf(plays: map<int, StationInfo>, items: seq<PlayView>, i: nat, stationId: string)
    requires i < |items|
  {
    && items[i].playedAt in plays && items[i].station == plays[items[i].playedAt]
    && items[i].station.stationId == stationId
    && (forall t :: t in plays && plays[t].stationId == stationId ==> t <= items[i].playedAt)
    && forall j :: 0 <= j < |items| && items[j].station.stationId == stationId ==> j == i
  }

  /**
    Whatever limits the client asks for, the pages list every station the actor played exactly once, as it was
    in its latest play, latest play first, and nothing else.
   */
  lemma PaginationIsExact(table: map<(Did, int), PlayFields>, did: Did, limits: nat -> Option<int>)
    ensures
      var plays := PlaysOf(table, did);
      var items := Follow(plays, limits, 0, None);
      && (forall i, j :: 0 <= i < j < |items| ==> items[i].playedAt > items[j].playedAt)
      && (forall key :: key in table && key.0 == did ==>
            exists i :: 0 <= i < |items| && OnlyEntryOf(plays, items, i, table[key].station.stationId))
      && (forall i :: 0 <= i < |items| ==>
            (did, items[i].playedAt) in table && items[i].station == table[(did, items[i].playedAt)].station)
  {
    var plays := PlaysOf(table, did);
    var items := Follow(plays, limits, 0, None);
    FollowIsRanking(plays, limits, 0, None);
    ActorsPlays(table, did);
    hide Follow, PlaysOf, Descending, LatestTimes;
    forall key | key in table && key.0 == did
      ensures exists i :: 0 <= i < |items| && OnlyEntryOf(plays, items, i, table[key].station.stationId)
    {
      assert (did, key.1) == key;
      var i := StationListed(plays, key.1);
    }
  }

  lemma ActorsPlays(table: map<(Did, int), PlayFields>, did: Did)
    ensures forall t :: t in PlaysOf(table, did) <==> (did, t) in table
    ensures forall t :: t in PlaysOf(table, did) ==> PlaysOf(table, did)[t] == table[(did, t)].station
  {
  }

  lemma StationListed(plays: map<int, StationInfo>, t: int) returns (i: nat)
    requires t in plays
    ensures AllIn(plays, Descending(Below(LatestTimes(plays), None)))
    ensures
      var items := Views(plays, Descending(Below(LatestTimes(plays), None)));
      i < |items| && OnlyEntryOf(plays, items, i, plays[t].stationId)
  {
    RankedIn(plays, None);
    var latest := LatestOf(plays, t);
    var ranked := Descending(LatestTimes(plays));
    assert latest in ranked;
    i :| 0 <= i < |ranked| && ranked[i] == latest;
    forall j | 0 <= j < |ranked| && plays[ranked[j]].stationId == plays[t].stationId
      ensures ranked[j] == latest
    {
      assert ranked[j] in ranked;
    }
  }

  /** A station's latest play is the one of its plays among the group maxima. */
  lemma LatestOf(plays: map<int, StationInfo>, t: int) returns (latest: int)
    requires t in plays
    ensures latest in LatestTimes(plays) && plays[latest].stationId == plays[t].stationId
    ensures forall u :: u in plays && plays[u].stationId == plays[t].stationId ==> u <= latest
    ensures forall u :: u in LatestTimes(plays) && plays[u].stationId == plays[t].stationId ==> u == latest
  {
    var times := set u | u in plays && plays[u].stationId == plays[t].stationId;
    assert t in times;
    latest := Greatest(times);
    assert latest in times;
    assert forall u :: u in plays && plays[u].stationId == plays[t].stationId ==> u in times;
  }
}
