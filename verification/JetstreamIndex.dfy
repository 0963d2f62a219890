/** The Jetstream consumer's tables, and what each commit does to them. */
module JetstreamIndex {
  import opened Basics
  import opened RedundantFeeds

  type Did = string
  type Uri = string

  /** The collections the consumer subscribes to, and any other. */
  datatype Collection = Favorite | Station | ActorStatus | Comment | Reaction | Other(name: string) {
    function Nsid(): string {
      match this
      case Favorite => "fm.atradio.favorite"
      case Station => "fm.atradio.station"
      case ActorStatus => "fm.atradio.actor.status"
      case Comment => "fm.atradio.comment"
      case Reaction => "fm.atradio.reaction"
      case Other(name) => name
    }
  }

  datatype StationInfo = StationInfo(stationId: string, name: string, streamUrl: string, details: string)
  datatype FavoriteFields = FavoriteFields(station: StationInfo, subjectUri: Option<Uri>, createdAt: int)
  datatype StationFields = StationFields(name: string, streamUrl: string, details: string, createdAt: int)
  datatype PlayFields = PlayFields(station: StationInfo, playedAt: int)
  datatype CommentFields = CommentFields(station: StationInfo, text: string, embeds: string, createdAt: int)
  datatype ReactionFields = ReactionFields(stationId: string, emoji: string, createdAt: int)

  /** A record as its collection's schema reads it; anything the schema or the date parser rejects is Invalid. */
  datatype Record =
    | Invalid
    | OfFavorite(favorite: FavoriteFields)
    | OfStation(station: StationFields)
    | OfStatus(play: PlayFields)
    | OfComment(comment: CommentFields)
    | OfReaction(reaction: ReactionFields)

  datatype Operation = Create | Update | Delete
  datatype Commit = Commit(operation: Operation, collection: Collection, rkey: string, record: Record)
  datatype Event = Event(did: Did, timeUs: nat, commit: Option<Commit>)

  /** A row keyed by record uri. `indexedAt` is left out. */
  datatype Row<F> = Row(did: Did, rkey: string, fields: F)

  datatype Tables = Tables(
    favorites: map<Uri, Row<FavoriteFields>>,
    stations: map<Uri, Row<StationFields>>,
    comments: map<Uri, Row<CommentFields>>,
    plays: map<(Did, int), PlayFields>,
    reactions: map<Uri, Row<ReactionFields>>)

  function AtUri(did: Did, collection: Collection, rkey: string): Uri {
    "at://" + did + "/" + collection.Nsid() + "/" + rkey
  }

  // ---- single-table writes ---------------------------------------------------------------------

  /** Insert, or on a conflicting uri replace everything but did and rkey. */
  function Upsert<F>(table: map<Uri, Row<F>>, uri: Uri, did: Did, rkey: string, fields: F): map<Uri, Row<F>> {
    table[uri := if uri in table then table[uri].(fields := fields) else Row(did, rkey, fields)]
  }

  function InsertNew<K, V>(table: map<K, V>, key: K, row: V): map<K, V> {
    if key in table then table else table[key := row]
  }

  /** Key by key: a row already there keeps its did and rkey and takes the new fields, any other key is untouched. */
  ghost predicate Upserted<F>(
    before: map<Uri, Row<F>>, after: map<Uri, Row<F>>, uri: Uri, did: Did, rkey: string, fields: F)
  {
    && uri in after && after[uri].fields == fields
    && (if uri in before then after[uri].did == before[uri].did && after[uri].rkey == before[uri].rkey
        else after[uri].did == did && after[uri].rkey == rkey)
    && after - {uri} == before - {uri}
  }

  /** Key by key: a conflicting row stays as it was, a missing one is there after, any other key is untouched. */
  ghost predicate Inserted<K, V>(before: map<K, V>, after: map<K, V>, key: K, row: V) {
    && key in after
    && after[key] == (if key in before then before[key] else row)
    && after - {key} == before - {key}
  }

  lemma MapWithout<K, V>(before: map<K, V>, after: map<K, V>, key: K)
    requires key in after && after - {key} == before - {key}
    ensures after == before[key := after[key]]
  {
    var n := before[key := after[key]];
    assert after.Keys == (after - {key}).Keys + {key};
    assert n.Keys == (before - {key}).Keys + {key};
    forall k | k in after
      ensures after[k] == n[k]
    {
      if k != key {
        assert (after - {key})[k] == (before - {key})[k];
      }
    }
  }

  lemma UpsertedIs<F>(
    before: map<Uri, Row<F>>, after: map<Uri, Row<F>>, uri: Uri, did: Did, rkey: string, fields: F)
    requires Upserted(before, after, uri, did, rkey, fields)
    ensures after == Upsert(before, uri, did, rkey, fields)
  {
    MapWithout(before, after, uri);
  }

  lemma InsertedIs<K, V>(before: map<K, V>, after: map<K, V>, key: K, row: V)
    requires Inserted(before, after, key, row)
    ensures after == InsertNew(before, key, row)
  {
    MapWithout(before, after, key);
  }

  function FavoriteOf(r: Record): Option<FavoriteFields> {
    if r.OfFavorite? then Some(r.favorite) else None
  }

  function StationOf(r: Record): Option<StationFields> {
    if r.OfStation? then Some(r.station) else None
  }

  function CommentOf(r: Record): Option<CommentFields> {
    if r.OfComment? then Some(r.comment) else None
  }

  /** What an event does to a table of records that are upserted by uri and deleted with their record. */
  function RowsAfter<F>(
    table: map<Uri, Row<F>>, e: Event, collection: Collection, read: Record -> Option<F>): map<Uri, Row<F>>
  {
    if e.commit.None? || e.commit.value.collection != collection then table
    else
      var c := e.commit.value;
      var uri := AtUri(e.did, collection, c.rkey);
      if c.operation == Delete then table - {uri}
      else if read(c.record).Some? then Upsert(table, uri, e.did, c.rkey, read(c.record).value)
      else table
  }

  /** A play, keyed by actor and time; deleting the status record leaves the history. */
  function PlaysAfter(plays: map<(Did, int), PlayFields>, e: Event): map<(Did, int), PlayFields> {
    if e.commit.None? || e.commit.value.collection != ActorStatus || e.commit.value.operation == Delete then plays
    else match e.commit.value.record
      case OfStatus(p) => InsertNew(plays, (e.did, p.playedAt), p)
      case _ => plays
  }

  function ReactionsAfter(reactions: map<Uri, Row<ReactionFields>>, e: Event): map<Uri, Row<ReactionFields>> {
    if e.commit.None? || e.commit.value.collection != Reaction then reactions
    else
      var c := e.commit.value;
      var uri := AtUri(e.did, Reaction, c.rkey);
      if c.operation == Delete then reactions - {uri}
      else if c.record.OfReaction? then InsertNew(reactions, uri, Row(e.did, c.rkey, c.record.reaction))
      else reactions
  }

  /** processCommit, taken as one step. */
  function Process(t: Tables, e: Event): Tables {
    Tables(
      RowsAfter(t.favorites, e, Favorite, FavoriteOf),
      RowsAfter(t.stations, e, Station, StationOf),
      RowsAfter(t.comments, e, Comment, CommentOf),
      PlaysAfter(t.plays, e),
      ReactionsAfter(t.reactions, e))
  }

  function ProcessAll(t: Tables, log: seq<Event>): Tables {
    if log == [] then t else Process(ProcessAll(t, log[..|log| - 1]), log[|log| - 1])
  }

  // ---- the consumer ----------------------------------------------------------------------------

  class Consumer {
    var favorites: map<Uri, Row<FavoriteFields>>
    var stations: map<Uri, Row<StationFields>>
    var comments: map<Uri, Row<CommentFields>>
    var plays: map<(Did, int), PlayFields>
    var reactions: map<Uri, Row<ReactionFields>>
    var cursor: nat

    ghost function Model(): Tables
      reads this
    {
      Tables(favorites, stations, comments, plays, reactions)
    }

    /** An event moves the resume cursor to the highest time seen, before it is processed. */
    method HandleEvent(e: Event)
      modifies this
      ensures Model() == Process(old(Model()), e)
      ensures cursor >= old(cursor) && cursor >= e.timeUs && (cursor == old(cursor) || cursor == e.timeUs)
    {
      if e.timeUs > cursor {
        cursor := e.timeUs;
      }
      if e.commit.Some? {
        ProcessCommit(e.did, e.commit.value);
      }
    }

    method ProcessCommit(did: Did, c: Commit)
      modifies this`favorites, this`stations, this`comments, this`plays, this`reactions
      ensures Model() == Process(old(Model()), Event(did, 0, Some(c)))
    {
      if c.collection.Other? {
        return;
      }
      var uri := AtUri(did, c.collection, c.rkey);
      if c.operation == Delete {
        if c.collection == Favorite {
          favorites := favorites - {uri};
        } else if c.collection == Station {
          stations := stations - {uri};
        } else if c.collection == Comment {
          comments := comments - {uri};
        } else if c.collection == Reaction {
          reactions := reactions - {uri};
        }
        // A deleted status record leaves the play history as it is.
        return;
      }
      if c.collection == Favorite {
        IndexFavorite(did, c, uri);
        if c.record.OfFavorite? {
          UpsertedIs(old(favorites), favorites, uri, did, c.rkey, c.record.favorite);
        }
      } else if c.collection == Station {
        IndexStation(did, c, uri);
        if c.record.OfStation? {
          UpsertedIs(old(stations), stations, uri, did, c.rkey, c.record.station);
        }
      } else if c.collection == ActorStatus {
        IndexPlay(did, c);
        if c.record.OfStatus? {
          InsertedIs(old(plays), plays, (did, c.record.play.playedAt), c.record.play);
        }
      } else if c.collection == Comment {
        IndexComment(did, c, uri);
        if c.record.OfComment? {
          UpsertedIs(old(comments), comments, uri, did, c.rkey, c.record.comment);
        }
      } else if c.collection == Reaction {
        IndexReaction(did, c, uri);
        if c.record.OfReaction? {
          InsertedIs(old(reactions), reactions, uri, Row(did, c.rkey, c.record.reaction));
        }
      }
    }

    method IndexFavorite(did: Did, c: Commit, uri: Uri)
      modifies this`favorites
      ensures
        if c.record.OfFavorite? then Upserted(old(favorites), favorites, uri, did, c.rkey, c.record.favorite)
        else favorites == old(favorites)
    {
      if !c.record.OfFavorite? {
        return;
      }
      var row := Row(did, c.rkey, c.record.favorite);
      favorites := favorites[uri := if uri in favorites then favorites[uri].(fields := row.fields) else row];
    }

    method IndexStation(did: Did, c: Commit, uri: Uri)
      modifies this`stations
      ensures
        if c.record.OfStation? then Upserted(old(stations), stations, uri, did, c.rkey, c.record.station)
        else stations == old(stations)
    {
      if !c.record.OfStation? {
        return;
      }
      var row := Row(did, c.rkey, c.record.station);
      stations := stations[uri := if uri in stations then stations[uri].(fields := row.fields) else row];
    }

    method IndexPlay(did: Did, c: Commit)
      modifies this`plays
      ensures
        if c.record.OfStatus? then Inserted(old(plays), plays, (did, c.record.play.playedAt), c.record.play)
        else plays == old(plays)
    {
      if !c.record.OfStatus? {
        return;
      }
      var key := (did, c.record.play.playedAt);
      if key !in plays {
        plays := plays[key := c.record.play];
      }
    }

    method IndexComment(did: Did, c: Commit, uri: Uri)
      modifies this`comments
      ensures
        if c.record.OfComment? then Upserted(old(comments), comments, uri, did, c.rkey, c.record.comment)
        else comments == old(comments)
    {
      if !c.record.OfComment? {
        return;
      }
      var row := Row(did, c.rkey, c.record.comment);
      comments := comments[uri := if uri in comments then comments[uri].(fields := row.fields) else row];
    }

    method IndexReaction(did: Did, c: Commit, uri: Uri)
      modifies this`reactions
      ensures
        if c.record.OfReaction? then Inserted(old(reactions), reactions, uri, Row(did, c.rkey, c.record.reaction))
        else reactions == old(reactions)
    {
      if !c.record.OfReaction? {
        return;
      }
      if uri !in reactions {
        reactions := reactions[uri := Row(did, c.rkey, c.record.reaction)];
      }
    }
  }

  // ---- uris ------------------------------------------------------------------------------------

  /** DIDs and record keys contain no slash, so a uri determines them. */
  predicate NoSlash(s: string) {
    forall i :: 0 <= i < |s| ==> s[i] != '/'
  }

  lemma {:induction false} SplitAtSlash(a: string, x: string, b: string, y: string)
    requires NoSlash(a) && NoSlash(b) && a + "/" + x == b + "/" + y
    ensures a == b && x == y
  {
    var s := a + "/" + x;
    assert s[0] == if a == [] then '/' else a[0];
    assert s[0] == if b == [] then '/' else b[0];
    assert s[1..] == if a == [] then x else a[1..] + "/" + x;
    assert s[1..] == if b == [] then y else b[1..] + "/" + y;
    if a != [] && b != [] {
      SplitAtSlash(a[1..], x, b[1..], y);
      assert a == [a[0]] + a[1..] && b == [b[0]] + b[1..];
    }
  }

  lemma AtUriInjective(did: Did, rkey: string, did': Did, rkey': string, collection: Collection)
    requires NoSlash(did) && NoSlash(did') && AtUri(did, collection, rkey) == AtUri(did', collection, rkey')
    ensures did == did' && rkey == rkey'
  {
    hide Collection.Nsid;
    var nsid := collection.Nsid();
    var tail, tail' := nsid + "/" + rkey, nsid + "/" + rkey';
    assert AtUri(did, collection, rkey) == "at://" + (did + "/" + tail);
    assert AtUri(did', collection, rkey') == "at://" + (did' + "/" + tail');
    assert did + "/" + tail == AtUri(did, collection, rkey)[5..];
    assert did' + "/" + tail' == AtUri(did', collection, rkey')[5..];
    SplitAtSlash(did, tail, did', tail');
    assert rkey == tail[|nsid| + 1..] && rkey' == tail'[|nsid| + 1..];
  }

  /** The uris in full. */
  lemma UrisAre(did: Did, rkey: string)
    ensures AtUri(did, Favorite, rkey) == "at://" + did + "/" + "fm.atradio.favorite" + "/" + rkey
    ensures AtUri(did, Station, rkey) == "at://" + did + "/" + "fm.atradio.station" + "/" + rkey
    ensures AtUri(did, ActorStatus, rkey) == "at://" + did + "/" + "fm.atradio.actor.status" + "/" + rkey
    ensures AtUri(did, Comment, rkey) == "at://" + did + "/" + "fm.atradio.comment" + "/" + rkey
    ensures AtUri(did, Reaction, rkey) == "at://" + did + "/" + "fm.atradio.reaction" + "/" + rkey
  {
  }

  predicate WellFormed(e: Event) {
    NoSlash(e.did)
  }

  ghost predicate RowsKeyed<F>(table: map<Uri, Row<F>>, collection: Collection) {
    forall uri :: uri in table ==> NoSlash(table[uri].did) && uri == AtUri(table[uri].did, collection, table[uri].rkey)
  }

  ghost predicate Keyed(t: Tables) {
    RowsKeyed(t.favorites, Favorite) && RowsKeyed(t.stations, Station) && RowsKeyed(t.comments, Comment)
  }

  // ---- each table as a map of independent keys -------------------------------------------------

  function Lookup<K, V>(m: map<K, V>, k: K): Option<V> {
    if k in m then Some(m[k]) else None
  }

  predicate Touches(e: Event, collection: Collection, uri: Uri) {
    e.commit.Some? && e.commit.value.collection == collection && AtUri(e.did, collection, e.commit.value.rkey) == uri
  }

  function RowEffect<F>(e: Event, collection: Collection, read: Record -> Option<F>, uri: Uri): Effect<Row<F>> {
    if !Touches(e, collection, uri) then Keep
    else if e.commit.value.operation == Delete then Clear
    else match read(e.commit.value.record)
      case Some(f) => Set(Row(e.did, e.commit.value.rkey, f))
      case None => Keep
  }

  function PlayInsert(e: Event, key: (Did, int)): Option<PlayFields> {
    if e.commit.None? || e.commit.value.collection != ActorStatus || e.commit.value.operation == Delete then None
    else match e.commit.value.record
      case OfStatus(p) => if (e.did, p.playedAt) == key then Some(p) else None
      case _ => None
  }

  function ReactionEffect(e: Event, uri: Uri): Effect<Row<ReactionFields>> {
    if !Touches(e, Reaction, uri) then Keep
    else if e.commit.value.operation == Delete then Clear
    else match e.commit.value.record
      case OfReaction(r) => Set(Row(e.did, e.commit.value.rkey, r))
      case _ => Keep
  }

  function Effects<V>(log: seq<Event>, effect: Event -> V): (r: seq<V>)
    ensures |r| == |log| && forall i :: 0 <= i < |log| ==> r[i] == effect(log[i])
  {
    seq(|log|, i requires 0 <= i < |log| => effect(log[i]))
  }

  lemma UpsertIsSet<F>(table: map<Uri, Row<F>>, collection: Collection, did: Did, rkey: string, fields: F)
    requires RowsKeyed(table, collection) && NoSlash(did)
    ensures
      var uri := AtUri(did, collection, rkey);
      Upsert(table, uri, did, rkey, fields) == table[uri := Row(did, rkey, fields)]
      && RowsKeyed(Upsert(table, uri, did, rkey, fields), collection)
  {
    var uri := AtUri(did, collection, rkey);
    if uri in table {
      AtUriInjective(did, rkey, table[uri].did, table[uri].rkey, collection);
    }
  }

  /** One event acts on every key of a table on its own. */
  lemma RowsByKey<F>(table: map<Uri, Row<F>>, e: Event, collection: Collection, read: Record -> Option<F>)
    requires RowsKeyed(table, collection) && WellFormed(e)
    ensures
      var after := RowsAfter(table, e, collection, read);
      RowsKeyed(after, collection)
      && forall uri ::
           Lookup(after, uri) == RedundantFeeds.Apply(Lookup(table, uri), RowEffect(e, collection, read, uri))
  {
    hide AtUri, Upsert;
    if e.commit.Some? && read(e.commit.value.record).Some? {
      UpsertIsSet(table, collection, e.did, e.commit.value.rkey, read(e.commit.value.record).value);
    }
  }

  lemma PlaysByKey(plays: map<(Did, int), PlayFields>, e: Event)
    ensures forall key :: Lookup(PlaysAfter(plays, e), key) == Insert(Lookup(plays, key), PlayInsert(e, key))
  {
  }

  lemma ReactionsByKey(reactions: map<Uri, Row<ReactionFields>>, e: Event)
    ensures forall uri ::
      Lookup(ReactionsAfter(reactions, e), uri) == ApplyNew(Lookup(reactions, uri), ReactionEffect(e, uri))
  {
    hide AtUri;
  }

  /** What a log leaves in a table of rows. */
  function RowsAfterAll<F>(
    table: map<Uri, Row<F>>, log: seq<Event>, collection: Collection, read: Record -> Option<F>): map<Uri, Row<F>>
  {
    if log == [] then table
    else RowsAfter(RowsAfterAll(table, log[..|log| - 1], collection, read), log[|log| - 1], collection, read)
  }

  function PlaysAfterAll(plays: map<(Did, int), PlayFields>, log: seq<Event>): map<(Did, int), PlayFields> {
    if log == [] then plays else PlaysAfter(PlaysAfterAll(plays, log[..|log| - 1]), log[|log| - 1])
  }

  function ReactionsAfterAll(reactions: map<Uri, Row<ReactionFields>>, log: seq<Event>): map<Uri, Row<ReactionFields>> {
    if log == [] then reactions else ReactionsAfter(ReactionsAfterAll(reactions, log[..|log| - 1]), log[|log| - 1])
  }

  lemma {:induction false} TablesAreIndependent(t: Tables, log: seq<Event>)
    ensures
      var after := ProcessAll(t, log);
      && after.favorites == RowsAfterAll(t.favorites, log, Favorite, FavoriteOf)
      && after.stations == RowsAfterAll(t.stations, log, Station, StationOf)
      && after.comments == RowsAfterAll(t.comments, log, Comment, CommentOf)
      && after.plays == PlaysAfterAll(t.plays, log)
      && after.reactions == ReactionsAfterAll(t.reactions, log)
  {
    if log != [] {
      hide RowsAfter, PlaysAfter, ReactionsAfter;
      TablesAreIndependent(t, log[..|log| - 1]);
    }
  }

  lemma {:induction false} RowsAfterAllByKey<F>(
    table: map<Uri, Row<F>>, log: seq<Event>, collection: Collection, read: Record -> Option<F>, uri: Uri)
    requires RowsKeyed(table, collection) && forall i :: 0 <= i < |log| ==> WellFormed(log[i])
    ensures RowsKeyed(RowsAfterAll(table, log, collection, read), collection)
    ensures
      Lookup(RowsAfterAll(table, log, collection, read), uri)
        == Outcome(Lookup(table, uri), Effects(log, e => RowEffect(e, collection, read, uri)))
  {
    if log != [] {
      hide RowsAfter, RowEffect, RowsKeyed, WellFormed, Lookup;
      var shorter := log[..|log| - 1];
      RowsAfterAllByKey(table, shorter, collection, read, uri);
      RowsByKey(RowsAfterAll(table, shorter, collection, read), log[|log| - 1], collection, read);
      EffectsShorter(log, e => RowEffect(e, collection, read, uri));
    }
  }

  lemma {:induction false} PlaysAfterAllByKey(plays: map<(Did, int), PlayFields>, log: seq<Event>, key: (Did, int))
    ensures
      Lookup(PlaysAfterAll(plays, log), key) == FirstOutcome(Lookup(plays, key), Effects(log, e => PlayInsert(e, key)))
  {
    if log != [] {
      hide PlaysAfter, PlayInsert, Lookup;
      var shorter := log[..|log| - 1];
      PlaysAfterAllByKey(plays, shorter, key);
      PlaysByKey(PlaysAfterAll(plays, shorter), log[|log| - 1]);
      EffectsShorter(log, e => PlayInsert(e, key));
    }
  }

  /** What a log does to the reaction under one uri. */
  ghost function ReactionEffects(log: seq<Event>, uri: Uri): (r: seq<Effect<Row<ReactionFields>>>)
    ensures |r| == |log| && forall i :: 0 <= i < |log| ==> r[i] == ReactionEffect(log[i], uri)
  {
    Effects(log, e => ReactionEffect(e, uri))
  }

  lemma {:induction false} ReactionsAfterAllByKey(
    reactions: map<Uri, Row<ReactionFields>>, log: seq<Event>, uri: Uri)
    ensures Lookup(ReactionsAfterAll(reactions, log), uri)
      == NewOutcome(Lookup(reactions, uri), ReactionEffects(log, uri))
  {
    if log != [] {
      hide ReactionsAfter, ReactionEffect, Lookup;
      var shorter := log[..|log| - 1];
      ReactionsAfterAllByKey(reactions, shorter, uri);
      ReactionsByKey(ReactionsAfterAll(reactions, shorter), log[|log| - 1]);
      EffectsShorter(log, e => ReactionEffect(e, uri));
    }
  }

  lemma EffectsShorter<V>(log: seq<Event>, effect: Event -> V)
    requires log != []
    ensures Effects(log, effect)[..|log| - 1] == Effects(log[..|log| - 1], effect)
    ensures Effects(log, effect)[|log| - 1] == effect(log[|log| - 1])
  {
  }

  // ---- what a log leaves, commit by commit ------------------------------------------------------------------

  const NOTHING := Tables(map[], map[], map[], map[], map[])

  predicate Deletes(e: Event, collection: Collection, uri: Uri) {
    && e.commit.Some? && e.commit.value.collection == collection && e.commit.value.operation == Delete
    && AtUri(e.did, collection, e.commit.value.rkey) == uri
  }

  /** The event creates or updates a record of the collection, under the uri, as `record`. */
  predicate Writes(e: Event, collection: Collection, uri: Uri, record: Record) {
    && e.commit.Some? && e.commit.value.collection == collection && e.commit.value.operation != Delete
    && AtUri(e.did, collection, e.commit.value.rkey) == uri && e.commit.value.record == record
  }

  /** The last event that deletes the uri or writes a readable record to it is event p, and it writes this row. */
  ghost predicate LastWrites<F(!new)>(
    log: seq<Event>, p: nat, collection: Collection, wrap: F -> Record, uri: Uri, row: Row<F>)
  {
    && p < |log| && Writes(log[p], collection, uri, wrap(row.fields))
    && row.did == log[p].did && row.rkey == log[p].commit.value.rkey
    && forall q :: p < q < |log| ==>
         !Deletes(log[q], collection, uri) && forall f :: !Writes(log[q], collection, uri, wrap(f))
  }

  /** A table holds a row under a uri exactly when the log's last word on that uri is that row. */
  lemma RowsExactly<F(!new)>(
    log: seq<Event>, collection: Collection, read: Record -> Option<F>, wrap: F -> Record, uri: Uri, row: Row<F>)
    requires forall i :: 0 <= i < |log| ==> WellFormed(log[i])
    requires (forall r :: read(r).Some? ==> r == wrap(read(r).value)) && forall f :: read(wrap(f)) == Some(f)
    ensures
      var after := RowsAfterAll(map[], log, collection, read);
      uri in after && after[uri] == row <==> exists p: nat :: LastWrites(log, p, collection, wrap, uri, row)
  {
    hide RowsAfterAll, RowEffect, LastWrites, Outcome;
    var effects := Effects(log, e => RowEffect(e, collection, read, uri));
    RowsAfterAllByKey(map[], log, collection, read, uri);
    OutcomeIs(None, effects);
    forall p: nat
      ensures LastWrites(log, p, collection, wrap, uri, row) <==> IsLast(effects, p) && effects[p] == Set(row)
    {
      LastEffect(log, collection, read, wrap, uri, row, p);
    }
    if exists j :: 0 <= j < |effects| && !effects[j].Keep? {
      var p := LastExists(effects);
    }
  }

  lemma LastEffect<F(!new)>(
    log: seq<Event>, collection: Collection, read: Record -> Option<F>, wrap: F -> Record, uri: Uri, row: Row<F>,
    p: nat)
    requires (forall r :: read(r).Some? ==> r == wrap(read(r).value)) && forall f :: read(wrap(f)) == Some(f)
    ensures
      var effects := Effects(log, e => RowEffect(e, collection, read, uri));
      LastWrites(log, p, collection, wrap, uri, row) <==> IsLast(effects, p) && effects[p] == Set(row)
  {
    hide AtUri;
    forall q: nat | q < |log|
      ensures RowEffect(log[q], collection, read, uri).Keep? <==>
        !Deletes(log[q], collection, uri) && forall f :: !Writes(log[q], collection, uri, wrap(f))
      ensures RowEffect(log[q], collection, read, uri) == Set(row) <==>
        Writes(log[q], collection, uri, wrap(row.fields)) && row.did == log[q].did
        && row.rkey == log[q].commit.value.rkey
    {
      EffectIs(log[q], collection, read, wrap, uri, row);
    }
  }

  lemma EffectIs<F(!new)>(
    e: Event, collection: Collection, read: Record -> Option<F>, wrap: F -> Record, uri: Uri, row: Row<F>)
    requires (forall r :: read(r).Some? ==> r == wrap(read(r).value)) && forall f :: read(wrap(f)) == Some(f)
    ensures RowEffect(e, collection, read, uri).Keep? <==>
      !Deletes(e, collection, uri) && forall f :: !Writes(e, collection, uri, wrap(f))
    ensures RowEffect(e, collection, read, uri) == Set(row) <==>
      Writes(e, collection, uri, wrap(row.fields)) && row.did == e.did && row.rkey == e.commit.value.rkey
  {
    hide AtUri;
    if e.commit.Some? && read(e.commit.value.record).Some? {
      assert e.commit.value.record == wrap(read(e.commit.value.record).value);
    }
  }

  const FAVORITES: FavoriteFields -> Record := f => OfFavorite(f)
  const STATIONS: StationFields -> Record := f => OfStation(f)
  const COMMENTS: CommentFields -> Record := f => OfComment(f)

  /**
    Favorites, stations and comments hold exactly what the log's last readable word on each uri was: a deletion
    leaves nothing, an unreadable record changes nothing.
   */
  lemma LastWordStands(
    log: seq<Event>, uri: Uri, favorite: Row<FavoriteFields>, station: Row<StationFields>, comment: Row<CommentFields>)
    requires forall i :: 0 <= i < |log| ==> WellFormed(log[i])
    ensures
      var after := ProcessAll(NOTHING, log);
      && (uri in after.favorites && after.favorites[uri] == favorite <==>
            exists p: nat :: LastWrites(log, p, Favorite, FAVORITES, uri, favorite))
      && (uri in after.stations && after.stations[uri] == station <==>
            exists p: nat :: LastWrites(log, p, Station, STATIONS, uri, station))
      && (uri in after.comments && after.comments[uri] == comment <==>
            exists p: nat :: LastWrites(log, p, Comment, COMMENTS, uri, comment))
  {
    hide ProcessAll, RowsAfterAll, PlaysAfterAll, ReactionsAfterAll, WellFormed, LastWrites;
    TablesAreIndependent(NOTHING, log);
    RowsExactly(log, Favorite, FavoriteOf, FAVORITES, uri, favorite);
    RowsExactly(log, Station, StationOf, STATIONS, uri, station);
    RowsExactly(log, Comment, CommentOf, COMMENTS, uri, comment);
  }

  /** The event reports a play of the actor. */
  predicate Plays(e: Event, did: Did, play: PlayFields) {
    && e.did == did && e.commit.Some? && e.commit.value.collection == ActorStatus && e.commit.value.operation != Delete
    && e.commit.value.record == OfStatus(play)
  }

  /** Event p is the first report of a play of the actor at that time, and of this one. */
  ghost predicate FirstPlays(log: seq<Event>, p: nat, did: Did, play: PlayFields) {
    && p < |log| && Plays(log[p], did, play)
    && forall q, other :: 0 <= q < p && Plays(log[q], did, other) ==> other.playedAt != play.playedAt
  }

  /** The history holds exactly the first report for each actor and time; nothing takes one away. */
  lemma FirstPlayStands(log: seq<Event>, did: Did, play: PlayFields)
    ensures
      var plays := ProcessAll(NOTHING, log).plays;
      (did, play.playedAt) in plays && plays[(did, play.playedAt)] == play <==>
        exists p: nat :: FirstPlays(log, p, did, play)
  {
    hide ProcessAll, RowsAfterAll, PlaysAfterAll, ReactionsAfterAll;
    var key := (did, play.playedAt);
    TablesAreIndependent(NOTHING, log);
    PlaysAfterAllByKey(map[], log, key);
    var inserts := Effects(log, e => PlayInsert(e, key));
    FirstOutcomeIs(None, inserts);
    hide FirstOutcome;
    forall j, f | 0 <= j < |log|
      ensures inserts[j] == Some(f) <==> Plays(log[j], did, f) && f.playedAt == play.playedAt
    {
    }
    if exists j :: 0 <= j < |inserts| && inserts[j].Some? {
      var p := FirstExists(inserts);
      assert inserts[p] == Some(play) ==> FirstPlays(log, p, did, play);
    }
    if p: nat :| FirstPlays(log, p, did, play) {
      assert inserts[p] == Some(play) && IsFirst(inserts, p);
    }
  }

  /** The event stores some reaction under the uri. */
  predicate Reacts(e: Event, uri: Uri) {
    && e.commit.Some? && e.commit.value.collection == Reaction && e.commit.value.operation != Delete
    && AtUri(e.did, Reaction, e.commit.value.rkey) == uri && e.commit.value.record.OfReaction?
  }

  ghost predicate DeletedAfter(log: seq<Event>, q: nat, uri: Uri) {
    exists d :: q < d < |log| && Deletes(log[d], Reaction, uri)
  }

  /** Event p is the first to store a reaction under the uri since its last deletion, and it stores this row. */
  ghost predicate FirstReacts(log: seq<Event>, p: nat, uri: Uri, row: Row<ReactionFields>) {
    && p < |log| && Reacts(log[p], uri) && !DeletedAfter(log, p, uri)
    && row == Row(log[p].did, log[p].commit.value.rkey, log[p].commit.value.record.reaction)
    && forall q :: 0 <= q < p && Reacts(log[q], uri) ==> DeletedAfter(log, q, uri)
  }

  /** The table holds exactly the first reaction stored under each uri since its last deletion. */
  lemma FirstReactionStands(log: seq<Event>, uri: Uri, row: Row<ReactionFields>)
    ensures
      var reactions := ProcessAll(NOTHING, log).reactions;
      uri in reactions && reactions[uri] == row <==> exists p: nat :: FirstReacts(log, p, uri, row)
  {
    hide ProcessAll, NewOutcome, AtUri, DeletedAfter, ClearedAfter;
    var effects := ReactionEffects(log, uri);
    ReactionsOfLog(NOTHING, log, uri);
    FirstSinceStands(effects);
    forall q: nat
      ensures DeletedAfter(log, q, uri) <==> ClearedAfter(effects, q)
    {
      DeletionsAre(log, q, uri);
    }
    forall p: nat
      ensures FirstReacts(log, p, uri, row) <==> IsFirstSince(effects, p) && effects[p] == Set(row)
    {
    }
  }

  lemma DeletionsAre(log: seq<Event>, q: nat, uri: Uri)
    ensures DeletedAfter(log, q, uri) <==> ClearedAfter(ReactionEffects(log, uri), q)
  {
    hide AtUri;
    var effects := ReactionEffects(log, uri);
    assert forall d :: 0 <= d < |log| ==> (effects[d].Clear? <==> Deletes(log[d], Reaction, uri));
  }

  // ---- redundant feeds -------------------------------------------------------------------------

  lemma EffectsOfMerged<V>(log: seq<Event>, schedule: seq<nat>, k: nat, effect: Event -> V)
    requires Complete(schedule, k, |log|)
    ensures Effects(Merged(log, schedule, k), effect) == Merged(Effects(log, effect), schedule, k)
  {
  }

  lemma RowsAgree<F>(
    table: map<Uri, Row<F>>, log: seq<Event>, schedule: seq<nat>, k: nat, collection: Collection,
    read: Record -> Option<F>)
    requires RowsKeyed(table, collection) && forall i :: 0 <= i < |log| ==> WellFormed(log[i])
    requires Complete(schedule, k, |log|)
    ensures RowsAfterAll(table, Merged(log, schedule, k), collection, read)
      == RowsAfterAll(table, log, collection, read)
  {
    var merged := Merged(log, schedule, k);
    hide RowsAfterAll, RowEffect, Lookup, Outcome, RowsKeyed, WellFormed, Complete;
    forall uri
      ensures Lookup(RowsAfterAll(table, merged, collection, read), uri)
        == Lookup(RowsAfterAll(table, log, collection, read), uri)
    {
      var effect := (e: Event) => RowEffect(e, collection, read, uri);
      RowsAfterAllByKey(table, log, collection, read, uri);
      RowsAfterAllByKey(table, merged, collection, read, uri);
      EffectsOfMerged(log, schedule, k, effect);
      LastWriterAgrees(Lookup(table, uri), Effects(log, effect), schedule, k);
    }
    MapsAgree(RowsAfterAll(table, merged, collection, read), RowsAfterAll(table, log, collection, read));
  }

  lemma PlaysAgree(plays: map<(Did, int), PlayFields>, log: seq<Event>, schedule: seq<nat>, k: nat)
    requires Complete(schedule, k, |log|)
    ensures PlaysAfterAll(plays, Merged(log, schedule, k)) == PlaysAfterAll(plays, log)
  {
    var merged := Merged(log, schedule, k);
    hide PlaysAfterAll, PlayInsert, Lookup, FirstOutcome, Complete;
    forall key
      ensures Lookup(PlaysAfterAll(plays, merged), key) == Lookup(PlaysAfterAll(plays, log), key)
    {
      var insert := (e: Event) => PlayInsert(e, key);
      PlaysAfterAllByKey(plays, log, key);
      PlaysAfterAllByKey(plays, merged, key);
      EffectsOfMerged(log, schedule, k, insert);
      FirstWriterAgrees(Lookup(plays, key), Effects(log, insert), schedule, k);
    }
    MapsAgree(PlaysAfterAll(plays, merged), PlaysAfterAll(plays, log));
  }

  lemma MapsAgree<K, V>(a: map<K, V>, b: map<K, V>)
    requires forall k :: Lookup(a, k) == Lookup(b, k)
    ensures a == b
  {
    forall k
      ensures k in a <==> k in b
    {
      assert Lookup(a, k) == Lookup(b, k);
    }
    forall k | k in a
      ensures a[k] == b[k]
    {
      assert Lookup(a, k) == Lookup(b, k);
    }
  }

  /**
    Any interleaving of k full in-order copies of one commit log leaves favorites, stations, comments and play
    history as one copy alone does, deletes and invalid records included.
   */
  lemma RedundantFeedsAreHarmless(t: Tables, log: seq<Event>, schedule: seq<nat>, k: nat)
    requires Keyed(t) && (forall i :: 0 <= i < |log| ==> WellFormed(log[i])) && Complete(schedule, k, |log|)
    ensures
      var (once, merged) := (ProcessAll(t, log), ProcessAll(t, Merged(log, schedule, k)));
      && merged.favorites == once.favorites
      && merged.stations == once.stations
      && merged.comments == once.comments
      && merged.plays == once.plays
  {
    hide ProcessAll, RowsAfterAll, PlaysAfterAll, WellFormed, RowsKeyed, Complete;
    TablesAreIndependent(t, log);
    TablesAreIndependent(t, Merged(log, schedule, k));
    RowsAgree(t.favorites, log, schedule, k, Favorite, FavoriteOf);
    RowsAgree(t.stations, log, schedule, k, Station, StationOf);
    RowsAgree(t.comments, log, schedule, k, Comment, CommentOf);
    PlaysAgree(t.plays, log, schedule, k);
  }

  // ---- reactions are different -----------------------------------------------------------------

  /** Under every uri, the reactions stored after its last deletion are all the same row, or nothing is deleted. */
  ghost predicate SteadyReactions(log: seq<Event>) {
    forall uri :: Steady(ReactionEffects(log, uri))
  }

  lemma ReactionsOfMerged(t: Tables, log: seq<Event>, schedule: seq<nat>, k: nat, uri: Uri)
    requires Complete(schedule, k, |log|)
    ensures
      Lookup(ProcessAll(t, Merged(log, schedule, k)).reactions, uri)
        == NewOutcome(Lookup(t.reactions, uri), Merged(ReactionEffects(log, uri), schedule, k))
  {
    hide ProcessAll, RowsAfterAll, PlaysAfterAll, ReactionsAfterAll, ReactionEffect, Lookup, NewOutcome, Complete;
    TablesAreIndependent(t, Merged(log, schedule, k));
    ReactionsAfterAllByKey(t.reactions, Merged(log, schedule, k), uri);
    EffectsOfMerged(log, schedule, k, e => ReactionEffect(e, uri));
  }

  lemma ReactionsOfLog(t: Tables, log: seq<Event>, uri: Uri)
    ensures Lookup(ProcessAll(t, log).reactions, uri) == NewOutcome(Lookup(t.reactions, uri), ReactionEffects(log, uri))
  {
    hide ProcessAll, RowsAfterAll, PlaysAfterAll, ReactionsAfterAll, Lookup, NewOutcome;
    TablesAreIndependent(t, log);
    ReactionsAfterAllByKey(t.reactions, log, uri);
  }

  lemma SteadyReactionsAgree(t: Tables, log: seq<Event>, schedule: seq<nat>, k: nat)
    requires SteadyReactions(log) && Complete(schedule, k, |log|)
    ensures ProcessAll(t, Merged(log, schedule, k)).reactions == ProcessAll(t, log).reactions
  {
    hide ProcessAll, Lookup, Steady, Complete, NewOutcome, ReactionEffects;
    var (merged, once) := (ProcessAll(t, Merged(log, schedule, k)).reactions, ProcessAll(t, log).reactions);
    forall uri
      ensures Lookup(merged, uri) == Lookup(once, uri)
    {
      ReactionsOfMerged(t, log, schedule, k, uri);
      ReactionsOfLog(t, log, uri);
      SteadyAgrees(Lookup(t.reactions, uri), ReactionEffects(log, uri), schedule, k);
    }
    MapsAgree(merged, once);
  }

  /**
    Reactions ignore conflicts and can be deleted too, so redundant feeds are harmless to them exactly when the
    log is steady: then every interleaving of two or more copies leaves what one copy leaves, and otherwise some
    interleaving does not.
   */
  lemma ReactionsAgreeExactly(t: Tables, log: seq<Event>, k: nat)
    requires k >= 2
    ensures SteadyReactions(log) <==>
      forall schedule :: Complete(schedule, k, |log|) ==>
        ProcessAll(t, Merged(log, schedule, k)).reactions == ProcessAll(t, log).reactions
  {
    hide ProcessAll, Lookup, Steady, Complete, NewOutcome, ReactionEffects;
    if SteadyReactions(log) {
      forall schedule | Complete(schedule, k, |log|)
        ensures ProcessAll(t, Merged(log, schedule, k)).reactions == ProcessAll(t, log).reactions
      {
        SteadyReactionsAgree(t, log, schedule, k);
      }
    } else {
      var uri :| !Steady(ReactionEffects(log, uri));
      var p, q := UnsteadyDiverges(Lookup(t.reactions, uri), ReactionEffects(log, uri), k);
      var schedule := Diverging(k, |log|, p, q);
      ReactionsOfMerged(t, log, schedule, k, uri);
      ReactionsOfLog(t, log, uri);
    }
  }

  function ReactionEvent(operation: Operation, emoji: string): Event {
    Event("did:plc:a", 0, Some(Commit(operation, Reaction, "r",
      if operation == Delete then Invalid else OfReaction(ReactionFields("s", emoji, 0)))))
  }

  /** Create, delete, create, update: a log that is not steady, and the interleaving of two copies that differs. */
  lemma ReactionsCanDiverge(t: Tables)
    ensures
      var log := [
        ReactionEvent(Create, "1"), ReactionEvent(Delete, ""), ReactionEvent(Create, "2"), ReactionEvent(Update, "3")];
      var schedule := Diverging(2, |log|, 1, 3);
      && !SteadyReactions(log)
      && Complete(schedule, 2, |log|)
      && ProcessAll(t, Merged(log, schedule, 2)).reactions != ProcessAll(t, log).reactions
  {
    var log := [
      ReactionEvent(Create, "1"), ReactionEvent(Delete, ""), ReactionEvent(Create, "2"), ReactionEvent(Update, "3")];
    var uri := AtUri("did:plc:a", Reaction, "r");
    var row := (emoji: string) => Row("did:plc:a", "r", ReactionFields("s", emoji, 0));
    hide AtUri, ProcessAll, Diverging, Complete, Merged;
    var effects := ReactionEffects(log, uri);
    assert effects == [Set(row("1")), Clear, Set(row("2")), Set(row("3"))];
    hide ReactionEffects;
    assert row("2").fields.emoji == "2" && row("3").fields.emoji == "3";
    assert IsLastClear(effects, 1) && effects[2] != effects[3];
    assert !Steady(effects);
    DivergingOutcome(Lookup(t.reactions, uri), effects, 2, 1, 3);
    NewOutcomeFrom(Lookup(t.reactions, uri), effects, 2);
    assert NewOutcome(Lookup(t.reactions, uri), effects[..2]) == None by {
      assert effects[..2][1] == Clear;
    }
    FirstOutcomeIs(None, InsertsOf(effects)[2..]);
    assert IsFirst(InsertsOf(effects)[2..], 0);
    ReactionsOfMerged(t, log, Diverging(2, |log|, 1, 3), 2, uri);
    ReactionsOfLog(t, log, uri);
  }
}
