/** First-delivery claims over redundant feeds: a TTL map bounded in size, with a JavaScript Map's key order. */
module Dedup {
  import opened Basics

  type Key = string

  const DEDUP_TTL_MS := 5 * 60 * 1000
  const DEDUP_MAX := 20000

  /** A Map from key to expiry; `order` is the insertion order of its keys. */
  datatype Table = Table(order: seq<Key>, expiry: map<Key, int>) {
    ghost predicate Valid() {
      && (forall i, j :: 0 <= i < j < |order| ==> order[i] != order[j])
      && (forall k :: k in order <==> k in expiry)
    }
  }

  const EMPTY := Table([], map[])

  /** Map.set: a key already present keeps its place. */
  function Put(t: Table, key: Key, exp: int): Table {
    Table(if key in t.expiry then t.order else t.order + [key], t.expiry[key := exp])
  }

  function KeepLive(order: seq<Key>, expiry: map<Key, int>, now: int): seq<Key>
    requires forall k :: k in order ==> k in expiry
  {
    if order == [] then []
    else (if expiry[order[0]] > now then [order[0]] else []) + KeepLive(order[1..], expiry, now)
  }

  function Restrict(expiry: map<Key, int>, order: seq<Key>): map<Key, int> {
    map k | k in expiry && k in order :: expiry[k]
  }

  /** Drops what has expired. */
  function Prune(t: Table, now: int): Table
    requires t.Valid()
  {
    var order := KeepLive(t.order, t.expiry, now);
    Table(order, Restrict(t.expiry, order))
  }

  /** Drops the oldest insertions until at most `max` are left. */
  function Evict(t: Table, max: nat): Table
    decreases |t.order|
  {
    if |t.order| <= max then t
    else Evict(Table(t.order[1..], Restrict(t.expiry, t.order[1..])), max)
  }

  function Claimed(t: Table, key: Key, now: int): bool {
    !(key in t.expiry && t.expiry[key] > now)
  }

  function Claim(t: Table, key: Key, now: int): Table
    requires t.Valid()
  {
    if !Claimed(t, key, now) then t
    else
      var put := Put(t, key, now + DEDUP_TTL_MS);
      PutValid(t, key, now + DEDUP_TTL_MS);
      if |put.order| <= DEDUP_MAX then put else Evict(Prune(put, now), DEDUP_MAX)
  }

  // ---- the claims method -----------------------------------------------------------------------

  class Deduper {
    var order: seq<Key>
    var seen: map<Key, int>

    ghost function Model(): Table
      reads this
    {
      Table(order, seen)
    }

    constructor ()
      ensures Model() == EMPTY && Model().Valid()
    {
      order, seen := [], map[];
    }

    method ClaimFirstDelivery(key: Key, now: int) returns (first: bool)
      requires Model().Valid()
      modifies this
      ensures Model().Valid()
      ensures first == Claimed(old(Model()), key, now) && Model() == Claim(old(Model()), key, now)
      ensures !first ==> order == old(order) && seen == old(seen)
      ensures
        var placed := if key in old(seen) then old(order) else old(order) + [key];
        first && |placed| <= 20_000 ==> order == placed && seen == old(seen)[key := now + 300_000]
    {
      if key in seen && seen[key] > now {
        return false;
      }
      PutValid(Model(), key, now + DEDUP_TTL_MS);
      order := if key in seen then order else order + [key];
      seen := seen[key := now + DEDUP_TTL_MS];
      if |order| > DEDUP_MAX {
        DropExpired(now);
        ghost var pruned := Model();
        while |order| > DEDUP_MAX
          invariant Model().Valid() && Evict(Model(), DEDUP_MAX) == Evict(pruned, DEDUP_MAX)
        {
          var oldest := order[0];
          DropOldestValid(Model());
          seen := Restrict(seen, order[1..]);
          order := order[1..];
        }
      }
      return true;
    }

    /** The pruning loop over the Map. */
    method DropExpired(now: int)
      requires Model().Valid()
      modifies this
      ensures Model() == Prune(old(Model()), now) && Model().Valid()
    {
      PruneValid(Model(), now);
      var kept := LiveKeysInOrder(order, seen, now);
      seen := Restrict(seen, kept);
      order := kept;
    }
  }

  method LiveKeysInOrder(order: seq<Key>, seen: map<Key, int>, now: int) returns (kept: seq<Key>)
    requires forall k :: k in order ==> k in seen
    ensures kept == KeepLive(order, seen, now)
  {
    kept := [];
    var i := 0;
    assert order[0..] == order;
    while i < |order|
      invariant 0 <= i <= |order|
      invariant kept + KeepLive(order[i..], seen, now) == KeepLive(order, seen, now)
    {
      hide KeepLive;
      KeepLiveFrom(order, seen, now, i);
      if seen[order[i]] > now {
        Shift(kept, order[i], KeepLive(order[i + 1..], seen, now));
        kept := kept + [order[i]];
      } else {
        assert [] + KeepLive(order[i + 1..], seen, now) == KeepLive(order[i + 1..], seen, now);
      }
      i := i + 1;
    }
  }

  // ---- the table stays a Map -------------------------------------------------------------------

  lemma PutValid(t: Table, key: Key, exp: int)
    requires t.Valid()
    ensures Put(t, key, exp).Valid()
  {
    var p := Put(t, key, exp);
    assert p.order[..|t.order|] == t.order;
  }

  lemma {:induction false} KeepLiveIs(order: seq<Key>, expiry: map<Key, int>, now: int)
    requires forall i, j :: 0 <= i < j < |order| ==> order[i] != order[j]
    requires forall k :: k in order ==> k in expiry
    ensures
      var kept := KeepLive(order, expiry, now);
      && (forall k :: k in kept <==> k in order && expiry[k] > now)
      && (forall i, j :: 0 <= i < j < |kept| ==> kept[i] != kept[j])
      && |kept| <= |order|
      && (order != [] && expiry[order[|order| - 1]] > now ==> kept != [] && kept[|kept| - 1] == order[|order| - 1])
  {
    if order != [] {
      KeepLiveIs(order[1..], expiry, now);
      assert forall k :: k in order <==> k == order[0] || k in order[1..];
    }
  }

  lemma KeepLiveFrom(order: seq<Key>, expiry: map<Key, int>, now: int, i: nat)
    requires i < |order| && forall k :: k in order ==> k in expiry
    ensures
      KeepLive(order[i..], expiry, now)
        == (if expiry[order[i]] > now then [order[i]] else []) + KeepLive(order[i + 1..], expiry, now)
  {
    assert order[i..][1..] == order[i + 1..];
  }

  lemma Shift(a: seq<Key>, k: Key, b: seq<Key>)
    ensures a + ([k] + b) == (a + [k]) + b
  {
  }

  lemma PruneValid(t: Table, now: int)
    requires t.Valid()
    ensures Prune(t, now).Valid()
    ensures forall k :: k in Prune(t, now).expiry <==> k in t.expiry && t.expiry[k] > now
    ensures forall k :: k in Prune(t, now).expiry ==> Prune(t, now).expiry[k] == t.expiry[k]
  {
    KeepLiveIs(t.order, t.expiry, now);
  }

  lemma DropOldestValid(t: Table)
    requires t.Valid() && t.order != []
    ensures
      var rest := Table(t.order[1..], Restrict(t.expiry, t.order[1..]));
      rest.Valid() && rest.expiry == t.expiry - {t.order[0]}
  {
    assert forall k :: k in t.order <==> k == t.order[0] || k in t.order[1..];
  }

  lemma {:induction false} EvictValid(t: Table, max: nat)
    requires t.Valid()
    ensures Evict(t, max).Valid() && |Evict(t, max).order| == (if |t.order| <= max then |t.order| else max)
    ensures forall k :: k in Evict(t, max).expiry ==> k in t.expiry && Evict(t, max).expiry[k] == t.expiry[k]
    ensures max > 0 && t.order != [] ==> Evict(t, max).order[|Evict(t, max).order| - 1] == t.order[|t.order| - 1]
    decreases |t.order|
  {
    if |t.order| > max {
      DropOldestValid(t);
      EvictValid(Table(t.order[1..], Restrict(t.expiry, t.order[1..])), max);
    }
  }

  /** Eviction takes the keys that were inserted first. */
  lemma {:induction false} EvictKeepsYoungest(t: Table, max: nat)
    ensures Evict(t, max).order == if |t.order| <= max then t.order else t.order[|t.order| - max..]
    decreases |t.order|
  {
    if |t.order| > max {
      EvictKeepsYoungest(Table(t.order[1..], Restrict(t.expiry, t.order[1..])), max);
    }
  }

  /** On every trace the table stays a Map of at most DEDUP_MAX keys, and a key just claimed is still there. */
  lemma ClaimBounds(t: Table, key: Key, now: int)
    requires t.Valid() && |t.order| <= DEDUP_MAX
    ensures
      var u := Claim(t, key, now);
      && u.Valid() && |u.order| <= DEDUP_MAX && |u.order| <= 20_000
      && !Claimed(u, key, now)
      && (Claimed(t, key, now) ==> u.expiry[key] == now + DEDUP_TTL_MS)
  {
    if Claimed(t, key, now) {
      PutValid(t, key, now + DEDUP_TTL_MS);
      PutTrimmed(Put(t, key, now + DEDUP_TTL_MS), key, now);
    }
  }

  /** Pruning and evicting spare the youngest key, when it is the one just put into a table that was not over-full. */
  lemma PutTrimmed(put: Table, key: Key, now: int)
    requires put.Valid() && key in put.expiry && put.expiry[key] == now + DEDUP_TTL_MS
    requires |put.order| > DEDUP_MAX ==> put.order[|put.order| - 1] == key
    ensures
      var u := if |put.order| <= DEDUP_MAX then put else Evict(Prune(put, now), DEDUP_MAX);
      u.Valid() && |u.order| <= DEDUP_MAX && key in u.expiry && u.expiry[key] == now + DEDUP_TTL_MS
  {
    if |put.order| > DEDUP_MAX {
      PruneKeepsLast(put, key, now);
      EvictKeepsLast(Prune(put, now), key);
    }
  }

  lemma PruneKeepsLast(put: Table, key: Key, now: int)
    requires put.Valid() && put.order != [] && put.order[|put.order| - 1] == key
    requires put.expiry[key] == now + DEDUP_TTL_MS
    ensures
      var p := Prune(put, now);
      && p.Valid() && p.order != [] && p.order[|p.order| - 1] == key
      && key in p.expiry && p.expiry[key] == now + DEDUP_TTL_MS
  {
    KeepLiveIs(put.order, put.expiry, now);
    PruneValid(put, now);
    hide KeepLive, Restrict;
    assert key in put.expiry;
  }

  lemma EvictKeepsLast(p: Table, key: Key)
    requires p.Valid() && p.order != [] && p.order[|p.order| - 1] == key && key in p.expiry
    ensures
      var u := Evict(p, DEDUP_MAX);
      u.Valid() && |u.order| <= DEDUP_MAX && key in u.expiry && u.expiry[key] == p.expiry[key]
  {
    EvictValid(p, DEDUP_MAX);
    hide Evict;
    var u := Evict(p, DEDUP_MAX);
    assert u.order[|u.order| - 1] in u.order;
  }

  // ---- against an unbounded TTL map ------------------------------------------------------------

  /** The specification never forgets a key before it expires. */
  function SpecClaimed(m: map<Key, int>, key: Key, now: int): bool {
    !(key in m && m[key] > now)
  }

  function SpecClaim(m: map<Key, int>, key: Key, now: int): map<Key, int> {
    if SpecClaimed(m, key, now) then m[key := now + DEDUP_TTL_MS] else m
  }

  function LiveKeys(m: map<Key, int>, now: int): set<Key> {
    set k | k in m && m[k] > now
  }

  /** Table and specification agree about every key that has not expired. */
  ghost predicate Agree(t: Table, m: map<Key, int>, now: int) {
    && t.Valid() && |t.order| <= DEDUP_MAX
    && forall k :: if k in m && m[k] > now then k in t.expiry && t.expiry[k] == m[k] else Claimed(t, k, now)
  }

  ghost function Elements(order: seq<Key>): set<Key> {
    set k | k in order
  }

  lemma {:induction false} DistinctSize(order: seq<Key>)
    requires forall i, j :: 0 <= i < j < |order| ==> order[i] != order[j]
    ensures |Elements(order)| == |order|
  {
    if order != [] {
      DistinctSize(order[1..]);
      assert Elements(order) == {order[0]} + Elements(order[1..]);
    }
  }

  lemma AgreesLater(t: Table, m: map<Key, int>, now: int, later: int)
    requires Agree(t, m, now) && now <= later
    ensures Agree(t, m, later)
  {
    forall k
      ensures if k in m && m[k] > later then k in t.expiry && t.expiry[k] == m[k] else Claimed(t, k, later)
    {
      assert if k in m && m[k] > now then k in t.expiry && t.expiry[k] == m[k] else Claimed(t, k, now);
    }
  }

  /** The table after a claim keeps a live key unless it is the one evicted, which happens only above DEDUP_MAX. */
  lemma ClaimAgreesExactly(t: Table, m: map<Key, int>, key: Key, now: int)
    requires Agree(t, m, now)
    ensures Claimed(t, key, now) == SpecClaimed(m, key, now)
    ensures Agree(Claim(t, key, now), SpecClaim(m, key, now), now) <==>
      |LiveKeys(SpecClaim(m, key, now), now)| <= DEDUP_MAX
  {
    var u, m' := Claim(t, key, now), SpecClaim(m, key, now);
    assert if key in m && m[key] > now then key in t.expiry && t.expiry[key] == m[key] else Claimed(t, key, now);
    ClaimBounds(t, key, now);
    if !Claimed(t, key, now) {
      LiveFits(t, m, now);
    } else {
      var put := Put(t, key, now + DEDUP_TTL_MS);
      PutValid(t, key, now + DEDUP_TTL_MS);
      PutAgrees(t, m, key, now);
      if |put.order| <= DEDUP_MAX {
        LiveFits(put, m', now);
      } else {
        PrunedExactly(put, m', now);
      }
    }
  }

  ghost predicate SameLive(t: Table, m: map<Key, int>, now: int) {
    forall k :: if k in m && m[k] > now then k in t.expiry && t.expiry[k] == m[k] else Claimed(t, k, now)
  }

  lemma PutAgrees(t: Table, m: map<Key, int>, key: Key, now: int)
    requires t.Valid() && SameLive(t, m, now) && Claimed(t, key, now) && SpecClaimed(m, key, now)
    ensures SameLive(Put(t, key, now + DEDUP_TTL_MS), SpecClaim(m, key, now), now)
  {
  }

  lemma LiveFits(t: Table, m: map<Key, int>, now: int)
    requires t.Valid() && SameLive(t, m, now)
    ensures |LiveKeys(m, now)| <= |t.order|
  {
    DistinctSize(t.order);
    assert LiveKeys(m, now) <= Elements(t.order);
    NotLarger(LiveKeys(m, now), Elements(t.order));
  }

  lemma PrunedExactly(put: Table, m: map<Key, int>, now: int)
    requires put.Valid() && SameLive(put, m, now) && |put.order| == DEDUP_MAX + 1
    ensures
      var u := Evict(Prune(put, now), DEDUP_MAX);
      Agree(u, m, now) <==> |LiveKeys(m, now)| <= DEDUP_MAX
  {
    var p := Prune(put, now);
    KeepLiveIs(put.order, put.expiry, now);
    PruneValid(put, now);
    assert p.Valid() && |p.order| <= DEDUP_MAX + 1;
    assert SameLive(p, m, now) && LiveKeys(m, now) == Elements(p.order);
    hide Prune, KeepLive, SameLive, Evict;
    DistinctSize(p.order);
    if |p.order| <= DEDUP_MAX {
      EvictNone(p, m, now);
    } else {
      EvictOne(p, m, now);
    }
  }

  lemma EvictNone(p: Table, m: map<Key, int>, now: int)
    requires p.Valid() && SameLive(p, m, now) && |p.order| <= DEDUP_MAX
    ensures Agree(Evict(p, DEDUP_MAX), m, now)
  {
  }

  lemma EvictOne(p: Table, m: map<Key, int>, now: int)
    requires p.Valid() && LiveKeys(m, now) == Elements(p.order) && |p.order| == DEDUP_MAX + 1
    ensures !Agree(Evict(p, DEDUP_MAX), m, now)
  {
    var oldest := p.order[0];
    DropOldestValid(p);
    var u := Table(p.order[1..], Restrict(p.expiry, p.order[1..]));
    assert Evict(p, DEDUP_MAX) == u;
    assert oldest in Elements(p.order) && oldest !in u.expiry;
    assert oldest in m && m[oldest] > now;
    hide Evict, Restrict;
    assert Claimed(u, oldest, now);
  }

  // ---- traces ----------------------------------------------------------------------------------

  datatype Delivery = Delivery(key: Key, at: int)

  predicate ClockFrom(start: int, trace: seq<Delivery>) {
    && (forall i :: 0 <= i < |trace| ==> start <= trace[i].at)
    && forall i, j :: 0 <= i < j < |trace| ==> trace[i].at <= trace[j].at
  }

  function Answers(t: Table, trace: seq<Delivery>): (r: seq<bool>)
    requires t.Valid() && |t.order| <= DEDUP_MAX
    ensures |r| == |trace|
    decreases |trace|
  {
    if trace == [] then []
    else
      ClaimBounds(t, trace[0].key, trace[0].at);
      [Claimed(t, trace[0].key, trace[0].at)] + Answers(Claim(t, trace[0].key, trace[0].at), trace[1..])
  }

  function SpecAnswers(m: map<Key, int>, trace: seq<Delivery>): seq<bool>
    decreases |trace|
  {
    if trace == [] then []
    else
      [SpecClaimed(m, trace[0].key, trace[0].at)] + SpecAnswers(SpecClaim(m, trace[0].key, trace[0].at), trace[1..])
  }

  /** The live keys never outnumber the table. */
  predicate Fits(m: map<Key, int>, trace: seq<Delivery>)
    decreases |trace|
  {
    trace == [] ||
    var m' := SpecClaim(m, trace[0].key, trace[0].at);
    |LiveKeys(m', trace[0].at)| <= DEDUP_MAX && Fits(m', trace[1..])
  }

  /** With a clock that never goes back and live keys within DEDUP_MAX, every claim is answered as without a bound. */
  lemma {:induction false} RefinesUnbounded(t: Table, m: map<Key, int>, trace: seq<Delivery>, clock: int)
    requires Agree(t, m, clock) && ClockFrom(clock, trace) && Fits(m, trace)
    ensures Answers(t, trace) == SpecAnswers(m, trace)
    decreases |trace|
  {
    if trace != [] {
      var d := trace[0];
      AgreesLater(t, m, clock, d.at);
      ClaimAgreesExactly(t, m, d.key, d.at);
      RefinesUnbounded(Claim(t, d.key, d.at), SpecClaim(m, d.key, d.at), trace[1..], d.at);
    }
  }

  /** And a claim that first takes the live keys past DEDUP_MAX makes some live key claimable a second time. */
  lemma OverflowForgets(t: Table, m: map<Key, int>, key: Key, now: int)
    requires Agree(t, m, now) && |LiveKeys(SpecClaim(m, key, now), now)| > DEDUP_MAX
    ensures exists k :: Claimed(Claim(t, key, now), k, now) && !SpecClaimed(SpecClaim(m, key, now), k, now)
  {
    var u, m' := Claim(t, key, now), SpecClaim(m, key, now);
    ClaimAgreesExactly(t, m, key, now);
    ClaimBounds(t, key, now);
    if forall k :: Claimed(u, k, now) == SpecClaimed(m', k, now) {
      ExpiriesMatch(t, m, key, now);
    } else {
      var k :| Claimed(u, k, now) != SpecClaimed(m', k, now);
      ExpiriesMatch(t, m, key, now);
    }
  }

  /** Whatever the table still holds live, it holds with the expiry of the specification. */
  lemma ExpiriesMatch(t: Table, m: map<Key, int>, key: Key, now: int)
    requires Agree(t, m, now)
    ensures
      var u, m' := Claim(t, key, now), SpecClaim(m, key, now);
      forall k :: !Claimed(u, k, now) ==> k in m' && m'[k] == u.expiry[k]
  {
    var put := Put(t, key, now + DEDUP_TTL_MS);
    PutValid(t, key, now + DEDUP_TTL_MS);
    assert if key in m && m[key] > now then key in t.expiry && t.expiry[key] == m[key] else Claimed(t, key, now);
    if Claimed(t, key, now) {
      PutAgrees(t, m, key, now);
      PruneValid(put, now);
      EvictValid(Prune(put, now), DEDUP_MAX);
    }
  }

  // ---- in plain numbers ----------------------------------------------------------------------------------------

  /** An earlier claim of the same key was granted less than five minutes before. */
  predicate GrantedBefore(trace: seq<Delivery>, answers: seq<bool>, i: nat)
    requires i < |trace| == |answers|
  {
    exists j :: 0 <= j < i && trace[j].key == trace[i].key && answers[j] && trace[i].at - trace[j].at < 300_000
  }

  /** The keys granted less than five minutes before, the present claim included. */
  ghost function GrantedKeys(trace: seq<Delivery>, answers: seq<bool>, i: nat): set<Key>
    requires i < |trace| == |answers|
  {
    set j | 0 <= j <= i && answers[j] && trace[i].at - trace[j].at < 300_000 :: trace[j].key
  }

  /** What the unbounded map knows: the expiry of each key's latest grant. */
  ghost predicate Knows(m: map<Key, int>, past: seq<Delivery>, given: seq<bool>)
    requires |past| == |given|
  {
    && (forall j :: 0 <= j < |past| && given[j] ==> past[j].key in m && m[past[j].key] >= past[j].at + 300_000)
    && (forall k :: k in m ==>
          exists j :: 0 <= j < |past| && given[j] && past[j].key == k && m[k] == past[j].at + 300_000)
  }

  lemma KnowsNext(m: map<Key, int>, past: seq<Delivery>, given: seq<bool>, d: Delivery)
    requires |past| == |given| && Knows(m, past, given)
    ensures Knows(SpecClaim(m, d.key, d.at), past + [d], given + [SpecClaimed(m, d.key, d.at)])
  {
    var m', past', given' := SpecClaim(m, d.key, d.at), past + [d], given + [SpecClaimed(m, d.key, d.at)];
    forall k | k in m'
      ensures exists j :: 0 <= j < |past'| && given'[j] && past'[j].key == k && m'[k] == past'[j].at + 300_000
    {
      if k == d.key && SpecClaimed(m, d.key, d.at) {
        assert given'[|past|] && past'[|past|] == d;
      } else {
        var j :| 0 <= j < |past| && given[j] && past[j].key == k && m[k] == past[j].at + 300_000;
        assert past'[j] == past[j] && given'[j] == given[j];
      }
    }
  }

  lemma KnowsAnswers(m: map<Key, int>, trace: seq<Delivery>, answers: seq<bool>, i: nat)
    requires i < |trace| == |answers| && Knows(m, trace[..i], answers[..i])
    ensures SpecClaimed(m, trace[i].key, trace[i].at) <==> !GrantedBefore(trace, answers, i)
  {
    var key, now := trace[i].key, trace[i].at;
    if key in m && m[key] > now {
      var j :| 0 <= j < i && answers[..i][j] && trace[..i][j].key == key && m[key] == trace[..i][j].at + 300_000;
    }
    if GrantedBefore(trace, answers, i) {
      var j :| 0 <= j < i && trace[j].key == key && answers[j] && now - trace[j].at < 300_000;
      assert trace[..i][j] == trace[j] && answers[..i][j];
    }
  }

  lemma KnowsLive(m: map<Key, int>, trace: seq<Delivery>, answers: seq<bool>, i: nat)
    requires i < |trace| == |answers| && Knows(m, trace[..i + 1], answers[..i + 1])
    ensures LiveKeys(m, trace[i].at) == GrantedKeys(trace, answers, i)
  {
    var past, given := trace[..i + 1], answers[..i + 1];
    forall k
      ensures k in LiveKeys(m, trace[i].at) <==> k in GrantedKeys(trace, answers, i)
    {
      if k in LiveKeys(m, trace[i].at) {
        var j :| 0 <= j < |past| && given[j] && past[j].key == k && m[k] == past[j].at + 300_000;
        assert trace[j] == past[j] && answers[j];
      }
      if k in GrantedKeys(trace, answers, i) {
        var j :| 0 <= j <= i && answers[j] && trace[i].at - trace[j].at < 300_000 && trace[j].key == k;
        assert past[j] == trace[j] && given[j];
      }
    }
  }

  lemma {:induction false} AnswersInNumbers(
    t: Table, m: map<Key, int>, trace: seq<Delivery>, answers: seq<bool>, n: nat, clock: int)
    requires n <= |trace| == |answers| && Agree(t, m, clock) && ClockFrom(clock, trace[n..])
    requires Knows(m, trace[..n], answers[..n]) && answers[n..] == Answers(t, trace[n..])
    requires forall i :: n <= i < |trace| ==> |GrantedKeys(trace, answers, i)| <= 20_000
    ensures forall i :: n <= i < |trace| ==> (answers[i] <==> !GrantedBefore(trace, answers, i))
    decreases |trace| - n
  {
    hide Knows, Agree, GrantedBefore, GrantedKeys, LiveKeys, Claim, SpecClaim, Claimed, SpecClaimed;
    if n < |trace| {
      var d := trace[n];
      assert trace[n..][0] == d && trace[n..][1..] == trace[n + 1..] && answers[n..][1..] == answers[n + 1..];
      AgreesLater(t, m, clock, d.at);
      ClaimAgreesExactly(t, m, d.key, d.at);
      assert answers[n] == answers[n..][0] == SpecClaimed(m, d.key, d.at);
      KnowsAnswers(m, trace, answers, n);
      KnowsNext(m, trace[..n], answers[..n], d);
      assert trace[..n + 1] == trace[..n] + [d] && answers[..n + 1] == answers[..n] + [answers[n]];
      KnowsLive(SpecClaim(m, d.key, d.at), trace, answers, n);
      AnswersInNumbers(Claim(t, d.key, d.at), SpecClaim(m, d.key, d.at), trace, answers, n + 1, d.at);
    }
  }

  /**
    From an empty table, on any trace with a clock that never goes back and at most 20000 keys granted in the last
    five minutes at any time: a claim is refused exactly when the same key was granted less than 300000 ms before.
   */
  lemma RefusedWithinFiveMinutes(trace: seq<Delivery>, clock: int)
    requires ClockFrom(clock, trace)
    requires
      var answers := Answers(EMPTY, trace);
      forall i :: 0 <= i < |trace| ==> |GrantedKeys(trace, answers, i)| <= 20_000
    ensures
      var answers := Answers(EMPTY, trace);
      forall i :: 0 <= i < |trace| ==> (answers[i] <==> !GrantedBefore(trace, answers, i))
  {
    var answers := Answers(EMPTY, trace);
    assert trace[0..] == trace && answers[0..] == answers && trace[..0] == [] && answers[..0] == [];
    AnswersInNumbers(EMPTY, map[], trace, answers, 0, clock);
  }
}
