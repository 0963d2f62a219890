/**
  Favorites in an account's repository: one canonical record per station, found and deduplicated through a
  paginated listing. `canonical` stands for favorite_rkey, of which only injectivity is used.
 */
module Favorites {
  import opened Basics
  import opened TextOrder

  type StationId = string
  type Rkey = Text

  /** The body of a favorite record; its station id can be missing. */
  datatype Record = Record(stationId: Option<StationId>)
  type Repo = map<Rkey, Record>

  const PAGE_LIMIT := 100

  predicate Matches(repo: Repo, r: Rkey, station: StationId) {
    r in repo && repo[r].stationId == Some(station)
  }

  function FavoritesOf(repo: Repo, station: StationId): set<Rkey> {
    set r | r in repo && Matches(repo, r, station)
  }

  /** Records a listing has not reached yet. */
  predicate Beyond(after: Option<Rkey>, r: Rkey) {
    after.None? || Less(after.value, r)
  }

  /** One page of a listing: the next records in key order, and a cursor unless nothing is left. */
  ghost predicate IsPage(repo: Repo, after: Option<Rkey>, page: seq<Rkey>, cursor: Option<Rkey>) {
    && (forall i, j :: 0 <= i < j < |page| ==> Less(page[i], page[j]))
    && (forall r :: r in page ==> r in repo && Beyond(after, r))
    && (forall r :: r in repo && Beyond(after, r) && r !in page ==> page != [] && Less(page[|page| - 1], r))
    && (cursor.Some? && page != [] ==> cursor.value == page[|page| - 1])
    && (cursor.None? || page == [] ==> forall r :: r in repo && Beyond(after, r) ==> r in page)
  }

  predicate Distinct(rkeys: seq<Rkey>) {
    forall i, j :: 0 <= i < j < |rkeys| ==> rkeys[i] != rkeys[j]
  }

  lemma DistinctTogether(a: seq<Rkey>, b: seq<Rkey>)
    requires Distinct(a) && Distinct(b) && forall r :: r in a ==> r !in b
    ensures Distinct(a + b)
  {
    forall i, j | 0 <= i < j < |a + b|
      ensures (a + b)[i] != (a + b)[j]
    {
      if i < |a| <= j {
        assert a[i] in a && b[j - |a|] in b;
      }
    }
  }

  function Canonical(repo: Repo, key: Rkey, station: StationId): Repo {
    repo[key := Record(Some(station))]
  }

  // ---- the repository server, and the client's verbs run alone ---------------------------------

  class Pds {
    var records: Repo

    method PutRecord(key: Rkey, record: Record)
      modifies this
      ensures records == old(records)[key := record]
    {
      records := records[key := record];
    }

    /** Deleting a record that is not there succeeds. */
    method DeleteRecord(key: Rkey)
      modifies this
      ensures records == old(records) - {key}
    {
      records := records - {key};
    }

    /** `always` servers return a cursor with every non-empty page, others only when more records follow. */
    method ListRecords(after: Option<Rkey>, limit: nat, always: bool) returns (page: seq<Rkey>, cursor: Option<Rkey>)
      requires limit > 0
      ensures IsPage(records, after, page, cursor) && |page| <= limit
    {
      page := [];
      var rest := set r | r in records && Beyond(after, r);
      while rest != {} && |page| < limit
        invariant rest <= records.Keys && |page| <= limit
        invariant forall r :: r in records && Beyond(after, r) <==> r in page || r in rest
        invariant forall r :: r in page ==> r !in rest
        invariant forall i, j :: 0 <= i < j < |page| ==> Less(page[i], page[j])
        invariant forall r :: r in rest && page != [] ==> Less(page[|page| - 1], r)
        decreases rest
      {
        var r := LowestOf(rest);
        assert IsLowest(r, rest);
        AppendKeepsOrder(page, r);
        page := page + [r];
        rest := rest - {r};
      }
      cursor := if page != [] && (always || rest != {}) then Some(page[|page| - 1]) else None;
    }

    /** The keys of every favorite whose body names the station. */
    method ListFavoriteRkeys(station: StationId, always: bool) returns (rkeys: seq<Rkey>)
      ensures forall r :: r in rkeys <==> r in FavoritesOf(records, station)
      ensures Distinct(rkeys)
    {
      rkeys := [];
      var cursor: Option<Rkey> := None;
      var more := true;
      while more
        invariant forall r :: r in rkeys ==> Matches(records, r, station) && (more ==> !Beyond(cursor, r))
        invariant forall r :: Matches(records, r, station) && (more ==> !Beyond(cursor, r)) ==> r in rkeys
        invariant Distinct(rkeys)
        decreases more, set r | r in records && Beyond(cursor, r)
      {
        var page, next := ListRecords(cursor, PAGE_LIMIT, always);
        var found := FilterPage(page, station);
        PageAdvances(records, cursor, page, next);
        DistinctTogether(rkeys, found);
        ghost var before := set r | r in records && Beyond(cursor, r);
        rkeys := rkeys + found;
        more := next.Some? && |page| > 0;
        if more {
          cursor := next;
          assert cursor.value in before;
          assert (set r | r in records && Beyond(cursor, r)) < before;
        }
      }
    }

    /** Collects the page's records of one station. */
    method FilterPage(page: seq<Rkey>, station: StationId) returns (found: seq<Rkey>)
      requires forall r :: r in page ==> r in records
      requires forall i, j :: 0 <= i < j < |page| ==> Less(page[i], page[j])
      ensures forall r :: r in found <==> r in page && Matches(records, r, station)
      ensures Distinct(found)
    {
      found := [];
      for k := 0 to |page|
        invariant forall r :: r in found <==> r in page[..k] && Matches(records, r, station)
        invariant Distinct(found)
      {
        assert page[..k + 1] == page[..k] + [page[k]];
        forall i | 0 <= i < k
          ensures page[i] != page[k]
        {
          LessIsTotal(page[i], page[k]);
        }
        assert page[k] !in page[..k];
        if records[page[k]].stationId == Some(station) {
          found := found + [page[k]];
        }
      }
      assert page[..|page|] == page;
    }

    /** Writes the canonical record first, then deletes every other favorite of the station. */
    method Favorite(canonical: Rkey, station: StationId, always: bool)
      modifies this
      ensures records == Canonical(old(records) - FavoritesOf(old(records), station), canonical, station)
      ensures canonical in records && records[canonical].stationId == Some(station)
      ensures forall r :: r in records && r != canonical ==>
        r in old(records) && records[r] == old(records)[r] && records[r].stationId != Some(station)
      ensures forall r :: r in old(records) && old(records)[r].stationId != Some(station) ==> r in records
    {
      PutRecord(canonical, Record(Some(station)));
      ghost var put := records;
      var rkeys := ListFavoriteRkeys(station, always);
      for k := 0 to |rkeys|
        invariant records == put - (set r | r in rkeys[..k] && r != canonical)
      {
        assert rkeys[..k + 1] == rkeys[..k] + [rkeys[k]];
        if rkeys[k] != canonical {
          DeleteRecord(rkeys[k]);
        }
      }
      assert rkeys[..|rkeys|] == rkeys;
    }

    /** Deletes every favorite of the station; run alone it leaves none, and touches no other record. */
    method Unfavorite(station: StationId, always: bool)
      modifies this
      ensures records == old(records) - FavoritesOf(old(records), station)
      ensures FavoritesOf(records, station) == {}
      ensures forall r :: r in records <==> r in old(records) && old(records)[r].stationId != Some(station)
      ensures forall r :: r in records ==> records[r] == old(records)[r]
    {
      ghost var before := records;
      var rkeys := ListFavoriteRkeys(station, always);
      for k := 0 to |rkeys|
        invariant records == before - (set r | r in rkeys[..k])
      {
        assert rkeys[..k + 1] == rkeys[..k] + [rkeys[k]];
        DeleteRecord(rkeys[k]);
      }
      assert rkeys[..|rkeys|] == rkeys;
    }
  }

  lemma AppendKeepsOrder(page: seq<Rkey>, r: Rkey)
    requires forall i, j :: 0 <= i < j < |page| ==> Less(page[i], page[j])
    requires page != [] ==> Less(page[|page| - 1], r)
    ensures forall i, j :: 0 <= i < j <= |page| ==> Less((page + [r])[i], (page + [r])[j])
  {
    forall i | 0 <= i < |page|
      ensures Less(page[i], r)
    {
      if i < |page| - 1 {
        LessIsTransitive(page[i], page[|page| - 1], r);
      }
    }
  }

  /** A page that continues covers everything up to its cursor, and the cursor moves forward. */
  lemma PageAdvances(repo: Repo, after: Option<Rkey>, page: seq<Rkey>, cursor: Option<Rkey>)
    requires IsPage(repo, after, page, cursor)
    ensures cursor.Some? && page != [] ==>
      && page[|page| - 1] == cursor.value && Beyond(after, cursor.value) && cursor.value in repo
      && (forall r :: r in repo ==> (Beyond(cursor, r) <==> Beyond(after, r) && r !in page))
      && !Beyond(cursor, cursor.value)
  {
    if cursor.Some? && page != [] {
      var last := page[|page| - 1];
      LessIsTotal(last, last);
      forall r | r in repo
        ensures Beyond(cursor, r) <==> Beyond(after, r) && r !in page
      {
        if r in page {
          var i :| 0 <= i < |page| && page[i] == r;
          LessIsTotal(r, last);
          assert i < |page| - 1 ==> Less(r, last);
        } else if Beyond(cursor, r) && after.Some? {
          assert last in page && Beyond(after, last);
          assert Less(after.value, last) && Less(last, r);
          LessIsTransitive(after.value, last, r);
        }
      }
    }
  }
}
