/**
  Several full copies of one log, interleaved. What the last writer, or the first, left under a key is the same
  as in the log itself.
 */
module RedundantFeeds {
  import opened Basics

  /** What one event does to the value under one key. */
  datatype Effect<+V> = Keep | Set(value: V) | Clear

  function Count(schedule: seq<nat>, copy: nat): nat {
    if schedule == [] then 0
    else Count(schedule[..|schedule| - 1], copy) + if schedule[|schedule| - 1] == copy then 1 else 0
  }

  /** Every delivery is by one of k copies, and every copy delivers the whole log of n events, in order. */
  ghost predicate Complete(schedule: seq<nat>, k: nat, n: nat) {
    && k > 0
    && (forall i :: 0 <= i < |schedule| ==> schedule[i] < k)
    && forall copy: nat :: copy < k ==> Count(schedule, copy) == n
  }

  /** The log position the i-th delivery carries. */
  function Position(schedule: seq<nat>, i: nat): nat
    requires i < |schedule|
  {
    Count(schedule[..i], schedule[i])
  }

  lemma {:induction false} CountGrows(schedule: seq<nat>, i: nat, copy: nat)
    requires i <= |schedule|
    ensures Count(schedule[..i], copy) <= Count(schedule, copy)
    ensures i < |schedule| && schedule[i] == copy ==> Count(schedule[..i], copy) < Count(schedule, copy)
  {
    if i < |schedule| {
      CountGrows(schedule[..|schedule| - 1], i, copy);
      assert schedule[..|schedule| - 1][..i] == schedule[..i];
    } else {
      assert schedule[..i] == schedule;
    }
  }

  lemma PositionsInLog(schedule: seq<nat>, k: nat, n: nat)
    requires Complete(schedule, k, n)
    ensures forall i :: 0 <= i < |schedule| ==> Position(schedule, i) < n
  {
    forall i | 0 <= i < |schedule|
      ensures Position(schedule, i) < n
    {
      CountGrows(schedule, i, schedule[i]);
    }
  }

  /** The deliveries, as events. */
  function Merged<E>(log: seq<E>, schedule: seq<nat>, k: nat): (r: seq<E>)
    requires Complete(schedule, k, |log|)
    ensures |r| == |schedule|
    ensures forall i :: 0 <= i < |schedule| ==> Position(schedule, i) < |log| && r[i] == log[Position(schedule, i)]
  {
    PositionsInLog(schedule, k, |log|);
    seq(|schedule|, i requires 0 <= i < |schedule| && Position(schedule, i) < |log| => log[Position(schedule, i)])
  }

  /** A copy delivers every position, and later positions later. */
  lemma {:induction false} Delivers(schedule: seq<nat>, copy: nat, p: nat) returns (i: nat)
    requires p < Count(schedule, copy)
    ensures i < |schedule| && schedule[i] == copy && Position(schedule, i) == p
  {
    var last := |schedule| - 1;
    if schedule[last] == copy && Count(schedule[..last], copy) == p {
      return last;
    }
    i := Delivers(schedule[..last], copy, p);
    assert schedule[..last][..i] == schedule[..i];
  }

  lemma InOrder(schedule: seq<nat>, i: nat, j: nat)
    requires i < |schedule| && j < |schedule| && schedule[i] == schedule[j]
    ensures Position(schedule, i) < Position(schedule, j) <==> i < j
  {
    if i < j {
      CountGrows(schedule[..j], i, schedule[i]);
      assert schedule[..j][..i] == schedule[..i];
    } else if j < i {
      CountGrows(schedule[..i], j, schedule[j]);
      assert schedule[..i][..j] == schedule[..j];
    }
  }

  // ---- upserts and deletes: the last writer wins -----------------------------------------------

  function Apply<V>(before: Option<V>, e: Effect<V>): Option<V> {
    match e
    case Keep => before
    case Set(v) => Some(v)
    case Clear => None
  }

  function Outcome<V>(before: Option<V>, effects: seq<Effect<V>>): Option<V> {
    if effects == [] then before
    else Apply(Outcome(before, effects[..|effects| - 1]), effects[|effects| - 1])
  }

  /** p is the last effect that does anything. */
  ghost predicate IsLast<V>(effects: seq<Effect<V>>, p: nat) {
    p < |effects| && !effects[p].Keep? && forall j :: p < j < |effects| ==> effects[j].Keep?
  }

  lemma {:induction false} OutcomeIs<V>(before: Option<V>, effects: seq<Effect<V>>)
    ensures (forall j :: 0 <= j < |effects| ==> effects[j].Keep?) ==> Outcome(before, effects) == before
    ensures forall p: nat :: IsLast(effects, p) ==> Outcome(before, effects) == Apply(None, effects[p])
  {
    if effects != [] {
      var shorter := effects[..|effects| - 1];
      OutcomeIs(before, shorter);
      forall p: nat | IsLast(effects, p)
        ensures Outcome(before, effects) == Apply(None, effects[p])
      {
        if p < |effects| - 1 {
          assert IsLast(shorter, p);
        }
      }
    }
  }

  lemma {:induction false} LastExists<V>(effects: seq<Effect<V>>) returns (p: nat)
    requires exists j :: 0 <= j < |effects| && !effects[j].Keep?
    ensures IsLast(effects, p)
  {
    p := |effects| - 1;
    while effects[p].Keep?
      invariant p < |effects| && forall j :: p < j < |effects| ==> effects[j].Keep?
      decreases p
    {
      if p == 0 {
        assert forall j :: 0 <= j < |effects| ==> effects[j].Keep?;
      }
      p := p - 1;
    }
  }

  /** Redundant copies leave under a key exactly what one copy leaves, deletes and ignored events included. */
  lemma LastWriterAgrees<V>(before: Option<V>, effects: seq<Effect<V>>, schedule: seq<nat>, k: nat)
    requires Complete(schedule, k, |effects|)
    ensures Outcome(before, Merged(effects, schedule, k)) == Outcome(before, effects)
  {
    var merged := Merged(effects, schedule, k);
    OutcomeIs(before, effects);
    OutcomeIs(before, merged);
    if exists j :: 0 <= j < |effects| && !effects[j].Keep? {
      var p := LastExists(effects);
      var first := Delivers(schedule, 0, p);
      assert merged[first] == effects[p];
      var i := LastExists(merged);
      var later := Delivers(schedule, schedule[i], p);
      InOrder(schedule, i, later);
      InOrder(schedule, later, i);
      assert merged[later] == effects[p];
      assert Position(schedule, i) == p;
    }
  }

  // ---- inserts that do nothing on conflict: the first writer wins ------------------------------

  function Insert<V>(before: Option<V>, e: Option<V>): Option<V> {
    if before.Some? then before else e
  }

  function FirstOutcome<V>(before: Option<V>, inserts: seq<Option<V>>): Option<V> {
    if inserts == [] then before
    else Insert(FirstOutcome(before, inserts[..|inserts| - 1]), inserts[|inserts| - 1])
  }

  ghost predicate IsFirst<V>(inserts: seq<Option<V>>, p: nat) {
    p < |inserts| && inserts[p].Some? && forall j :: 0 <= j < p ==> inserts[j].None?
  }

  lemma {:induction false} FirstOutcomeIs<V>(before: Option<V>, inserts: seq<Option<V>>)
    ensures
      before.Some? || (forall j :: 0 <= j < |inserts| ==> inserts[j].None?) ==> FirstOutcome(before, inserts) == before
    ensures before.None? ==> forall p: nat :: IsFirst(inserts, p) ==> FirstOutcome(before, inserts) == inserts[p]
  {
    if inserts != [] {
      var shorter := inserts[..|inserts| - 1];
      FirstOutcomeIs(before, shorter);
      forall p: nat | before.None? && IsFirst(inserts, p)
        ensures FirstOutcome(before, inserts) == inserts[p]
      {
        if p < |inserts| - 1 {
          assert IsFirst(shorter, p);
        }
      }
    }
  }

  lemma FirstExists<V>(inserts: seq<Option<V>>) returns (p: nat)
    requires exists j :: 0 <= j < |inserts| && inserts[j].Some?
    ensures IsFirst(inserts, p)
  {
    p := 0;
    while inserts[p].None?
      invariant p < |inserts| && forall j :: 0 <= j < p ==> inserts[j].None?
      decreases |inserts| - p
    {
      if p == |inserts| - 1 {
        assert forall j :: 0 <= j < |inserts| ==> inserts[j].None?;
      }
      p := p + 1;
    }
  }

  lemma FirstWriterAgrees<V>(before: Option<V>, inserts: seq<Option<V>>, schedule: seq<nat>, k: nat)
    requires Complete(schedule, k, |inserts|)
    ensures FirstOutcome(before, Merged(inserts, schedule, k)) == FirstOutcome(before, inserts)
  {
    var merged := Merged(inserts, schedule, k);
    FirstOutcomeIs(before, inserts);
    FirstOutcomeIs(before, merged);
    if exists j :: 0 <= j < |inserts| && inserts[j].Some? {
      var p := FirstExists(inserts);
      var some := Delivers(schedule, 0, p);
      assert merged[some] == inserts[p];
      var i := FirstExists(merged);
      var earlier := Delivers(schedule, schedule[i], p);
      InOrder(schedule, earlier, i);
      InOrder(schedule, i, earlier);
      assert merged[earlier] == inserts[p];
      assert Position(schedule, i) == p;
    }
  }

  // ---- inserts that do nothing on conflict, and deletes ----------------------------------------

  /** An insert finds a row or puts its own; a delete clears it. */
  function ApplyNew<V>(before: Option<V>, e: Effect<V>): Option<V> {
    match e
    case Keep => before
    case Set(v) => if before.Some? then before else Some(v)
    case Clear => None
  }

  function NewOutcome<V>(before: Option<V>, effects: seq<Effect<V>>): Option<V> {
    if effects == [] then before
    else ApplyNew(NewOutcome(before, effects[..|effects| - 1]), effects[|effects| - 1])
  }

  ghost predicate IsLastClear<V>(effects: seq<Effect<V>>, p: nat) {
    p < |effects| && effects[p].Clear? && forall j :: p < j < |effects| ==> !effects[j].Clear?
  }

  /** Every insert after the last delete carries the same row; without a delete nothing is asked. */
  ghost predicate Steady<V>(effects: seq<Effect<V>>) {
    forall p: nat, i, j ::
      IsLastClear(effects, p) && p < i < |effects| && p < j < |effects| && effects[i].Set? && effects[j].Set?
      ==> effects[i] == effects[j]
  }

  function InsertOf<V>(e: Effect<V>): Option<V> {
    if e.Set? then Some(e.value) else None
  }

  function InsertsOf<V>(effects: seq<Effect<V>>): (r: seq<Option<V>>)
    ensures |r| == |effects| && forall i :: 0 <= i < |r| ==> r[i] == InsertOf(effects[i])
  {
    seq(|effects|, i requires 0 <= i < |effects| => InsertOf(effects[i]))
  }

  /** From a point on without deletes, only the first insert counts. */
  lemma {:induction false} NewOutcomeFrom<V>(before: Option<V>, effects: seq<Effect<V>>, m: nat)
    requires m <= |effects| && forall j :: m <= j < |effects| ==> !effects[j].Clear?
    ensures NewOutcome(before, effects) == FirstOutcome(NewOutcome(before, effects[..m]), InsertsOf(effects)[m..])
    decreases |effects| - m
  {
    var inserts := InsertsOf(effects)[m..];
    if m == |effects| {
      assert effects[..m] == effects;
    } else {
      var shorter := effects[..|effects| - 1];
      NewOutcomeFrom(before, shorter, m);
      assert shorter[..m] == effects[..m];
      assert inserts[..|inserts| - 1] == InsertsOf(shorter)[m..];
    }
  }

  lemma {:induction false} LastClearExists<V>(effects: seq<Effect<V>>) returns (p: nat)
    requires exists j :: 0 <= j < |effects| && effects[j].Clear?
    ensures IsLastClear(effects, p)
  {
    p := |effects| - 1;
    while !effects[p].Clear?
      invariant p < |effects| && forall j :: p < j < |effects| ==> !effects[j].Clear?
      decreases p
    {
      if p == 0 {
        assert forall j :: 0 <= j < |effects| ==> !effects[j].Clear?;
      }
      p := p - 1;
    }
  }

  /** After its last delete, a steady log leaves the one row inserted since, or nothing. */
  lemma SteadyOutcome<V>(before: Option<V>, effects: seq<Effect<V>>, p: nat)
    requires IsLastClear(effects, p)
    requires forall i, j ::
      p < i < |effects| && p < j < |effects| && effects[i].Set? && effects[j].Set? ==> effects[i] == effects[j]
    ensures (forall i :: p < i < |effects| ==> !effects[i].Set?) ==> NewOutcome(before, effects) == None
    ensures forall i :: p < i < |effects| && effects[i].Set? ==> NewOutcome(before, effects) == InsertOf(effects[i])
  {
    hide FirstOutcome, NewOutcome, ApplyNew;
    NewOutcomeFrom(before, effects, p + 1);
    ClearedAt(before, effects, p);
    var inserts := InsertsOf(effects)[p + 1..];
    assert forall k :: 0 <= k < |inserts| ==> inserts[k] == InsertOf(effects[p + 1 + k]);
    OneInsert(inserts);
    forall i | p < i < |effects| && effects[i].Set?
      ensures NewOutcome(before, effects) == InsertOf(effects[i])
    {
      assert inserts[i - p - 1].Some?;
    }
  }

  lemma ClearedAt<V>(before: Option<V>, effects: seq<Effect<V>>, p: nat)
    requires p < |effects| && effects[p].Clear?
    ensures NewOutcome(before, effects[..p + 1]) == None
  {
    assert effects[..p + 1][..p] == effects[..p];
  }

  /** Inserts that all carry the same row leave that row. */
  lemma OneInsert<V>(inserts: seq<Option<V>>)
    requires forall i, j ::
      0 <= i < |inserts| && 0 <= j < |inserts| && inserts[i].Some? && inserts[j].Some? ==> inserts[i] == inserts[j]
    ensures (forall i :: 0 <= i < |inserts| ==> inserts[i].None?) ==> FirstOutcome(None, inserts) == None
    ensures forall i :: 0 <= i < |inserts| && inserts[i].Some? ==> FirstOutcome(None, inserts) == inserts[i]
  {
    hide FirstOutcome;
    FirstOutcomeIs(None, inserts);
    if exists j :: 0 <= j < |inserts| && inserts[j].Some? {
      var f := FirstExists(inserts);
    }
  }

  /** What copies deliver after the last merged delete comes after the last delete of the log. */
  lemma AfterLastClear<V>(effects: seq<Effect<V>>, schedule: seq<nat>, k: nat, p: nat, m: nat)
    requires Complete(schedule, k, |effects|) && IsLastClear(effects, p)
    requires IsLastClear(Merged(effects, schedule, k), m)
    ensures Position(schedule, m) == p
    ensures forall i :: m < i < |schedule| ==> Position(schedule, i) > p
  {
    var merged := Merged(effects, schedule, k);
    var own := Delivers(schedule, schedule[m], p);
    assert merged[own].Clear?;
    InOrder(schedule, own, m);
    InOrder(schedule, m, own);
    assert own <= m;
    assert Position(schedule, m) <= p;
    forall i | m < i < |schedule|
      ensures Position(schedule, i) > p
    {
      var last := Delivers(schedule, schedule[i], p);
      assert merged[last].Clear?;
      InOrder(schedule, last, i);
    }
  }

  lemma SteadyAgrees<V>(before: Option<V>, effects: seq<Effect<V>>, schedule: seq<nat>, k: nat)
    requires Complete(schedule, k, |effects|) && Steady(effects)
    ensures NewOutcome(before, Merged(effects, schedule, k)) == NewOutcome(before, effects)
  {
    var merged := Merged(effects, schedule, k);
    if exists j :: 0 <= j < |effects| && effects[j].Clear? {
      var p := LastClearExists(effects);
      var some := Delivers(schedule, 0, p);
      assert merged[some].Clear?;
      var m := LastClearExists(merged);
      AfterLastClear(effects, schedule, k, p, m);
      SteadyOutcome(before, effects, p);
      SteadyOutcome(before, merged, m);
      if i :| p < i < |effects| && effects[i].Set? {
        var d := Delivers(schedule, schedule[m], i);
        InOrder(schedule, m, d);
        assert merged[d] == effects[i];
      } else {
        assert forall i :: m < i < |merged| ==> !merged[i].Set?;
      }
    } else {
      NeverCleared(before, effects, schedule, k);
    }
  }

  lemma NeverCleared<V>(before: Option<V>, effects: seq<Effect<V>>, schedule: seq<nat>, k: nat)
    requires Complete(schedule, k, |effects|) && forall j :: 0 <= j < |effects| ==> !effects[j].Clear?
    ensures NewOutcome(before, Merged(effects, schedule, k)) == NewOutcome(before, effects)
  {
    var merged := Merged(effects, schedule, k);
    NewOutcomeFrom(before, effects, 0);
    NewOutcomeFrom(before, merged, 0);
    assert InsertsOf(merged) == Merged(InsertsOf(effects), schedule, k);
    assert InsertsOf(effects)[0..] == InsertsOf(effects) && InsertsOf(merged)[0..] == InsertsOf(merged);
    FirstWriterAgrees(before, InsertsOf(effects), schedule, k);
  }

  predicate ClearedAfter<V>(effects: seq<Effect<V>>, q: nat) {
    exists d :: q < d < |effects| && effects[d].Clear?
  }

  /** p is the first insert since the last delete. */
  ghost predicate IsFirstSince<V>(effects: seq<Effect<V>>, p: nat) {
    && p < |effects| && effects[p].Set? && !ClearedAfter(effects, p)
    && forall q :: 0 <= q < p && effects[q].Set? ==> ClearedAfter(effects, q)
  }

  /** From nothing, what is left is the first insert since the last delete, if there is one. */
  lemma {:induction false} FirstSinceStands<V>(effects: seq<Effect<V>>)
    ensures NewOutcome(None, effects).None? <==>
      forall q :: 0 <= q < |effects| && effects[q].Set? ==> ClearedAfter(effects, q)
    ensures forall p: nat :: IsFirstSince(effects, p) ==> NewOutcome(None, effects) == InsertOf(effects[p])
    ensures NewOutcome(None, effects).Some? ==> exists p: nat :: IsFirstSince(effects, p)
  {
    if effects != [] {
      var n := |effects| - 1;
      var shorter := effects[..n];
      FirstSinceStands(shorter);
      forall q: nat
        ensures q <= n ==> (ClearedAfter(effects, q) <==> q < n && (ClearedAfter(shorter, q) || effects[n].Clear?))
        ensures IsFirstSince(effects, q) <==>
          if q < n then IsFirstSince(shorter, q) && !effects[n].Clear?
          else q == n && effects[n].Set? && NewOutcome(None, shorter).None?
      {
        if q <= n {
          ClearedLater(effects, q);
        }
        FirstSinceLater(effects, q);
      }
      hide ClearedAfter, IsFirstSince;
    }
  }

  lemma ClearedLater<V>(effects: seq<Effect<V>>, q: nat)
    requires effects != [] && q < |effects|
    ensures
      var n := |effects| - 1;
      ClearedAfter(effects, q) <==> q < n && (ClearedAfter(effects[..n], q) || effects[n].Clear?)
  {
    var n := |effects| - 1;
    if ClearedAfter(effects, q) {
      var d :| q < d < |effects| && effects[d].Clear?;
      assert d < n ==> effects[..n][d].Clear?;
    }
    if q < n && ClearedAfter(effects[..n], q) {
      var d :| q < d < n && effects[..n][d].Clear?;
      assert effects[d].Clear?;
    }
  }

  lemma FirstSinceLater<V>(effects: seq<Effect<V>>, p: nat)
    requires effects != []
    ensures
      var n := |effects| - 1;
      var allCleared := forall q :: 0 <= q < n && effects[q].Set? ==> ClearedAfter(effects[..n], q);
      IsFirstSince(effects, p) <==>
        if p < n then IsFirstSince(effects[..n], p) && !effects[n].Clear?
        else p == n && effects[n].Set? && allCleared
  {
    var n := |effects| - 1;
    forall q: nat | q <= n
      ensures ClearedAfter(effects, q) <==> q < n && (ClearedAfter(effects[..n], q) || effects[n].Clear?)
    {
      ClearedLater(effects, q);
    }
    hide ClearedAfter;
  }

  // ---- the interleaving that shows an unsteady log diverge -------------------------------------

  function Times(copy: nat, n: nat): (r: seq<nat>)
    ensures |r| == n && forall i :: 0 <= i < n ==> r[i] == copy
  {
    seq(n, _ => copy)
  }

  /** Copies from 2 up, one after the other. */
  function Others(k: nat, n: nat): (r: seq<nat>)
    ensures forall i :: 0 <= i < |r| ==> 2 <= r[i] < k
  {
    if k <= 2 then [] else Others(k - 1, n) + Times(k - 1, n)
  }

  /** Copy 0 stops short of q, copy 1 runs through p, copy 0 resumes. */
  function Diverging(k: nat, n: nat, p: nat, q: nat): seq<nat>
    requires p < q < n
  {
    Others(k, n) + Times(0, q) + Times(1, p + 1) + Times(0, n - q) + Times(1, n - p - 1)
  }

  lemma {:induction false} CountConcat(a: seq<nat>, b: seq<nat>, copy: nat)
    ensures Count(a + b, copy) == Count(a, copy) + Count(b, copy)
    decreases |b|
  {
    if b == [] {
      assert a + b == a;
    } else {
      CountConcat(a, b[..|b| - 1], copy);
      assert (a + b)[..|a + b| - 1] == a + b[..|b| - 1];
    }
  }

  lemma {:induction false} CountTimes(copy: nat, n: nat, other: nat)
    ensures Count(Times(copy, n), other) == if other == copy then n else 0
  {
    if n > 0 {
      CountTimes(copy, n - 1, other);
      assert Times(copy, n)[..n - 1] == Times(copy, n - 1);
    }
  }

  lemma {:induction false} CountOthers(k: nat, n: nat, copy: nat)
    ensures Count(Others(k, n), copy) == if 2 <= copy < k then n else 0
  {
    if k > 2 {
      CountOthers(k - 1, n, copy);
      CountConcat(Others(k - 1, n), Times(k - 1, n), copy);
      CountTimes(k - 1, n, copy);
    }
  }

  lemma CountParts(a: seq<nat>, b: seq<nat>, c: seq<nat>, d: seq<nat>, e: seq<nat>, copy: nat)
    ensures Count(a + b + c + d + e, copy)
      == Count(a, copy) + Count(b, copy) + Count(c, copy) + Count(d, copy) + Count(e, copy)
  {
    CountConcat(a + b + c + d, e, copy);
    CountConcat(a + b + c, d, copy);
    CountConcat(a + b, c, copy);
    CountConcat(a, b, copy);
  }

  lemma DivergingIsComplete(k: nat, n: nat, p: nat, q: nat)
    requires k >= 2 && p < q < n
    ensures Complete(Diverging(k, n, p, q), k, n)
  {
    forall copy: nat | copy < k
      ensures Count(Diverging(k, n, p, q), copy) == n
    {
      CountParts(Others(k, n), Times(0, q), Times(1, p + 1), Times(0, n - q), Times(1, n - p - 1), copy);
      CountOthers(k, n, copy);
      CountTimes(0, q, copy);
      CountTimes(1, p + 1, copy);
      CountTimes(0, n - q, copy);
      CountTimes(1, n - p - 1, copy);
    }
  }

  /** Copy 1's delete of p is followed by copy 0's insert of q; everything later lies past p. */
  lemma DivergingOrder(k: nat, n: nat, p: nat, q: nat)
    requires k >= 2 && p < q < n
    ensures
      var (s, m) := (Diverging(k, n, p, q), |Others(k, n)| + q + p + 1);
      && 0 < m < |s|
      && s[m - 1] == 1 && Position(s, m - 1) == p && s[m] == 0 && Position(s, m) == q
      && forall j :: m < j < |s| ==> Position(s, j) > p
  {
    hide Diverging, Others, Times, Count;
    var s, m := Diverging(k, n, p, q), |Others(k, n)| + q + p + 1;
    DivergingShape(k, n, p, q);
    CountHead(k, n, q, p, 1);
    CountHead(k, n, q, p + 1, 0);
    forall j | m < j < |s|
      ensures Position(s, j) > p
    {
      InOrder(s, if s[j] == 0 then m else m - 1, j);
    }
  }

  /** The part up to copy 1's delete, and the part from copy 0's insert on. */
  lemma DivergingShape(k: nat, n: nat, p: nat, q: nat)
    requires p < q < n
    ensures
      var (s, m) := (Diverging(k, n, p, q), |Others(k, n)| + q + p + 1);
      && 0 < m < |s|
      && s[m - 1] == 1 && s[m] == 0 && (forall j :: m < j < |s| ==> s[j] < 2)
      && s[..m - 1] == Others(k, n) + Times(0, q) + Times(1, p)
      && s[..m] == Others(k, n) + Times(0, q) + Times(1, p + 1)
  {
    hide Others;
    var s, m := Diverging(k, n, p, q), |Others(k, n)| + q + p + 1;
    var head, tail := Others(k, n) + Times(0, q), Times(0, n - q) + Times(1, n - p - 1);
    assert s == head + Times(1, p + 1) + tail;
    assert Times(1, p + 1) == Times(1, p) + [1];
    hide Times, Diverging;
    assert |head + Times(1, p + 1)| == m;
    assert s[m - 1] == (head + Times(1, p + 1))[m - 1] == 1;
    assert s[..m] == head + Times(1, p + 1);
    assert s[..m - 1] == head + Times(1, p);
    forall j | m <= j < |s|
      ensures s[j] == tail[j - m] && s[j] < 2
    {
    }
  }

  lemma CountHead(k: nat, n: nat, q: nat, p: nat, copy: nat)
    requires copy < 2
    ensures Count(Others(k, n) + Times(0, q) + Times(1, p), copy) == if copy == 0 then q else p
  {
    hide Others, Times;
    CountConcat(Others(k, n) + Times(0, q), Times(1, p), copy);
    CountConcat(Others(k, n), Times(0, q), copy);
    CountOthers(k, n, copy);
    CountTimes(0, q, copy);
    CountTimes(1, p, copy);
  }

  /** The delete, then that insert: the insert's row stays. */
  lemma DivergingOutcome<V>(before: Option<V>, effects: seq<Effect<V>>, k: nat, p: nat, q: nat)
    requires k >= 2 && IsLastClear(effects, p) && p < q < |effects| && effects[q].Set?
    ensures Complete(Diverging(k, |effects|, p, q), k, |effects|)
    ensures NewOutcome(before, Merged(effects, Diverging(k, |effects|, p, q), k)) == InsertOf(effects[q])
  {
    hide Diverging, Others, Complete, FirstOutcome, Position;
    DivergingIsComplete(k, |effects|, p, q);
    DivergingOrder(k, |effects|, p, q);
    var s, m := Diverging(k, |effects|, p, q), |Others(k, |effects|)| + q + p + 1;
    var merged := Merged(effects, s, k);
    assert merged[m - 1] == effects[p] && merged[m] == effects[q];
    assert merged[..m][..m - 1] == merged[..m - 1];
    assert NewOutcome(before, merged[..m]) == None;
    NewOutcomeFrom(before, merged, m);
    var inserts := InsertsOf(merged)[m..];
    FirstOutcomeIs(None, inserts);
    assert IsFirst(inserts, 0);
  }

  /** The log's own first insert after its last delete, against a different one. */
  lemma UnsteadyDiverges<V>(before: Option<V>, effects: seq<Effect<V>>, k: nat) returns (p: nat, q: nat)
    requires k >= 2 && !Steady(effects)
    ensures IsLastClear(effects, p) && p < q < |effects| && effects[q].Set?
    ensures Complete(Diverging(k, |effects|, p, q), k, |effects|)
    ensures NewOutcome(before, Merged(effects, Diverging(k, |effects|, p, q), k)) != NewOutcome(before, effects)
  {
    var c: nat, i, j :| IsLastClear(effects, c) && c < i < |effects| && c < j < |effects|
      && effects[i].Set? && effects[j].Set? && effects[i] != effects[j];
    p := c;
    q := if NewOutcome(before, effects) == InsertOf(effects[i]) then j else i;
    DivergingOutcome(before, effects, k, p, q);
  }

  /**
    Under a key written by inserts and deletes, every interleaving of two or more copies leaves what one copy
    leaves, if and only if the inserts after the log's last delete all carry the same row, or nothing is deleted.
   */
  lemma InsertsAgreeExactly<V>(before: Option<V>, effects: seq<Effect<V>>, k: nat)
    requires k >= 2
    ensures Steady(effects) <==>
      forall schedule :: Complete(schedule, k, |effects|) ==>
        NewOutcome(before, Merged(effects, schedule, k)) == NewOutcome(before, effects)
  {
    if Steady(effects) {
      forall schedule | Complete(schedule, k, |effects|)
        ensures NewOutcome(before, Merged(effects, schedule, k)) == NewOutcome(before, effects)
      {
        SteadyAgrees(before, effects, schedule, k);
      }
    } else {
      var p, q := UnsteadyDiverges(before, effects, k);
    }
  }
}
