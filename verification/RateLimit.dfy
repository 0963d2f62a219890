/** The media proxy's fixed-window rate limiter: counters keyed by `key:windowEnd`, swept in the background. */
module RateLimit {
  datatype Decision = Allowed(remaining: int) | Limited(retryAfter: int)

  // ---- slot names ------------------------------------------------------------------------------

  function Digit(d: nat): char
    requires d < 10
  {
    "0123456789"[d]
  }

  predicate IsDigit(c: char) {
    '0' <= c <= '9'
  }

  function DigitValue(c: char): nat
    requires IsDigit(c)
  {
    c as int - '0' as int
  }

  /** A number in a template literal. */
  function Decimal(n: nat): (s: string)
    ensures s != [] && forall i :: 0 <= i < |s| ==> IsDigit(s[i])
  {
    if n < 10 then [Digit(n)] else Decimal(n / 10) + [Digit(n % 10)]
  }

  /** Number(s) on a string of digits. */
  function Number(s: string): nat
    requires forall i :: 0 <= i < |s| ==> IsDigit(s[i])
  {
    if s == [] then 0 else 10 * Number(s[..|s| - 1]) + DigitValue(s[|s| - 1])
  }

  function LastIndexOfColon(s: string): int {
    if s == [] then -1 else if s[|s| - 1] == ':' then |s| - 1 else LastIndexOfColon(s[..|s| - 1])
  }

  function Slot(key: string, windowEnd: nat): string {
    key + ":" + Decimal(windowEnd)
  }

  /** What sweep reads off a slot name. */
  predicate IsSlot(slot: string) {
    var i := LastIndexOfColon(slot);
    0 <= i < |slot| && forall k :: i + 1 <= k < |slot| ==> IsDigit(slot[k])
  }

  function SlotEnd(slot: string): nat
    requires IsSlot(slot)
  {
    Number(slot[LastIndexOfColon(slot) + 1..])
  }

  lemma {:induction false} NumberOfDecimal(n: nat)
    ensures Number(Decimal(n)) == n
  {
    if n >= 10 {
      NumberOfDecimal(n / 10);
      assert Decimal(n)[..|Decimal(n)| - 1] == Decimal(n / 10);
    }
  }

  lemma {:induction false} LastColonOf(key: string, digits: string)
    requires forall i :: 0 <= i < |digits| ==> IsDigit(digits[i])
    ensures LastIndexOfColon(key + ":" + digits) == |key|
  {
    var s := key + ":" + digits;
    if digits == [] {
      assert s[|s| - 1] == ':';
    } else {
      LastColonOf(key, digits[..|digits| - 1]);
      assert s[..|s| - 1] == key + ":" + digits[..|digits| - 1];
      assert s[|s| - 1] == digits[|digits| - 1];
    }
  }

  /** Printing and parsing a slot undo each other, whatever colons the key contains. */
  lemma SlotRoundTrip(key: string, windowEnd: nat)
    ensures
      var slot := Slot(key, windowEnd);
      IsSlot(slot) && SlotEnd(slot) == windowEnd && slot[..LastIndexOfColon(slot)] == key
  {
    LastColonOf(key, Decimal(windowEnd));
    NumberOfDecimal(windowEnd);
    var slot := Slot(key, windowEnd);
    assert slot[|key| + 1..] == Decimal(windowEnd);
  }

  lemma SlotInjective(key: string, windowEnd: nat, key': string, windowEnd': nat)
    requires Slot(key, windowEnd) == Slot(key', windowEnd')
    ensures key == key' && windowEnd == windowEnd'
  {
    SlotRoundTrip(key, windowEnd);
    SlotRoundTrip(key', windowEnd');
  }

  // ---- windows ---------------------------------------------------------------------------------

  /** Clock readings are milliseconds; windows are whole seconds. */
  function Seconds(ms: nat): nat {
    ms / 1000
  }

  function WindowEnd(now: nat, window: nat): nat
    requires window > 0
  {
    (now / window + 1) * window
  }

  lemma WindowEndIsAhead(now: nat, window: nat)
    requires window > 0
    ensures now < WindowEnd(now, window) <= now + window
  {
    assert now == now / window * window + now % window;
    assert (now / window + 1) * window == now / window * window + window;
  }

  lemma {:induction false} QuotientIs(n: nat, d: nat, q: nat)
    requires d > 0 && q * d <= n < q * d + d
    ensures n / d == q
  {
    assert n == n / d * d + n % d;
    MulGrows(n / d, q, d);
    MulGrows(q, n / d, d);
  }

  lemma {:induction false} MulGrows(a: nat, b: nat, d: nat)
    ensures a < b ==> a * d + d <= b * d
  {
    if a < b {
      MulGrows(a, b - 1, d);
      assert b * d == (b - 1) * d + d;
    }
  }

  /** An interval one window long touches at most two windows. */
  lemma TwoWindows(from: nat, now: nat, window: nat)
    requires window > 0 && from <= now <= from + window
    ensures
      WindowEnd(now, window) == WindowEnd(from, window) || WindowEnd(now, window) == WindowEnd(from, window) + window
  {
    var q := from / window;
    assert from == q * window + from % window;
    assert (q + 1) * window == q * window + window && (q + 2) * window == q * window + 2 * window;
    if now < q * window + window {
      QuotientIs(now, window, q);
    } else {
      QuotientIs(now, window, q + 1);
    }
  }

  /** The end, in seconds, of the window a reading of the millisecond clock falls in. */
  function WindowOf(at: nat, window: nat): nat
    requires window > 0
  {
    (at / (1000 * window) + 1) * window
  }

  /** In milliseconds: the window contains the reading, and is as long as it says. */
  lemma WindowInMs(at: nat, window: nat)
    requires window > 0
    ensures WindowEnd(Seconds(at), window) == WindowOf(at, window)
    ensures 1000 * (WindowOf(at, window) - window) <= at < 1000 * WindowOf(at, window)
  {
    var q := Seconds(at) / window;
    assert Seconds(at) == q * window + Seconds(at) % window;
    assert (q + 1) * window == q * window + window;
    assert q * (1000 * window) == 1000 * (q * window);
    QuotientIs(at, 1000 * window, q);
  }

  /** Two readings share a window exactly when no multiple of its length lies between them, so they are close. */
  lemma SharedWindow(at: nat, later: nat, window: nat)
    requires window > 0 && at <= later && WindowOf(at, window) == WindowOf(later, window)
    ensures later - at < 1000 * window
  {
    WindowInMs(at, window);
    WindowInMs(later, window);
  }

  /**
    What a decision must be after `earlier` requests of the key in the window: allowed with so many left, or sent
    off for the fewest whole seconds that end past the window.
   */
  ghost predicate Answers(d: Decision, limit: int, earlier: nat, window: nat, at: nat)
    requires window > 0
  {
    if earlier < limit then d == Allowed(limit - earlier - 1)
    else d.Limited? && 1000 * WindowOf(at, window) <= at + 1000 * d.retryAfter < 1000 * WindowOf(at, window) + 1000
  }

  // ---- the limiter -----------------------------------------------------------------------------

  function Get(counters: map<string, nat>, slot: string): nat {
    if slot in counters then counters[slot] else 0
  }

  function Decide(count: int, limit: int, wait: int): Decision {
    if count <= limit then Allowed(limit - count) else Limited(wait)
  }

  /** Entries whose window has not ended. */
  function Swept(counters: map<string, nat>, now: nat): map<string, nat>
    requires forall slot :: slot in counters ==> IsSlot(slot)
  {
    map slot | slot in counters && SlotEnd(slot) >= now :: counters[slot]
  }

  class RateLimiter {
    var counters: map<string, nat>

    ghost predicate Valid()
      reads this
    {
      forall slot :: slot in counters ==> IsSlot(slot)
    }

    constructor ()
      ensures Valid() && counters == map[]
    {
      counters := map[];
    }

    method Check(key: string, limit: int, windowSeconds: nat, dateNow: nat) returns (d: Decision)
      requires Valid() && windowSeconds > 0
      modifies this
      ensures Valid()
      ensures
        var now := Seconds(dateNow);
        var end := WindowEnd(now, windowSeconds);
        var count := Get(old(counters), Slot(key, end)) + 1;
        counters == old(counters)[Slot(key, end) := count] && d == Decide(count, limit, end - now)
      ensures Answers(d, limit, Get(old(counters), Slot(key, WindowOf(dateNow, windowSeconds))), windowSeconds, dateNow)
    {
      hide Slot, IsSlot, SlotEnd, LastIndexOfColon;
      var now := dateNow / 1000;
      var windowEnd := (now / windowSeconds + 1) * windowSeconds;
      assert windowEnd == WindowEnd(Seconds(dateNow), windowSeconds);
      hide WindowEnd;
      var slot := Slot(key, windowEnd);
      SlotRoundTrip(key, windowEnd);
      var count := Get(counters, slot) + 1;
      counters := counters[slot := count];
      WindowInMs(dateNow, windowSeconds);
      if count <= limit {
        return Allowed(limit - count);
      }
      return Limited(windowEnd - now);
    }

    method Sweep(dateNow: nat)
      requires Valid()
      modifies this
      ensures Valid() && counters == Swept(old(counters), Seconds(dateNow))
      ensures forall slot :: slot in counters <==> slot in old(counters) && dateNow < 1000 * SlotEnd(slot) + 1000
    {
      var now := dateNow / 1000;
      var todo := counters.Keys;
      while todo != {}
        invariant todo <= counters.Keys <= old(counters).Keys
        invariant counters ==
          map slot | slot in old(counters) && (slot in todo || SlotEnd(slot) >= now) :: old(counters)[slot]
        decreases todo
      {
        var slot :| slot in todo;
        if SlotEnd(slot) < now {
          counters := counters - {slot};
        }
        todo := todo - {slot};
      }
    }
  }

  // ---- runs ------------------------------------------------------------------------------------

  datatype Op = Request(key: string, at: nat) | SweepAt(at: nat)

  datatype Answer = Silent | Answered(decision: Decision)

  /** What the limiter answers along a run. */
  ghost function Decisions(counters: map<string, nat>, limit: int, window: nat, ops: seq<Op>): (r: seq<Answer>)
    requires window > 0
    requires forall slot :: slot in counters ==> IsSlot(slot)
    decreases |ops|
  {
    if ops == [] then []
    else
      var now := Seconds(ops[0].at);
      match ops[0]
      case SweepAt(_) => [Silent] + Decisions(Swept(counters, now), limit, window, ops[1..])
      case Request(key, _) =>
        var end := WindowEnd(now, window);
        var count := Get(counters, Slot(key, end)) + 1;
        SlotRoundTrip(key, end);
        [Answered(Decide(count, limit, end - now))]
        + Decisions(counters[Slot(key, end) := count], limit, window, ops[1..])
  }

  predicate Counts(op: Op, key: string, end: nat, window: nat)
    requires window > 0
  {
    op.Request? && op.key == key && WindowEnd(Seconds(op.at), window) == end
  }

  /** How many requests of `past` fall in a key's window. */
  function Requests(past: seq<Op>, key: string, end: nat, window: nat): nat
    requires window > 0
  {
    if past == [] then 0
    else Requests(past[..|past| - 1], key, end, window) + if Counts(past[|past| - 1], key, end, window) then 1 else 0
  }

  /** The specification: count every earlier request of the same key and window; sweeps do not exist. */
  function Specified(past: seq<Op>, limit: int, window: nat, ops: seq<Op>): (r: seq<Answer>)
    requires window > 0
    ensures |r| == |ops|
    decreases |ops|
  {
    if ops == [] then []
    else
      var now := Seconds(ops[0].at);
      var end := WindowEnd(now, window);
      [if ops[0].SweepAt? then Silent
       else Answered(Decide(Requests(past, ops[0].key, end, window) + 1, limit, end - now))]
      + Specified(past + [ops[0]], limit, window, ops[1..])
  }

  predicate ClockFrom(start: nat, ops: seq<Op>) {
    (forall i :: 0 <= i < |ops| ==> start <= ops[i].at)
    && forall i, j :: 0 <= i < j < |ops| ==> ops[i].at <= ops[j].at
  }

  /** The counters of windows still open are the request counts. */
  ghost predicate InStep(counters: map<string, nat>, past: seq<Op>, window: nat, clock: nat)
    requires window > 0
  {
    && (forall slot :: slot in counters ==> IsSlot(slot))
    && forall key, end: nat ::
         end > Seconds(clock) ==> Get(counters, Slot(key, end)) == Requests(past, key, end, window)
  }

  /** On any run with a clock that never goes back, sweeping anywhere changes no decision. */
  lemma {:induction false} SweepsChangeNothing(
    counters: map<string, nat>, past: seq<Op>, limit: int, window: nat, ops: seq<Op>, clock: nat)
    requires window > 0 && InStep(counters, past, window, clock) && ClockFrom(clock, ops)
    ensures Decisions(counters, limit, window, ops) == Specified(past, limit, window, ops)
    decreases |ops|
  {
    if ops != [] {
      var op, rest := ops[0], ops[1..];
      if op.SweepAt? {
        SweepInStep(counters, past, window, clock, op);
        SweepsChangeNothing(Swept(counters, Seconds(op.at)), past + [op], limit, window, rest, op.at);
      } else {
        WindowEndIsAhead(Seconds(op.at), window);
        RequestInStep(counters, past, window, clock, op);
        var end := WindowEnd(Seconds(op.at), window);
        assert Get(counters, Slot(op.key, end)) == Requests(past, op.key, end, window);
        hide InStep, WindowEnd, Slot, Requests, Decide;
        SweepsChangeNothing(Counted(counters, op, window), past + [op], limit, window, rest, op.at);
      }
    }
  }

  function Counted(counters: map<string, nat>, op: Op, window: nat): map<string, nat>
    requires window > 0 && op.Request?
  {
    var slot := Slot(op.key, WindowEnd(Seconds(op.at), window));
    counters[slot := Get(counters, slot) + 1]
  }

  lemma SweepInStep(counters: map<string, nat>, past: seq<Op>, window: nat, clock: nat, op: Op)
    requires window > 0 && InStep(counters, past, window, clock) && op.SweepAt? && clock <= op.at
    ensures InStep(Swept(counters, Seconds(op.at)), past + [op], window, op.at)
  {
    var swept := Swept(counters, Seconds(op.at));
    forall key, end: nat | end > Seconds(op.at)
      ensures Get(swept, Slot(key, end)) == Requests(past + [op], key, end, window)
    {
      SlotRoundTrip(key, end);
      assert Get(counters, Slot(key, end)) == Requests(past, key, end, window);
      assert (past + [op])[..|past|] == past;
    }
  }

  lemma RequestInStep(counters: map<string, nat>, past: seq<Op>, window: nat, clock: nat, op: Op)
    requires window > 0 && InStep(counters, past, window, clock) && op.Request? && clock <= op.at
    ensures InStep(Counted(counters, op, window), past + [op], window, op.at)
  {
    var now := WindowEnd(Seconds(op.at), window);
    var next := Counted(counters, op, window);
    SlotRoundTrip(op.key, now);
    forall key, end: nat | end > Seconds(op.at)
      ensures Get(next, Slot(key, end)) == Requests(past + [op], key, end, window)
    {
      assert Get(counters, Slot(key, end)) == Requests(past, key, end, window);
      assert (past + [op])[..|past|] == past;
      if Slot(key, end) == Slot(op.key, now) {
        SlotInjective(key, end, op.key, now);
      }
    }
  }

  // ---- the rate bound --------------------------------------------------------------------------

  predicate IsAllowed(a: Answer) {
    a.Answered? && a.decision.Allowed?
  }

  /** Allowed requests of one key in one window. */
  function AllowedInWindow(ops: seq<Op>, answers: seq<Answer>, key: string, end: nat, window: nat): nat
    requires window > 0 && |ops| == |answers|
    decreases |ops|
  {
    if ops == [] then 0
    else
      (if Counts(ops[0], key, end, window) && IsAllowed(answers[0]) then 1 else 0)
      + AllowedInWindow(ops[1..], answers[1..], key, end, window)
  }

  /** Allowed requests of one key at clock readings from `from` to `to` milliseconds. */
  function AllowedBetween(ops: seq<Op>, answers: seq<Answer>, key: string, from: nat, to: nat): nat
    requires |ops| == |answers|
    decreases |ops|
  {
    if ops == [] then 0
    else
      (if ops[0].Request? && ops[0].key == key && from <= ops[0].at <= to && IsAllowed(answers[0]) then 1 else 0)
      + AllowedBetween(ops[1..], answers[1..], key, from, to)
  }

  function Min(a: int, b: int): int {
    if a < b then a else b
  }

  /** In every window a key gets exactly its first `limit` requests. */
  lemma {:induction false} WindowIsExact(past: seq<Op>, limit: nat, window: nat, ops: seq<Op>, key: string, end: nat)
    requires window > 0
    ensures
      AllowedInWindow(ops, Specified(past, limit, window, ops), key, end, window)
        == Min(limit, Requests(past + ops, key, end, window)) - Min(limit, Requests(past, key, end, window))
    decreases |ops|
  {
    if ops == [] {
      assert past + ops == past;
    } else {
      WindowIsExact(past + [ops[0]], limit, window, ops[1..], key, end);
      assert (past + [ops[0]]) + ops[1..] == past + ops;
      assert (past + [ops[0]])[..|past|] == past;
      assert Specified(past, limit, window, ops)[1..] == Specified(past + [ops[0]], limit, window, ops[1..]);
    }
  }

  lemma {:induction false} IntervalIsTwoWindows(ops: seq<Op>, answers: seq<Answer>, window: nat, key: string, from: nat)
    requires window > 0 && |ops| == |answers|
    ensures
      var end := WindowEnd(Seconds(from), window);
      AllowedBetween(ops, answers, key, from, from + 1000 * window)
        <= AllowedInWindow(ops, answers, key, end, window) + AllowedInWindow(ops, answers, key, end + window, window)
    decreases |ops|
  {
    if ops != [] {
      IntervalIsTwoWindows(ops[1..], answers[1..], window, key, from);
      if from <= ops[0].at <= from + 1000 * window {
        SecondsApart(from, ops[0].at, window);
        TwoWindows(Seconds(from), Seconds(ops[0].at), window);
      }
    }
  }

  /**
    Along any run with a clock that never goes back, a key is allowed at most `limit` requests in a window, and at
    most twice that in any interval one window long, wherever the sweeps fall.
   */
  lemma RateBound(limit: nat, window: nat, ops: seq<Op>, key: string, end: nat, from: nat)
    requires window > 0 && ClockFrom(0, ops)
    ensures
      var answers := Decisions(map[], limit, window, ops);
      && |answers| == |ops|
      && AllowedInWindow(ops, answers, key, end, window) == Min(limit, Requests(ops, key, end, window))
      && AllowedBetween(ops, answers, key, from, from + 1000 * window) <= 2 * limit
  {
    SweepsChangeNothing(map[], [], limit, window, ops, 0);
    var answers := Specified([], limit, window, ops);
    assert [] + ops == ops;
    WindowIsExact([], limit, window, ops, key, end);
    var first := WindowEnd(Seconds(from), window);
    WindowIsExact([], limit, window, ops, key, first);
    WindowIsExact([], limit, window, ops, key, first + window);
    IntervalIsTwoWindows(ops, answers, window, key, from);
  }

  lemma SecondsApart(from: nat, at: nat, window: nat)
    requires from <= at <= from + 1000 * window
    ensures Seconds(from) <= Seconds(at) <= Seconds(from) + window
  {
  }

  // ---- in milliseconds -------------------------------------------------------------------------------

  /** Requests of a key at clock readings from `from` up to, and without, `to` milliseconds. */
  function RequestsBetween(ops: seq<Op>, key: string, from: int, to: int): nat {
    if ops == [] then 0
    else
      var last := ops[|ops| - 1];
      RequestsBetween(ops[..|ops| - 1], key, from, to)
      + if last.Request? && last.key == key && from <= last.at < to then 1 else 0
  }

  lemma {:induction false} RequestsInMs(ops: seq<Op>, key: string, at: nat, window: nat)
    requires window > 0
    ensures
      var end := WindowOf(at, window);
      Requests(ops, key, end, window) == RequestsBetween(ops, key, 1000 * (end - window), 1000 * end)
  {
    if ops != [] {
      RequestsInMs(ops[..|ops| - 1], key, at, window);
      var last := ops[|ops| - 1];
      WindowInMs(at, window);
      WindowInMs(last.at, window);
      SameWindow(last.at, at, window);
    }
  }

  lemma SameWindow(a: nat, b: nat, window: nat)
    requires window > 0
    ensures WindowOf(a, window) == WindowOf(b, window) <==>
      1000 * (WindowOf(b, window) - window) <= a < 1000 * WindowOf(b, window)
  {
    hide WindowOf, WindowEnd, Seconds;
    WindowInMs(a, window);
    WindowInMs(b, window);
    WindowsApart(a, b, window);
  }

  /** Different windows do not overlap. */
  lemma WindowsApart(a: nat, b: nat, window: nat)
    requires window > 0
    ensures
      || WindowOf(a, window) == WindowOf(b, window)
      || WindowOf(a, window) <= WindowOf(b, window) - window
      || WindowOf(b, window) <= WindowOf(a, window) - window
  {
    var p, q := a / (1000 * window), b / (1000 * window);
    MulGrows(p + 1, q + 1, window);
    MulGrows(q + 1, p + 1, window);
  }

  lemma {:induction false} SpecifiedAt(past: seq<Op>, limit: int, window: nat, ops: seq<Op>, k: nat)
    requires window > 0 && k < |ops| && ops[k].Request?
    ensures
      var now := Seconds(ops[k].at);
      var end := WindowEnd(now, window);
      Specified(past, limit, window, ops)[k]
        == Answered(Decide(Requests(past + ops[..k], ops[k].key, end, window) + 1, limit, end - now))
    decreases k
  {
    if k == 0 {
      assert past + ops[..0] == past;
    } else {
      SpecifiedAt(past + [ops[0]], limit, window, ops[1..], k - 1);
      assert (past + [ops[0]]) + ops[1..][..k - 1] == past + ops[..k];
    }
  }

  /**
    Every request of a run, wherever the sweeps fall, is answered by the number of earlier requests of its key in
    its window of `window` seconds, counted on the millisecond clock.
   */
  lemma DecidedInMs(limit: int, window: nat, ops: seq<Op>, k: nat)
    requires window > 0 && ClockFrom(0, ops) && k < |ops| && ops[k].Request?
    ensures
      var answers := Decisions(map[], limit, window, ops);
      var end := WindowOf(ops[k].at, window);
      var earlier := RequestsBetween(ops[..k], ops[k].key, 1000 * (end - window), 1000 * end);
      |answers| == |ops| && answers[k].Answered? && Answers(answers[k].decision, limit, earlier, window, ops[k].at)
  {
    hide Specified, Decisions, Requests, RequestsBetween, WindowEnd, WindowOf, ClockFrom;
    FreshInStep(window);
    SweepsChangeNothing(map[], [], limit, window, ops, 0);
    SpecifiedAt([], limit, window, ops, k);
    assert [] + ops[..k] == ops[..k];
    WindowInMs(ops[k].at, window);
    RequestsInMs(ops[..k], ops[k].key, ops[k].at, window);
  }

  lemma FreshInStep(window: nat)
    requires window > 0
    ensures InStep(map[], [], window, 0)
  {
  }

  /** A key that has kept away for the length of a window is allowed, with one request used. */
  lemma AloneIsAllowed(limit: int, window: nat, ops: seq<Op>, k: nat)
    requires window > 0 && limit >= 1 && ClockFrom(0, ops) && k < |ops| && ops[k].Request?
    requires forall j :: 0 <= j < k && ops[j].Request? && ops[j].key == ops[k].key ==>
      ops[k].at - ops[j].at >= 1000 * window
    ensures
      var answers := Decisions(map[], limit, window, ops);
      |answers| == |ops| && answers[k] == Answered(Allowed(limit - 1))
  {
    DecidedInMs(limit, window, ops, k);
    var end := WindowOf(ops[k].at, window);
    WindowInMs(ops[k].at, window);
    NoneBetween(ops[..k], ops[k].key, 1000 * (end - window), 1000 * end);
  }

  lemma {:induction false} NoneBetween(ops: seq<Op>, key: string, from: int, to: int)
    requires forall j :: 0 <= j < |ops| && ops[j].Request? && ops[j].key == key ==> !(from <= ops[j].at < to)
    ensures RequestsBetween(ops, key, from, to) == 0
  {
    if ops != [] {
      NoneBetween(ops[..|ops| - 1], key, from, to);
    }
  }
}
