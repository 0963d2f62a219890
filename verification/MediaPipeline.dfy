/** The title lookup end to end: response head, chunked framing, ICY blocks. */
module MediaPipeline {
  import opened Basics
  import opened Bytes
  import opened ChunkedDecoding
  import opened ChunkedEncoding
  import opened ChunkedPrinting
  import opened UpstreamBody
  import opened IcyBlocks
  import opened IcyTitleScan

  /** What the reader concludes from the body's segments; the first one is the head's leftover. */
  function ScanSegments(metaint: nat, chunked: bool, segments: seq<seq<Byte>>): Verdict
    requires segments != []
  {
    var payloads := if chunked then ReceiveAll(START, segments).1 else segments;
    ObserveAll(metaint, Cap(metaint), Judge(metaint, Cap(metaint), payloads[0]), payloads[1..])
  }

  /** The reader fed a body's segments until it finishes concludes exactly that. */
  method ScanTitle(metaint: nat, chunked: bool, segments: seq<seq<Byte>>) returns (scan: TitleScan)
    requires segments != []
    ensures fresh(scan) && scan.Valid() && scan.Verdict() == ScanSegments(metaint, chunked, segments)
  {
    hide Judge, Receive, Observe, Turn, FirstBlock, Residue;
    scan := new TitleScan(metaint, Cap(metaint), segments[0], chunked);
    ghost var payloads := if chunked then ReceiveAll(START, segments).1 else segments;
    var i := 1;
    while i < |segments| && !scan.done
      invariant 1 <= i <= |segments| == |payloads|
      invariant fresh(scan) && scan.Valid() && scan.metaint == metaint && scan.cap == Cap(metaint)
      invariant if chunked then scan.decoder != null && fresh(scan.decoder) else scan.decoder == null
      invariant ObserveAll(metaint, scan.cap, scan.Verdict(), payloads[i..]) == ScanSegments(metaint, chunked, segments)
      invariant chunked && !scan.done ==>
        scan.decoder.Valid() && ReceiveAll(scan.decoder.Model(), segments[i..]).1 == payloads[i..]
    {
      hide ReceiveAll, ObserveAll, ScanSegments;
      if chunked {
        ReceiveAllStep(scan.decoder.Model(), segments, i, payloads);
      }
      ObserveAllStep(metaint, scan.cap, scan.Verdict(), payloads, i);
      scan.OnData(segments[i]);
      i := i + 1;
    }
    if scan.done {
      DecidedStays(metaint, scan.cap, scan.Verdict(), payloads[i..]);
    }
  }

  lemma ReceiveAllStep(d: Framing, segments: seq<seq<Byte>>, i: nat, payloads: seq<seq<Byte>>)
    requires d.Valid() && i < |segments| == |payloads| && ReceiveAll(d, segments[i..]).1 == payloads[i..]
    ensures Receive(d, segments[i]).payload == payloads[i]
    ensures Receive(d, segments[i]).framing.Valid()
    ensures ReceiveAll(Receive(d, segments[i]).framing, segments[i + 1..]).1 == payloads[i + 1..]
  {
    hide Drain, Turn;
    assert segments[i..][0] == segments[i] && segments[i..][1..] == segments[i + 1..];
    assert payloads[i..][0] == payloads[i] && payloads[i..][1..] == payloads[i + 1..];
  }

  lemma ObserveAllStep(metaint: nat, cap: nat, v: Verdict, payloads: seq<seq<Byte>>, i: nat)
    requires i < |payloads|
    ensures
      ObserveAll(metaint, cap, v, payloads[i..])
        == ObserveAll(metaint, cap, Observe(metaint, cap, v, payloads[i]), payloads[i + 1..])
  {
    hide Observe;
    assert payloads[i..][0] == payloads[i] && payloads[i..][1..] == payloads[i + 1..];
  }

  /** Position of the cut that completes the first block, counted in decoded bytes. */
  function DecodedWhenComplete(metaint: nat, payloads: seq<seq<Byte>>): nat
    requires FirstBlock(Join(payloads), metaint).Some?
  {
    SeenAt(0, payloads, BlockEnd(Join(payloads), metaint))
  }

  /** Judging the first payload is observing it with nothing seen before. */
  lemma ScanFromNothing(metaint: nat, payloads: seq<seq<Byte>>)
    requires payloads != []
    ensures Undecided(metaint, Cap(metaint), [])
    ensures
      ObserveAll(metaint, Cap(metaint), Judge(metaint, Cap(metaint), payloads[0]), payloads[1..])
        == ObserveAll(metaint, Cap(metaint), Waiting([]), payloads)
  {
    assert [] + payloads[0] == payloads[0];
  }

  /** On a plain body: found exactly when the block's bytes arrive before the cap is reached. */
  lemma ScanIsExact(metaint: nat, payloads: seq<seq<Byte>>)
    requires payloads != []
    ensures
      var v := ObserveAll(metaint, Cap(metaint), Judge(metaint, Cap(metaint), payloads[0]), payloads[1..]);
      var all := Join(payloads);
      && (v.Found? <==> FirstBlock(all, metaint).Some? && DecodedWhenComplete(metaint, payloads) < Cap(metaint))
      && (v.Found? ==> FirstBlock(all, metaint) == Some(v.block))
      && (v.Waiting? ==> v.seen == all)
  {
    ScanFromNothing(metaint, payloads);
    assert [] + Join(payloads) == Join(payloads);
    if FirstBlock(Join(payloads), metaint).Some? {
      FoundExactly(metaint, Cap(metaint), [], payloads);
    } else {
      NotFoundExactly(metaint, Cap(metaint), [], payloads);
    }
  }

  /** An ICY stream whose first non-empty block holds `meta`, with anything after it. */
  datatype Broadcast = Broadcast(
    metaint: nat, runs: seq<seq<Byte>>, audio: seq<Byte>, units: Byte, meta: seq<Byte>, rest: seq<Byte>)
  {
    predicate WellFormed() {
      && (forall i :: 0 <= i < |runs| ==> |runs[i]| == metaint)
      && |audio| == metaint
      && units > 0
      && |meta| == (units as int) * 16
    }

    function Bytes(): seq<Byte> {
      IcyStream(runs, audio, units, meta) + rest
    }

    /** Where the block ends in the decoded stream. */
    function End(): nat {
      |IcyStream(runs, audio, units, meta)|
    }
  }

  /** What the reader must conclude from the payloads seen of a broadcast, complete or not. */
  function Concluded(b: Broadcast, payloads: seq<seq<Byte>>): Verdict {
    var seen := Join(payloads);
    if b.End() <= |seen| then
      if SeenAt(0, payloads, b.End()) < 2 * b.metaint + 4096 then Found(b.meta) else GaveUp
    else if |seen| < 2 * b.metaint + 4096 then Waiting(seen)
    else GaveUp
  }

  /**
    A live broadcast, chunk-encoded in any way, of which any prefix has arrived, cut in any way: the reader has
    found exactly the bytes of the first non-empty block, if and only if that block is complete and fewer than
    2 * metaint + 4096 decoded bytes had been seen when it completed.
   */
  lemma LiveTitleEndToEnd(b: Broadcast, body: Body, segments: seq<seq<Byte>>)
    requires b.WellFormed() && body.WellFormed() && Payload(body.chunks) == b.Bytes()
    requires segments != [] && Join(segments) <= body.Encoded()
    ensures
      var payloads := ReceiveAll(START, segments).1;
      && Join(payloads) <= b.Bytes()
      && ScanSegments(b.metaint, true, segments) == Concluded(b, payloads)
  {
    hide ReceiveAll, Drain, Turn, Body.Encoded, Body.UpToLast, Payload, Concluded, Judge, ObserveAll;
    var a := Join(segments);
    StartBlocked();
    CutIndependence(START, segments);
    hide Join;
    assert a + body.Encoded()[|a|..] == body.Encoded();
    PrefixOfBody(body, a, body.Encoded()[|a|..]);
    TitleFound(b, ReceiveAll(START, segments).1);
  }

  lemma StartBlocked()
    ensures Turn(START).Blocked?
  {
  }

  /** Once the whole body has arrived, its block is complete: found or given up. */
  lemma ChunkedTitleEndToEnd(b: Broadcast, body: Body, segments: seq<seq<Byte>>)
    requires b.WellFormed() && body.WellFormed()
    requires Payload(body.chunks) == b.Bytes()
    requires segments != [] && Join(segments) == body.Encoded()
    ensures
      var payloads := ReceiveAll(START, segments).1;
      && b.End() <= |Join(payloads)|
      && ScanSegments(b.metaint, true, segments) ==
           if SeenAt(0, payloads, b.End()) < 2 * b.metaint + 4096 then Found(b.meta) else GaveUp
  {
    RoundTripCut(body, segments);
    LiveTitleEndToEnd(b, body, segments);
  }

  /** The same for a broadcast in chunks printed with hexadecimal sizes, in any case, zeros and extensions added. */
  lemma PrintedTitleEndToEnd(
    b: Broadcast, chunks: seq<Printed>, zeros: nat, tail: seq<Byte>, trailer: seq<Byte>, segments: seq<seq<Byte>>)
    requires b.WellFormed() && BodyFits(chunks, zeros, tail) && DataOf(chunks) == b.Bytes()
    requires segments != [] && Join(segments) <= PrintBody(chunks, zeros, tail, trailer)
    ensures
      var payloads := ReceiveAll(START, segments).1;
      Join(payloads) <= b.Bytes() && ScanSegments(b.metaint, true, segments) == Concluded(b, payloads)
  {
    BodyParses(chunks, zeros, tail, trailer);
    LiveTitleEndToEnd(b, ParsedBody(chunks, zeros, tail, trailer), segments);
  }

  lemma TitleFound(b: Broadcast, payloads: seq<seq<Byte>>)
    requires b.WellFormed() && payloads != [] && Join(payloads) <= b.Bytes()
    ensures
      ObserveAll(b.metaint, Cap(b.metaint), Judge(b.metaint, Cap(b.metaint), payloads[0]), payloads[1..])
        == Concluded(b, payloads)
  {
    hide Judge, Observe, FirstBlock, BlockEnd;
    var seen := Join(payloads);
    IcyStreamReads(b.metaint, b.runs, b.audio, b.units, b.meta, b.rest);
    assert seen + b.Bytes()[|seen|..] == b.Bytes();
    FirstBlockOfPrefix(seen, b.Bytes()[|seen|..], b.metaint);
    ScanFromNothing(b.metaint, payloads);
    assert [] + seen == seen;
    if b.End() <= |seen| {
      FoundExactly(b.metaint, Cap(b.metaint), [], payloads);
    } else {
      NotFoundExactly(b.metaint, Cap(b.metaint), [], payloads);
    }
  }

  /** An early title is found whenever the payload that completes its block runs fewer than 14 bytes past it. */
  lemma EarlyTitleIsFound(b: Broadcast, payloads: seq<seq<Byte>>)
    requires b.WellFormed() && |b.runs| <= 1 && payloads != []
    requires Join(payloads) <= b.Bytes() && b.End() <= |Join(payloads)|
    requires SeenAt(0, payloads, b.End()) < b.End() + 14
    ensures
      ObserveAll(b.metaint, Cap(b.metaint), Judge(b.metaint, Cap(b.metaint), payloads[0]), payloads[1..])
        == Found(b.meta)
  {
    TitleFound(b, payloads);
    EarlyBlockBeatsCap(b.metaint, b.runs, b.audio, b.units, b.meta);
  }

  /** The head reader hands over exactly the body: cutting the response anywhere changes nothing decoded. */
  lemma HeadThenBody(head: seq<Byte>, body: Body, segments: seq<seq<Byte>>)
    requires body.WellFormed()
    requires IndexOf(head + BLANK_LINE + body.Encoded(), BLANK_LINE, 0) == |head|
    requires Join(segments) == head + BLANK_LINE + body.Encoded()
    requires ReadHead([], segments).0 != TooLarge
    ensures
      var (h, rest) := ReadHead([], segments);
      && h.Split? && h.head == head
      && Join([h.leftover] + rest) == body.Encoded()
      && Join(ReceiveAll(START, [h.leftover] + rest).1) == Payload(body.chunks)
  {
    hide ReadHead, IndexOf, ReceiveAll, Body.Encoded, Body.WellFormed, Payload;
    var (h, rest) := ReadHead([], segments);
    HeadSplits(head, body.Encoded(), segments);
    RoundTripCut(body, [h.leftover] + rest);
  }

  /** Whatever follows a head, the reader splits it off whole and hands the rest over. */
  lemma HeadSplits(head: seq<Byte>, tail: seq<Byte>, segments: seq<seq<Byte>>)
    requires IndexOf(head + BLANK_LINE + tail, BLANK_LINE, 0) == |head|
    requires Join(segments) == head + BLANK_LINE + tail && ReadHead([], segments).0 != TooLarge
    ensures
      var (h, rest) := ReadHead([], segments);
      h.Split? && h.head == head && Join([h.leftover] + rest) == tail
  {
    hide IndexOf, HeadOf, ReadHead;
    var (h, rest) := ReadHead([], segments);
    HeadSplitIsCutIndependent([], segments);
    assert [] + Join(segments) == Join(segments);
    HeadSettles([], segments);
    SameSplit(head, tail, h.head, h.leftover + Join(rest));
    JoinFirst(h.leftover, rest);
  }

  lemma JoinFirst(first: seq<Byte>, rest: seq<seq<Byte>>)
    ensures Join([first] + rest) == first + Join(rest)
  {
    assert ([first] + rest)[1..] == rest;
  }

  lemma SameSplit(a: seq<Byte>, b: seq<Byte>, c: seq<Byte>, d: seq<Byte>)
    requires a + BLANK_LINE + b == c + BLANK_LINE + d && |a| == |c|
    ensures a == c && b == d
  {
    assert (a + BLANK_LINE + b)[..|a|] == a && (c + BLANK_LINE + d)[..|c|] == c;
    assert (a + BLANK_LINE + b)[|a| + 4..] == b && (c + BLANK_LINE + d)[|c| + 4..] == d;
  }

  /** A head that ends within the segments is not left unread. */
  lemma {:induction false} HeadSettles(seen: seq<Byte>, segments: seq<seq<Byte>>)
    requires IndexOf(seen + Join(segments), BLANK_LINE, 0) != -1
    ensures !ReadHead(seen, segments).0.Reading?
    decreases |segments|
  {
    if segments == [] {
      assert seen + Join(segments) == seen;
    } else {
      assert seen + Join(segments) == (seen + segments[0]) + Join(segments[1..]);
      HeadSettles(seen + segments[0], segments[1..]);
    }
  }
}
