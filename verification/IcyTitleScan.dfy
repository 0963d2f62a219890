/** The buffered title reader of the media proxy: keeps only undigested bytes, gives up at a byte cap. */
module IcyTitleScan {
  import opened Basics
  import opened Bytes
  import opened ChunkedDecoding
  import opened IcyBlocks

  /** What a reader knows after some decoded bytes: nothing yet, the block, or that it gave up. */
  datatype Verdict = Waiting(seen: seq<Byte>) | Found(block: seq<Byte>) | GaveUp

  /** Judging a stream from scratch, with every byte seen so far in hand. */
  function Judge(metaint: nat, cap: nat, seen: seq<Byte>): Verdict {
    if |seen| >= cap then GaveUp
    else match FirstBlock(seen, metaint)
      case Some(block) => Found(block)
      case None => Waiting(seen)
  }

  function Observe(metaint: nat, cap: nat, v: Verdict, payload: seq<Byte>): Verdict {
    if v.Waiting? && payload != [] then Judge(metaint, cap, v.seen + payload) else v
  }

  function ObserveAll(metaint: nat, cap: nat, v: Verdict, payloads: seq<seq<Byte>>): Verdict
    decreases |payloads|
  {
    if payloads == [] then v
    else ObserveAll(metaint, cap, Observe(metaint, cap, v, payloads[0]), payloads[1..])
  }

  /** How many bytes have been seen once the payloads first reach position `end`. */
  function SeenAt(seen: nat, payloads: seq<seq<Byte>>, end: nat): (n: nat)
    requires end <= seen + |Join(payloads)|
    ensures n >= end
    decreases |payloads|
  {
    if end <= seen || payloads == [] then seen
    else SeenAt(seen + |payloads[0]|, payloads[1..], end)
  }

  ghost predicate Undecided(metaint: nat, cap: nat, seen: seq<Byte>) {
    |seen| < cap && FirstBlock(seen, metaint).None?
  }

  lemma {:induction false} DecidedStays(metaint: nat, cap: nat, v: Verdict, payloads: seq<seq<Byte>>)
    requires !v.Waiting?
    ensures ObserveAll(metaint, cap, v, payloads) == v
    decreases |payloads|
  {
    if payloads != [] {
      DecidedStays(metaint, cap, v, payloads[1..]);
    }
  }

  /** The block is found exactly when the bytes seen as it completes are still below the cap. */
  lemma {:induction false} FoundExactly(metaint: nat, cap: nat, seen: seq<Byte>, payloads: seq<seq<Byte>>)
    requires Undecided(metaint, cap, seen)
    requires FirstBlock(seen + Join(payloads), metaint).Some?
    ensures
      var all := seen + Join(payloads);
      ObserveAll(metaint, cap, Waiting(seen), payloads) ==
        if SeenAt(|seen|, payloads, BlockEnd(all, metaint)) < cap
        then Found(FirstBlock(all, metaint).value)
        else GaveUp
    decreases |payloads|
  {
    assert payloads == [] ==> seen + Join(payloads) == seen;
    if payloads != [] {
      var all := seen + Join(payloads);
      var now := seen + payloads[0];
      assert all == now + Join(payloads[1..]);
      FirstBlockOfPrefix(now, Join(payloads[1..]), metaint);
      FirstBlockOfPrefix(seen, Join(payloads), metaint);
      if payloads[0] == [] {
        assert now == seen;
        FoundExactly(metaint, cap, seen, payloads[1..]);
      } else if Judge(metaint, cap, now).Waiting? {
        FoundExactly(metaint, cap, now, payloads[1..]);
      } else {
        DecidedStays(metaint, cap, Judge(metaint, cap, now), payloads[1..]);
      }
    }
  }

  /** Without a complete block the reader waits while below the cap and gives up from there on. */
  lemma {:induction false} NotFoundExactly(metaint: nat, cap: nat, seen: seq<Byte>, payloads: seq<seq<Byte>>)
    requires Undecided(metaint, cap, seen)
    requires FirstBlock(seen + Join(payloads), metaint).None?
    ensures
      var all := seen + Join(payloads);
      ObserveAll(metaint, cap, Waiting(seen), payloads) == if |all| < cap then Waiting(all) else GaveUp
    decreases |payloads|
  {
    if payloads == [] {
      assert seen + Join(payloads) == seen;
    } else {
      var now := seen + payloads[0];
      assert seen + Join(payloads) == now + Join(payloads[1..]);
      if FirstBlock(now, metaint).Some? {
        FirstBlockGrows(now, Join(payloads[1..]), metaint);
      } else if payloads[0] == [] {
        assert now == seen;
        NotFoundExactly(metaint, cap, seen, payloads[1..]);
      } else if |now| >= cap {
        DecidedStays(metaint, cap, GaveUp, payloads[1..]);
      } else {
        NotFoundExactly(metaint, cap, now, payloads[1..]);
      }
    }
  }

  // ---- the reader ------------------------------------------------------------------------------

  class TitleScan {
    const metaint: nat
    const cap: nat
    const decoder: ChunkedDecoder?
    var buf: seq<Byte>
    var consumed: nat
    var done: bool
    var block: Option<seq<Byte>>
    ghost var seen: seq<Byte>

    /** The verdict this reader stands for; a finished reader with no block resolved to null. */
    ghost function Verdict(): Verdict
      reads this
    {
      if !done then Waiting(seen) else if block.Some? then Found(block.value) else GaveUp
    }

    /** While waiting, only the undigested tail is kept, and it is shorter than metaint + 4081. */
    ghost predicate Valid()
      reads this, decoder
    {
      && (decoder != null ==> decoder.Valid())
      && (!done ==>
            && buf == Residue(seen, metaint)
            && consumed == |seen|
            && Undecided(metaint, cap, seen)
            && |buf| < metaint + 4081)
    }

    constructor (metaint: nat, cap: nat, leftover: seq<Byte>, chunked: bool)
      ensures Valid() && this.metaint == metaint && this.cap == cap
      ensures if chunked then decoder != null && fresh(decoder) else decoder == null
      ensures
        var payload := if chunked then Receive(START, leftover).payload else leftover;
        Verdict() == Judge(metaint, cap, payload)
      ensures decoder != null ==> decoder.Model() == Receive(START, leftover).framing
    {
      var d: ChunkedDecoder? := null;
      var payload := leftover;
      if chunked {
        d := new ChunkedDecoder();
        var out := d.Push(leftover);
        payload := Join(out);
      }
      this.metaint, this.cap, decoder := metaint, cap, d;
      buf, consumed, done, block := payload, |payload|, false, None;
      seen := payload;
      new;
      TryParse();
    }

    method TryParse()
      requires !done && consumed == |seen|
      requires decoder != null ==> decoder.Valid()
      requires Residue(buf, metaint) == Residue(seen, metaint)
      modifies this`buf, this`done, this`block
      ensures Valid() && Verdict() == Judge(metaint, cap, seen)
    {
      while true
        invariant !done && Residue(buf, metaint) == Residue(seen, metaint)
        invariant block == old(block)
        decreases |buf|
      {
        if consumed >= cap {
          done, block := true, None;
          return;
        }
        if |buf| < metaint + 1 {
          ResidueIsShort(seen, metaint);
          return;
        }
        var len := (buf[metaint] as int) * 16;
        if len == 0 {
          buf := buf[metaint + 1..];
          continue;
        }
        if |buf| < metaint + 1 + len {
          ResidueIsShort(seen, metaint);
          return;
        }
        done, block := true, Some(buf[metaint + 1..metaint + 1 + len]);
        return;
      }
    }

    /** One data event. The listener is removed when the reader finishes. */
    method OnData(chunk: seq<Byte>)
      requires Valid() && !done
      modifies this, decoder
      ensures Valid()
      ensures
        var payload := if decoder == null then chunk else Receive(old(decoder.Model()), chunk).payload;
        Verdict() == Observe(metaint, cap, old(Verdict()), payload)
      ensures decoder != null ==> decoder.Model() == Receive(old(decoder.Model()), chunk).framing
    {
      var payload := chunk;
      if decoder != null {
        var out := decoder.Push(chunk);
        payload := Join(out);
      }
      if |payload| == 0 {
        return;
      }
      ResidueResumes(seen, payload, metaint);
      buf := buf + payload;
      consumed := consumed + |payload|;
      seen := seen + payload;
      TryParse();
    }

    /** `error` or `close` on the socket, or the timeout. */
    method OnErr()
      requires Valid() && !done
      modifies this`done, this`block
      ensures Valid() && Verdict() == GaveUp
    {
      done, block := true, None;
    }
  }
}
