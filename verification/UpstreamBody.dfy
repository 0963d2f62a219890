/** Splitting the response head from the body, and streaming the de-framed body to the client. */
module UpstreamBody {
  import opened Bytes
  import opened ChunkedDecoding

  // ---- the header block ------------------------------------------------------------------------

  const MAX_HEAD := 64 * 1024

  datatype Head = Reading | Split(head: seq<Byte>, leftover: seq<Byte>) | TooLarge

  /** Collects socket bytes until the first blank line. */
  class HeadReader {
    var buf: seq<Byte>
    var head: Head

    ghost predicate Valid()
      reads this
    {
      head == HeadOf(buf)
    }

    constructor ()
      ensures Valid() && buf == []
    {
      buf := [];
      head := Reading;
      assert HeadOf([]) == Reading;
    }

    /** The listener is removed once the head is settled, so it only runs while Reading. */
    method OnData(chunk: seq<Byte>)
      requires Valid() && head == Reading
      modifies this
      ensures Valid() && buf == old(buf) + chunk
    {
      buf := buf + chunk;
      var sep := IndexOf(buf, BLANK_LINE, 0);
      if sep == -1 {
        if |buf| > MAX_HEAD {
          head := TooLarge;
        }
        return;
      }
      head := Split(buf[..sep], buf[sep + 4..]);
    }
  }

  /** What all the bytes so far say about the head. */
  function HeadOf(seen: seq<Byte>): Head {
    var sep := IndexOf(seen, BLANK_LINE, 0);
    if sep != -1 then Split(seen[..sep], seen[sep + 4..])
    else if |seen| > MAX_HEAD then TooLarge
    else Reading
  }

  /** Reads segments until the head settles; also returns the segments left for the body. */
  function ReadHead(seen: seq<Byte>, segments: seq<seq<Byte>>): (Head, seq<seq<Byte>>)
    decreases |segments|
  {
    if HeadOf(seen).Reading? && segments != [] then ReadHead(seen + segments[0], segments[1..])
    else (HeadOf(seen), segments)
  }

  /** A split loses no byte, and splits at the first blank line of the whole stream, wherever it was cut. */
  lemma {:induction false} HeadSplitIsCutIndependent(seen: seq<Byte>, segments: seq<seq<Byte>>)
    ensures
      var (head, rest) := ReadHead(seen, segments);
      var all := seen + Join(segments);
      head.Split? ==>
        && all == head.head + BLANK_LINE + (head.leftover + Join(rest))
        && IndexOf(all, BLANK_LINE, 0) == |head.head|
    decreases |segments|
  {
    hide IndexOf;
    if HeadOf(seen).Reading? && segments != [] {
      HeadSplitIsCutIndependent(seen + segments[0], segments[1..]);
      Assoc(seen, segments[0], Join(segments[1..]));
    } else if HeadOf(seen).Split? {
      IndexOfExtends(seen, Join(segments), BLANK_LINE);
      var sep := IndexOf(seen, BLANK_LINE, 0);
      assert seen == seen[..sep] + BLANK_LINE + seen[sep + 4..];
    }
  }

  /** The head is refused for its size exactly when it is still unfinished past 64 KiB at some cut. */
  lemma {:induction false} HeadTooLargeExactly(seen: seq<Byte>, segments: seq<seq<Byte>>)
    ensures ReadHead(seen, segments).0 == TooLarge <==>
      exists n: nat :: n <= |segments| && HeadOf(seen + Join(segments[..n])) == TooLarge
    decreases |segments|
  {
    if !HeadOf(seen).Reading? || segments == [] {
      if HeadOf(seen) == TooLarge {
        assert segments[..0] == [];
        assert HeadOf(seen + Join(segments[..0])) == TooLarge by { assert seen + [] == seen; }
      }
      forall n: nat | n <= |segments| && HeadOf(seen + Join(segments[..n])) == TooLarge
        ensures HeadOf(seen) == TooLarge
      {
        if HeadOf(seen).Split? {
          IndexOfExtends(seen, Join(segments[..n]), BLANK_LINE);
        } else if segments == [] {
          assert seen + Join(segments[..n]) == seen;
        }
      }
    } else {
      HeadTooLargeExactly(seen + segments[0], segments[1..]);
      forall n: nat | n <= |segments|
        ensures n == 0 ==> seen + Join(segments[..n]) == seen
        ensures n > 0 ==>
          seen + Join(segments[..n]) == (seen + segments[0]) + Join(segments[1..][..n - 1])
      {
        if n > 0 {
          assert segments[..n][1..] == segments[1..][..n - 1];
          Assoc(seen, segments[0], Join(segments[1..][..n - 1]));
        }
      }
      if n: nat :| n <= |segments[1..]| && HeadOf((seen + segments[0]) + Join(segments[1..][..n])) == TooLarge {
        assert HeadOf(seen + Join(segments[..n + 1])) == TooLarge;
      }
    }
  }

  /** In plain numbers: refused exactly when, at some cut, more than 65536 bytes have come without a blank line. */
  lemma HeadTooLargeInBytes(segments: seq<seq<Byte>>)
    ensures ReadHead([], segments).0 == TooLarge <==>
      exists n: nat :: n <= |segments| && Overlong(Join(segments[..n]))
  {
    HeadTooLargeExactly([], segments);
    forall n: nat | n <= |segments|
      ensures HeadOf([] + Join(segments[..n])) == TooLarge <==> Overlong(Join(segments[..n]))
    {
      var seen := Join(segments[..n]);
      assert [] + seen == seen;
      NoBlankLineIs(seen);
    }
  }

  predicate HasBlankLineAt(s: seq<Byte>, i: nat) {
    i + 4 <= |s| && s[i] == 13 && s[i + 1] == 10 && s[i + 2] == 13 && s[i + 3] == 10
  }

  predicate Overlong(s: seq<Byte>) {
    |s| > 65536 && forall i: nat :: i < |s| ==> !HasBlankLineAt(s, i)
  }

  lemma NoBlankLineIs(s: seq<Byte>)
    ensures IndexOf(s, BLANK_LINE, 0) == -1 <==> forall i: nat :: i < |s| ==> !HasBlankLineAt(s, i)
  {
    forall i: nat | i < |s|
      ensures HasBlankLineAt(s, i) <==> OccursAt(s, BLANK_LINE, i)
    {
      if i + 4 <= |s| {
        assert s[i..i + 4] == [s[i], s[i + 1], s[i + 2], s[i + 3]];
      }
    }
  }

  // ---- the body stream -------------------------------------------------------------------------

  /** The readable stream handed to the client; `queue` is what the controller was given. */
  class BodyStream {
    const decoder: ChunkedDecoder?
    var queue: seq<seq<Byte>>
    var closed: bool
    var ended: bool
    ghost var received: seq<Byte>

    /** The queue is always exactly the decoding of every byte received so far. */
    ghost predicate Valid()
      reads this, decoder
    {
      if decoder == null then
        Join(queue) == received && closed == ended
      else
        && decoder.Valid()
        && Decoded(decoder.Model(), Join(queue)) == Receive(START, received)
        && closed == (ended || decoder.done)
        && forall i :: 0 <= i < |queue| ==> queue[i] != []
    }

    constructor (leftover: seq<Byte>, chunked: bool)
      ensures Valid() && received == leftover && !ended
      ensures if chunked then decoder != null && fresh(decoder) else decoder == null
    {
      var d: ChunkedDecoder? := null;
      if chunked {
        d := new ChunkedDecoder();
      }
      decoder := d;
      queue, closed, ended, received := [], false, false, [];
      new;
      assert START.Feed([]) == START;
      if |leftover| > 0 {
        Emit(leftover);
      }
      assert [] + leftover == leftover;
    }

    /** ReadableStreamDefaultController.enqueue, which throws on a closed stream. */
    method Enqueue(payload: seq<Byte>)
      requires !closed
      modifies this`queue
      ensures queue == old(queue) + [payload]
    {
      queue := queue + [payload];
    }

    /** One data event. The socket delivers none after `end`. */
    method Emit(raw: seq<Byte>)
      requires Valid() && !ended
      modifies this, decoder
      ensures Valid() && !ended && received == old(received) + raw
      ensures old(queue) <= queue
      ensures old(closed) ==> queue == old(queue) && closed
    {
      hide Drain;
      received := received + raw;
      if decoder == null {
        JoinAppend(queue, [raw]);
        JoinOne(raw);
        Enqueue(raw);
        return;
      }
      ReceiveCut(START, old(received), raw);
      if decoder.done {
        DoneIsFinal(decoder.Model(), raw);
      }
      var out := decoder.Push(raw);
      JoinAppend(queue, out);
      for i := 0 to |out|
        invariant queue == old(queue) + out[..i]
        invariant closed == old(closed) && !ended
        invariant decoder.Model() == Receive(START, received).framing
        invariant received == old(received) + raw
      {
        assert out[..i + 1] == out[..i] + [out[i]];
        Enqueue(out[i]);
      }
      assert out[..|out|] == out;
      if decoder.done {
        closed := true;
      }
    }

    /** `end` or `close` on the socket. */
    method End()
      requires Valid()
      modifies this`closed, this`ended
      ensures Valid() && closed && ended
    {
      closed, ended := true, true;
    }
  }
}
