/**
  The incremental decoder for Transfer-Encoding: chunked (section 7.1 of RFC 9112).
  `Framing` is the decoder's state as a value, `Drain` what its loop does to the buffered bytes.
  The printer for chunked bodies is in ChunkedEncoding.
 */
module ChunkedDecoding {
  import opened Bytes

  datatype Phase = Size | Data | Crlf

  datatype Framing = Framing(buf: seq<Byte>, phase: Phase, remaining: nat, done: bool) {
    /** A data run is pending exactly when bytes of it are still owed. */
    predicate Valid() {
      phase == Data <==> remaining > 0
    }

    function Feed(data: seq<Byte>): Framing {
      this.(buf := buf + data)
    }
  }

  const START := Framing([], Size, 0, false)

  /** The chunk size a size line announces: extensions stripped, blanks trimmed, then hexadecimal. */
  function LineSize(line: seq<Byte>): JsNumber {
    ParseInt16(TrimEnd(TrimStart(BeforeSemicolon(line))))
  }

  datatype Progress = Blocked | Took(next: Framing, payload: seq<Byte>)

  /** One turn of the decoding loop: the next state and the bytes emitted, or Blocked. */
  function Turn(d: Framing): (p: Progress)
    requires d.Valid()
    ensures p.Took? ==> p.next.Valid() && |p.next.buf| < |d.buf|
  {
    if d.done then Blocked
    else match d.phase
      case Size =>
        var nl := IndexOf(d.buf, CRLF, 0);
        if nl == -1 then Blocked
        else
          var rest := d.buf[nl + 2..];
          var size := LineSize(d.buf[..nl]);
          if !size.Integer? || size.n <= 0 then Took(d.(buf := rest, done := true), [])
          else Took(Framing(rest, Data, size.n, false), [])
      case Data =>
        if d.buf == [] then Blocked
        else
          var take := if d.remaining < |d.buf| then d.remaining else |d.buf|;
          var left := d.remaining - take;
          Took(Framing(d.buf[take..], if left == 0 then Crlf else Data, left, false), d.buf[..take])
      case Crlf =>
        if |d.buf| < 2 then Blocked
        else Took(d.(buf := d.buf[2..], phase := Size), [])
  }

  datatype Decoded = Decoded(framing: Framing, payload: seq<Byte>)

  /** Runs the loop until it blocks. */
  function Drain(d: Framing): (r: Decoded)
    requires d.Valid()
    ensures r.framing.Valid()
    ensures Turn(r.framing).Blocked?
    decreases |d.buf|
  {
    match Turn(d)
    case Blocked => Decoded(d, [])
    case Took(next, payload) =>
      var r := Drain(next);
      Decoded(r.framing, payload + r.payload)
  }

  /** Feeds one segment. */
  function Receive(d: Framing, data: seq<Byte>): Decoded
    requires d.Valid()
  {
    Drain(d.Feed(data))
  }

  /** Feeds a list of segments and keeps the payload each one released. */
  function ReceiveAll(d: Framing, segments: seq<seq<Byte>>): (r: (Framing, seq<seq<Byte>>))
    requires d.Valid()
    ensures r.0.Valid() && |r.1| == |segments|
    decreases |segments|
  {
    if segments == [] then (d, [])
    else
      var first := Receive(d, segments[0]);
      var rest := ReceiveAll(first.framing, segments[1..]);
      (rest.0, [first.payload] + rest.1)
  }

  // ---- cut independence ------------------------------------------------------------------------

  /** Bytes that arrive after the loop has blocked continue it as if they had been there from the start. */
  lemma {:induction false} DrainResumes(d: Framing, more: seq<Byte>)
    requires d.Valid()
    ensures
      var whole, first := Drain(d.Feed(more)), Drain(d);
      var second := Drain(first.framing.Feed(more));
      whole == Decoded(second.framing, first.payload + second.payload)
    decreases |d.buf|
  {
    hide IndexOf, LineSize;
    match Turn(d)
    case Blocked =>
    case Took(next, payload) =>
      if d.phase == Data && |d.buf| < d.remaining {
        DataRunResumes(d, more);
      } else {
        TurnExtends(d, more);
        DrainResumes(next, more);
        Assoc(payload, Drain(next).payload, Drain(Drain(next).framing.Feed(more)).payload);
      }
  }

  /** A turn that does not empty the buffer mid-run is the same turn when more bytes follow. */
  lemma TurnExtends(d: Framing, more: seq<Byte>)
    requires d.Valid() && Turn(d).Took?
    requires d.phase == Data ==> d.remaining <= |d.buf|
    ensures Turn(d.Feed(more)) == Took(Turn(d).next.Feed(more), Turn(d).payload)
  {
    hide IndexOf, LineSize;
    match d.phase
    case Size =>
      IndexOfExtends(d.buf, more, CRLF);
      var nl := IndexOf(d.buf, CRLF, 0);
      assert (d.buf + more)[..nl] == d.buf[..nl];
      assert (d.buf + more)[nl + 2..] == d.buf[nl + 2..] + more;
    case Data =>
      assert (d.buf + more)[..d.remaining] == d.buf[..d.remaining];
      assert (d.buf + more)[d.remaining..] == d.buf[d.remaining..] + more;
    case Crlf =>
      assert (d.buf + more)[2..] == d.buf[2..] + more;
  }

  /** A data run cut short is continued by the next bytes. */
  lemma DataRunResumes(d: Framing, more: seq<Byte>)
    requires d.Valid() && !d.done && d.phase == Data && 0 < |d.buf| < d.remaining
    ensures
      var whole, first := Drain(d.Feed(more)), Drain(d);
      var second := Drain(first.framing.Feed(more));
      whole == Decoded(second.framing, first.payload + second.payload)
  {
    var cut := Framing([], Data, d.remaining - |d.buf|, false);
    assert Drain(d) == Decoded(cut, d.buf) by {
      assert Turn(d) == Took(cut, d.buf);
      assert Turn(cut).Blocked?;
    }
    if more == [] {
      assert d.Feed(more) == d && cut.Feed(more) == cut;
    } else {
      CutTurn(d, more);
      var t := Turn(cut.Feed(more));
      Assoc(d.buf, t.payload, Drain(t.next).payload);
    }
  }

  lemma CutTurn(d: Framing, more: seq<Byte>)
    requires d.Valid() && !d.done && d.phase == Data && 0 < |d.buf| < d.remaining && more != []
    ensures
      var t := Turn(Framing([], Data, d.remaining - |d.buf|, false).Feed(more));
      t.Took? && Turn(d.Feed(more)) == Took(t.next, d.buf + t.payload)
  {
    hide IndexOf, LineSize, Drain;
    var n := |d.buf|;
    var cut := Framing([], Data, d.remaining - n, false);
    assert cut.Feed(more).buf == more;
    var take := if d.remaining < n + |more| then d.remaining else n + |more|;
    assert (d.buf + more)[take..] == more[take - n..];
    assert (d.buf + more)[..take] == d.buf + more[..take - n];
  }

  /** Pushing a then b is pushing a + b: same payload, same state, malformed framing included. */
  lemma ReceiveCut(d: Framing, a: seq<Byte>, b: seq<Byte>)
    requires d.Valid()
    ensures
      var first := Receive(d, a);
      var second := Receive(first.framing, b);
      Receive(d, a + b) == Decoded(second.framing, first.payload + second.payload)
  {
    hide Drain;
    DrainResumes(d.Feed(a), b);
    Assoc(d.buf, a, b);
  }

  /** However a stream is cut into segments, the decoder ends in the same state with the same payload. */
  lemma {:induction false} CutIndependence(d: Framing, segments: seq<seq<Byte>>)
    requires d.Valid() && Turn(d).Blocked?
    ensures
      var r := ReceiveAll(d, segments);
      Receive(d, Join(segments)) == Decoded(r.0, Join(r.1))
    decreases |segments|
  {
    if segments == [] {
      assert d.Feed([]) == d;
    } else {
      var first := Receive(d, segments[0]);
      CutIndependence(first.framing, segments[1..]);
      ReceiveCut(d, segments[0], Join(segments[1..]));
      var rest := ReceiveAll(first.framing, segments[1..]);
      assert ([first.payload] + rest.1)[1..] == rest.1;
    }
  }

  /** Once done, nothing more is released; later bytes only pile up in the buffer. */
  lemma DoneIsFinal(d: Framing, data: seq<Byte>)
    requires d.Valid() && d.done
    ensures Receive(d, data) == Decoded(d.Feed(data), [])
  {
  }

  /** The payload of a longer stream extends the payload of a shorter one. */
  lemma PayloadGrows(a: seq<Byte>, b: seq<Byte>)
    ensures Receive(START, a).payload <= Receive(START, a + b).payload
  {
    ReceiveCut(START, a, b);
  }

  // ---- the class -------------------------------------------------------------------------------

  class ChunkedDecoder {
    var buf: seq<Byte>
    var state: Phase
    var remaining: nat
    var done: bool

    ghost function Model(): Framing
      reads this
    {
      Framing(buf, state, remaining, done)
    }

    ghost predicate Valid()
      reads this
    {
      Model().Valid()
    }

    constructor ()
      ensures Valid() && Model() == START
    {
      buf, state, remaining, done := [], Size, 0, false;
    }

    method Push(data: seq<Byte>) returns (out: seq<seq<Byte>>)
      requires Valid()
      modifies this
      ensures Valid()
      ensures Decoded(Model(), Join(out)) == Receive(old(Model()), data)
      ensures forall i :: 0 <= i < |out| ==> out[i] != []
      ensures old(done) ==> out == []
    {
      hide Drain, LineSize, IndexOf;
      buf := buf + data;
      out := [];
      ghost var fed := Drain(Model());
      while !done
        invariant Valid()
        invariant Continues(fed, Model(), Join(out))
        invariant forall i :: 0 <= i < |out| ==> out[i] != []
        invariant old(done) ==> done && out == []
        decreases |buf|, !done
      {
        ghost var before, emitted := Model(), Join(out);
        match state {
          case Size =>
            var nl := IndexOf(buf, CRLF, 0);
            if nl == -1 {
              break;
            }
            var size := LineSize(buf[..nl]);
            buf := buf[nl + 2..];
            if !size.Integer? || size.n < 0 {
              done := true;
            } else if size.n == 0 {
              done := true;
            } else {
              remaining := size.n;
              state := Data;
            }
            assert Turn(before) == Took(Model(), []);
          case Data =>
            if buf == [] {
              break;
            }
            var take := if remaining < |buf| then remaining else |buf|;
            JoinAppend(out, [buf[..take]]);
            JoinOne(buf[..take]);
            out := out + [buf[..take]];
            buf := buf[take..];
            remaining := remaining - take;
            if remaining == 0 {
              state := Crlf;
            }
            assert Turn(before) == Took(Model(), before.buf[..take]);
          case Crlf =>
            if |buf| < 2 {
              break;
            }
            buf := buf[2..];
            state := Size;
            assert Turn(before) == Took(Model(), []);
        }
        assert Join(out) == emitted + Turn(before).payload;
        ContinuesTurn(fed, before, emitted);
      }
      DrainBlocked(Model());
    }
  }

  /** The loop invariant of the decoder: what is left to drain completes what was emitted. */
  ghost predicate Continues(fed: Decoded, d: Framing, emitted: seq<Byte>) {
    d.Valid() && fed == Decoded(Drain(d).framing, emitted + Drain(d).payload)
  }

  lemma DrainBlocked(d: Framing)
    requires d.Valid() && Turn(d).Blocked?
    ensures Drain(d) == Decoded(d, [])
  {
  }

  lemma ContinuesTurn(fed: Decoded, d: Framing, emitted: seq<Byte>)
    requires Continues(fed, d, emitted) && Turn(d).Took?
    ensures Continues(fed, Turn(d).next, emitted + Turn(d).payload)
  {
    Assoc(emitted, Turn(d).payload, Drain(Turn(d).next).payload);
  }
}
