/** The printer for chunked bodies (section 7.1 of RFC 9112), and the round trip through the decoder. */
module ChunkedEncoding {
  import opened Bytes
  import opened ChunkedDecoding

  /** A size line is hexadecimal digits followed by extensions. */
  datatype SizeLine = SizeLine(digits: seq<Byte>, ext: seq<Byte>) {
    function Text(): seq<Byte> {
      digits + ext
    }

    predicate WellFormed() {
      digits != [] && AllHex(digits) && IsExtension(ext) && NoCrlf(Text())
    }
  }

  datatype Chunk = Chunk(size: SizeLine, data: seq<Byte>) {
    /** The digits, in either case and with any leading zeros, spell the length of the data. */
    predicate WellFormed() {
      && size.WellFormed()
      && HexValue(size.digits) == |data| > 0
      && ToNumber(|data|, false).Integer?
    }

    function Text(): seq<Byte> {
      size.Text() + CRLF + data + CRLF
    }
  }

  predicate NoCrlf(s: seq<Byte>) {
    forall i :: 0 <= i < |s| ==> !OccursAt(s, CRLF, i)
  }

  /** Blanks, then nothing, or a semicolon before anything else. */
  predicate IsExtension(ext: seq<Byte>) {
    ext == [] || ext[0] == SEMICOLON || (IsSpace(ext[0]) && IsExtension(ext[1..]))
  }

  /** Neither blanks nor a semicolon: what trimming and splitting leave alone. */
  predicate IsPlain(s: seq<Byte>) {
    forall i :: 0 <= i < |s| ==> !IsSpace(s[i]) && s[i] != SEMICOLON
  }

  function Chunks(chunks: seq<Chunk>): seq<Byte> {
    if chunks == [] then [] else chunks[0].Text() + Chunks(chunks[1..])
  }

  function Payload(chunks: seq<Chunk>): seq<Byte> {
    if chunks == [] then [] else chunks[0].data + Payload(chunks[1..])
  }

  datatype Body = Body(chunks: seq<Chunk>, last: SizeLine, trailer: seq<Byte>) {
    predicate WellFormed() {
      && (forall i :: 0 <= i < |chunks| ==> chunks[i].WellFormed())
      && last.WellFormed()
      && HexValue(last.digits) == 0
    }

    /** The bytes up to and including the zero-size line. */
    function UpToLast(): seq<Byte> {
      Chunks(chunks) + (last.Text() + CRLF)
    }

    function Encoded(): seq<Byte> {
      UpToLast() + trailer
    }
  }

  // ---- reading one size line -------------------------------------------------------------------

  lemma {:induction false} BeforeExtension(digits: seq<Byte>, ext: seq<Byte>)
    requires IsPlain(digits) && IsExtension(ext)
    ensures TrimEnd(BeforeSemicolon(digits + ext)) == digits
    ensures digits != [] ==> BeforeSemicolon(digits + ext) != [] && BeforeSemicolon(digits + ext)[0] == digits[0]
  {
    if digits == [] {
      assert digits + ext == ext;
      BlanksTrimmed(ext);
    } else {
      var tail := digits[1..];
      BeforeExtension(tail, ext);
      assert (digits + ext)[1..] == tail + ext;
      TrimEndCons(digits[0], BeforeSemicolon(tail + ext));
      assert [digits[0]] + tail == digits;
    }
  }

  lemma {:induction false} BlanksTrimmed(ext: seq<Byte>)
    requires IsExtension(ext)
    ensures TrimEnd(BeforeSemicolon(ext)) == []
  {
    if ext != [] && ext[0] != SEMICOLON {
      BlanksTrimmed(ext[1..]);
      TrimEndBlank(ext[0], BeforeSemicolon(ext[1..]));
    }
  }

  lemma {:induction false} TrimEndCons(b: Byte, s: seq<Byte>)
    requires !IsSpace(b)
    ensures TrimEnd([b] + s) == [b] + TrimEnd(s)
  {
    if s != [] && IsSpace(s[|s| - 1]) {
      TrimEndCons(b, s[..|s| - 1]);
      assert ([b] + s)[..|s|] == [b] + s[..|s| - 1];
    } else if s == [] {
      assert [b] + s == [b];
    }
  }

  lemma {:induction false} TrimEndBlank(b: Byte, s: seq<Byte>)
    requires IsSpace(b) && TrimEnd(s) == []
    ensures TrimEnd([b] + s) == []
  {
    if s == [] {
      assert ([b] + s)[..0] == [];
    } else {
      TrimEndBlank(b, s[..|s| - 1]);
      assert ([b] + s)[..|s|] == [b] + s[..|s| - 1];
    }
  }

  lemma {:induction false} HexPrefixAll(s: seq<Byte>)
    requires AllHex(s)
    ensures HexPrefix(s) == s
  {
    if s != [] {
      HexPrefixAll(s[1..]);
      assert [s[0]] + s[1..] == s;
    }
  }

  /** Any spelling of a size, with any extensions, is read back as that size. */
  lemma LineSizeReads(line: SizeLine)
    requires line.WellFormed()
    ensures LineSize(line.Text()) == ToNumber(HexValue(line.digits), false)
  {
    hide HexValue, ToNumber, TrimEnd, BeforeSemicolon;
    BeforeExtension(line.digits, line.ext);
    var s := BeforeSemicolon(line.Text());
    assert s[0] == line.digits[0] && IsHexDigit(s[0]);
    assert TrimStart(s) == s;
    HexPrefixAll(line.digits);
    assert |line.digits| >= 2 ==> IsHexDigit(line.digits[1]);
  }

  /** The decoder finds the end of a size line that has arrived whole. */
  lemma LineEnds(line: seq<Byte>, rest: seq<Byte>)
    requires NoCrlf(line)
    ensures IndexOf(line + CRLF + rest, CRLF, 0) == |line|
  {
    var s := line + CRLF + rest;
    assert s[|line|..|line| + 2] == CRLF;
    assert OccursAt(s, CRLF, |line|);
    forall i | 0 <= i < |line|
      ensures !OccursAt(s, CRLF, i)
    {
      if i + 2 <= |line| {
        assert s[i..i + 2] == line[i..i + 2];
        assert !OccursAt(line, CRLF, i);
      } else {
        assert s[i..i + 2][1] == s[i + 1] == CR;
      }
    }
  }

  // ---- the round trip --------------------------------------------------------------------------

  /** Waiting for a size line, the decoder consumes one that has arrived whole. */
  lemma SizeTurn(line: SizeLine, rest: seq<Byte>)
    requires line.WellFormed() && ToNumber(HexValue(line.digits), false).Integer?
    ensures
      var size := HexValue(line.digits);
      Turn(START.Feed(line.Text() + CRLF + rest))
        == Took(if size == 0 then Framing(rest, Size, 0, true) else Framing(rest, Data, size, false), [])
  {
    var text := line.Text();
    var d := START.Feed(text + CRLF + rest);
    assert d.buf == text + CRLF + rest;
    LineEnds(text, rest);
    LineSizeReads(line);
    assert d.buf[..|text|] == text && d.buf[|text| + 2..] == rest;
  }

  /** Inside a chunk, the decoder releases the data and drops the CRLF that ends it. */
  lemma DataDecodes(data: seq<Byte>, rest: seq<Byte>)
    requires data != []
    ensures
      var after := Drain(START.Feed(rest));
      Drain(Framing(data + CRLF + rest, Data, |data|, false)) == Decoded(after.framing, data + after.payload)
  {
    var d := Framing(data + CRLF + rest, Data, |data|, false);
    var e := Framing(CRLF + rest, Crlf, 0, false);
    assert d.buf[..|data|] == data && d.buf[|data|..] == CRLF + rest;
    assert Turn(d) == Took(e, data);
    assert (CRLF + rest)[2..] == rest == START.Feed(rest).buf;
    assert Turn(e) == Took(START.Feed(rest), []);
    EmptyPayload(e);
  }

  /** A chunk is decoded to its data, leaving the decoder ready for the next size line. */
  lemma ChunkDecodes(c: Chunk, rest: seq<Byte>)
    requires c.WellFormed()
    ensures
      var after := Drain(START.Feed(rest));
      Drain(START.Feed(c.Text() + rest)) == Decoded(after.framing, c.data + after.payload)
  {
    var run := c.data + CRLF + rest;
    assert c.Text() + rest == c.size.Text() + CRLF + run;
    SizeTurn(c.size, run);
    EmptyPayload(START.Feed(c.size.Text() + CRLF + run));
    DataDecodes(c.data, rest);
  }

  lemma EmptyPayload(d: Framing)
    requires d.Valid() && Turn(d).Took? && Turn(d).payload == []
    ensures Drain(d) == Drain(Turn(d).next)
  {
    var r := Drain(Turn(d).next);
    assert [] + r.payload == r.payload;
  }

  /** Decoding an encoded body gives back exactly its data; the trailer stays in the buffer, undelivered. */
  lemma {:induction false} RoundTrip(body: Body)
    requires body.WellFormed()
    ensures Receive(START, body.Encoded()) == Decoded(Framing(body.trailer, Size, 0, true), Payload(body.chunks))
    decreases |body.chunks|
  {
    if body.chunks == [] {
      var d := START.Feed(body.Encoded());
      assert body.Encoded() == body.last.Text() + CRLF + body.trailer;
      NumberZero();
      SizeTurn(body.last, body.trailer);
      EmptyPayload(d);
    } else {
      var tail := body.(chunks := body.chunks[1..]);
      RoundTrip(tail);
      assert body.Encoded() == body.chunks[0].Text() + tail.Encoded();
      ChunkDecodes(body.chunks[0], tail.Encoded());
    }
  }

  lemma NumberZero()
    ensures ToNumber(0, false) == Integer(0)
  {
    Pow2Grows(970, 1024);
  }

  lemma {:induction false} Pow2Grows(a: nat, b: nat)
    requires a < b
    ensures Pow2(a) < Pow2(b) && Pow2(a) > 0
    decreases b - a, b
  {
    if a > 0 {
      Pow2Grows(a - 1, b - 1);
    } else if b > 1 {
      Pow2Grows(0, b - 1);
    }
  }

  /** The same, however the encoded body is cut into segments. */
  lemma RoundTripCut(body: Body, segments: seq<seq<Byte>>)
    requires body.WellFormed() && Join(segments) == body.Encoded()
    ensures
      var r := ReceiveAll(START, segments);
      r.0.done && r.0.buf == body.trailer && Join(r.1) == Payload(body.chunks)
  {
    CutIndependence(START, segments);
    RoundTrip(body);
  }

  /**
    On every prefix of an encoded body, what has been released is a prefix of the data (so no framing byte
    ever leaves), and the decoder is done exactly when the zero-size line has fully arrived.
   */
  lemma PrefixOfBody(body: Body, a: seq<Byte>, b: seq<Byte>)
    requires body.WellFormed() && a + b == body.Encoded()
    ensures Receive(START, a).payload <= Payload(body.chunks)
    ensures Receive(START, a).framing.done <==> |a| >= |body.UpToLast()|
  {
    RoundTrip(body);
    ReceiveCut(START, a, b);
    var upTo := body.UpToLast();
    if |a| >= |upTo| {
      assert a[..|upTo|] == (a + b)[..|upTo|] == body.Encoded()[..|upTo|] == upTo;
      var body' := body.(trailer := a[|upTo|..]);
      assert a == upTo + a[|upTo|..] == body'.Encoded();
      RoundTrip(body');
    } else {
      // Done any earlier, the decoder would keep all of b in its buffer: more than the trailer.
      assert |b| > |body.trailer|;
    }
  }
}
