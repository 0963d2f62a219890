/**
  A printer of chunked bodies that knows nothing of the decoder: sizes are printed by division by sixteen, with
  literal characters, and the decoder is shown to read them back.
 */
module ChunkedPrinting {
  import opened Bytes
  import opened ChunkedDecoding
  import opened ChunkedEncoding

  // ---- sizes ---------------------------------------------------------------------------------------

  /** `0` to `9`, then `a` to `f` or `A` to `F`. */
  function HexDigit(d: nat, upper: bool): Byte
    requires d < 16
  {
    if upper then [48, 49, 50, 51, 52, 53, 54, 55, 56, 57, 65, 66, 67, 68, 69, 70][d]
    else [48, 49, 50, 51, 52, 53, 54, 55, 56, 57, 97, 98, 99, 100, 101, 102][d]
  }

  /** n in hexadecimal; the case is free for every digit. */
  function Hex(n: nat, upper: nat -> bool): (s: seq<Byte>)
    ensures s != []
  {
    if n < 16 then [HexDigit(n, upper(n))] else Hex(n / 16, upper) + [HexDigit(n % 16, upper(n))]
  }

  function Zeros(k: nat): (s: seq<Byte>)
    ensures |s| == k && forall i :: 0 <= i < k ==> s[i] == 48
  {
    seq(k, _ => 48)
  }

  /** The blanks of latin1 text that can stand around a size on one line. */
  predicate AreBlanks(s: seq<Byte>) {
    forall i :: 0 <= i < |s| ==> s[i] in {9, 11, 12, 32, 160}
  }

  /** Blanks, and after a semicolon anything without a line end. */
  predicate IsTail(tail: seq<Byte>) {
    exists n: nat :: n <= |tail| && AreBlanks(tail[..n]) && (n == |tail| || tail[n] == 59)
  }

  predicate HasNoLineEnd(s: seq<Byte>) {
    forall i :: 0 <= i < |s| - 1 ==> !(s[i] == 13 && s[i + 1] == 10)
  }

  lemma {:induction false} HexReads(n: nat, upper: nat -> bool)
    ensures AllHex(Hex(n, upper)) && HexValue(Hex(n, upper)) == n
  {
    if n < 16 {
      OneDigit(n, upper(n));
    } else {
      HexReads(n / 16, upper);
      LastDigit(Hex(n / 16, upper), n % 16, upper(n));
    }
  }

  lemma OneDigit(d: nat, upper: bool)
    requires d < 16
    ensures AllHex([HexDigit(d, upper)]) && HexValue([HexDigit(d, upper)]) == d == DigitValue(HexDigit(d, upper))
  {
    assert HexValue([]) == 0 && [HexDigit(d, upper)][..0] == [];
  }

  lemma LastDigit(s: seq<Byte>, d: nat, upper: bool)
    requires AllHex(s) && d < 16
    ensures AllHex(s + [HexDigit(d, upper)]) && HexValue(s + [HexDigit(d, upper)]) == 16 * HexValue(s) + d
  {
    OneDigit(d, upper);
    assert (s + [HexDigit(d, upper)])[..|s|] == s;
  }

  lemma {:induction false} LeadingZeros(k: nat, s: seq<Byte>)
    requires AllHex(s)
    ensures AllHex(Zeros(k) + s) && HexValue(Zeros(k) + s) == HexValue(s)
    decreases |s|, k
  {
    var t := Zeros(k) + s;
    if s != [] {
      LeadingZeros(k, s[..|s| - 1]);
      assert t[..|t| - 1] == Zeros(k) + s[..|s| - 1];
    } else if k > 0 {
      LeadingZeros(k - 1, s);
      assert t[..|t| - 1] == Zeros(k - 1) + s;
    }
  }

  lemma {:induction false} TailIsExtension(tail: seq<Byte>, n: nat)
    requires n <= |tail| && AreBlanks(tail[..n]) && (n == |tail| || tail[n] == 59)
    ensures IsExtension(tail)
    decreases n
  {
    if n > 0 {
      assert tail[..n][0] == tail[0];
      assert tail[1..][..n - 1] == tail[..n][1..];
      TailIsExtension(tail[1..], n - 1);
    }
  }

  lemma {:induction false} BlanksBefore(blanks: seq<Byte>, s: seq<Byte>)
    requires AreBlanks(blanks)
    ensures BeforeSemicolon(blanks + s) == blanks + BeforeSemicolon(s) && TrimStart(blanks + s) == TrimStart(s)
  {
    if blanks == [] {
      assert blanks + s == s && blanks + BeforeSemicolon(s) == BeforeSemicolon(s);
    } else {
      assert (blanks + s)[1..] == blanks[1..] + s;
      BlanksBefore(blanks[1..], s);
      assert blanks == [blanks[0]] + blanks[1..];
    }
  }

  /** Below 2^53, far past any buffer, a size is an integer; what a double rounds starts there. */
  lemma SmallIsInteger(n: nat, negative: bool)
    requires n < 0x20_0000_0000_0000
    ensures ToNumber(n, negative) == Integer(if negative then 0 - n else n)
  {
    PowersUpTo53();
    Pow2Grows(53, 1023);
    Pow2Grows(970, 1023);
    assert Pow2(1024) == 2 * Pow2(1023);
  }

  lemma PowersUpTo53()
    ensures Pow2(53) == 0x20_0000_0000_0000
  {
    hide Pow2;
    SmallPowers();
    PowersAdd(4, 4);
    PowersAdd(8, 8);
    PowersAdd(16, 16);
    PowersAdd(32, 16);
    PowersAdd(48, 5);
  }

  lemma SmallPowers()
    ensures Pow2(4) == 16 && Pow2(5) == 32
  {
  }

  lemma {:induction false} PowersAdd(a: nat, b: nat)
    ensures Pow2(a + b) == Pow2(a) * Pow2(b)
  {
    if b > 0 {
      PowersAdd(a, b - 1);
      assert Pow2(a + b) == 2 * Pow2(a + (b - 1));
    }
  }

  // ---- reading sizes back ----------------------------------------------------------------------------

  /** What may stand before the digits: a sign, then an `0x` or `0X`. */
  datatype Prefix = Prefix(sign: bool, minus: bool, marked: bool, upper: bool) {
    function Text(): seq<Byte> {
      (if !sign then [] else if minus then [45] else [43])
      + (if !marked then [] else if upper then [48, 88] else [48, 120])
    }
  }

  lemma PrefixedParses(p: Prefix, digits: seq<Byte>)
    requires digits != [] && AllHex(digits)
    ensures ParseInt16(p.Text() + digits) == ToNumber(HexValue(digits), p.sign && p.minus)
  {
    hide HexValue, ToNumber, ParseInt16;
    var mark := if !p.marked then [] else if p.upper then [48, 88] else [48, 120];
    var s := p.Text() + digits;
    MarkDropped(p.marked, p.upper, digits);
    if p.sign {
      assert s == [if p.minus then 45 else 43] + (mark + digits);
      SignDropped(s, mark + digits, digits);
    } else {
      assert s == mark + digits;
      NoSign(s, digits);
    }
  }

  /** A sign is taken off. */
  lemma SignDropped(s: seq<Byte>, u: seq<Byte>, digits: seq<Byte>)
    requires digits != [] && AllHex(digits) && s != [] && (s[0] == 43 || s[0] == 45) && s[1..] == u
    requires (if |u| >= 2 && u[0] == 48 && (u[1] == 120 || u[1] == 88) then u[2..] else u) == digits
    ensures ParseInt16(s) == ToNumber(HexValue(digits), s[0] == 45)
  {
    hide HexValue, ToNumber;
    HexPrefixAll(digits);
    hide HexPrefix;
    assert TrimStart(s) == s;
  }

  lemma NoSign(u: seq<Byte>, digits: seq<Byte>)
    requires digits != [] && AllHex(digits) && u != [] && !IsSpace(u[0]) && u[0] != 43 && u[0] != 45
    requires (if |u| >= 2 && u[0] == 48 && (u[1] == 120 || u[1] == 88) then u[2..] else u) == digits
    ensures ParseInt16(u) == ToNumber(HexValue(digits), false)
  {
    hide HexValue, ToNumber;
    HexPrefixAll(digits);
    hide HexPrefix;
    assert TrimStart(u) == u;
  }

  /** Dropping a leading `0x` leaves the digits, and nothing else is taken for one. */
  lemma MarkDropped(marked: bool, upper: bool, digits: seq<Byte>)
    requires digits != [] && AllHex(digits)
    ensures
      var u := (if !marked then [] else if upper then [48, 88] else [48, 120]) + digits;
      && !IsSpace(u[0]) && u[0] != 43 && u[0] != 45
      && (if |u| >= 2 && u[0] == 48 && (u[1] == 120 || u[1] == 88) then u[2..] else u) == digits
  {
    if !marked {
      assert [] + digits == digits;
      assert |digits| >= 2 ==> IsHexDigit(digits[1]);
    }
  }

  /** A size line: blanks, a prefix, zeros, the size, and a tail. */
  function SizeText(
    lead: seq<Byte>, p: Prefix, zeros: nat, n: nat, upper: nat -> bool, tail: seq<Byte>): seq<Byte>
  {
    lead + (p.Text() + (Zeros(zeros) + Hex(n, upper)) + tail)
  }

  /**
    Any printed size is read back: whatever the case of its digits, leading zeros, blanks around it, extensions, and
    even a sign or an `0x`, which the parser of numbers accepts.
   */
  lemma PrintedSizeReads(lead: seq<Byte>, p: Prefix, zeros: nat, n: nat, upper: nat -> bool, tail: seq<Byte>)
    requires AreBlanks(lead) && IsTail(tail) && n < 0x20_0000_0000_0000
    ensures LineSize(SizeText(lead, p, zeros, n, upper, tail)) == Integer(if p.sign && p.minus then 0 - n else n)
  {
    var digits := Zeros(zeros) + Hex(n, upper);
    var core := p.Text() + digits;
    HexReads(n, upper);
    LeadingZeros(zeros, Hex(n, upper));
    SmallIsInteger(n, p.sign && p.minus);
    var k: nat :| k <= |tail| && AreBlanks(tail[..k]) && (k == |tail| || tail[k] == 59);
    TailIsExtension(tail, k);
    assert IsPlain(core) by { PrefixIsPlain(p, digits); }
    BeforeExtension(core, tail);
    BlanksBefore(lead, core + tail);
    BlanksBefore(lead, BeforeSemicolon(core + tail));
    var s := BeforeSemicolon(core + tail);
    assert !IsSpace(s[0]);
    assert TrimStart(s) == s;
    PrefixedParses(p, digits);
  }

  lemma PrefixIsPlain(p: Prefix, digits: seq<Byte>)
    requires AllHex(digits)
    ensures IsPlain(p.Text() + digits)
  {
  }

  /** What follows the digits is ignored, as the parser of numbers does, even without a semicolon. */
  lemma JunkIsIgnored(n: nat, upper: nat -> bool, junk: seq<Byte>)
    requires n < 0x20_0000_0000_0000 && junk != [] && IsPlain(junk)
    requires !IsHexDigit(junk[0]) && junk[0] != 88 && junk[0] != 120
    ensures LineSize(Hex(n, upper) + junk) == Integer(n)
  {
    var digits, line := Hex(n, upper), Hex(n, upper) + junk;
    HexReads(n, upper);
    SmallIsInteger(n, false);
    PrefixStops(digits, junk);
    hide Hex, HexValue, ToNumber, HexPrefix, ParseInt16, BeforeSemicolon, TrimEnd;
    assert IsPlain(line);
    BeforeExtension(line, []);
    assert line + [] == line && line[0] == digits[0];
    assert TrimStart(BeforeSemicolon(line)) == BeforeSemicolon(line);
    assert |digits| >= 2 ==> IsHexDigit(digits[1]);
    assert line[1] == if |digits| >= 2 then digits[1] else junk[0];
    PlainParses(line);
  }

  lemma PlainParses(u: seq<Byte>)
    requires |u| >= 2 && IsHexDigit(u[0]) && u[1] != 88 && u[1] != 120
    ensures ParseInt16(u) == ToNumber(HexValue(HexPrefix(u)), false)
  {
    hide HexValue, ToNumber;
    assert HexPrefix(u) != [];
    hide HexPrefix;
    assert TrimStart(u) == u;
  }

  lemma {:induction false} PrefixStops(digits: seq<Byte>, junk: seq<Byte>)
    requires AllHex(digits) && junk != [] && !IsHexDigit(junk[0])
    ensures HexPrefix(digits + junk) == digits
  {
    if digits == [] {
      assert digits + junk == junk;
    } else {
      PrefixStops(digits[1..], junk);
      assert (digits + junk)[1..] == digits[1..] + junk && digits == [digits[0]] + digits[1..];
    }
  }

  /** A line that starts with none of blanks, a sign or a hexadecimal digit is no size: the body ends there. */
  lemma MalformedSizeEnds(line: seq<Byte>, rest: seq<Byte>)
    requires line != [] && HasNoLineEnd(line)
    requires line[0] !in {9, 10, 11, 12, 13, 32, 160, 43, 45}
    requires !(48 <= line[0] <= 57) && !(65 <= line[0] <= 70) && !(97 <= line[0] <= 102)
    ensures Turn(START.Feed(line + [13, 10] + rest)) == Took(Framing(rest, Size, 0, true), [])
  {
    var d := START.Feed(line + [13, 10] + rest);
    assert d.buf == line + CRLF + rest;
    NoLineEndIs(line);
    LineEnds(line, rest);
    assert d.buf[..|line|] == line && d.buf[|line| + 2..] == rest;
    NotANumber(line);
  }

  lemma NoLineEndIs(line: seq<Byte>)
    requires HasNoLineEnd(line)
    ensures NoCrlf(line)
  {
    forall i | 0 <= i < |line|
      ensures !OccursAt(line, CRLF, i)
    {
      if i + 2 <= |line| {
        assert line[i..i + 2] == [line[i], line[i + 1]];
      }
    }
  }

  lemma NotANumber(line: seq<Byte>)
    requires line != [] && !IsSpace(line[0]) && line[0] !in {43, 45} && !IsHexDigit(line[0])
    ensures LineSize(line) == NaN
  {
    var s := BeforeSemicolon(line);
    if s != [] {
      assert s[0] == line[0];
      TrimEndCons(s[0], s[1..]);
      assert s == [s[0]] + s[1..];
      var t := TrimEnd(TrimStart(s));
      assert t[0] == line[0] && TrimStart(t) == t;
    } else {
      assert TrimEnd(TrimStart(s)) == [];
    }
  }

  // ---- bodies --------------------------------------------------------------------------------------------

  datatype Printed = Printed(zeros: nat, upper: nat -> bool, tail: seq<Byte>, data: seq<Byte>) {
    /** A chunk that holds something, short enough for a buffer, whose size line is one line. */
    ghost predicate Fits() {
      0 < |data| < 0x20_0000_0000_0000 && IsTail(tail) && HasNoLineEnd(Line())
    }

    function Line(): seq<Byte> {
      Zeros(zeros) + Hex(|data|, upper) + tail
    }

    function Text(): seq<Byte> {
      Line() + [13, 10] + data + [13, 10]
    }
  }

  function PrintAll(chunks: seq<Printed>): seq<Byte> {
    if chunks == [] then [] else chunks[0].Text() + PrintAll(chunks[1..])
  }

  function DataOf(chunks: seq<Printed>): seq<Byte> {
    if chunks == [] then [] else chunks[0].data + DataOf(chunks[1..])
  }

  /** Chunks, a line of zeros, and whatever follows. */
  function PrintBody(chunks: seq<Printed>, zeros: nat, tail: seq<Byte>, trailer: seq<Byte>): seq<Byte> {
    PrintAll(chunks) + (Zeros(zeros) + [48] + tail + [13, 10]) + trailer
  }

  ghost predicate BodyFits(chunks: seq<Printed>, zeros: nat, tail: seq<Byte>) {
    && (forall i :: 0 <= i < |chunks| ==> chunks[i].Fits())
    && IsTail(tail) && HasNoLineEnd(Zeros(zeros) + [48] + tail)
  }

  /** The same chunk as the decoder's own grammar describes it. */
  function Parsed(c: Printed): Chunk {
    Chunk(SizeLine(Zeros(c.zeros) + Hex(|c.data|, c.upper), c.tail), c.data)
  }

  function ParsedAll(chunks: seq<Printed>): (r: seq<Chunk>)
    ensures |r| == |chunks| && forall i :: 0 <= i < |r| ==> r[i] == Parsed(chunks[i])
  {
    seq(|chunks|, i requires 0 <= i < |chunks| => Parsed(chunks[i]))
  }

  function ParsedBody(chunks: seq<Printed>, zeros: nat, tail: seq<Byte>, trailer: seq<Byte>): Body {
    Body(ParsedAll(chunks), SizeLine(Zeros(zeros) + [48], tail), trailer)
  }

  lemma ChunkParses(c: Printed)
    requires c.Fits()
    ensures Parsed(c).WellFormed() && Parsed(c).Text() == c.Text()
  {
    LineParses(c.zeros, |c.data|, c.upper, c.tail);
    SmallIsInteger(|c.data|, false);
  }

  lemma LineParses(zeros: nat, n: nat, upper: nat -> bool, tail: seq<Byte>)
    requires IsTail(tail) && HasNoLineEnd(Zeros(zeros) + Hex(n, upper) + tail)
    ensures SizeLine(Zeros(zeros) + Hex(n, upper), tail).WellFormed()
    ensures HexValue(Zeros(zeros) + Hex(n, upper)) == n
  {
    HexReads(n, upper);
    LeadingZeros(zeros, Hex(n, upper));
    var k: nat :| k <= |tail| && AreBlanks(tail[..k]) && (k == |tail| || tail[k] == 59);
    TailIsExtension(tail, k);
    NoLineEndIs(Zeros(zeros) + Hex(n, upper) + tail);
  }

  lemma {:induction false} AllParse(chunks: seq<Printed>)
    requires forall i :: 0 <= i < |chunks| ==> chunks[i].Fits()
    ensures forall i :: 0 <= i < |chunks| ==> ParsedAll(chunks)[i].WellFormed()
    ensures Chunks(ParsedAll(chunks)) == PrintAll(chunks) && Payload(ParsedAll(chunks)) == DataOf(chunks)
  {
    if chunks != [] {
      ChunkParses(chunks[0]);
      AllParse(chunks[1..]);
      assert ParsedAll(chunks)[1..] == ParsedAll(chunks[1..]);
    }
  }

  lemma BodyParses(chunks: seq<Printed>, zeros: nat, tail: seq<Byte>, trailer: seq<Byte>)
    requires BodyFits(chunks, zeros, tail)
    ensures
      var body := ParsedBody(chunks, zeros, tail, trailer);
      && body.WellFormed() && body.Encoded() == PrintBody(chunks, zeros, tail, trailer)
      && Payload(body.chunks) == DataOf(chunks)
  {
    AllParse(chunks);
    assert Hex(0, _ => false) == [48];
    LineParses(zeros, 0, _ => false, tail);
  }

  /** Any printed body, cut in any way, is decoded to exactly its data; the decoder is done and holds the trailer. */
  lemma PrintedRoundTrip(
    chunks: seq<Printed>, zeros: nat, tail: seq<Byte>, trailer: seq<Byte>, segments: seq<seq<Byte>>)
    requires BodyFits(chunks, zeros, tail) && Join(segments) == PrintBody(chunks, zeros, tail, trailer)
    ensures
      var r := ReceiveAll(START, segments);
      r.0 == Framing(trailer, Size, 0, true) && Join(r.1) == DataOf(chunks)
  {
    BodyParses(chunks, zeros, tail, trailer);
    var body := ParsedBody(chunks, zeros, tail, trailer);
    CutIndependence(START, segments);
    RoundTrip(body);
  }
}
