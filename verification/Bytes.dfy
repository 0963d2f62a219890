/** Byte sequences: the part of Node's Buffer and of Number.parseInt that the media proxy relies on. */
module Bytes {
  type Byte = x: int | 0 <= x < 256

  const CR: Byte := 13
  const LF: Byte := 10
  const CRLF: seq<Byte> := [CR, LF]
  const BLANK_LINE: seq<Byte> := [CR, LF, CR, LF]
  const SEMICOLON: Byte := 59

  // ---- joining segments ------------------------------------------------------------------------

  /** Buffer.concat of all the parts. */
  function Join<T>(parts: seq<seq<T>>): seq<T> {
    if parts == [] then [] else parts[0] + Join(parts[1..])
  }

  lemma Assoc<T>(a: seq<T>, b: seq<T>, c: seq<T>)
    ensures (a + b) + c == a + (b + c)
  {
  }

  lemma {:induction false} JoinAppend<T>(a: seq<seq<T>>, b: seq<seq<T>>)
    ensures Join(a + b) == Join(a) + Join(b)
  {
    if a == [] {
      assert a + b == b;
    } else {
      JoinAppend(a[1..], b);
      assert (a + b)[1..] == a[1..] + b;
      Assoc(a[0], Join(a[1..]), Join(b));
    }
  }

  lemma JoinOne<T>(part: seq<T>)
    ensures Join([part]) == part
  {
  }

  // ---- searching -------------------------------------------------------------------------------

  predicate OccursAt(s: seq<Byte>, pat: seq<Byte>, i: int) {
    0 <= i && i + |pat| <= |s| && s[i..i + |pat|] == pat
  }

  /** Buffer.indexOf: the first position at or after `from` where `pat` occurs, or -1. */
  function IndexOf(s: seq<Byte>, pat: seq<Byte>, from: nat): (r: int)
    ensures r == -1 ==> forall i :: from <= i ==> !OccursAt(s, pat, i)
    ensures r != -1 ==> from <= r && OccursAt(s, pat, r) && forall i :: from <= i < r ==> !OccursAt(s, pat, i)
    decreases |s| - from
  {
    if from + |pat| > |s| then -1
    else if OccursAt(s, pat, from) then from
    else if from < |s| then IndexOf(s, pat, from + 1)
    else -1
  }

  /** More bytes at the end do not move an occurrence that was already found. */
  lemma IndexOfExtends(s: seq<Byte>, t: seq<Byte>, pat: seq<Byte>)
    requires IndexOf(s, pat, 0) != -1
    ensures IndexOf(s + t, pat, 0) == IndexOf(s, pat, 0)
  {
    var i := IndexOf(s, pat, 0);
    assert (s + t)[i..i + |pat|] == s[i..i + |pat|];
    assert OccursAt(s + t, pat, i);
    var j := IndexOf(s + t, pat, 0);
    assert j <= i;
    if j < i {
      assert s[j..j + |pat|] == (s + t)[j..j + |pat|];
      assert OccursAt(s, pat, j);
    }
  }

  // ---- String.trim and Number.parseInt(_, 16) on latin1 text -----------------------------------

  /** The latin1 characters String.prototype.trim removes. */
  predicate IsSpace(b: Byte) {
    b == 9 || b == 10 || b == 11 || b == 12 || b == 13 || b == 32 || b == 160
  }

  function TrimStart(s: seq<Byte>): seq<Byte> {
    if s != [] && IsSpace(s[0]) then TrimStart(s[1..]) else s
  }

  function TrimEnd(s: seq<Byte>): seq<Byte> {
    if s != [] && IsSpace(s[|s| - 1]) then TrimEnd(s[..|s| - 1]) else s
  }

  /** `line.split(";")[0]` */
  function BeforeSemicolon(s: seq<Byte>): seq<Byte> {
    if s == [] || s[0] == SEMICOLON then [] else [s[0]] + BeforeSemicolon(s[1..])
  }

  predicate IsHexDigit(b: Byte) {
    48 <= b <= 57 || 65 <= b <= 70 || 97 <= b <= 102
  }

  function DigitValue(b: Byte): nat
    requires IsHexDigit(b)
  {
    if b <= 57 then b - 48 else if b <= 70 then b - 55 else b - 87
  }

  predicate AllHex(s: seq<Byte>) {
    forall i :: 0 <= i < |s| ==> IsHexDigit(s[i])
  }

  function HexValue(s: seq<Byte>): nat
    requires AllHex(s)
  {
    if s == [] then 0 else 16 * HexValue(s[..|s| - 1]) + DigitValue(s[|s| - 1])
  }

  function HexPrefix(s: seq<Byte>): (r: seq<Byte>)
    ensures AllHex(r)
  {
    if s != [] && IsHexDigit(s[0]) then [s[0]] + HexPrefix(s[1..]) else []
  }

  function Pow2(n: nat): nat {
    if n == 0 then 1 else 2 * Pow2(n - 1)
  }

  /** What Number.parseInt can answer: NaN, Infinity of either sign, or an integer. */
  datatype JsNumber = NaN | Infinite | Integer(n: int)

  /** An integer literal as a Number: the halfway point past the largest double rounds to Infinity. */
  function ToNumber(magnitude: nat, negative: bool): JsNumber {
    if magnitude >= Pow2(1024) - Pow2(970) then Infinite
    else Integer(if negative then 0 - magnitude else magnitude)
  }

  /** Number.parseInt(s, 16): blanks, a sign, an optional 0x, then the longest run of hex digits. */
  function ParseInt16(s: seq<Byte>): JsNumber {
    var t := TrimStart(s);
    var negative := t != [] && t[0] == 45;
    var u := if t != [] && (t[0] == 43 || t[0] == 45) then t[1..] else t;
    var v := if |u| >= 2 && u[0] == 48 && (u[1] == 120 || u[1] == 88) then u[2..] else u;
    var digits := HexPrefix(v);
    if digits == [] then NaN else ToNumber(HexValue(digits), negative)
  }
}
