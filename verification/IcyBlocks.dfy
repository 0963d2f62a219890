/**
  The layout of an ICY stream: `metaint` audio bytes, a length byte counting 16-byte units, that many
  metadata bytes, and so on. Both title readers are proved against these definitions.
 */
module IcyBlocks {
  import opened Basics
  import opened Bytes

  const ICY_EXTRA := 4096

  /** The most decoded bytes either reader looks at. */
  function Cap(metaint: nat): nat {
    metaint * 2 + ICY_EXTRA
  }

  /** What is left of a stream once its leading complete empty blocks are dropped. */
  function Residue(s: seq<Byte>, metaint: nat): (r: seq<Byte>)
    ensures |r| <= |s|
    ensures |r| <= metaint || r[metaint] != 0
  {
    if |s| > metaint && s[metaint] == 0 then Residue(s[metaint + 1..], metaint) else s
  }

  /** The number of bytes the first non-empty block occupies, audio run and length byte included. */
  function BlockSize(r: seq<Byte>, metaint: nat): (n: nat)
    requires |r| > metaint
    ensures n <= metaint + 4081
  {
    metaint + 1 + (r[metaint] as int) * 16
  }

  /** The first non-empty metadata block, once all its bytes are there. */
  function FirstBlock(s: seq<Byte>, metaint: nat): Option<seq<Byte>> {
    var r := Residue(s, metaint);
    if |r| > metaint && |r| >= BlockSize(r, metaint) then Some(r[metaint + 1..BlockSize(r, metaint)]) else None
  }

  /** The position just past the first non-empty block. */
  function BlockEnd(s: seq<Byte>, metaint: nat): (n: nat)
    requires FirstBlock(s, metaint).Some?
    ensures n <= |s|
  {
    var r := Residue(s, metaint);
    |s| - |r| + BlockSize(r, metaint)
  }

  // ---- reading in pieces -----------------------------------------------------------------------

  lemma {:induction false} ResidueResumes(s: seq<Byte>, t: seq<Byte>, metaint: nat)
    ensures Residue(s + t, metaint) == Residue(Residue(s, metaint) + t, metaint)
  {
    if |s| > metaint && s[metaint] == 0 {
      var u := s[metaint + 1..];
      assert (s + t)[metaint + 1..] == u + t;
      assert Residue(s + t, metaint) == Residue(u + t, metaint);
      ResidueResumes(u, t, metaint);
    }
  }

  /** The first block is complete in a prefix exactly when the prefix reaches its end; it is the same block. */
  lemma FirstBlockOfPrefix(s: seq<Byte>, t: seq<Byte>, metaint: nat)
    requires FirstBlock(s + t, metaint).Some?
    ensures FirstBlock(s, metaint) == if |s| >= BlockEnd(s + t, metaint) then FirstBlock(s + t, metaint) else None
    ensures |s| >= BlockEnd(s + t, metaint) ==> BlockEnd(s, metaint) == BlockEnd(s + t, metaint)
  {
    ResidueResumes(s, t, metaint);
    ResidueSkips(s, t, metaint);
    var r := Residue(s, metaint);
    if |r| > metaint {
      assert (r + t)[metaint] == r[metaint];
      assert Residue(r + t, metaint) == r + t;
      if |r| >= BlockSize(r, metaint) {
        FirstBlockGrows(s, t, metaint);
      }
    }
  }

  /** Reading on never gives back a byte that was dropped. */
  lemma {:induction false} ResidueSkips(s: seq<Byte>, t: seq<Byte>, metaint: nat)
    ensures |Residue(s + t, metaint)| <= |Residue(s, metaint)| + |t|
  {
    ResidueResumes(s, t, metaint);
  }

  lemma FirstBlockGrows(s: seq<Byte>, t: seq<Byte>, metaint: nat)
    requires FirstBlock(s, metaint).Some?
    ensures FirstBlock(s + t, metaint) == FirstBlock(s, metaint)
    ensures BlockEnd(s + t, metaint) == BlockEnd(s, metaint)
  {
    ResidueResumes(s, t, metaint);
    var r := Residue(s, metaint);
    assert (r + t)[metaint] == r[metaint];
    assert Residue(r + t, metaint) == r + t;
    var n := BlockSize(r, metaint);
    assert (r + t)[metaint + 1..n] == r[metaint + 1..n];
  }

  /** Without a complete block, fewer than metaint + 4081 bytes are worth keeping. */
  lemma ResidueIsShort(s: seq<Byte>, metaint: nat)
    requires FirstBlock(s, metaint).None?
    ensures |Residue(s, metaint)| < metaint + 4081
  {
    var r := Residue(s, metaint);
    if |r| > metaint {
      assert |r| < BlockSize(r, metaint);
    }
  }

  // ---- printing an ICY stream ------------------------------------------------------------------

  /** Audio runs, each followed by an empty block. */
  function EmptyBlocks(runs: seq<seq<Byte>>): seq<Byte> {
    if runs == [] then [] else runs[0] + [0] + EmptyBlocks(runs[1..])
  }

  /** A stream whose first non-empty block, after `runs` empty ones, holds `meta`. */
  function IcyStream(runs: seq<seq<Byte>>, audio: seq<Byte>, units: Byte, meta: seq<Byte>): seq<Byte> {
    EmptyBlocks(runs) + audio + [units] + meta
  }

  lemma {:induction false} IcyStreamReads(
    metaint: nat, runs: seq<seq<Byte>>, audio: seq<Byte>, units: Byte, meta: seq<Byte>, rest: seq<Byte>)
    requires forall i :: 0 <= i < |runs| ==> |runs[i]| == metaint
    requires |audio| == metaint && units > 0 && |meta| == (units as int) * 16
    ensures
      var stream := IcyStream(runs, audio, units, meta);
      FirstBlock(stream + rest, metaint) == Some(meta) && BlockEnd(stream + rest, metaint) == |stream|
    ensures |IcyStream(runs, audio, units, meta)| == (|runs| + 1) * (metaint + 1) + (units as int) * 16
    decreases |runs|
  {
    var stream := IcyStream(runs, audio, units, meta);
    if runs == [] {
      assert stream + rest == audio + [units] + meta + rest;
      assert (stream + rest)[metaint + 1..metaint + 1 + |meta|] == meta;
    } else {
      var tail := IcyStream(runs[1..], audio, units, meta);
      IcyStreamReads(metaint, runs[1..], audio, units, meta, rest);
      assert stream == runs[0] + [0] + tail;
      assert (stream + rest)[metaint + 1..] == tail + rest;
      assert (|runs| + 1) * (metaint + 1) == (|runs[1..]| + 1) * (metaint + 1) + (metaint + 1);
    }
  }

  /** A title in the first or second block always completes at least 14 bytes before the cap. */
  lemma EarlyBlockBeatsCap(metaint: nat, runs: seq<seq<Byte>>, audio: seq<Byte>, units: Byte, meta: seq<Byte>)
    requires |runs| <= 1 && forall i :: 0 <= i < |runs| ==> |runs[i]| == metaint
    requires |audio| == metaint && units > 0 && |meta| == (units as int) * 16
    ensures |IcyStream(runs, audio, units, meta)| + 14 <= Cap(metaint)
  {
    IcyStreamReads(metaint, runs, audio, units, meta, []);
    if |runs| == 0 {
      assert (|runs| + 1) * (metaint + 1) == metaint + 1;
    } else {
      assert (|runs| + 1) * (metaint + 1) == 2 * (metaint + 1);
    }
  }
}
