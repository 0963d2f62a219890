/** The title reader of the dev server: counts bytes instead of buffering the stream. */
module IcyCounter {
  import opened Basics
  import opened Bytes
  import opened IcyBlocks
  import opened IcyTitleScan

  /** Reads whole segments while the total is below the cap; the first complete block wins. */
  function ReadOver(metaint: nat, cap: int, seen: seq<Byte>, segments: seq<seq<Byte>>): Option<seq<Byte>>
    decreases |segments|
  {
    if |seen| >= cap || segments == [] then None
    else
      var now := seen + segments[0];
      if FirstBlock(now, metaint).Some? then FirstBlock(now, metaint)
      else ReadOver(metaint, cap, now, segments[1..])
  }

  /** What the three counters and the metadata buffer say about the bytes read so far. */
  ghost predicate Counts(
    metaint: nat, seen: seq<Byte>, bytesUntilMeta: int, metaLength: int, metaCollected: int, meta: seq<Byte>)
  {
    var r := Residue(seen, metaint);
    if |r| <= metaint then
      bytesUntilMeta == metaint - |r| && metaLength == -1
    else
      && bytesUntilMeta == 0
      && metaLength == (r[metaint] as int) * 16 == |meta|
      && 0 <= metaCollected == |r| - metaint - 1 < metaLength
      && meta[..metaCollected] == r[metaint + 1..]
  }

  lemma CountsNoBlock(
    metaint: nat, seen: seq<Byte>, bytesUntilMeta: int, metaLength: int, metaCollected: int, meta: seq<Byte>)
    requires Counts(metaint, seen, bytesUntilMeta, metaLength, metaCollected, meta)
    ensures FirstBlock(seen, metaint).None?
  {
  }

  lemma CountSkip(
    metaint: nat, seen: seq<Byte>, piece: seq<Byte>, until: int, length: int, collected: int, meta: seq<Byte>)
    requires Counts(metaint, seen, until, length, collected, meta) && |piece| <= until
    ensures Counts(metaint, seen + piece, until - |piece|, length, collected, meta)
  {
    ResidueResumes(seen, piece, metaint);
  }

  lemma CountLength(
    metaint: nat, seen: seq<Byte>, b: Byte, until: int, length: int, collected: int, meta: seq<Byte>, blank: seq<Byte>)
    requires Counts(metaint, seen, until, length, collected, meta) && until == 0 && length == -1
    requires |blank| == (b as int) * 16
    ensures b == 0 ==> Counts(metaint, seen + [b], metaint, -1, collected, meta)
    ensures b != 0 ==> Counts(metaint, seen + [b], 0, |blank|, 0, blank)
  {
    ResidueResumes(seen, [b], metaint);
    var r := Residue(seen, metaint) + [b];
    assert r[metaint] == b && r[metaint + 1..] == [];
    assert Residue([], metaint) == [];
  }

  lemma CountTake(
    metaint: nat, seen: seq<Byte>, piece: seq<Byte>, until: int, length: int, collected: int,
    meta: seq<Byte>, filled: seq<Byte>)
    requires Counts(metaint, seen, until, length, collected, meta) && until == 0 && length != -1
    requires collected + |piece| <= length == |filled|
    requires filled[..collected + |piece|] == meta[..collected] + piece
    ensures
      if collected + |piece| < length
      then Counts(metaint, seen + piece, until, length, collected + |piece|, filled)
      else FirstBlock(seen + piece, metaint) == Some(filled)
  {
    ResidueResumes(seen, piece, metaint);
    var r := Residue(seen, metaint);
    assert (r + piece)[metaint] == r[metaint];
    assert (r + piece)[metaint + 1..] == r[metaint + 1..] + piece == filled[..collected + |piece|];
    if collected + |piece| == length {
      assert filled[..length] == filled;
      assert (r + piece)[metaint + 1..BlockSize(r + piece, metaint)] == (r + piece)[metaint + 1..];
    }
  }

  /** The audio bytes before a length byte; a negative interval, which nothing refuses, counts as none. */
  function AudioRun(metaint: int): nat {
    if metaint > 0 then metaint else 0
  }

  method ReadIcyTitle(metaint: int, segments: seq<seq<Byte>>) returns (block: Option<seq<Byte>>)
    ensures
      block == if metaint == 0 then None else ReadOver(AudioRun(metaint), metaint * 2 + 4096, [], segments)
  {
    if metaint == 0 {
      return None;
    }
    var maxBytes := metaint * 2 + ICY_EXTRA;
    var bytesUntilMeta, metaLength, metaCollected := metaint, -1, 0;
    var metaBuffer := new Byte[0](_ => 0);
    var total := 0;
    var next := 0;
    ghost var seen: seq<Byte> := [];
    while total < maxBytes && next < |segments|
      invariant 0 <= next <= |segments|
      invariant total == |seen| && fresh(metaBuffer)
      invariant Counts(AudioRun(metaint), seen, AudioRun(bytesUntilMeta), metaLength, metaCollected, metaBuffer[..])
      invariant ReadOver(AudioRun(metaint), maxBytes, [], segments)
        == ReadOver(AudioRun(metaint), maxBytes, seen, segments[next..])
      decreases |segments| - next
    {
      var value := segments[next];
      total := total + |value|;
      bytesUntilMeta, metaLength, metaCollected, metaBuffer, block :=
        ReadSegment(metaint, seen, value, bytesUntilMeta, metaLength, metaCollected, metaBuffer);
      if block.Some? {
        return;
      }
      seen := seen + value;
      assert segments[next..][1..] == segments[next + 1..];
      next := next + 1;
    }
    return None;
  }

  /** Uint8Array.set */
  method SetBytes(a: array<Byte>, bytes: seq<Byte>, at: nat)
    requires at + |bytes| <= a.Length
    modifies a
    ensures a[..] == old(a[..at]) + bytes + old(a[at + |bytes|..])
    ensures a[..at + |bytes|] == old(a[..])[..at] + bytes
  {
    forall k | 0 <= k < |bytes| {
      a[at + k] := bytes[k];
    }
  }

  /** The last branch of the inner loop: collects metadata bytes from what is left of the segment. */
  method TakeMeta(
    metaint: nat, ghost seen: seq<Byte>, left: seq<Byte>, metaLength: int, collected: int, metaBuffer: array<Byte>)
    returns (take: nat, metaCollected: int)
    requires Counts(metaint, seen, 0, metaLength, collected, metaBuffer[..]) && metaLength != -1 && left != []
    modifies metaBuffer
    ensures 0 < take <= |left|
    ensures
      if metaCollected < metaLength
      then Counts(metaint, seen + left[..take], 0, metaLength, metaCollected, metaBuffer[..])
      else FirstBlock(seen + left[..take], metaint) == Some(metaBuffer[..])
  {
    take := if metaLength - collected < |left| then metaLength - collected else |left|;
    ghost var kept := metaBuffer[..];
    SetBytes(metaBuffer, left[..take], collected);
    CountTake(metaint, seen, left[..take], 0, metaLength, collected, kept, metaBuffer[..]);
    metaCollected := collected + take;
  }

  /** The middle branch: the length byte of a block, which is either skipped or starts collecting. */
  method ReadLength(
    metaint: int, ghost seen: seq<Byte>, b: Byte, until: int, collected: int, buffer: array<Byte>)
    returns (bytesUntilMeta: int, metaLength: int, metaCollected: int, metaBuffer: array<Byte>)
    requires until <= 0 && Counts(AudioRun(metaint), seen, 0, -1, collected, buffer[..])
    ensures metaBuffer == buffer || fresh(metaBuffer)
    ensures Counts(AudioRun(metaint), seen + [b], AudioRun(bytesUntilMeta), metaLength, metaCollected, metaBuffer[..])
  {
    hide Counts;
    bytesUntilMeta, metaLength, metaCollected, metaBuffer := until, (b as int) * 16, collected, buffer;
    if metaLength == 0 {
      CountLength(AudioRun(metaint), seen, b, 0, -1, collected, buffer[..], []);
      bytesUntilMeta := metaint;
      metaLength := -1;
    } else {
      metaBuffer := new Byte[metaLength](_ => 0);
      CountLength(AudioRun(metaint), seen, b, 0, -1, collected, buffer[..], metaBuffer[..]);
      metaCollected := 0;
    }
  }

  /** A segment read up to i, and then n bytes more. */
  lemma ReadOn(seen: seq<Byte>, value: seq<Byte>, i: nat, n: nat)
    requires i + n <= |value|
    ensures (seen + value[..i]) + value[i..i + n] == seen + value[..i + n]
    ensures value[i..][..n] == value[i..i + n]
    ensures (seen + value[..i]) + value[i..] == seen + value
  {
  }

  /** The inner loop: walks one segment, which follows the bytes `seen`, and returns the local variables. */
  method ReadSegment(
    metaint: int, ghost seen: seq<Byte>, value: seq<Byte>,
    until: int, length: int, collected: int, buffer: array<Byte>)
    returns (
      bytesUntilMeta: int, metaLength: int, metaCollected: int, metaBuffer: array<Byte>, block: Option<seq<Byte>>)
    requires Counts(AudioRun(metaint), seen, AudioRun(until), length, collected, buffer[..])
    modifies buffer
    ensures metaBuffer == buffer || fresh(metaBuffer)
    ensures block == FirstBlock(seen + value, AudioRun(metaint))
    ensures block.None? ==>
      Counts(AudioRun(metaint), seen + value, AudioRun(bytesUntilMeta), metaLength, metaCollected, metaBuffer[..])
  {
    hide Residue, Counts, FirstBlock;
    bytesUntilMeta, metaLength, metaCollected, metaBuffer, block := until, length, collected, buffer, None;
    var i := 0;
    assert seen + value[..0] == seen;
    while i < |value|
      invariant 0 <= i <= |value| && (metaBuffer == buffer || fresh(metaBuffer))
      invariant Counts(
        AudioRun(metaint), seen + value[..i], AudioRun(bytesUntilMeta), metaLength, metaCollected, metaBuffer[..])
    {
      ghost var sofar := seen + value[..i];
      if bytesUntilMeta > 0 {
        var skip := if bytesUntilMeta < |value| - i then bytesUntilMeta else |value| - i;
        CountSkip(
          AudioRun(metaint), sofar, value[i..i + skip], bytesUntilMeta, metaLength, metaCollected, metaBuffer[..]);
        ReadOn(seen, value, i, skip);
        i := i + skip;
        bytesUntilMeta := bytesUntilMeta - skip;
      } else if metaLength == -1 {
        ReadOn(seen, value, i, 1);
        assert value[i..i + 1] == [value[i]];
        bytesUntilMeta, metaLength, metaCollected, metaBuffer :=
          ReadLength(metaint, sofar, value[i], bytesUntilMeta, metaCollected, metaBuffer);
        i := i + 1;
      } else {
        var take;
        take, metaCollected := TakeMeta(AudioRun(metaint), sofar, value[i..], metaLength, metaCollected, metaBuffer);
        ReadOn(seen, value, i, take);
        i := i + take;
        if metaCollected >= metaLength {
          ReadOn(seen, value, i, 0);
          FirstBlockGrows(seen + value[..i], value[i..], AudioRun(metaint));
          block := Some(metaBuffer[..]);
          return;
        }
      }
    }
    assert seen + value[..i] == seen + value;
    CountsNoBlock(AudioRun(metaint), seen + value, AudioRun(bytesUntilMeta), metaLength, metaCollected, metaBuffer[..]);
  }

  // ---- agreement with the buffered reader ------------------------------------------------------

  /** The block completes in the very segment that takes the total to the cap. */
  predicate Overshoots(metaint: nat, cap: nat, seen: seq<Byte>, segments: seq<seq<Byte>>)
    decreases |segments|
  {
    segments != [] &&
    var now := seen + segments[0];
    if FirstBlock(now, metaint).Some? then |now| >= cap
    else |now| < cap && Overshoots(metaint, cap, now, segments[1..])
  }

  /** The two readers resolve to the same block, or both to none, exactly when no segment overshoots. */
  lemma {:induction false} ReadersAgreeExactly(metaint: nat, cap: nat, seen: seq<Byte>, segments: seq<seq<Byte>>)
    requires Undecided(metaint, cap, seen)
    ensures
      var v := ObserveAll(metaint, cap, Waiting(seen), segments);
      var scanned := if v.Found? then Some(v.block) else None;
      var counted := ReadOver(metaint, cap, seen, segments);
      && (scanned == counted <==> !Overshoots(metaint, cap, seen, segments))
      && (Overshoots(metaint, cap, seen, segments) ==> scanned.None? && counted.Some?)
    decreases |segments|
  {
    if segments != [] {
      var now := seen + segments[0];
      if segments[0] == [] {
        assert now == seen;
      }
      if Judge(metaint, cap, now).Waiting? {
        ReadersAgreeExactly(metaint, cap, now, segments[1..]);
      } else {
        DecidedStays(metaint, cap, Judge(metaint, cap, now), segments[1..]);
      }
    }
  }

  /** In particular they agree on every segmentation that stays below the cap. */
  lemma {:induction false} NoOvershootBelowCap(metaint: nat, cap: nat, seen: seq<Byte>, segments: seq<seq<Byte>>)
    requires |seen| + |Join(segments)| < cap
    ensures !Overshoots(metaint, cap, seen, segments)
    decreases |segments|
  {
    if segments != [] {
      NoOvershootBelowCap(metaint, cap, seen + segments[0], segments[1..]);
    }
  }
}
