/** Playing a recorded call back (file_server.c): the announced size and the interleaving reader. */
module Playback {
  import opened Sequences
  import R = Recording

  const CHUNK := 1024

  /** A call's two files as one directory holds them; None when missing or not a regular file. */
  datatype Pair = Pair(up: Option<nat>, down: Option<nat>)

  datatype Directory = Directory(kept: Pair, normal: Pair)   // under CASE_DIR and under NORMAL_DIR

  function Wrap32(n: nat): nat { n % 0x1_0000_0000 }

  /** The size announced to the client, in 32-bit arithmetic. */
  function Announced(up: nat, down: nat): nat { Wrap32(2 * R.Min(Wrap32(up), Wrap32(down))) }

  predicate Complete(p: Pair) { p.up.Some? && p.down.Some? }

  function PairOf(d: Directory, kept: bool): Pair { if kept then d.kept else d.normal }

  /** `i` is the first directory with both files of the wanted kind. */
  ghost predicate First(dirs: seq<Directory>, kept: bool, i: nat) {
    i < |dirs| && Complete(PairOf(dirs[i], kept)) && forall k :: 0 <= k < i ==> !Complete(PairOf(dirs[k], kept))
  }

  ghost predicate Nowhere(dirs: seq<Directory>, kept: bool) {
    forall k :: 0 <= k < |dirs| ==> !Complete(PairOf(dirs[k], kept))
  }

  method Search(dirs: seq<Directory>, kept: bool) returns (found: Option<nat>, size: nat)
    ensures match found
            case Some(i) => First(dirs, kept, i) &&
                            size == Announced(PairOf(dirs[i], kept).up.value, PairOf(dirs[i], kept).down.value)
            case None => Nowhere(dirs, kept)
  {
    found, size := None, 0;
    var i := 0;
    while i < |dirs|
      invariant 0 <= i <= |dirs|
      invariant forall k :: 0 <= k < i ==> !Complete(PairOf(dirs[k], kept))
    {
      var p := PairOf(dirs[i], kept);
      if p.up.Some? && p.down.Some? {
        var upSize, downSize := Wrap32(p.up.value), Wrap32(p.down.value);
        return Some(i), Wrap32(2 * (if upSize < downSize then upSize else downSize));
      }
      i := i + 1;
    }
  }

  /**
   check_voice_file: kept calls first; normal ones only if the request is not for kept calls alone. The
   directories' names need the local time of the call's start, which may not exist.
   */
  method CheckVoiceFile(dirs: seq<Directory>, scase: int, timeExists: bool)
    returns (result: int, found: Option<nat>, kept: bool, size: nat)
    ensures result == if !timeExists then -2 else if found.None? then -1 else 0
    ensures found.Some? ==> timeExists
    ensures found.Some? ==>
              && First(dirs, kept, found.value)
              && size == Announced(PairOf(dirs[found.value], kept).up.value, PairOf(dirs[found.value], kept).down.value)
              && (!kept ==> Nowhere(dirs, true) && scase != 1)
    ensures found.Some? && kept ==> dirs[found.value].kept.up.Some? && dirs[found.value].kept.down.Some?
    ensures found.Some? && !kept ==>
              && dirs[found.value].normal.up.Some? && dirs[found.value].normal.down.Some?
              && forall k :: 0 <= k < |dirs| ==> dirs[k].kept.up.None? || dirs[k].kept.down.None?
    ensures timeExists ==> (found.None? <==> Nowhere(dirs, true) && (scase == 1 || Nowhere(dirs, false)))
  {
    kept := true;
    if !timeExists {
      return -2, None, kept, 0;
    }
    found, size := Search(dirs, true);
    result := if found.Some? then 0 else -1;
    if scase == 1 || found.Some? {
      return;
    }
    kept := false;
    found, size := Search(dirs, false);
    result := if found.Some? then 0 else -1;
  }

  /** How much of each file is played: all of equal files, else the whole chunks of the shorter one. */
  function Played(up: nat, down: nat): nat {
    if up == down then up else R.Min(up, down) / CHUNK * CHUNK
  }

  /** The reading loop of file_tx_thread: chunks of up to 1024 from each file until they differ or run out. */
  method Play<T(0)>(up: seq<T>, down: seq<T>) returns (sent: seq<T>)
    ensures Played(|up|, |down|) <= |up| && Played(|up|, |down|) <= |down|
    ensures sent == R.Interleave(up[..Played(|up|, |down|)], down[..Played(|up|, |down|)])
  {
    sent := [];
    var pos := 0;
    var mix := new T[2 * CHUNK];
    while true
      invariant 0 <= pos <= |up| && pos <= |down|
      invariant pos % CHUNK == 0 || pos == |up| == |down|
      invariant sent == R.Interleave(up[..pos], down[..pos])
      decreases |up| - pos
    {
      var upLen := R.Min(CHUNK, |up| - pos);
      var downLen := R.Min(CHUNK, |down| - pos);
      if upLen != downLen || upLen == 0 {
        StopsWhere(|up|, |down|, pos);
        break;
      }
      var i := 0;
      while i < upLen
        invariant 0 <= i <= upLen
        invariant forall k :: 0 <= k < 2 * i ==> mix[k] == if k % 2 == 0 then up[pos + k / 2] else down[pos + k / 2]
      {
        mix[i * 2] := up[pos + i];
        mix[i * 2 + 1] := down[pos + i];
        i := i + 1;
      }
      var a, b := up[pos..pos + upLen], down[pos..pos + upLen];
      assert mix[..upLen + downLen] == R.Interleave(a, b);
      R.InterleaveAppend(up[..pos], down[..pos], a, b);
      assert up[..pos] + a == up[..pos + upLen] && down[..pos] + b == down[..pos + upLen];
      sent := sent + mix[..upLen + downLen];
      pos := pos + upLen;
    }
  }

  lemma StopsWhere(up: nat, down: nat, pos: nat)
    requires pos <= up && pos <= down && (pos % CHUNK == 0 || pos == up == down)
    requires R.Min(CHUNK, up - pos) != R.Min(CHUNK, down - pos) || R.Min(CHUNK, up - pos) == 0
    ensures pos == Played(up, down)
  {
    if up != down {
      assert pos <= R.Min(up, down) < pos + CHUNK;
    }
  }

  /**
   What is played is what was announced exactly when the shorter file is below 2 GiB and the files are equal, or
   the shorter one ends on a chunk, or the longer one's size wraps below the shorter's, to just what is played.
   */
  lemma PlaybackIsExact(up: nat, down: nat)
    ensures
      var short, long := R.Min(up, down), if up < down then down else up;
      2 * Played(up, down) == Announced(up, down) <==>
      && short < 0x8000_0000
      && (up == down || if Wrap32(long) < short then Wrap32(long) == short - short % 1024 else short % 1024 == 0)
  {
    var short, long := R.Min(up, down), if up < down then down else up;
    DoubledSizeWraps(R.Min(Wrap32(up), Wrap32(down)));
    WholeChunks(short);
    if short < 0x8000_0000 {
      assert Wrap32(short) == short;
    } else if up != down {
      assert short / CHUNK >= 0x20_0000;
    }
  }

  /** Files below 4 GiB, whose sizes the 32-bit fields hold. */
  lemma PlaybackIsExactBelow4GiB(up: nat, down: nat)
    requires up < 0x1_0000_0000 && down < 0x1_0000_0000
    ensures
      var short := R.Min(up, down);
      2 * Played(up, down) == Announced(up, down) <==> short < 0x8000_0000 && (up == down || short % 1024 == 0)
  {
    PlaybackIsExact(up, down);
  }

  lemma DoubledSizeWraps(m: nat)
    requires m < 0x1_0000_0000
    ensures Wrap32(2 * m) == 2 * if m < 0x8000_0000 then m else m - 0x8000_0000
  {
  }

  lemma WholeChunks(m: nat)
    ensures m / CHUNK * CHUNK == m - m % CHUNK
  {
  }

  /** Equal files play back in full whatever their size; the announcement is right exactly below 2 GiB. */
  lemma EqualFilesAreAnnounced(n: nat)
    ensures Played(n, n) == n
    ensures 2 * Played(n, n) == Announced(n, n) <==> n < 0x8000_0000
  {
  }

  /**
   Every call recorded into equally long files, however its packets and listeners came, plays back as
   the byte interleave of its two complete files.
   */
  lemma RecordedCallsPlayInFull(up0: seq<R.Sample>, down0: seq<R.Sample>, events: seq<R.Event>, screened: bool, complete: bool)
    requires |up0| == |down0|
    ensures
      var e := R.End(R.Run(R.Begin(true, true, up0, down0), events, screened), complete);
      |e.up.file| == |e.down.file| == Played(|e.up.file|, |e.down.file|)
  {
    R.FilesStayEquallyLong(up0, down0, events, screened, complete);
  }
}
