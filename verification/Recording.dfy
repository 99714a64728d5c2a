/**
 What the two direction buffers of a slot mean: accepted voice, the blocks written to the two files,
 the fax screening buffers, and the stream a live listener hears (voice_parser.c).

 `accepted`, `base` and `pieces` are histories of the current call: the plain bytes taken in, the
 file's contents when it was opened, and each block handed to write_voice_file.
 */
module Recording {
  import opened Sequences

  type Sample = bv8

  const BUFFER := 8192
  const FAX_BUFFER := 524288

  /** A block as written, and how many of its leading samples were accepted since the block before. */
  datatype Piece = Piece(raw: seq<Sample>, used: nat)

  datatype Track = Track(
    buf: seq<Sample>, count: nat,
    open: bool, file: seq<Sample>,
    fax: seq<Sample>,
    base: seq<Sample>, accepted: seq<Sample>, pieces: seq<Piece>)

  datatype Media = Media(up: Track, down: Track, listening: bool, stream: seq<Sample>, heard: nat)

  /** encrypt_voice. */
  function Encrypt(s: seq<Sample>): (r: seq<Sample>)
    ensures |r| == |s|
  {
    seq(|s|, i requires 0 <= i < |s| => s[i] ^ 0x53)
  }

  function Interleave<T>(a: seq<T>, b: seq<T>): (r: seq<T>)
    requires |a| == |b|
    ensures |r| == 2 * |a|
  {
    seq(2 * |a|, i requires 0 <= i < 2 * |a| => if i % 2 == 0 then a[i / 2] else b[i / 2])
  }

  lemma InterleaveAppend<T>(a: seq<T>, b: seq<T>, c: seq<T>, d: seq<T>)
    requires |a| == |b| && |c| == |d|
    ensures Interleave(a + c, b + d) == Interleave(a, b) + Interleave(c, d)
  {
  }

  lemma EncryptTwice(s: seq<Sample>)
    ensures Encrypt(Encrypt(s)) == s
  {
  }

  lemma EncryptAppend(s: seq<Sample>, t: seq<Sample>)
    ensures Encrypt(s + t) == Encrypt(s) + Encrypt(t)
  {
  }

  function Min(x: nat, y: nat): nat { if x < y then x else y }

  function Max(x: nat, y: nat): nat { if x > y then x else y }

  function Zeroes(): (z: seq<Sample>)
    ensures |z| == BUFFER && forall i :: 0 <= i < BUFFER ==> z[i] == 0
  {
    seq(BUFFER, _ => 0)
  }

  function Fresh(open: bool, base: seq<Sample>): Track {
    Track(Zeroes(), 0, open, base, [], base, [], [])
  }

  /** A new call in a zeroed slot; `up` and `down` are the files' contents at opening. */
  function Begin(upOpen: bool, downOpen: bool, up: seq<Sample>, down: seq<Sample>): Media {
    Media(Fresh(upOpen, up), Fresh(downOpen, down), false, [], 0)
  }

  function BlockLength(m: Media): nat { Min(BUFFER, Max(m.up.count, m.down.count)) }

  function Written(t: Track, n: nat): Track
    requires n <= |t.buf|
  {
    t.(file := if t.open then t.file + t.buf[..n] else t.file,
       pieces := t.pieces + [Piece(t.buf[..n], Min(t.count, n))])
  }

  /** write_voice_file: the same number of samples to each open file. */
  function WriteFiles(m: Media): Media
    requires |m.up.buf| == |m.down.buf| == BUFFER
  {
    m.(up := Written(m.up, BlockLength(m)), down := Written(m.down, BlockLength(m)))
  }

  /** send_voice_data to a listener, who is dropped when a write falls short. */
  function SendVoice(m: Media, complete: bool): Media
    requires |m.up.buf| == |m.down.buf|
  {
    if !m.listening then m
    else if !complete then m.(listening := false)
    else m.(stream := m.stream + Interleave(m.up.buf, m.down.buf))
  }

  function Flush(m: Media, complete: bool): Media
    requires |m.up.buf| == |m.down.buf| == BUFFER
  {
    var w := WriteFiles(SendVoice(m, complete));
    w.(up := w.up.(count := 0), down := w.down.(count := 0))
  }

  /** One payload into one direction's buffer, cut off at the buffer's end, and into its fax buffer. */
  function Stored(t: Track, payload: seq<Sample>, screened: bool): (r: Track)
    requires |t.buf| == BUFFER && t.count <= BUFFER
    ensures |r.buf| == BUFFER && r.count <= BUFFER
  {
    var k := Min(BUFFER - t.count, |payload|);
    var plain := payload[..k];
    t.(buf := t.buf[..t.count] + Encrypt(plain) + t.buf[t.count + k..],
       count := t.count + k,
       fax := if screened && |t.fax| < FAX_BUFFER then t.fax + plain[..Min(k, FAX_BUFFER - |t.fax|)] else t.fax,
       accepted := t.accepted + plain)
  }

  function TrackOf(m: Media, up: bool): Track { if up then m.up else m.down }

  function Room(m: Media, up: bool, complete: bool): (r: Media)
    requires Sized(m)
    ensures Sized(r)
  {
    if TrackOf(m, up).count >= BUFFER then Flush(m, complete) else m
  }

  function Accept(m: Media, up: bool, payload: seq<Sample>, screened: bool, complete: bool): Media
    requires Sized(m)
  {
    var r := Room(m, up, complete);
    if up then r.(up := Stored(r.up, payload, screened)) else r.(down := Stored(r.down, payload, screened))
  }

  function Shut(m: Media): Media {
    m.(up := m.up.(open := false), down := m.down.(open := false), listening := false)
  }

  /** The end of a call: a last block to the listener, to the files, and everything closed. */
  function End(m: Media, complete: bool): Media
    requires Sized(m)
  {
    Shut(WriteFiles(SendVoice(m, complete)))
  }

  /** The clean-up of an abandoned call: the files get a last block if either is open. */
  function Abandon(m: Media): Media
    requires Sized(m)
  {
    Shut(if m.up.open || m.down.open then WriteFiles(m) else m)
  }

  /** A listener attaches between two packets. */
  function Attach(m: Media): Media {
    if m.listening then m else m.(listening := true, stream := [], heard := |m.up.pieces|)
  }

  // ---------- the invariant of a call in progress ----------

  predicate Sized(m: Media) {
    |m.up.buf| == |m.down.buf| == BUFFER && m.up.count <= BUFFER && m.down.count <= BUFFER
  }

  function Raws(pieces: seq<Piece>): seq<Sample> {
    if pieces == [] then [] else Raws(pieces[..|pieces| - 1]) + pieces[|pieces| - 1].raw
  }

  /** The plain bytes recoverable from the used parts of the blocks. */
  function Recovered(pieces: seq<Piece>): seq<Sample> {
    if pieces == [] then [] else
    var last := pieces[|pieces| - 1];
    Recovered(pieces[..|pieces| - 1]) + Encrypt(last.raw[..Min(last.used, |last.raw|)])
  }

  ghost predicate TrackInv(t: Track, screened: bool) {
    && |t.buf| == BUFFER && t.count <= BUFFER
    && (t.open ==> t.file == t.base + Raws(t.pieces))
    && t.accepted == Recovered(t.pieces) + Encrypt(t.buf[..t.count])
    && (screened ==> t.fax == t.accepted[..Min(FAX_BUFFER, |t.accepted|)])
    && (forall i :: 0 <= i < |t.pieces| ==> t.pieces[i].used <= |t.pieces[i].raw| == BUFFER)
  }

  ghost predicate MediaInv(m: Media, screened: bool) {
    && TrackInv(m.up, screened) && TrackInv(m.down, screened)
    && |m.up.pieces| == |m.down.pieces|
    && m.heard <= |m.up.pieces|
    && (m.listening ==> m.stream == Heard(m.up.pieces[m.heard..], m.down.pieces[m.heard..]))
  }

  ghost predicate Paired(up: seq<Piece>, down: seq<Piece>) {
    |up| == |down| && forall i :: 0 <= i < |up| ==> |up[i].raw| == |down[i].raw|
  }

  /** The interleave, block by block, of what was written to the two files. */
  ghost function Heard(up: seq<Piece>, down: seq<Piece>): seq<Sample>
    requires Paired(up, down)
  {
    if up == [] then [] else
    var n := |up| - 1;
    Heard(up[..n], down[..n]) + Interleave(up[n].raw, down[n].raw)
  }

  lemma {:induction false} HeardIsInterleavedFiles(up: seq<Piece>, down: seq<Piece>)
    requires Paired(up, down)
    ensures |Raws(up)| == |Raws(down)| && Heard(up, down) == Interleave(Raws(up), Raws(down))
  {
    if up != [] {
      var n := |up| - 1;
      HeardIsInterleavedFiles(up[..n], down[..n]);
      InterleaveAppend(Raws(up[..n]), Raws(down[..n]), up[n].raw, down[n].raw);
    }
  }

  lemma {:induction false} RawsSplit(pieces: seq<Piece>, k: nat)
    requires k <= |pieces|
    ensures Raws(pieces) == Raws(pieces[..k]) + Raws(pieces[k..])
  {
    if k == |pieces| {
      assert pieces[..k] == pieces;
    } else {
      var front := pieces[..|pieces| - 1];
      RawsSplit(front, k);
      assert front[..k] == pieces[..k];
      assert pieces[k..][..|pieces| - 1 - k] == front[k..];
    }
  }

  lemma {:induction false} RawsLength(pieces: seq<Piece>)
    requires forall i :: 0 <= i < |pieces| ==> |pieces[i].raw| == BUFFER
    ensures |Raws(pieces)| == BUFFER * |pieces|
  {
    if pieces != [] {
      RawsLength(pieces[..|pieces| - 1]);
    }
  }

  lemma BeginInv(upOpen: bool, downOpen: bool, up: seq<Sample>, down: seq<Sample>, screened: bool)
    ensures MediaInv(Begin(upOpen, downOpen, up, down), screened)
  {
  }

  lemma WrittenTrack(t: Track, n: nat, screened: bool)
    requires TrackInv(t, screened) && t.count <= n <= BUFFER
    ensures var w := Written(t, n);
            && (w.open ==> w.file == w.base + Raws(w.pieces))
            && w.accepted == Recovered(w.pieces)
            && |w.file| == |t.file| + (if t.open then n else 0)
  {
    var w := Written(t, n);
    assert w.pieces[..|t.pieces|] == t.pieces;
    assert t.buf[..n][..t.count] == t.buf[..t.count];
  }

  lemma StoredWindow(t: Track, payload: seq<Sample>, screened: bool)
    requires |t.buf| == BUFFER && t.count <= BUFFER
    ensures
      var s := Stored(t, payload, screened);
      Encrypt(s.buf[..s.count]) == Encrypt(t.buf[..t.count]) + payload[..s.count - t.count]
  {
    var s := Stored(t, payload, screened);
    var plain := payload[..s.count - t.count];
    assert s.buf[..s.count] == t.buf[..t.count] + Encrypt(plain);
    EncryptAppend(t.buf[..t.count], Encrypt(plain));
    EncryptTwice(plain);
  }

  /** Appending at most what is missing keeps a capped copy capped. */
  lemma CappedCopy(all: seq<Sample>, more: seq<Sample>, cap: nat)
    ensures (all + more)[..Min(cap, |all + more|)] ==
            all[..Min(cap, |all|)] + (if |all| < cap then more[..Min(|more|, cap - |all|)] else [])
  {
  }

  lemma StoredTrack(t: Track, payload: seq<Sample>, screened: bool)
    requires TrackInv(t, screened)
    ensures TrackInv(Stored(t, payload, screened), screened)
  {
    hide Encrypt, Recovered, Raws;
    StoredWindow(t, payload, screened);
    CappedCopy(t.accepted, payload[..Min(BUFFER - t.count, |payload|)], FAX_BUFFER);
  }

  lemma FlushedTrack(t: Track, screened: bool)
    requires TrackInv(t, screened)
    ensures TrackInv(Written(t, BUFFER).(count := 0), screened)
  {
    WrittenTrack(t, BUFFER, screened);
    assert t.buf[..0] == [];
  }

  lemma HeardGrows(up: seq<Piece>, down: seq<Piece>, a: Piece, b: Piece, k: nat)
    requires Paired(up, down) && |a.raw| == |b.raw| && k <= |up|
    ensures Heard((up + [a])[k..], (down + [b])[k..]) == Heard(up[k..], down[k..]) + Interleave(a.raw, b.raw)
  {
    var n := |up| - k;
    assert (up + [a])[k..][..n] == up[k..] && (down + [b])[k..][..n] == down[k..];
  }

  /** A flush caused by a full buffer writes exactly 8192 samples to both files. */
  lemma FlushInv(m: Media, screened: bool, complete: bool)
    requires MediaInv(m, screened) && (m.up.count == BUFFER || m.down.count == BUFFER)
    ensures MediaInv(Flush(m, complete), screened)
    ensures BlockLength(m) == 8192
  {
    hide TrackInv;
    assert |m.up.buf| == |m.down.buf| == BUFFER && m.up.count <= BUFFER && m.down.count <= BUFFER &&
           Paired(m.up.pieces, m.down.pieces) by { TracksArePaired(m, screened); }
    FlushedTrack(m.up, screened);
    FlushedTrack(m.down, screened);
    var a, b := Piece(m.up.buf[..BUFFER], Min(m.up.count, BUFFER)), Piece(m.down.buf[..BUFFER], Min(m.down.count, BUFFER));
    assert a.raw == m.up.buf && b.raw == m.down.buf;
    HeardGrows(m.up.pieces, m.down.pieces, a, b, m.heard);
  }

  lemma TracksArePaired(m: Media, screened: bool)
    requires TrackInv(m.up, screened) && TrackInv(m.down, screened) && |m.up.pieces| == |m.down.pieces|
    ensures Sized(m) && Paired(m.up.pieces, m.down.pieces)
  {
  }

  lemma AcceptInv(m: Media, up: bool, payload: seq<Sample>, screened: bool, complete: bool)
    requires MediaInv(m, screened)
    ensures MediaInv(Accept(m, up, payload, screened, complete), screened)
  {
    var r := Room(m, up, complete);
    if TrackOf(m, up).count >= BUFFER {
      FlushInv(m, screened, complete);
    }
    StoredTrack(TrackOf(r, up), payload, screened);
  }

  // ---------- a whole call ----------

  datatype Event =
    | Voice(up: bool, payload: seq<Sample>, complete: bool)
    | Listen

  function Step(m: Media, e: Event, screened: bool): Media
    requires Sized(m)
  {
    match e
    case Voice(up, payload, complete) => Accept(m, up, payload, screened, complete)
    case Listen => Attach(m)
  }

  lemma StepInv(m: Media, e: Event, screened: bool)
    requires MediaInv(m, screened)
    ensures MediaInv(Step(m, e, screened), screened)
  {
    if e.Voice? {
      AcceptInv(m, e.up, e.payload, screened, e.complete);
    }
  }

  predicate SameFiles(m: Media, r: Media) {
    && r.up.base == m.up.base && r.down.base == m.down.base
    && r.up.open == m.up.open && r.down.open == m.down.open
  }

  lemma StoredKeepsFile(t: Track, payload: seq<Sample>, screened: bool)
    requires |t.buf| == BUFFER && t.count <= BUFFER
    ensures var s := Stored(t, payload, screened); s.base == t.base && s.open == t.open
  {
    hide Encrypt;
  }

  lemma RoomKeepsFiles(m: Media, up: bool, complete: bool)
    requires Sized(m)
    ensures SameFiles(m, Room(m, up, complete))
  {
    hide Interleave;
  }

  lemma StepKeepsFiles(m: Media, e: Event, screened: bool)
    requires Sized(m)
    ensures Sized(Step(m, e, screened)) && SameFiles(m, Step(m, e, screened))
  {
    if e.Voice? {
      hide Stored, Room;
      RoomKeepsFiles(m, e.up, e.complete);
      StoredKeepsFile(TrackOf(Room(m, e.up, e.complete), e.up), e.payload, screened);
    }
  }

  function Run(m: Media, events: seq<Event>, screened: bool): (r: Media)
    requires Sized(m)
    ensures Sized(r)
  {
    if events == [] then m else
    var before := Run(m, events[..|events| - 1], screened);
    StepKeepsFiles(before, events[|events| - 1], screened);
    Step(before, events[|events| - 1], screened)
  }

  lemma {:induction false} RunInv(m: Media, events: seq<Event>, screened: bool)
    requires Sized(m) && MediaInv(m, screened)
    ensures MediaInv(Run(m, events, screened), screened) && SameFiles(m, Run(m, events, screened))
  {
    hide Step, TrackInv;
    if events != [] {
      var before, e := Run(m, events[..|events| - 1], screened), events[|events| - 1];
      RunInv(m, events[..|events| - 1], screened);
      StepInv(before, e, screened);
      StepKeepsFiles(before, e, screened);
    }
  }

  /** The last block of a call completes each open file, whether the call ends or is abandoned. */
  lemma LastBlock(m: Media, screened: bool)
    requires TrackInv(m.up, screened) && TrackInv(m.down, screened)
    ensures
      var w := WriteFiles(m);
      && (m.up.open ==> w.up.file == w.up.base + Raws(w.up.pieces) && |w.up.file| == |m.up.file| + Max(m.up.count, m.down.count))
      && (m.down.open ==> w.down.file == w.down.base + Raws(w.down.pieces) && |w.down.file| == |m.down.file| + Max(m.up.count, m.down.count))
      && Recovered(w.up.pieces) == m.up.accepted && Recovered(w.down.pieces) == m.down.accepted
      && Blocks(w.up.pieces) && Blocks(w.down.pieces)
  {
    BufferSizes(m, screened);
    hide TrackInv, Raws, Recovered, Blocks;
    WrittenTrack(m.up, BlockLength(m), screened);
    WrittenTrack(m.down, BlockLength(m), screened);
    WrittenBlocks(m.up, BlockLength(m), screened);
    WrittenBlocks(m.down, BlockLength(m), screened);
  }

  lemma BufferSizes(m: Media, screened: bool)
    requires TrackInv(m.up, screened) && TrackInv(m.down, screened)
    ensures Sized(m) && m.up.count <= BlockLength(m) <= BUFFER && m.down.count <= BlockLength(m)
    ensures BlockLength(m) == Max(m.up.count, m.down.count)
  {
  }

  lemma WrittenBlocks(t: Track, n: nat, screened: bool)
    requires TrackInv(t, screened) && t.count <= n <= BUFFER
    ensures Blocks(Written(t, n).pieces)
  {
    hide Raws, Recovered, Encrypt;
  }

  /** Whole blocks, then perhaps one short block. */
  ghost predicate Blocks(pieces: seq<Piece>) {
    && (forall i :: 0 <= i < |pieces| - 1 ==> |pieces[i].raw| == BUFFER)
    && (forall i :: 0 <= i < |pieces| ==> pieces[i].used <= |pieces[i].raw| <= BUFFER)
  }

  /**
   For every call: the fax buffers hold the first 512 KiB accepted in each direction, and when the call has
   ended or was abandoned each file that was opened is closed and is its old contents followed by the blocks,
   whose used parts decrypt to exactly the accepted bytes, in order; the last block has the length of the
   fuller buffer.
   */
  lemma EveryAcceptedByteIsStored(upOpen: bool, downOpen: bool, up0: seq<Sample>, down0: seq<Sample>, events: seq<Event>,
                                  screened: bool, complete: bool, abandoned: bool)
    requires upOpen || downOpen
    ensures
      var m := Run(Begin(upOpen, downOpen, up0, down0), events, screened);
      var e := if abandoned then Abandon(m) else End(m, complete);
      && (screened ==> m.up.fax == m.up.accepted[..Min(524288, |m.up.accepted|)])
      && (screened ==> m.down.fax == m.down.accepted[..Min(524288, |m.down.accepted|)])
      && !e.up.open && !e.down.open && !e.listening
      && (upOpen ==> e.up.file == up0 + Raws(e.up.pieces) && |e.up.file| == |m.up.file| + Max(m.up.count, m.down.count))
      && (downOpen ==> e.down.file == down0 + Raws(e.down.pieces) && |e.down.file| == |m.down.file| + Max(m.up.count, m.down.count))
      && Recovered(e.up.pieces) == m.up.accepted && Recovered(e.down.pieces) == m.down.accepted
      && Blocks(e.up.pieces) && Blocks(e.down.pieces)
  {
    hide Recovered, Raws, Interleave, Blocks, TrackInv, Run;
    var b := Begin(upOpen, downOpen, up0, down0);
    BeginInv(upOpen, downOpen, up0, down0, screened);
    RunInv(b, events, screened);
    var m := Run(b, events, screened);
    assert m.up.open == upOpen && m.down.open == downOpen && m.up.base == up0 && m.down.base == down0;
    FaxIsFirst(m.up, screened);
    FaxIsFirst(m.down, screened);
    LastBlock(m, screened);
    SendVoiceKeepsTracks(m, complete);
    LastBlock(SendVoice(m, complete), screened);
  }

  lemma FaxIsFirst(t: Track, screened: bool)
    requires TrackInv(t, screened)
    ensures screened ==> t.fax == t.accepted[..Min(FAX_BUFFER, |t.accepted|)]
  {
  }

  lemma SendVoiceKeepsTracks(m: Media, complete: bool)
    requires Sized(m)
    ensures SendVoice(m, complete).up == m.up && SendVoice(m, complete).down == m.down
  {
  }

  // ---------- the files, byte by byte ----------

  /** How many bytes the first blocks have from the accepted ones. */
  function UsedBefore(pieces: seq<Piece>, j: nat): nat
    requires j <= |pieces|
  {
    if j == 0 then 0 else UsedBefore(pieces, j - 1) + pieces[j - 1].used
  }

  lemma {:induction false} UsedBeforePrefix(pieces: seq<Piece>, n: nat, j: nat)
    requires j <= n <= |pieces|
    ensures UsedBefore(pieces[..n], j) == UsedBefore(pieces, j)
  {
    if j > 0 {
      UsedBeforePrefix(pieces, n, j - 1);
    }
  }

  lemma {:induction false} RecoveredLength(pieces: seq<Piece>)
    requires forall i :: 0 <= i < |pieces| ==> pieces[i].used <= |pieces[i].raw|
    ensures |Recovered(pieces)| == UsedBefore(pieces, |pieces|)
  {
    if pieces != [] {
      var n := |pieces| - 1;
      RecoveredLength(pieces[..n]);
      UsedBeforePrefix(pieces, n, n);
    }
  }

  lemma {:induction false} RecoveredAt(pieces: seq<Piece>, j: nat, r: nat)
    requires forall i :: 0 <= i < |pieces| ==> pieces[i].used <= |pieces[i].raw|
    requires j < |pieces| && r < pieces[j].used
    ensures UsedBefore(pieces, j) + r < |Recovered(pieces)|
    ensures Recovered(pieces)[UsedBefore(pieces, j) + r] == Encrypt(pieces[j].raw)[r]
  {
    var n := |pieces| - 1;
    var last := pieces[n];
    RecoveredLength(pieces[..n]);
    UsedBeforePrefix(pieces, n, n);
    var before := Recovered(pieces[..n]);
    assert Recovered(pieces) == before + Encrypt(last.raw[..last.used]);
    assert |before| == UsedBefore(pieces, n);
    hide Recovered, Encrypt, UsedBefore;
    if j < n {
      UsedBeforePrefix(pieces, n, j);
      RecoveredAt(pieces[..n], j, r);
    } else {
      EncryptedPrefix(last.raw, last.used, r);
    }
  }

  lemma EncryptedPrefix(s: seq<Sample>, n: nat, i: nat)
    requires i < n <= |s|
    ensures Encrypt(s[..n])[i] == Encrypt(s)[i]
  {
  }

  lemma {:induction false} RawsAt(pieces: seq<Piece>, j: nat, r: nat)
    requires Blocks(pieces) && j < |pieces| && r < |pieces[j].raw|
    ensures BUFFER * j + r < |Raws(pieces)| && Raws(pieces)[BUFFER * j + r] == pieces[j].raw[r]
  {
    var n := |pieces| - 1;
    RawsLength(pieces[..n]);
    if j < n {
      RawsAt(pieces[..n], j, r);
    }
  }

  lemma XorTwice(x: Sample)
    ensures (x ^ 0x53) ^ 0x53 == x
  {
  }

  /**
   Byte by byte: sample r of block j, if it is one of the block's used ones, stands in the file at the block's
   place and is an accepted byte XORed with 0x53; the blocks' used samples are all the accepted bytes, in order.
   */
  lemma StoredByteAt(base: seq<Sample>, accepted: seq<Sample>, pieces: seq<Piece>, file: seq<Sample>, j: nat, r: nat)
    requires file == base + Raws(pieces) && Recovered(pieces) == accepted && Blocks(pieces)
    requires j < |pieces| && r < pieces[j].used
    ensures |base| + 8192 * j + r < |file| && UsedBefore(pieces, j) + r < |accepted| == UsedBefore(pieces, |pieces|)
    ensures file[|base| + 8192 * j + r] == accepted[UsedBefore(pieces, j) + r] ^ 0x53
  {
    RecoveredLength(pieces);
    RecoveredAt(pieces, j, r);
    RawsAt(pieces, j, r);
    XorTwice(pieces[j].raw[r]);
  }

  /** For every call whose files start equally long, they are equally long throughout and at the end. */
  lemma FilesStayEquallyLong(up0: seq<Sample>, down0: seq<Sample>, events: seq<Event>, screened: bool, complete: bool)
    requires |up0| == |down0|
    ensures
      var m := Run(Begin(true, true, up0, down0), events, screened);
      && |m.up.file| == |m.down.file| == |up0| + 8192 * |m.up.pieces|
      && |End(m, complete).up.file| == |End(m, complete).down.file| == |m.up.file| + Max(m.up.count, m.down.count)
      && |Abandon(m).up.file| == |Abandon(m).down.file|
  {
    BeginInv(true, true, up0, down0, screened);
    RunInv(Begin(true, true, up0, down0), events, screened);
    var m := Run(Begin(true, true, up0, down0), events, screened);
    FileTail(m.up, 0, screened);
    FileTail(m.down, 0, screened);
  }

  lemma FileTail(t: Track, k: nat, screened: bool)
    requires TrackInv(t, screened) && t.open && k <= |t.pieces|
    ensures |t.file| == |t.base| + BUFFER * |t.pieces| >= |t.base| + BUFFER * k
    ensures t.file[|t.base| + BUFFER * k..] == Raws(t.pieces[k..])
  {
    RawsSplit(t.pieces, k);
    RawsLength(t.pieces);
    RawsLength(t.pieces[..k]);
  }

  lemma StreamIsFileInterleave(m: Media, screened: bool)
    requires MediaInv(m, screened) && m.listening
    requires m.up.open && m.down.open && |m.up.base| == |m.down.base|
    ensures
      var at := |m.up.base| + BUFFER * m.heard;
      at <= |m.up.file| == |m.down.file| && m.stream == Interleave(m.up.file[at..], m.down.file[at..])
  {
    TracksArePaired(m, screened);
    FileTail(m.up, m.heard, screened);
    FileTail(m.down, m.heard, screened);
    HeardIsInterleavedFiles(m.up.pieces[m.heard..], m.down.pieces[m.heard..]);
  }

  /** Byte k of the first file, then byte k of the second, for as many bytes as given. */
  ghost predicate Alternates(stream: seq<Sample>, up: seq<Sample>, down: seq<Sample>, n: nat) {
    n <= |up| && n <= |down| && 2 * n <= |stream| &&
    forall k :: 0 <= k < n ==> stream[2 * k] == up[k] && stream[2 * k + 1] == down[k]
  }

  /**
   What a listener hears before the call ends is, alternately, the bytes that the two files gained since
   attaching; and a last block taken whole completes that to everything the files gained until the end.
   */
  lemma ListenerHearsTheFiles(up0: seq<Sample>, down0: seq<Sample>, events: seq<Event>, screened: bool)
    requires |up0| == |down0|
    ensures
      var m := Run(Begin(true, true, up0, down0), events, screened);
      m.listening ==>
        var e, at := End(m, true), |up0| + 8192 * m.heard;
        && at <= |m.up.file| == |m.down.file| <= |e.up.file| == |e.down.file|
        && |m.stream| == 2 * (|m.up.file| - at)
        && Alternates(m.stream, m.up.file[at..], m.down.file[at..], |m.up.file| - at)
        && Alternates(e.stream, e.up.file[at..], e.down.file[at..], |e.up.file| - at)
  {
    hide Run, MediaInv;
    BeginInv(true, true, up0, down0, screened);
    RunInv(Begin(true, true, up0, down0), events, screened);
    var m := Run(Begin(true, true, up0, down0), events, screened);
    if m.listening {
      StreamIsFileInterleave(m, screened);
      LastBlockIsHeard(m, |up0| + BUFFER * m.heard);
    }
  }

  lemma LastBlockIsHeard(m: Media, at: nat)
    requires Sized(m) && m.listening && m.up.open && m.down.open && at <= |m.up.file| == |m.down.file|
    requires m.stream == Interleave(m.up.file[at..], m.down.file[at..])
    ensures
      var e := End(m, true);
      && |m.up.file| <= |e.up.file| == |e.down.file|
      && Alternates(m.stream, m.up.file[at..], m.down.file[at..], |m.up.file| - at)
      && Alternates(e.stream, e.up.file[at..], e.down.file[at..], |e.up.file| - at)
  {
    var e, n := End(m, true), BlockLength(m);
    var up, down, a, b := m.up.file[at..], m.down.file[at..], m.up.buf[..n], m.down.buf[..n];
    assert e.up.file[at..] == up + a && e.down.file[at..] == down + b;
    assert e.stream == m.stream + Interleave(m.up.buf, m.down.buf);
    InterleavePrefix(m.up.buf, m.down.buf, n);
    InterleaveAppend(up, down, a, b);
    hide End, Interleave;
    PrefixAlternates(m.stream, up, down);
    assert e.stream[..2 * (|up| + n)] == m.stream + Interleave(m.up.buf, m.down.buf)[..2 * n];
    PrefixAlternates(e.stream, up + a, down + b);
  }

  lemma InterleavePrefix(a: seq<Sample>, b: seq<Sample>, n: nat)
    requires |a| == |b| && n <= |a|
    ensures Interleave(a, b)[..2 * n] == Interleave(a[..n], b[..n])
  {
  }

  lemma PrefixAlternates(stream: seq<Sample>, up: seq<Sample>, down: seq<Sample>)
    requires |up| == |down| && 2 * |up| <= |stream| && stream[..2 * |up|] == Interleave(up, down)
    ensures Alternates(stream, up, down, |up|)
  {
    var mix := stream[..2 * |up|];
    forall k | 0 <= k < |up| ensures stream[2 * k] == up[k] && stream[2 * k + 1] == down[k] {
      assert mix[2 * k] == up[k] && mix[2 * k + 1] == down[k];
    }
  }

  /** A listener who takes every block whole stays attached; one who does not is dropped at that block. */
  lemma WholeBlocksKeepListening(m: Media, e: Event, screened: bool)
    requires Sized(m) && m.listening
    ensures
      var full := e.Voice? && TrackOf(m, e.up).count == BUFFER;
      && Step(m, e, screened).listening == (!full || e.complete)
      && (Step(m, e, screened).listening ==> Step(m, e, screened).heard == m.heard)
  {
    hide Stored, Interleave;
  }

  // ---------- truncation ----------

  /** The payloads sent in one direction, joined. */
  function Sent(events: seq<Event>, up: bool): seq<Sample> {
    if events == [] then [] else
    var last := events[|events| - 1];
    Sent(events[..|events| - 1], up) + (if last.Voice? && last.up == up then last.payload else [])
  }

  ghost predicate Multiple(n: nat, d: nat, q: nat) { exists k: nat :: k <= q && n == k * d }

  lemma ProductIsMonotone(a: nat, b: nat, d: nat)
    requires a <= b
    ensures a * d <= b * d
  {
  }

  lemma RoomForOneMore(n: nat, d: nat, q: nat)
    requires Multiple(n, d, q) && n < q * d
    ensures n + d <= q * d && Multiple(n + d, d, q)
  {
    var k: nat :| k <= q && n == k * d;
    assert k != q;
    assert (k + 1) * d == n + d;
    ProductIsMonotone(k + 1, q, d);
  }

  lemma ZeroIsMultiple(d: nat, q: nat)
    ensures Multiple(0, d, q)
  {
    assert 0 == 0 * d;
  }

  lemma UniformPayloadFits(t: Track, payload: seq<Sample>, screened: bool, d: nat, q: nat)
    requires q * d == BUFFER && |t.buf| == BUFFER && |payload| == d
    requires Multiple(t.count, d, q) && t.count < BUFFER
    ensures t.count <= BUFFER
    ensures Stored(t, payload, screened).accepted == t.accepted + payload
    ensures Multiple(Stored(t, payload, screened).count, d, q)
  {
    RoomForOneMore(t.count, d, q);
    assert payload[..d] == payload;
  }

  ghost predicate Uniform(m: Media, d: nat, q: nat) {
    Sized(m) && Multiple(m.up.count, d, q) && Multiple(m.down.count, d, q)
  }

  lemma UniformStep(m: Media, e: Event, screened: bool, d: nat, q: nat)
    requires q * d == BUFFER && Uniform(m, d, q)
    requires e.Voice? ==> |e.payload| == d
    ensures Uniform(Step(m, e, screened), d, q)
    ensures Step(m, e, screened).up.accepted == m.up.accepted + (if e.Voice? && e.up then e.payload else [])
    ensures Step(m, e, screened).down.accepted == m.down.accepted + (if e.Voice? && !e.up then e.payload else [])
  {
    if e.Voice? {
      hide Stored, Multiple;
      var r := Room(m, e.up, e.complete);
      ZeroIsMultiple(d, q);
      UniformPayloadFits(TrackOf(r, e.up), e.payload, screened, d, q);
    }
  }

  /**
   Every payload is taken in as far as the buffer has room once a full one has been written out, and only a
   full buffer of its own direction is written out; the other direction accepts nothing.
   */
  lemma PayloadIsTakenIn(m: Media, up: bool, payload: seq<Sample>, screened: bool, complete: bool)
    requires Sized(m)
    ensures
      var r := Accept(m, up, payload, screened, complete);
      var before, after, full := TrackOf(m, up), TrackOf(r, up), TrackOf(m, up).count == 8192;
      && (exists k :: 0 <= k <= |payload| && after.accepted == before.accepted + payload[..k] && (k == |payload| || after.count == 8192))
      && |after.pieces| == |before.pieces| + (if full then 1 else 0)
      && (!full ==> TrackOf(r, !up) == TrackOf(m, !up))
      && TrackOf(r, !up).accepted == TrackOf(m, !up).accepted
      && (full ==> TrackOf(r, !up).count == 0)
  {
    hide Encrypt, Interleave;
    var r := Room(m, up, complete);
    var t := TrackOf(r, up);
    var k := Min(BUFFER - t.count, |payload|);
    assert Stored(t, payload, screened).accepted == t.accepted + payload[..k];
  }

  /** When every payload has one length that divides the buffer's, no byte is cut off. */
  lemma {:induction false} UniformPayloadsAreNeverCut(up0: seq<Sample>, down0: seq<Sample>, events: seq<Event>,
                                                      screened: bool, d: nat, q: nat)
    requires q * d == 8192
    requires forall e :: e in events && e.Voice? ==> |e.payload| == d
    ensures
      var m := Run(Begin(true, true, up0, down0), events, screened);
      && Uniform(m, d, q)
      && m.up.accepted == Sent(events, true) && m.down.accepted == Sent(events, false)
  {
    if events == [] {
      ZeroIsMultiple(d, q);
    } else {
      hide Step, Uniform;
      var front, e := events[..|events| - 1], events[|events| - 1];
      UniformPayloadsAreNeverCut(up0, down0, front, screened, d, q);
      UniformStep(Run(Begin(true, true, up0, down0), front, screened), e, screened, d, q);
    }
  }
}
