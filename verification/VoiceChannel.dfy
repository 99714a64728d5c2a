/** One line slot of voice_parser.c, updated in place. */
module VoiceChannel {
  import opened Sequences
  import opened Sharding
  import opened Recording
  import C = CallControl

  /** What lies outside the slot for one packet. */
  datatype World = World(
    now: int,
    opening: C.Opening,               // would the two fopen calls succeed
    up0: seq<Sample>, down0: seq<Sample>,   // what files of the packet's call already contain
    fetched: Option<C.Job>,           // what FETCH_PHEAD would return
    flushed: bool, finished: bool)    // would the listener take a whole block, now and at the end of the call

  /** The media once the packet's call owns the slot. */
  function OwnedMedia(l: C.Line, m: Media, p: C.Voice, w: World): Media {
    if l.callid == p.callid then m else
    var o := C.Opened(p.callid, w.opening);
    Begin(o.up, o.down, w.up0, w.down0)
  }

  /** The media after voice_parser. */
  function NextMedia(l: C.Line, m: Media, p: C.Voice, payload: seq<Sample>, w: World): Media
    requires Sized(m)
  {
    if C.Refused(l, p, w.now) then m else
    var owned := C.Owned(l, p, w.now, w.opening, w.fetched);
    var a := Accept(OwnedMedia(l, m, p, w), p.up, payload, owned.job.Some?, w.flushed);
    if C.Ended(C.Mark(owned, p)) then End(a, w.finished) else a
  }

  /** A call that takes the slot starts with empty buffers over its own two files, and nobody listening. */
  lemma NewCallsMedia(l: C.Line, m: Media, p: C.Voice, w: World)
    requires l.callid != p.callid
    ensures
      var n := OwnedMedia(l, m, p, w);
      && n.up.open == (p.callid != 0 && w.opening.up) && n.down.open == (p.callid != 0 && w.opening.down)
      && n.up.file == w.up0 && n.down.file == w.down0 && n.up.count == n.down.count == 0
      && n.up.accepted == n.down.accepted == [] && !n.listening
  {
  }

  /** Two identifiers that differ in their start time alone have one slot. */
  lemma OthersShareTheSlot(callid: CallId)
    ensures
      var other := if callid < 0x1_0000_0000 then callid + 0x1_0000_0000 else callid - 0x1_0000_0000;
      other != callid && 0 <= other < 0x1_0000_0000_0000_0000 && Position(other) == Position(callid)
  {
    var other := if callid < 0x1_0000_0000 then callid + 0x1_0000_0000 else callid - 0x1_0000_0000;
    assert other / 0x8000 == callid / 0x8000 + 0x2_0000 || other / 0x8000 == callid / 0x8000 - 0x2_0000;
  }

  class Channel {
    var callid: CallId
    const dataUp: array<Sample>
    const dataDown: array<Sample>
    var countUp: nat
    var countDown: nat
    var upOpen: bool
    var downOpen: bool
    var job: Option<C.Job>       // cdr_node
    var faxUp: seq<Sample>       // the filled parts of the node's two buffers
    var faxDown: seq<Sample>
    var upEnd: bool
    var downEnd: bool
    var updateTime: int
    var listening: bool          // tx_fd > 0
    ghost var media: Media
    ghost var left: seq<Media>   // history: what each call left behind when another took the slot

    function Line(): C.Line
      reads this
    {
      C.Line(callid, upOpen, downOpen, job, upEnd, downEnd, updateTime)
    }

    ghost predicate Valid()
      reads this, dataUp, dataDown
    {
      && dataUp != dataDown
      && Sized(media)
      && dataUp[..] == media.up.buf && dataDown[..] == media.down.buf
      && countUp == media.up.count && countDown == media.down.count
      && faxUp == media.up.fax && faxDown == media.down.fax
      && upOpen == media.up.open && downOpen == media.down.open
      && listening == media.listening
    }

    constructor ()
      ensures Valid() && fresh(dataUp) && fresh(dataDown)
      ensures Line() == C.BLANK && media == Recording.Begin(false, false, [], []) && left == []
    {
      left := [];
      dataUp := new Sample[BUFFER](_ => 0);
      dataDown := new Sample[BUFFER](_ => 0);
      callid, countUp, countDown, upOpen, downOpen := 0, 0, 0, false, false;
      job, faxUp, faxDown, upEnd, downEnd, updateTime, listening := None, [], [], false, false, 0, false;
      media := Recording.Begin(false, false, [], []);
    }

    /** send_voice_data. */
    method SendVoiceData(complete: bool) returns (mix: seq<Sample>)
      requires Valid() && listening
      modifies this`listening, this`media
      ensures Valid() && media == SendVoice(old(media), complete)
      ensures mix == Interleave(dataUp[..], dataDown[..])
    {
      var buf := new Sample[2 * BUFFER];
      var i := 0;
      while i < BUFFER
        modifies buf
        invariant 0 <= i <= BUFFER
        invariant forall k :: 0 <= k < 2 * i ==> buf[k] == if k % 2 == 0 then dataUp[k / 2] else dataDown[k / 2]
      {
        buf[i * 2] := dataUp[i];
        buf[i * 2 + 1] := dataDown[i];
        i := i + 1;
      }
      mix := buf[..];
      if !complete {
        listening := false;
      }
      media := SendVoice(media, complete);
    }

    /** write_voice_file: the block handed to each open file. */
    method WriteVoiceFile() returns (up: seq<Sample>, down: seq<Sample>)
      requires Valid()
      modifies this`media
      ensures Valid() && media == WriteFiles(old(media))
      ensures |up| == |down|
      ensures media.up.file == old(media.up.file) + if upOpen then up else []
      ensures media.down.file == old(media.down.file) + if downOpen then down else []
    {
      var dataLen := if countUp > countDown then countUp else countDown;
      dataLen := if dataLen > BUFFER then BUFFER else dataLen;
      up := dataUp[..dataLen];
      down := dataDown[..dataLen];
      media := WriteFiles(media);
    }

    /** The flush that voice_parser makes before storing into a full buffer. */
    method FlushIfFull(up: bool, complete: bool)
      requires Valid()
      modifies this`countUp, this`countDown, this`listening, this`media
      ensures Valid() && media == Room(old(media), up, complete)
    {
      if (if up then countUp else countDown) >= BUFFER {
        if listening {
          var _ := SendVoiceData(complete);
        }
        var _, _ := WriteVoiceFile();
        countUp, countDown := 0, 0;
        media := Flush(old(media), complete);
      }
    }

    /** Both directions of voice_parser's storing step: copy, encrypt, and copy again for fax screening. */
    method Store(up: bool, payload: seq<Sample>)
      requires Valid()
      modifies this`countUp, this`countDown, this`faxUp, this`faxDown, this`media, dataUp, dataDown
      ensures Valid()
      ensures media == if up then old(media).(up := Stored(old(media.up), payload, job.Some?))
                       else old(media).(down := Stored(old(media.down), payload, job.Some?))
    {
      hide Stored;
      if up {
        StoreUp(payload);
      } else {
        StoreDown(payload);
      }
    }

    method StoreUp(payload: seq<Sample>)
      requires Valid()
      modifies this`countUp, this`faxUp, this`media, dataUp
      ensures Valid() && media == old(media).(up := Stored(old(media.up), payload, job.Some?))
    {
      hide Encrypt;
      ghost var s := Stored(media.up, payload, job.Some?);
      var n, fax := CopyIn(dataUp, countUp, payload, faxUp);
      assert dataUp[..] == s.buf && fax == s.fax;
      countUp, faxUp := countUp + n, fax;
      media := media.(up := s);
    }

    method StoreDown(payload: seq<Sample>)
      requires Valid()
      modifies this`countDown, this`faxDown, this`media, dataDown
      ensures Valid() && media == old(media).(down := Stored(old(media.down), payload, job.Some?))
    {
      hide Encrypt;
      ghost var s := Stored(media.down, payload, job.Some?);
      var n, fax := CopyIn(dataDown, countDown, payload, faxDown);
      assert dataDown[..] == s.buf && fax == s.fax;
      countDown, faxDown := countDown + n, fax;
      media := media.(down := s);
    }

    method CopyIn(data: array<Sample>, count: nat, payload: seq<Sample>, fax: seq<Sample>) returns (n: nat, fax': seq<Sample>)
      requires data.Length == BUFFER && count <= BUFFER
      modifies data
      ensures n == Min(BUFFER - count, |payload|)
      ensures data[..] == old(data[..])[..count] + Encrypt(payload[..n]) + old(data[..])[count + n..]
      ensures fax' == if job.Some? && |fax| < FAX_BUFFER then fax + payload[..n][..Min(n, FAX_BUFFER - |fax|)] else fax
    {
      var left := BUFFER - count;
      n := if left < |payload| then left else |payload|;
      CopyPlain(data, count, payload[..n]);
      assert data[count..count + n] == payload[..n];
      EncryptVoice(data, count, n);
      fax' := fax;
      if job.Some? && |fax| < FAX_BUFFER {
        var faxLeft := FAX_BUFFER - |fax|;
        fax' := fax + payload[..if n < faxLeft then n else faxLeft];
      }
    }

    static method CopyPlain(data: array<Sample>, from: nat, plain: seq<Sample>)
      requires from + |plain| <= data.Length
      modifies data
      ensures data[..from] == old(data[..from])
      ensures data[from..from + |plain|] == plain
      ensures data[from + |plain|..] == old(data[from + |plain|..])
    {
      forall i | 0 <= i < |plain| {
        data[from + i] := plain[i];
      }
    }

    /** encrypt_voice on part of a buffer. */
    static method EncryptVoice(data: array<Sample>, from: nat, len: nat)
      requires from + len <= data.Length
      modifies data
      ensures data[..] == old(data[..from]) + Encrypt(old(data[from..from + len])) + old(data[from + len..])
    {
      var i := 0;
      while i < len
        invariant 0 <= i <= len
        invariant forall k :: 0 <= k < data.Length ==>
                    data[k] == if from <= k < from + i then old(data[k]) ^ 0x53 else old(data[k])
      {
        data[from + i] := data[from + i] ^ 0x53;
        i := i + 1;
      }
    }

    /** close_voice_file, and the end of live listening. */
    method CloseFiles()
      requires Valid()
      modifies this`upOpen, this`downOpen, this`listening, this`media
      ensures Valid() && !upOpen && !downOpen && media == Shut(old(media))
    {
      upOpen, downOpen, listening := false, false, false;
      media := Shut(media);
    }

    /** cleanup_file_struct: the node, if any, is handed to the fax queue. */
    method Cleanup() returns (handed: Option<C.Job>)
      requires Valid()
      modifies this
      ensures Valid()
      ensures handed == old(job) && Line() == C.Close(old(Line())).(job := None)
      ensures media == Abandon(old(media)) && left == old(left)
    {
      hide WriteFiles;
      if upOpen || downOpen {
        var _, _ := WriteVoiceFile();
      }
      CloseFiles();
      callid := 0;
      handed := job;
      job := None;
    }

    static method Zero(data: array<Sample>)
      requires data.Length == BUFFER
      modifies data
      ensures data[..] == Zeroes()
    {
      forall i | 0 <= i < data.Length {
        data[i] := 0;
      }
    }

    /** The memset over the slot. */
    method Wipe()
      requires Valid()
      modifies this, dataUp, dataDown
      ensures Valid() && Line() == C.BLANK && media == Recording.Begin(false, false, [], [])
      ensures left == old(left) + [old(media)]
    {
      hide Zeroes;
      Zero(dataUp);
      Zero(dataDown);
      ClearLine();
      ClearMedia();
    }

    method ClearLine()
      modifies this`callid, this`upOpen, this`downOpen, this`job, this`upEnd, this`downEnd, this`updateTime
      ensures Line() == C.BLANK
    {
      callid, upOpen, downOpen, job := 0, false, false, None;
      upEnd, downEnd, updateTime := false, false, 0;
    }

    method ClearMedia()
      requires dataUp != dataDown && dataUp[..] == Zeroes() && dataDown[..] == Zeroes() && Line() == C.BLANK
      modifies this`countUp, this`countDown, this`faxUp, this`faxDown, this`listening, this`left, this`media
      ensures Valid() && media == Recording.Begin(false, false, [], [])
      ensures left == old(left) + [old(media)]
    {
      hide Zeroes;
      countUp, countDown, faxUp, faxDown, listening := 0, 0, [], [], false;
      left := left + [media];
      media := Recording.Begin(false, false, [], []);
    }

    /** The start of a call in a wiped slot. */
    method StartCall(p: C.Voice, w: World)
      requires Valid() && Line() == C.BLANK && media == Recording.Begin(false, false, [], [])
      modifies this
      ensures Valid()
      ensures var o := C.Opened(p.callid, w.opening);
              && Line() == C.Begin(p.callid, o, if C.BothOpen(o) then w.fetched else None)
              && media == Recording.Begin(o.up, o.down, w.up0, w.down0)
      ensures left == old(left)
    {
      callid := p.callid;
      var o := C.Opened(p.callid, w.opening);
      upOpen, downOpen := o.up, o.down;
      job := if upOpen && downOpen then w.fetched else None;
      media := Recording.Begin(o.up, o.down, w.up0, w.down0);
    }

    /** The last block to a listener and to the files. */
    method LastBlocks(complete: bool)
      requires Valid()
      modifies this`listening, this`media
      ensures Valid() && media == WriteFiles(SendVoice(old(media), complete))
    {
      hide Interleave, WriteFiles;
      if listening {
        var _ := SendVoiceData(complete);
      }
      var _, _ := WriteVoiceFile();
    }

    /** The end of a call. */
    method EndCall(complete: bool) returns (handed: Option<C.Job>)
      requires Valid()
      modifies this
      ensures Valid()
      ensures handed == old(job) && Line() == C.BLANK && media == End(old(media), complete) && left == old(left)
    {
      hide Interleave, WriteFiles, SendVoice;
      LastBlocks(complete);
      CloseFiles();
      updateTime, callid, upEnd, downEnd := 0, 0, false, false;
      handed := job;
      job := None;
    }

    /** The first part of voice_parser: stamp the slot, refuse a stale packet, or make the slot the packet's. */
    method Own(p: C.Voice, w: World) returns (refused: bool, handed: seq<C.Job>)
      requires Valid()
      modifies this, dataUp, dataDown
      ensures Valid()
      ensures refused == C.Refused(old(Line()), p, w.now)
      ensures refused ==> handed == [] && Line() == C.Stamp(old(Line()), p, w.now) && media == old(media)
      ensures !refused ==>
                && handed == (if old(callid) == p.callid then [] else C.Jobs(old(job)))
                && Line() == C.Owned(old(Line()), p, w.now, w.opening, w.fetched)
                && media == OwnedMedia(old(Line()), old(media), p, w)
      ensures left == old(left) + (if refused || old(callid) == p.callid then [] else [Abandon(old(media))])
    {
      refused, handed := false, [];
      updateTime := w.now;
      if w.now - StartTime(p.callid) >= 18000 {
        if callid != 0 {
          upEnd, downEnd := true, true;
        } else {
          refused := true;
          return;
        }
      }
      if callid != p.callid {
        var left := Cleanup();
        handed := C.Jobs(left);
        Wipe();
        StartCall(p, w);
      }
    }

    /** A direction's end flag. */
    method NoteEnd(p: C.Voice)
      requires Valid()
      modifies this`upEnd, this`downEnd
      ensures Valid() && Line() == C.Mark(old(Line()), p)
    {
      if p.last {
        if p.up {
          upEnd := true;
        } else {
          downEnd := true;
        }
      }
    }

    /** The second part: store the payload, note an end mark, and end the call when both are there. */
    method TakeIn(p: C.Voice, payload: seq<Sample>, w: World) returns (handed: seq<C.Job>)
      requires Valid()
      modifies this, dataUp, dataDown
      ensures Valid()
      ensures
        var marked := C.Mark(old(Line()), p);
        var a := Accept(old(media), p.up, payload, old(job).Some?, w.flushed);
        && Line() == (if C.Ended(marked) then C.BLANK else marked)
        && handed == (if C.Ended(marked) then C.Jobs(old(job)) else [])
        && media == (if C.Ended(marked) then End(a, w.finished) else a)
      ensures left == old(left)
    {
      hide Stored, Room, End, C.Mark;
      FlushIfFull(p.up, w.flushed);
      Store(p.up, payload);
      NoteEnd(p);
      handed := [];
      if upEnd && downEnd {
        var done := EndCall(w.finished);
        handed := C.Jobs(done);
      }
    }

    /**
     voice_parser, with the slot's lock held: -1 for a packet that is too short or not voice, -2 for an
     overlong payload, else 0 and the nodes handed over.
     */
    method VoiceParser(pktLen: nat, kind: nat, p: C.Voice, payload: seq<Sample>, w: World)
      returns (result: int, handed: seq<C.Job>)
      requires Valid()
      modifies this, dataUp, dataDown
      ensures Valid()
      ensures result == if pktLen < 36 || kind != 3 then -1 else if |payload| > 1024 then -2 else 0
      ensures result != 0 ==> handed == [] && Line() == old(Line()) && media == old(media) && left == old(left)
      ensures result == 0 ==>
                && Line() == C.Next(old(Line()), p, w.now, w.opening, w.fetched)
                && handed == C.Handed(old(Line()), p, w.now, w.opening, w.fetched)
                && media == NextMedia(old(Line()), old(media), p, payload, w)
                && left == old(left) + (if C.Refused(old(Line()), p, w.now) || old(callid) == p.callid then [] else [Abandon(old(media))])
    {
      hide C.Refused, C.Owned, OwnedMedia, Accept, End, C.Mark;
      if pktLen < 36 || kind != 3 {
        return -1, [];
      }
      if |payload| > 1024 {
        return -2, [];
      }
      var refused, first := Own(p, w);
      if refused {
        return 0, [];
      }
      var second := TakeIn(p, payload, w);
      return 0, first + second;
    }

    /** A request to listen, once the slot is found: refused only if someone listens already; the call is not compared. */
    method Listen(wanted: CallId) returns (accepted: bool)
      requires Valid()
      modifies this`listening, this`media
      ensures Valid() && accepted == !old(listening) && listening
      ensures media == Attach(old(media)) && Line() == old(Line())
    {
      accepted := !listening;
      listening := true;
      media := Attach(media);
    }

    /** The sweep's visit to one slot in cycle_thread. */
    method SweepSlot(tim: int) returns (handed: seq<C.Job>)
      requires Valid()
      modifies this
      ensures Valid()
      ensures C.Idle(old(Line()), tim) ==>
                && Line() == C.Close(old(Line())).(job := None, updateTime := 0)
                && handed == C.Jobs(old(job)) && media == Abandon(old(media)) && left == old(left)
      ensures !C.Idle(old(Line()), tim) ==> Line() == old(Line()) && handed == [] && media == old(media) && left == old(left)
    {
      handed := [];
      if updateTime != 0 && tim - updateTime >= 60 {
        var left := Cleanup();
        handed := C.Jobs(left);
        updateTime := 0;
      }
    }
  }
}
