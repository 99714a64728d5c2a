/**
 Error-correcting-mode fax pages (fax_decode.c): numbered frames are stored as they come and replayed in
 numeric order when the page ends. The frame-type codes are those of ITU-T T.30 and T.4, in the bit order of
 the modem library's headers, which are not part of this model.
 */
module EcmPage {
  import opened Bytes
  import opened Sequences

  const FCD: Byte := 0x06
  const DCS: Byte := 0x82
  const CFR: Byte := 0x84

  const FRAMES := 256

  /** A frame as delivered by the HDLC receiver; a negative length reports a line condition instead. */
  datatype Message = Condition | Frame(bytes: seq<Byte>, ok: bool)

  /** One decoder: `page` holds the frames stored since the page began, `image` the octets put into it. */
  datatype Decoder = Decoder(
    pageUp: bool, ecm: bool, faxSeen: bool,
    page: seq<Option<seq<Byte>>>,
    image: seq<Byte>)

  datatype Numbered = Numbered(number: Byte, payload: seq<Byte>)

  function EmptyPage(): (page: seq<Option<seq<Byte>>>)
    ensures |page| == FRAMES && forall i :: 0 <= i < FRAMES ==> page[i] == None
  {
    seq(FRAMES, _ => None)
  }

  /** The type octet with its lowest bit cleared. */
  function Kind(msg: seq<Byte>): Byte
    requires |msg| >= 3
  {
    msg[2] - msg[2] % 2
  }

  predicate HeaderOk(m: Message) {
    m.Frame? && m.ok && |m.bytes| >= 3 && m.bytes[0] == 0xFF && (m.bytes[1] == 0x03 || m.bytes[1] == 0x13)
  }

  /** Frames long enough for what hdlc_accept reads of them. */
  predicate WellSized(m: Message) {
    m.Frame? && m.ok ==> |m.bytes| >= 3 && (HeaderOk(m) && Kind(m.bytes) == FCD ==> |m.bytes| >= 4)
  }

  /** The image data a message carries, if it is an acceptable facsimile data frame. */
  function ImageFrame(m: Message): Option<Numbered>
    requires WellSized(m)
  {
    if HeaderOk(m) && Kind(m.bytes) == FCD && |m.bytes| <= 4 + 256
    then Some(Numbered(m.bytes[3], m.bytes[4..]))
    else None
  }

  predicate SetsMode(m: Message) { HeaderOk(m) && Kind(m.bytes) == DCS && |m.bytes| >= 6 }

  /** Bit 3 of octet 6 of the command, which counts as zero when it was not sent. */
  predicate ModeBit(msg: seq<Byte>) { |msg| > 6 && msg[6] / 4 % 2 == 1 }

  function Stored(page: seq<Option<seq<Byte>>>, f: Numbered): seq<Option<seq<Byte>>>
    requires |page| == FRAMES
  {
    page[f.number := Some(f.payload)]
  }

  /** hdlc_accept. */
  function Accept(d: Decoder, m: Message): Decoder
    requires |d.page| == FRAMES && WellSized(m)
  {
    if ImageFrame(m).Some? then d.(page := Stored(d.page, ImageFrame(m).value))
    else if SetsMode(m) then d.(ecm := ModeBit(m.bytes))
    else if HeaderOk(m) && Kind(m.bytes) == CFR then d.(faxSeen := true)
    else d
  }

  function BeginPage(d: Decoder): Decoder { d.(pageUp := true, page := EmptyPage(), image := []) }

  /** The stored payloads from frame `n` on, in numeric order; an empty one adds nothing. */
  function Replay(page: seq<Option<seq<Byte>>>, n: nat): seq<Byte>
    requires n <= |page|
    decreases |page| - n
  {
    if n == |page| then [] else (if page[n].Some? then page[n].value else []) + Replay(page, n + 1)
  }

  lemma ReplayStep(page: seq<Option<seq<Byte>>>, n: nat)
    requires n <= |page|
    ensures Replay(page, n) ==
            if n == |page| then [] else (if page[n].Some? then page[n].value else []) + Replay(page, n + 1)
  {
  }

  function EndPage(d: Decoder): Decoder {
    if !d.pageUp then d
    else if d.ecm then d.(pageUp := false, image := d.image + Replay(d.page, 0))
    else d.(pageUp := false)
  }

  // ---------- the reference: last payload of each number ----------

  /** The payload of the last frame with this number. */
  function Last(frames: seq<Numbered>, number: nat): Option<seq<Byte>> {
    if frames == [] then None else
    var f := frames[|frames| - 1];
    if f.number == number then Some(f.payload) else Last(frames[..|frames| - 1], number)
  }

  function LastPage(frames: seq<Numbered>): seq<Option<seq<Byte>>> { seq(FRAMES, n requires 0 <= n => Last(frames, n)) }

  function ImageFrames(messages: seq<Message>): seq<Numbered>
    requires forall m :: m in messages ==> WellSized(m)
  {
    if messages == [] then [] else
    var f := ImageFrame(messages[|messages| - 1]);
    ImageFrames(messages[..|messages| - 1]) + (if f.Some? then [f.value] else [])
  }

  function AcceptAll(d: Decoder, messages: seq<Message>): (r: Decoder)
    requires |d.page| == FRAMES && forall m :: m in messages ==> WellSized(m)
    ensures |r.page| == FRAMES
  {
    if messages == [] then d else Accept(AcceptAll(d, messages[..|messages| - 1]), messages[|messages| - 1])
  }

  lemma LastPageSnoc(frames: seq<Numbered>, f: Numbered)
    ensures LastPage(frames + [f]) == Stored(LastPage(frames), f)
  {
    assert (frames + [f])[..|frames|] == frames;
  }

  /** The mode after some messages: the last one that sets it decides. */
  function LastMode(before: bool, messages: seq<Message>): bool {
    if messages == [] then before else
    var m := messages[|messages| - 1];
    if SetsMode(m) then ModeBit(m.bytes) else LastMode(before, messages[..|messages| - 1])
  }

  lemma {:induction false} PageIsLastPage(d: Decoder, messages: seq<Message>)
    requires d.page == EmptyPage() && forall m :: m in messages ==> WellSized(m)
    ensures var r := AcceptAll(d, messages);
            && r.page == LastPage(ImageFrames(messages)) && r.ecm == LastMode(d.ecm, messages)
            && r.pageUp == d.pageUp && r.image == d.image
  {
    if messages != [] {
      var front, m := messages[..|messages| - 1], messages[|messages| - 1];
      PageIsLastPage(d, front);
      var f := ImageFrame(m);
      assert ImageFrames(messages) == ImageFrames(front) + (if f.Some? then [f.value] else []);
      if f.Some? {
        LastPageSnoc(ImageFrames(front), f.value);
        assert AcceptAll(d, messages).page == Stored(AcceptAll(d, front).page, f.value);
      } else {
        assert ImageFrames(messages) == ImageFrames(front);
      }
    }
  }

  /**
   Between the beginning and the end of a page, whatever messages come, the image is the last accepted
   payload of each frame number in numeric order if error correction is on at the end, else nothing.
   */
  lemma PageReplaysLastPayloads(d: Decoder, messages: seq<Message>)
    requires forall m :: m in messages ==> WellSized(m)
    ensures EndPage(AcceptAll(BeginPage(d), messages)).image ==
            if LastMode(d.ecm, messages) then Replay(LastPage(ImageFrames(messages)), 0) else []
  {
    hide AcceptAll, LastPage, Replay, ImageFrames, LastMode;
    PageIsLastPage(BeginPage(d), messages);
  }

  /** Frames with one number carry one payload, as retransmissions do. */
  ghost predicate Consistent(frames: seq<Numbered>) {
    forall f, g :: f in frames && g in frames && f.number == g.number ==> f.payload == g.payload
  }

  lemma {:induction false} LastOccurs(frames: seq<Numbered>, number: nat)
    ensures match Last(frames, number)
            case Some(p) => number < 256 && Numbered(number, p) in frames
            case None => forall f :: f in frames ==> f.number != number
  {
    if frames != [] {
      var front, f := frames[..|frames| - 1], frames[|frames| - 1];
      LastOccurs(front, number);
      assert frames == front + [f];
    }
  }

  /** Arrival order and repetition do not matter: frames with the same contents make the same page. */
  lemma PageIgnoresOrder(a: seq<Numbered>, b: seq<Numbered>)
    requires Consistent(a) && forall f :: f in a <==> f in b
    ensures LastPage(a) == LastPage(b)
  {
    forall n | 0 <= n < FRAMES ensures Last(a, n) == Last(b, n) {
      LastOccurs(a, n);
      LastOccurs(b, n);
    }
  }

  /** Two receptions of one page that end in the same mode, in any order and with any repeats, replay the same image. */
  lemma ImageIgnoresArrivalOrder(d: Decoder, xs: seq<Message>, ys: seq<Message>)
    requires (forall m :: m in xs ==> WellSized(m)) && forall m :: m in ys ==> WellSized(m)
    requires LastMode(d.ecm, xs) == LastMode(d.ecm, ys)
    requires Consistent(ImageFrames(xs)) && forall f :: f in ImageFrames(xs) <==> f in ImageFrames(ys)
    ensures EndPage(AcceptAll(BeginPage(d), xs)).image == EndPage(AcceptAll(BeginPage(d), ys)).image
  {
    PageReplaysLastPayloads(d, xs);
    PageReplaysLastPayloads(d, ys);
    PageIgnoresOrder(ImageFrames(xs), ImageFrames(ys));
  }

  // ---------- a whole page of frames ----------

  /** A data frame on the line: address, control, type, number, then up to 256 octets. */
  function DataFrame(number: Byte, payload: seq<Byte>): Message {
    Frame([0xFF, 0x03, 0x06, number] + payload, true)
  }

  /** The command that sets the mode: error correction is bit 2 of its seventh octet. */
  function ModeCommand(a: Byte, b: Byte, c: Byte, flags: Byte): Message {
    Frame([0xFF, 0x13, 0x82, a, b, c, flags], true)
  }

  lemma DataFrameIsStored(d: Decoder, number: Byte, payload: seq<Byte>)
    requires |d.page| == FRAMES
    ensures
      var m := DataFrame(number, payload);
      && WellSized(m) && !SetsMode(m)
      && ImageFrame(m) == (if |payload| <= 256 then Some(Numbered(number, payload)) else None)
      && (|payload| > 256 ==> Accept(d, m) == d)
  {
    assert ([0xFF, 0x03, 0x06, number] + payload)[4..] == payload;
  }

  lemma ModeCommandSets(d: Decoder, a: Byte, b: Byte, c: Byte, flags: Byte)
    requires |d.page| == FRAMES
    ensures WellSized(ModeCommand(a, b, c, flags))
    ensures Accept(d, ModeCommand(a, b, c, flags)) == d.(ecm := flags / 4 % 2 == 1)
  {
  }

  ghost predicate Carries(m: Message, payloads: seq<seq<Byte>>)
    requires |payloads| <= 256
  {
    exists n :: 0 <= n < |payloads| && m == DataFrame(n, payloads[n])
  }

  /** A condition, a frame with a bad checksum or one without the fixed first two octets changes nothing. */
  lemma OthersAreIgnored(d: Decoder, m: Message)
    requires |d.page| == FRAMES && WellSized(m)
    requires m.Condition? || !m.ok || m.bytes[0] != 255 || (m.bytes[1] != 3 && m.bytes[1] != 19)
    ensures Accept(d, m) == d
  {
  }

  /** A mode command of fewer than six octets is ignored; one of exactly six turns error correction off. */
  lemma ShortModeCommand(d: Decoder, head: seq<Byte>)
    requires |d.page| == FRAMES && 3 <= |head| <= 6 && head[0] == 255 && head[1] == 3 && head[2] == 130
    ensures Accept(d, Frame(head, true)) == if |head| == 6 then d.(ecm := false) else d
  {
  }

  /** A good frame with the confirmation command, type octet 0x84 or 0x85. */
  ghost predicate Confirms(m: Message) {
    m.Frame? && m.ok && |m.bytes| >= 3 && m.bytes[0] == 255 && (m.bytes[1] == 3 || m.bytes[1] == 19) &&
    (m.bytes[2] == 132 || m.bytes[2] == 133)
  }

  /** The fax flag is up exactly when such a frame has come. */
  lemma {:induction false} FaxFlagFollows(d: Decoder, messages: seq<Message>)
    requires |d.page| == FRAMES && forall m :: m in messages ==> WellSized(m)
    ensures AcceptAll(d, messages).faxSeen <==> d.faxSeen || exists m :: m in messages && Confirms(m)
  {
    if messages != [] {
      var front, last := messages[..|messages| - 1], messages[|messages| - 1];
      assert messages == front + [last];
      FaxFlagFollows(d, front);
      ConfirmationIsSeen(AcceptAll(d, front), last);
    }
  }

  lemma ConfirmationIsSeen(d: Decoder, m: Message)
    requires |d.page| == FRAMES && WellSized(m)
    ensures Accept(d, m).faxSeen == (d.faxSeen || Confirms(m))
  {
    if m.Frame? && m.ok {
      assert Kind(m.bytes) == CFR <==> m.bytes[2] == 132 || m.bytes[2] == 133;
    }
  }

  /** A page ends once: a second end adds nothing. */
  lemma EndingTwice(d: Decoder)
    requires |d.page| == FRAMES
    ensures EndPage(EndPage(d)) == EndPage(d) && !EndPage(d).pageUp
  {
  }

  /** The messages are data frames of these payloads, each at least once. */
  ghost predicate Sends(messages: seq<Message>, payloads: seq<seq<Byte>>) {
    && |payloads| <= 256
    && (forall m :: m in messages ==> Carries(m, payloads))
    && (forall n :: 0 <= n < |payloads| ==> DataFrame(n, payloads[n]) in messages)
    && (forall n :: 0 <= n < |payloads| ==> |payloads[n]| <= 256)
  }

  lemma {:induction false} FramesSent(messages: seq<Message>, payloads: seq<seq<Byte>>)
    requires |payloads| <= 256 && forall n :: 0 <= n < |payloads| ==> |payloads[n]| <= 256
    requires forall m :: m in messages ==> Carries(m, payloads)
    ensures forall m :: m in messages ==> WellSized(m)
    ensures forall before :: LastMode(before, messages) == before
    ensures forall f :: f in ImageFrames(messages) <==>
              0 <= f.number < |payloads| && f.payload == payloads[f.number] && DataFrame(f.number, f.payload) in messages
  {
    if messages != [] {
      var front, m := messages[..|messages| - 1], messages[|messages| - 1];
      assert messages == front + [m];
      assert Carries(m, payloads);
      FramesSent(front, payloads);
      var n :| 0 <= n < |payloads| && m == DataFrame(n, payloads[n]);
      DataFrameIsStored(Decoder(false, false, false, EmptyPage(), []), n, payloads[n]);
      forall f: Numbered | DataFrame(f.number, f.payload) == m ensures f == Numbered(n, payloads[n]) {
        SameFrame(f, Numbered(n, payloads[n]));
      }
    }
  }

  lemma SameFrame(f: Numbered, g: Numbered)
    requires DataFrame(f.number, f.payload) == DataFrame(g.number, g.payload)
    ensures f == g
  {
    var a, b := [0xFF, 0x03, 0x06, f.number] + f.payload, [0xFF, 0x03, 0x06, g.number] + g.payload;
    assert a[3] == f.number && b[3] == g.number && a[4..] == f.payload && b[4..] == g.payload;
  }

  lemma {:induction false} ReplayIsConcat(page: seq<Option<seq<Byte>>>, payloads: seq<seq<Byte>>, n: nat)
    requires |page| == FRAMES && n <= |payloads| <= FRAMES
    requires forall i :: 0 <= i < FRAMES ==> page[i] == if i < |payloads| then Some(payloads[i]) else None
    ensures Replay(page, n) == Concat(payloads[n..])
    decreases |payloads| - n
  {
    if n < |payloads| {
      ReplayIsConcat(page, payloads, n + 1);
      assert payloads[n..][1..] == payloads[n + 1..];
    } else {
      ReplayOfNothing(page, n);
    }
  }

  lemma {:induction false} ReplayOfNothing(page: seq<Option<seq<Byte>>>, n: nat)
    requires n <= |page| && forall i :: n <= i < |page| ==> page[i] == None
    ensures Replay(page, n) == []
    decreases |page| - n
  {
    if n < |page| {
      ReplayOfNothing(page, n + 1);
    }
  }

  /**
   A page of up to 256 frames of up to 256 octets, sent in any order and as often as needed after a command that
   sets error correction, is replayed completely: the image is the payloads one after another.
   */
  lemma FullPageIsReplayed(d: Decoder, a: Byte, b: Byte, c: Byte, flags: Byte, messages: seq<Message>, payloads: seq<seq<Byte>>)
    requires |d.page| == FRAMES && flags / 4 % 2 == 1 && Sends(messages, payloads)
    ensures forall m :: m in messages ==> WellSized(m)
    ensures WellSized(ModeCommand(a, b, c, flags))
    ensures EndPage(AcceptAll(BeginPage(Accept(d, ModeCommand(a, b, c, flags))), messages)).image == Concat(payloads)
  {
    hide LastMode, ImageFrames, DataFrame;
    FramesSent(messages, payloads);
    ModeCommandSets(d, a, b, c, flags);
    var frames := ImageFrames(messages);
    forall n | 0 <= n < FRAMES ensures Last(frames, n) == if n < |payloads| then Some(payloads[n]) else None {
      LastOccurs(frames, n);
      if n < |payloads| {
        assert Numbered(n, payloads[n]) in frames;
      }
    }
    ReplayIsConcat(LastPage(frames), payloads, 0);
    assert payloads[0..] == payloads;
    PageReplaysLastPayloads(Accept(d, ModeCommand(a, b, c, flags)), messages);
  }

  /** One decoding thread's stored frames and flags, updated in place. */
  class Receiver {
    const ecmData: array2<Byte>
    const ecmLen: array<int>
    var t4Up: bool
    var errorCorrecting: bool
    var faxFlag: bool
    ghost var d: Decoder

    ghost predicate Valid()
      reads this, ecmData, ecmLen
    {
      && ecmData.Length0 == FRAMES && ecmData.Length1 == 260 && ecmLen.Length == FRAMES
      && |d.page| == FRAMES
      && t4Up == d.pageUp && errorCorrecting == d.ecm && faxFlag == d.faxSeen
      && forall i :: 0 <= i < FRAMES ==> RowHolds(i)
    }

    /** Row i holds the stored payload, or the length says there is none. */
    ghost predicate RowHolds(i: nat)
      requires ecmData.Length0 == FRAMES && ecmData.Length1 == 260 && ecmLen.Length == FRAMES && |d.page| == FRAMES
      requires i < FRAMES
      reads this, ecmData, ecmLen
    {
      if d.page[i].None? then ecmLen[i] == -1 else
      && ecmLen[i] == |d.page[i].value| <= 256
      && forall j :: 0 <= j < ecmLen[i] ==> ecmData[i, j] == d.page[i].value[j]
    }

    constructor ()
      ensures Valid() && fresh(ecmData) && fresh(ecmLen)
      ensures d == Decoder(false, false, false, EmptyPage(), [])
    {
      ecmData := new Byte[FRAMES, 260]((_, _) => 0);
      ecmLen := new int[FRAMES](_ => -1);
      t4Up, errorCorrecting, faxFlag := false, false, false;
      d := Decoder(false, false, false, EmptyPage(), []);
    }

    method HdlcAccept(m: Message)
      requires Valid() && WellSized(m)
      modifies this, ecmData, ecmLen
      ensures Valid() && d == Accept(old(d), m)
    {
      if m.Frame? && m.ok && m.bytes[0] == 0xFF && (m.bytes[1] == 0x03 || m.bytes[1] == 0x13) {
        var kind := Kind(m.bytes);
        if kind == FCD {
          if |m.bytes| <= 4 + 256 {
            StoreFrame(m.bytes[3], m.bytes[4..]);
          }
        } else if kind == DCS {
          if |m.bytes| >= 6 {
            SetFlags(ModeBit(m.bytes), faxFlag);
          }
        } else if kind == CFR {
          SetFlags(errorCorrecting, true);
        }
      }
    }

    method SetFlags(ecm: bool, fax: bool)
      requires Valid()
      modifies this`errorCorrecting, this`faxFlag, this`d
      ensures Valid() && d == old(d).(ecm := ecm, faxSeen := fax)
    {
      errorCorrecting, faxFlag := ecm, fax;
      d := d.(ecm := ecm, faxSeen := fax);
      forall i | 0 <= i < FRAMES ensures RowHolds(i) {
        assert old(RowHolds(i));
      }
    }

    /** Stores the image data of a frame, and its length. */
    method StoreFrame(no: Byte, payload: seq<Byte>)
      requires Valid() && |payload| <= 256
      modifies this`d, ecmData, ecmLen
      ensures Valid() && d == old(d).(page := Stored(old(d).page, Numbered(no, payload)))
    {
      forall j | 0 <= j < |payload| {
        ecmData[no, j] := payload[j];
      }
      ecmLen[no] := |payload|;
      d := d.(page := Stored(d.page, Numbered(no, payload)));
      forall i | 0 <= i < FRAMES ensures RowHolds(i) {
        assert old(RowHolds(i));
      }
    }

    method T4Begin()
      requires Valid()
      modifies this, ecmLen
      ensures Valid() && d == BeginPage(old(d))
    {
      t4Up := true;
      var i := 0;
      while i < 256
        modifies ecmLen
        invariant 0 <= i <= 256
        invariant forall k :: 0 <= k < i ==> ecmLen[k] == -1
      {
        ecmLen[i] := -1;
        i := i + 1;
      }
      d := BeginPage(d);
    }

    /** Returns the octets put into the page. */
    method T4End() returns (chunks: seq<Byte>)
      requires Valid()
      modifies this`t4Up, this`d
      ensures Valid() && d == EndPage(old(d))
      ensures d.image == old(d).image + chunks
    {
      hide Replay;
      chunks := [];
      if !t4Up {
        return;
      }
      ReplayStep(d.page, 256);
      if errorCorrecting {
        var i := 0;
        while i < 256
          modifies {}
          invariant 0 <= i <= 256
          invariant chunks + Replay(d.page, i) == Replay(d.page, 0)
        {
          assert RowHolds(i) && |d.page| == FRAMES;
          ReplayStep(d.page, i);
          if ecmLen[i] > 0 {
            var chunk := seq(ecmLen[i], j requires 0 <= j < ecmLen[i] <= 256 && i < 256 && Valid() reads this, ecmData, ecmLen => ecmData[i, j]);
            assert chunk == d.page[i].value;
            chunks := chunks + chunk;
          }
          i := i + 1;
        }
      }
      t4Up := false;
      d := EndPage(d);
      forall i | 0 <= i < FRAMES ensures RowHolds(i) {
        assert old(RowHolds(i));
      }
    }
  }
}
