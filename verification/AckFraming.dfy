/** Four-byte acknowledgement frames arriving in arbitrary fragments. */
module AckFraming {
  import opened Bytes
  import opened Sequences

  /** Bytes of an unfinished frame, and the 16-bit codes completed so far by one receive. */
  datatype Fed = Fed(partial: seq<Byte>, codes: seq<Word>)

  /** A complete frame carries a code only when its command octet is 5. */
  function FrameCodes(frame: seq<Byte>): seq<Word>
    requires |frame| == 4
  {
    if frame[1] == 5 then [ToWord(frame[2], frame[3])] else []
  }

  /** A frame with command 5 carries its last two octets, high one first; any other carries nothing. */
  lemma FrameRoundTrip(a: Byte, command: Byte, code: Word)
    ensures FrameCodes([a, command, code / 256, code % 256]) == if command == 5 then [code] else []
  {
  }

  /** One receive of at most the missing bytes of the current frame. */
  function Feed(partial: seq<Byte>, bytes: seq<Byte>): (f: Fed)
    requires |partial| + |bytes| <= 4
    ensures |partial| < 4 ==> |f.partial| < 4
  {
    if |partial| + |bytes| == 4 then Fed([], FrameCodes(partial + bytes)) else Fed(partial + bytes, [])
  }

  /** The reference: a whole byte stream cut into frames from its start. */
  function Decode(stream: seq<Byte>): seq<Word> {
    if |stream| < 4 then [] else FrameCodes(stream[..4]) + Decode(stream[4..])
  }

  function Leftover(stream: seq<Byte>): (r: seq<Byte>)
    ensures |r| == |stream| % 4
  {
    stream[|stream| - |stream| % 4..]
  }

  lemma LeftoverSkipsFrame(stream: seq<Byte>)
    requires |stream| >= 4
    ensures Leftover(stream[4..]) == Leftover(stream)
  {
    assert |stream[4..]| % 4 == |stream| % 4;
  }

  lemma DecodeOneFrame(stream: seq<Byte>)
    requires |stream| <= 4
    ensures Decode(stream) == Feed([], stream).codes
    ensures Leftover(stream) == Feed([], stream).partial
  {
    if |stream| == 4 {
      assert stream[..4] == [] + stream && stream[4..] == [];
    } else {
      assert |stream| % 4 == |stream|;
    }
  }

  lemma {:induction false} DecodeAppend(stream: seq<Byte>, more: seq<Byte>)
    requires |stream| % 4 + |more| <= 4
    ensures Decode(stream + more) == Decode(stream) + Feed(Leftover(stream), more).codes
    ensures Leftover(stream + more) == Feed(Leftover(stream), more).partial
    decreases |stream|
  {
    if |stream| < 4 {
      DecodeOneFrame(stream);
      DecodeOneFrame(stream + more);
      assert [] + (stream + more) == stream + more && [] + stream == stream;
    } else {
      LeftoverSkipsFrame(stream);
      LeftoverSkipsFrame(stream + more);
      assert (stream + more)[..4] == stream[..4];
      assert (stream + more)[4..] == stream[4..] + more;
      DecodeAppend(stream[4..], more);
    }
  }

  /** Every receive delivers at least one byte and no more than the frame still misses. */
  ghost predicate Legal(chunks: seq<seq<Byte>>) {
    chunks == [] ||
    var before, last := chunks[..|chunks| - 1], chunks[|chunks| - 1];
    Legal(before) && 1 <= |last| <= 4 - |Concat(before)| % 4
  }

  /** All receives in turn, starting between frames. */
  ghost function FeedAll(chunks: seq<seq<Byte>>): (f: Fed)
    requires Legal(chunks)
    ensures |f.partial| == |Concat(chunks)| % 4
  {
    if chunks == [] then Fed([], []) else
    var before, last := chunks[..|chunks| - 1], chunks[|chunks| - 1];
    assert chunks == before + [last];
    ConcatSnoc(before, last);
    var done := FeedAll(before);
    var next := Feed(done.partial, last);
    Fed(next.partial, done.codes + next.codes)
  }

  /** However the stream is fragmented, the codes and the pending bytes are those of the whole stream. */
  lemma {:induction false} FragmentationDoesNotMatter(chunks: seq<seq<Byte>>)
    requires Legal(chunks)
    ensures FeedAll(chunks) == Fed(Leftover(Concat(chunks)), Decode(Concat(chunks)))
  {
    if chunks != [] {
      var before, last := chunks[..|chunks| - 1], chunks[|chunks| - 1];
      assert chunks == before + [last];
      ConcatSnoc(before, last);
      FragmentationDoesNotMatter(before);
      DecodeAppend(Concat(before), last);
    }
  }

  lemma SameStreamSameAcks(xs: seq<seq<Byte>>, ys: seq<seq<Byte>>)
    requires Legal(xs) && Legal(ys) && Concat(xs) == Concat(ys)
    ensures FeedAll(xs) == FeedAll(ys)
  {
    FragmentationDoesNotMatter(xs);
    FragmentationDoesNotMatter(ys);
  }

  /**
   Bytes pending from one stream shift the frames of what follows: the codes are those of the two streams
   apart, whatever the second one is, if and only if the first ends between two frames.
   */
  lemma StreamsAreApart(first: seq<Byte>)
    ensures (forall second :: Decode(first + second) == Decode(first) + Decode(second)) <==> |first| % 4 == 0
  {
    if |first| % 4 == 0 {
      forall second ensures Decode(first + second) == Decode(first) + Decode(second) {
        WholeFramesFirst(first, second);
      }
    } else {
      ShiftedFrame(first, [1, 5, 0, 0]);
    }
  }

  /** A frame that acknowledges record 0, with a 1 in front. */
  predicate IsProbe(s: seq<Byte>) { |s| == 4 && s[0] == 1 && s[1] == 5 && s[2] == 0 && s[3] == 0 }

  lemma ShiftedFrame(first: seq<Byte>, probe: seq<Byte>)
    requires |first| % 4 != 0 && IsProbe(probe)
    ensures Decode(first + probe) != Decode(first) + Decode(probe)
  {
    hide Decode, Leftover;
    var partial := Leftover(first);
    var k := 4 - |partial|;
    var head, tail := probe[..k], probe[k..];
    var frame := partial + head;
    DecodeAppend(first, head);
    assert |first + head| % 4 == 0;
    WholeFramesFirst(first + head, tail);
    assert first + head + tail == first + probe;
    DecodeOneFrame(probe);
    DecodeOneFrame(tail);
    FedFrame(probe, tail, frame);
    ShiftedCodes(|partial|, frame, probe);
    hide FrameCodes, Feed;
    TailsDiffer(Decode(first), FrameCodes(frame), FrameCodes(probe));
  }

  lemma TailsDiffer(a: seq<Word>, b: seq<Word>, c: seq<Word>)
    requires b != c
    ensures a + b + [] != a + c
  {
    assert (a + b + [])[|a|..] == b && (a + c)[|a|..] == c;
  }

  lemma FedFrame(probe: seq<Byte>, tail: seq<Byte>, frame: seq<Byte>)
    requires |probe| == 4 && |tail| < 4 && |frame| == 4
    ensures Feed([], probe).codes == FrameCodes(probe) && Feed([], tail).codes == []
  {
    assert [] + probe == probe;
  }

  lemma ShiftedCodes(r: nat, frame: seq<Byte>, probe: seq<Byte>)
    requires 0 < r < 4 && IsProbe(probe) && |frame| == 4 && forall i :: 0 <= i < 4 - r ==> frame[r + i] == probe[i]
    ensures FrameCodes(frame) != FrameCodes(probe)
  {
    assert r == 1 ==> frame[1 + 0] == 1;
    assert r == 2 ==> frame[2 + 0] == 1;
    assert r == 3 ==> frame[3 + 0] == 1;
    assert FrameCodes(probe) == [ToWord(0, 0)];
    assert FrameCodes(frame) == [] || FrameCodes(frame)[0] == ToWord(frame[2], frame[3]);
  }

  lemma {:induction false} WholeFramesFirst(first: seq<Byte>, second: seq<Byte>)
    requires |first| % 4 == 0
    ensures Decode(first + second) == Decode(first) + Decode(second)
    decreases |first|
  {
    if first == [] {
      assert first + second == second;
    } else {
      assert (first + second)[..4] == first[..4] && (first + second)[4..] == first[4..] + second;
      WholeFramesFirst(first[4..], second);
    }
  }
}
