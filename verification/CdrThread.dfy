/** The connection thread of send_cdr.c: acknowledgement reassembly, reconnects and transmission. */
module CdrThread {
  import opened Bytes
  import opened CdrRing
  import opened CdrSender
  import AckFraming
  import W = CdrWindow

  /** What select and recv report in one turn of the loop. */
  datatype Input = Quiet | Closed | Data(bytes: seq<Byte>)

  /** What other threads enqueue while one turn of the loop runs, by the step it comes before. */
  datatype Others = Others(reload: seq<Cdr>, connect: seq<Cdr>, receive: seq<Cdr>, send: seq<Cdr>)

  function Inserts(records: seq<Cdr>): (events: seq<Event<Cdr>>)
    ensures |events| == |records| && forall i :: 0 <= i < |records| ==> events[i] == Insert(records[i])
  {
    seq(|records|, i requires 0 <= i < |records| => Insert(records[i]))
  }

  /** Reload closes the socket; a closed socket is reopened if the peer answers. */
  function OpenEvents(up: bool, reload: bool, connects: bool, between: seq<Cdr>): seq<Event<Cdr>> {
    (if reload then [Disconnect] else []) + Inserts(between) +
    (if (!up || reload) && connects then [Connect] else [])
  }

  /** With an open socket: at most one receive, then one transmission unless the peer hung up. */
  function ServeEvents(input: Input, delivered: bool, between: seq<Cdr>): seq<Event<Cdr>> {
    (match input
     case Quiet => []
     case Closed => [Disconnect]
     case Data(bytes) => [Receive(bytes)])
    + Inserts(between) + (if input.Closed? then [] else [Transmit(delivered)])
  }

  /** The state changes one turn of the loop makes, in order, with the other threads' inserts among them. */
  function TurnEvents(up: bool, reload: bool, connects: bool, input: Input, delivered: bool, others: Others): seq<Event<Cdr>> {
    Inserts(others.reload) + OpenEvents(up, reload, connects, others.connect) + Inserts(others.receive) +
    if (up && !reload) || connects then ServeEvents(input, delivered, others.send) else []
  }

  /** The events that are not inserts. */
  function OwnSteps(events: seq<Event<Cdr>>): seq<Event<Cdr>> {
    if events == [] then [] else (if events[0].Insert? then [] else [events[0]]) + OwnSteps(events[1..])
  }

  lemma {:induction false} OwnStepsAppend(xs: seq<Event<Cdr>>, ys: seq<Event<Cdr>>)
    ensures OwnSteps(xs + ys) == OwnSteps(xs) + OwnSteps(ys)
  {
    if xs == [] {
      assert xs + ys == ys;
    } else {
      OwnStepsAppend(xs[1..], ys);
      assert (xs + ys)[1..] == xs[1..] + ys && (xs + ys)[0] == xs[0];
      var head := if xs[0].Insert? then [] else [xs[0]];
      assert head + (OwnSteps(xs[1..]) + OwnSteps(ys)) == head + OwnSteps(xs[1..]) + OwnSteps(ys);
    }
  }

  lemma {:induction false} InsertsAreNotOwn(records: seq<Cdr>)
    ensures OwnSteps(Inserts(records)) == []
  {
    if records != [] {
      assert Inserts(records)[1..] == Inserts(records[1..]);
      InsertsAreNotOwn(records[1..]);
    }
  }

  /**
   What a turn does by itself: a reload closes the socket; a closed one is opened if the peer answers; and with an open
   one every turn ends with a transmission, after what was received, unless the peer has hung up.
   */
  lemma StepsOfATurn(up: bool, reload: bool, connects: bool, input: Input, delivered: bool, others: Others)
    ensures
      var steps := OwnSteps(TurnEvents(up, reload, connects, input, delivered, others));
      var closed := if reload then [Disconnect] else [];
      if up && !reload then steps == Served(input, delivered)
      else if connects then steps == closed + [Connect] + Served(input, delivered)
      else steps == closed
  {
    hide Inserts, OwnSteps, OpenEvents, ServeEvents;
    var opening := OpenEvents(up, reload, connects, others.connect);
    var serving := if (up && !reload) || connects then ServeEvents(input, delivered, others.send) else [];
    InsertsAreNotOwn(others.reload);
    InsertsAreNotOwn(others.receive);
    OpeningSteps(up, reload, connects, others.connect);
    ServedSteps(input, delivered, others.send);
    OwnStepsAppend(Inserts(others.reload) + opening + Inserts(others.receive), serving);
    OwnStepsAppend(Inserts(others.reload) + opening, Inserts(others.receive));
    OwnStepsAppend(Inserts(others.reload), opening);
    OwnStepsOfNone();
  }

  lemma OpeningSteps(up: bool, reload: bool, connects: bool, between: seq<Cdr>)
    ensures OwnSteps(OpenEvents(up, reload, connects, between)) ==
            (if reload then [Disconnect] else []) + (if (!up || reload) && connects then [Connect] else [])
  {
    var closing := if reload then [Disconnect] else [];
    var connecting := if (!up || reload) && connects then [Connect] else [];
    InsertsAreNotOwn(between);
    OwnStepsAppend(closing + Inserts(between), connecting);
    OwnStepsAppend(closing, Inserts(between));
    OwnStepsOfOne(Disconnect);
    OwnStepsOfOne(Connect);
    OwnStepsOfNone();
  }

  lemma OwnStepsOfNone()
    ensures OwnSteps([]) == []
  {
  }

  lemma OwnStepsOfOne(e: Event<Cdr>)
    ensures OwnSteps([e]) == if e.Insert? then [] else [e]
  {
    assert [e][1..] == [];
  }

  function Served(input: Input, delivered: bool): seq<Event<Cdr>> {
    match input
    case Quiet => [Transmit(delivered)]
    case Closed => [Disconnect]
    case Data(bytes) => [Receive(bytes), Transmit(delivered)]
  }

  lemma ServedSteps(input: Input, delivered: bool, between: seq<Cdr>)
    ensures OwnSteps(ServeEvents(input, delivered, between)) == Served(input, delivered)
  {
    var first := match input case Quiet => [] case Closed => [Disconnect] case Data(bytes) => [Receive(bytes)];
    var last := if input.Closed? then [] else [Transmit(delivered)];
    InsertsAreNotOwn(between);
    OwnStepsAppend(first + Inserts(between), last);
    OwnStepsAppend(first, Inserts(between));
    OwnStepsOfOne(Disconnect);
    OwnStepsOfOne(Transmit(delivered));
    if input.Data? {
      OwnStepsOfOne(Receive(input.bytes));
    }
  }

  class Connection {
    const ring: Ring
    const frame: array<Byte>
    var remain: nat
    var received: nat
    var open: bool
    ghost var s: Sender<Cdr>

    ghost predicate Valid()
      reads this, ring, ring.buf, frame
    {
      && ring.Valid()
      && ring.win == s.win
      && Inv(s)
      && open == s.up
      && frame.Length == 4
      && remain + received == 4
      && remain > 0
      && frame[..received] == s.partial
    }

    constructor ()
      ensures Valid() && fresh(ring) && fresh(ring.buf) && fresh(frame)
      ensures s == Init(ZERO_CDR)
    {
      ring := new Ring();
      frame := new Byte[4];
      remain, received, open := 4, 0, false;
      s := Init(ZERO_CDR);
      new;
      InitInv(ZERO_CDR);
    }

    /** cdr_insert, called by any thread between two steps of this one. */
    method Enqueue(record: Cdr)
      requires Valid()
      modifies this, ring, ring.buf
      ensures Valid() && s == Step(old(s), Insert(record))
      ensures open == old(open) && remain == old(remain)
    {
      StepInv(s, Insert(record));
      ring.Insert(record);
      s := Step(s, Insert(record));
    }

    method EnqueueAll(records: seq<Cdr>)
      requires Valid()
      modifies this, ring, ring.buf
      ensures Valid() && open == old(open) && remain == old(remain)
      ensures Reaches(old(s), Inserts(records), s)
    {
      ghost var start := s;
      var i := 0;
      assert Inserts(records)[..0] == [];
      while i < |records|
        invariant 0 <= i <= |records|
        invariant Valid() && open == old(open) && remain == old(remain)
        invariant Reaches(start, Inserts(records)[..i], s)
      {
        ghost var before := s;
        Enqueue(records[i]);
        ReachesOne(before, Insert(records[i]));
        ReachesTrans(start, Inserts(records)[..i], before, [Insert(records[i])], s);
        assert Inserts(records)[..i + 1] == Inserts(records)[..i] + [Insert(records[i])];
        i := i + 1;
      }
      assert Inserts(records)[..i] == Inserts(records);
    }

    method Hangup()
      requires Valid()
      modifies this
      ensures Valid() && !open && s == Step(old(s), Disconnect)
    {
      StepInv(s, Disconnect);
      open := false;
      s := Step(s, Disconnect);
    }

    method Reconnect()
      requires Valid() && !open
      modifies this, ring
      ensures Valid() && open && s == Step(old(s), Connect)
    {
      StepInv(s, Connect);
      open := true;
      ring.ResetSend();
      s := Step(s, Connect);
    }

    /** recv appends to the frame; a completed frame is acted on and the next one begun. */
    method Take(bytes: seq<Byte>)
      requires Valid() && open
      requires 1 <= |bytes| <= remain
      modifies this, ring, frame
      ensures Valid() && s == Step(old(s), Receive(bytes))
    {
      hide Inv;
      StepInv(s, Receive(bytes));
      ghost var before := frame[..received];
      forall i | 0 <= i < |bytes| {
        frame[received + i] := bytes[i];
      }
      assert frame[..received + |bytes|] == before + bytes;
      remain := remain - |bytes|;
      received := received + |bytes|;
      if remain == 0 {
        assert frame[..] == s.partial + bytes;
        if frame[1] == 5 {
          ring.UpdateAck(ToWord(frame[2], frame[3]));
        }
        remain := 4;
        received := 0;
      }
      s := Step(s, Receive(bytes));
    }

    method SendBatch(delivered: bool) returns (header: seq<Byte>, records: seq<Cdr>)
      requires Valid() && open
      modifies this, ring
      ensures Valid() && s == Step(old(s), Transmit(delivered))
      ensures open == (delivered || records == [])
      ensures records == W.NextBatch(old(s.win)).records
      ensures header == if records == [] then [] else Header(Wrap(old(s.win.send)), |records|)
    {
      StepInv(s, Transmit(delivered));
      W.SendKeepsOk(s.win);
      header, records := ring.Send();
      if records != [] && !delivered {
        open := false;
      }
      s := Step(s, Transmit(delivered));
    }

    method EnsureOpen(reload: bool, connects: bool, between: seq<Cdr>)
      requires Valid()
      modifies this, ring, ring.buf
      ensures Valid()
      ensures open == ((old(open) && !reload) || connects)
      ensures remain == old(remain)
      ensures Reaches(old(s), OpenEvents(old(open), reload, connects, between), s)
    {
      hide Inv, Reaches;
      ghost var s0 := s;
      ghost var first, last: seq<Event<Cdr>> := [], [];
      ReachesNone(s0);
      if reload {
        first := [Disconnect];
        Hangup();
        ReachesOne(s0, Disconnect);
      }
      ghost var s1 := s;
      EnqueueAll(between);
      ReachesTrans(s0, first, s1, Inserts(between), s);
      ghost var s2 := s;
      ReachesNone(s2);
      if !open && connects {
        last := [Connect];
        Reconnect();
        ReachesOne(s2, Connect);
      }
      ReachesTrans(s0, first + Inserts(between), s2, last, s);
    }

    method Serve(input: Input, delivered: bool, between: seq<Cdr>)
      requires Valid() && open
      requires input.Data? ==> 1 <= |input.bytes| <= remain
      modifies this, ring, ring.buf, frame
      ensures Valid()
      ensures Reaches(old(s), ServeEvents(input, delivered, between), s)
    {
      hide Inv, Reaches;
      ghost var s0 := s;
      ghost var first, last: seq<Event<Cdr>> := [], [];
      ReachesNone(s0);
      match input {
        case Quiet =>
        case Closed =>
          first := [Disconnect];
          Hangup();
          ReachesOne(s0, Disconnect);
        case Data(bytes) =>
          first := [Receive(bytes)];
          Take(bytes);
          ReachesOne(s0, Receive(bytes));
      }
      ghost var s1 := s;
      EnqueueAll(between);
      ReachesTrans(s0, first, s1, Inserts(between), s);
      ghost var s2 := s;
      ReachesNone(s2);
      if open {
        last := [Transmit(delivered)];
        var _, _ := SendBatch(delivered);
        ReachesOne(s2, Transmit(delivered));
      }
      ReachesTrans(s0, first + Inserts(between), s2, last, s);
    }

    /** One turn of the loop in conn_cdr_thread, with whatever other threads enqueue before each of its steps. */
    method Turn(reload: bool, connects: bool, input: Input, delivered: bool, others: Others)
      requires Valid()
      requires input.Data? ==> 1 <= |input.bytes| <= remain
      modifies this, ring, ring.buf, frame
      ensures Valid()
      ensures Reaches(old(s), TurnEvents(old(open), reload, connects, input, delivered, others), s)
    {
      hide Inv, Reaches;
      ghost var s0 := s;
      EnqueueAll(others.reload);
      ghost var s1 := s;
      EnsureOpen(reload, connects, others.connect);
      ghost var opening := OpenEvents(old(open), reload, connects, others.connect);
      ReachesTrans(s0, Inserts(others.reload), s1, opening, s);
      ghost var s2 := s;
      EnqueueAll(others.receive);
      ghost var soFar := Inserts(others.reload) + opening + Inserts(others.receive);
      ReachesTrans(s0, Inserts(others.reload) + opening, s2, Inserts(others.receive), s);
      ghost var s3 := s;
      if open {
        Serve(input, delivered, others.send);
        ReachesTrans(s0, soFar, s3, ServeEvents(input, delivered, others.send), s);
      } else {
        assert soFar + [] == soFar;
      }
    }
  }
}
