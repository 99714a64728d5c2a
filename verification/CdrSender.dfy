/**
 The whole call-record sender: inserts by any thread, and the connection thread's
 connects, disconnects, partial receives and transmissions, interleaved at every lock.

 Beside the window the state carries histories: which numbers were ever transmitted,
 acknowledged, or dropped because the ring was full, the batches handed to the current
 connection, and the bytes received and codes acted on since the start.
 */
module CdrSender {
  import opened Bytes
  import opened Sequences
  import opened AckFraming
  import W = CdrWindow

  datatype Sender<T> = Sender(
    win: W.Window<T>,
    up: bool,                  // a socket is open
    partial: seq<Byte>,        // bytes of an unfinished acknowledgement; kept across reconnects
    base: nat,                 // `ack` when the current connection was made
    wire: seq<W.Batch<T>>,     // batches handed to the current connection
    arrived: seq<bool>,        // which of them went out whole
    sent: set<nat>,
    acked: set<nat>,
    dropped: set<nat>,
    receives: seq<seq<Byte>>,  // what each receive brought, over all connections
    codes: seq<Word>)          // the codes acted on, in order

  datatype Event<T> =
    | Insert(record: T)
    | Connect
    | Disconnect
    | Receive(bytes: seq<Byte>)
    | Transmit(delivered: bool)

  function Init<T>(zero: T): Sender<T> {
    Sender(W.Start(zero), false, [], 0, [], [], {}, {}, {}, [], [])
  }

  function Between(lo: nat, hi: nat): (s: set<nat>)
    ensures forall n :: n in s <==> lo < n <= hi
  {
    if hi <= lo then {} else Between(lo, hi - 1) + {hi}
  }

  predicate Enabled<T>(s: Sender<T>, e: Event<T>) {
    match e
    case Insert(_) => true
    case Connect => !s.up
    case Disconnect => true
    case Receive(bytes) => s.up && 1 <= |bytes| && |s.partial| + |bytes| <= 4
    case Transmit(_) => s.up
  }

  function Acknowledge<T>(s: Sender<T>, code: Word): Sender<T> {
    var w := W.Acknowledge(s.win, code);
    s.(win := w, acked := s.acked + Between(s.win.ack, w.ack))
  }

  function Step<T>(s: Sender<T>, e: Event<T>): Sender<T>
    requires W.Ok(s.win) && Enabled(s, e)
  {
    match e
    case Insert(record) =>
      s.(win := W.Insert(s.win, record),
         dropped := if W.Full(s.win) then s.dropped + {s.win.ack + 1} else s.dropped)
    case Connect => s.(win := W.Rewind(s.win), up := true, base := s.win.ack, wire := [], arrived := [])
    case Disconnect => s.(up := false)
    case Receive(bytes) =>
      var fed := Feed(s.partial, bytes);
      var s' := s.(partial := fed.partial, receives := s.receives + [bytes], codes := s.codes + fed.codes);
      if fed.codes == [] then s' else Acknowledge(s', fed.codes[0])
    case Transmit(delivered) =>
      if s.win.send == |s.win.log| then s else
      var batch := W.NextBatch(s.win);
      s.(win := W.Send(s.win), up := delivered, wire := s.wire + [batch], arrived := s.arrived + [delivered],
         sent := s.sent + Between(batch.start - 1, batch.End() - 1))
  }

  // ---------- the invariant ----------

  ghost predicate Carries<T>(b: W.Batch<T>, n: nat) { b.start <= n < b.End() }

  ghost predicate OnWire<T>(wire: seq<W.Batch<T>>, n: nat) {
    exists i :: 0 <= i < |wire| && Carries(wire[i], n)
  }

  /** Acknowledged and dropped numbers are disjoint and together exactly those up to `ack`. */
  ghost predicate Accounted<T>(s: Sender<T>) {
    && (forall n :: n in s.acked || n in s.dropped <==> 1 <= n <= s.win.ack)
    && (forall n :: n in s.acked ==> n !in s.dropped)
    && s.acked <= s.sent
  }

  /** The current connection's batches: legal, in order, above `base`, below `send`. */
  ghost predicate WireOk<T>(s: Sender<T>) {
    && (forall i :: 0 <= i < |s.wire| ==>
          W.LegalBatch(s.win.log, s.wire[i]) && s.base < s.wire[i].start && s.wire[i].End() <= s.win.send)
    && (forall i, j :: 0 <= i < j < |s.wire| ==> s.wire[i].End() <= s.wire[j].start)
    && (forall n :: OnWire(s.wire, n) ==> n in s.sent)
  }

  /** Every number passed on this connection was transmitted on it or dropped. */
  ghost predicate NothingSkipped<T>(s: Sender<T>) {
    forall n :: s.base < n < s.win.send ==> n in s.dropped || OnWire(s.wire, n)
  }

  /** Only the last batch may have failed, and then the connection is closed; a new one starts behind `ack`. */
  ghost predicate OpenOk<T>(s: Sender<T>) {
    && |s.arrived| == |s.wire|
    && (forall i :: 0 <= i < |s.wire| && (s.up || i < |s.wire| - 1) ==> s.arrived[i])
    && (s.up && s.wire == [] ==> s.win.send == s.win.ack + 1)
  }

  ghost predicate Inv<T>(s: Sender<T>) {
    && W.Ok(s.win)
    && s.base <= s.win.ack
    && |s.partial| < 4
    && Legal(s.receives) && FeedAll(s.receives) == Fed(s.partial, s.codes)
    && Accounted(s)
    && WireOk(s)
    && NothingSkipped(s)
    && OpenOk(s)
  }

  lemma InitInv<T>(zero: T)
    ensures Inv(Init(zero))
  {
  }

  lemma InsertInv<T>(s: Sender<T>, record: T)
    requires Inv(s)
    ensures Inv(Step(s, Insert(record)))
  {
    var s' := Step(s, Insert(record));
    W.InsertKeepsOk(s.win, record);
    forall i | 0 <= i < |s.wire| ensures W.LegalBatch(s'.win.log, s'.wire[i]) {
      var b := s.wire[i];
      assert s'.win.log[b.start..b.End()] == s.win.log[b.start..b.End()];
    }
  }

  lemma ReceiveInv<T>(s: Sender<T>, bytes: seq<Byte>)
    requires Inv(s) && Enabled(s, Receive(bytes))
    ensures Inv(Step(s, Receive(bytes)))
  {
    var codes := Feed(s.partial, bytes).codes;
    assert (s.receives + [bytes])[..|s.receives|] == s.receives;
    if codes != [] {
      W.AckIsExact(s.win, codes[0]);
      var s' := Step(s, Receive(bytes));
      forall n | s.win.ack < n <= s'.win.ack ensures n in s.sent && n !in s.dropped {
        assert OnWire(s.wire, n);
      }
    }
  }

  lemma TransmitInv<T>(s: Sender<T>, delivered: bool)
    requires Inv(s) && Enabled(s, Transmit(delivered))
    ensures Inv(Step(s, Transmit(delivered)))
  {
    if s.win.send < |s.win.log| {
      W.SendKeepsOk(s.win);
      var s' := Step(s, Transmit(delivered));
      var batch := W.NextBatch(s.win);
      forall n ensures OnWire(s'.wire, n) <==> OnWire(s.wire, n) || Carries(batch, n) {
        if OnWire(s.wire, n) {
          var i :| 0 <= i < |s.wire| && Carries(s.wire[i], n);
          assert s'.wire[i] == s.wire[i];
        }
        assert s'.wire[|s.wire|] == batch;
      }
    }
  }

  lemma StepInv<T>(s: Sender<T>, e: Event<T>)
    requires Inv(s) && Enabled(s, e)
    ensures Inv(Step(s, e))
  {
    match e
    case Insert(record) => InsertInv(s, record);
    case Receive(bytes) => ReceiveInv(s, bytes);
    case Transmit(delivered) => TransmitInv(s, delivered);
    case _ =>
  }

  // ---------- whole runs ----------

  ghost predicate Reaches<T>(s: Sender<T>, events: seq<Event<T>>, t: Sender<T>)
    decreases |events|
  {
    if events == [] then s == t else
    W.Ok(s.win) && Enabled(s, events[0]) && Reaches(Step(s, events[0]), events[1..], t)
  }

  lemma {:induction false} RunInv<T>(s: Sender<T>, events: seq<Event<T>>, t: Sender<T>)
    requires Inv(s) && Reaches(s, events, t)
    ensures Inv(t)
    decreases |events|
  {
    if events != [] {
      StepInv(s, events[0]);
      RunInv(Step(s, events[0]), events[1..], t);
    }
  }

  /**
   In every run, each inserted record is in exactly one of three conditions: acknowledged after
   being transmitted, dropped by overflow, or still in the window.
   */
  lemma EveryRecordIsAccountedFor<T>(zero: T, events: seq<Event<T>>, t: Sender<T>, n: nat)
    requires Reaches(Init(zero), events, t)
    requires 1 <= n < |t.win.log|
    ensures n in t.acked ==> n in t.sent && n !in t.dropped && n <= t.win.ack
    ensures n in t.dropped ==> n !in t.acked && n <= t.win.ack
    ensures n !in t.acked && n !in t.dropped <==> t.win.ack < n
  {
    InitInv(zero);
    RunInv(Init(zero), events, t);
  }

  /**
   In every run, a connection starts at the first unacknowledged record that survived, transmits in
   order and leaves a gap only where overflow dropped records: below the send cursor nothing that
   survives unacknowledged is missing from the connection.
   */
  lemma NoSurvivorIsSkipped<T>(zero: T, events: seq<Event<T>>, t: Sender<T>, n: nat)
    requires Reaches(Init(zero), events, t)
    requires 1 <= n < t.win.send && n !in t.acked && n !in t.dropped
    ensures n < |t.win.log|
    ensures exists b :: b in t.wire && Carries(b, n) && b.records[n - b.start] == t.win.log[n]
  {
    InitInv(zero);
    RunInv(Init(zero), events, t);
    var i :| 0 <= i < |t.wire| && Carries(t.wire[i], n);
    assert t.wire[i] in t.wire && W.LegalBatch(t.win.log, t.wire[i]);
  }

  /**
   In every run, however the bytes were split over receives and whatever came in between, the codes acted on
   and the pending bytes are those of the whole stream cut into frames.
   */
  lemma AcksFollowTheStream<T>(zero: T, events: seq<Event<T>>, t: Sender<T>)
    requires Reaches(Init(zero), events, t)
    ensures t.codes == Decode(Concat(t.receives)) && t.partial == Leftover(Concat(t.receives))
  {
    InitInv(zero);
    RunInv(Init(zero), events, t);
    FragmentationDoesNotMatter(t.receives);
  }

  /** Two runs that received the same bytes have acted on the same codes. */
  lemma SameBytesSameAcks<T>(zero: T, xs: seq<Event<T>>, t: Sender<T>, ys: seq<Event<T>>, u: Sender<T>)
    requires Reaches(Init(zero), xs, t) && Reaches(Init(zero), ys, u) && Concat(t.receives) == Concat(u.receives)
    ensures t.codes == u.codes && t.partial == u.partial
  {
    AcksFollowTheStream(zero, xs, t);
    AcksFollowTheStream(zero, ys, u);
  }

  /** In every run, each batch is a legal slice of the log, and batches on one connection never go back. */
  lemma BatchesAreLegalAndOrdered<T>(zero: T, events: seq<Event<T>>, t: Sender<T>, i: nat, j: nat)
    requires Reaches(Init(zero), events, t)
    requires i < j < |t.wire|
    ensures W.LegalBatch(t.win.log, t.wire[i]) && W.LegalBatch(t.win.log, t.wire[j])
    ensures t.base < t.wire[i].start && t.wire[i].End() <= t.wire[j].start && t.wire[j].End() <= t.win.send
  {
    InitInv(zero);
    RunInv(Init(zero), events, t);
  }

  lemma GapsAreDrops<T>(zero: T, events: seq<Event<T>>, t: Sender<T>, i: nat, n: nat)
    requires Reaches(Init(zero), events, t)
    requires i < |t.wire| && n < t.wire[i].start && (if i == 0 then t.base < n else t.wire[i - 1].End() <= n)
    ensures n in t.dropped
  {
    InitInv(zero);
    RunInv(Init(zero), events, t);
    forall j | 0 <= j < |t.wire| ensures !Carries(t.wire[j], n) {
      if i < j {
        assert t.wire[i].End() <= t.wire[j].start;
      } else if j < i - 1 {
        assert t.wire[j].End() <= t.wire[i - 1].start;
      }
    }
  }

  // ---------- what single steps do in every run ----------

  /** The log is what was inserted, in order, behind record 0. */
  function Inserted<T>(events: seq<Event<T>>): seq<T> {
    if events == [] then [] else (if events[0].Insert? then [events[0].record] else []) + Inserted(events[1..])
  }

  lemma StepLog<T>(s: Sender<T>, e: Event<T>)
    requires W.Ok(s.win) && Enabled(s, e)
    ensures Step(s, e).win.log == s.win.log + if e.Insert? then [e.record] else []
  {
  }

  lemma {:induction false} LogIsWhatWasInserted<T>(s: Sender<T>, events: seq<Event<T>>, t: Sender<T>)
    requires Reaches(s, events, t)
    ensures t.win.log == s.win.log + Inserted(events)
    decreases |events|
  {
    if events == [] {
      assert s.win.log + [] == s.win.log;
    } else {
      hide Step, Enabled, W.Ok;
      StepLog(s, events[0]);
      LogIsWhatWasInserted(Step(s, events[0]), events[1..], t);
      var first := if events[0].Insert? then [events[0].record] else [];
      assert s.win.log + first + Inserted(events[1..]) == s.win.log + (first + Inserted(events[1..]));
    }
  }

  /** With something waiting, a transmission hands over the records at the cursor and moves it behind them; else nothing happens. */
  lemma TransmitHandsOver<T>(zero: T, events: seq<Event<T>>, t: Sender<T>, delivered: bool)
    requires Reaches(Init(zero), events, t) && t.up
    ensures W.Ok(t.win)
    ensures
      var u := Step(t, Transmit(delivered));
      if t.win.send == |t.win.log| then u == t else
      && |u.wire| == |t.wire| + 1 && u.wire[..|t.wire|] == t.wire
      && u.win.log == t.win.log && u.win.ack == t.win.ack
      && var b := u.wire[|t.wire|];
         && b.start == t.win.send && W.LegalBatch(t.win.log, b) && u.win.send == b.End() && u.up == delivered
         && |b.records| == W.Min(16, W.Min(|t.win.log| - t.win.send, 65536 - t.win.send % 65536))
  {
    InitInv(zero);
    RunInv(Init(zero), events, t);
    W.SendKeepsOk(t.win);
  }

  /** A receive that completes a frame with command 5 acknowledges the record its code names; any other leaves the window as it was. */
  lemma ReceiveActs<T>(zero: T, events: seq<Event<T>>, t: Sender<T>, bytes: seq<Byte>)
    requires Reaches(Init(zero), events, t) && Enabled(t, Receive(bytes))
    ensures W.Ok(t.win)
    ensures
      var u, frame := Step(t, Receive(bytes)), t.partial + bytes;
      if |frame| == 4 && frame[1] == 5 && exists n: nat :: t.win.ack <= n < t.win.send && n % W.RING == frame[2] as int * 256 + frame[3]
      then u.win.log == t.win.log && u.win.send == t.win.send && t.win.ack <= u.win.ack < t.win.send &&
           u.win.ack % W.RING == frame[2] as int * 256 + frame[3]
      else u.win == t.win
  {
    InitInv(zero);
    RunInv(Init(zero), events, t);
    var frame := t.partial + bytes;
    if |frame| == 4 && frame[1] == 5 {
      var code := ToWord(frame[2], frame[3]);
      W.AckIsExact(t.win, code);
      if n: nat :| t.win.ack <= n < t.win.send && n % W.RING == code {
        assert W.Names(t.win, code, n);
      } else {
        assert forall n :: !W.Names(t.win, code, n);
      }
    }
  }

  // ---------- failed transmissions ----------

  /** An open connection has taken every batch handed to it. */
  lemma OpenMeansDelivered<T>(zero: T, events: seq<Event<T>>, t: Sender<T>, i: nat)
    requires Reaches(Init(zero), events, t) && t.up && i < |t.wire|
    ensures |t.arrived| == |t.wire| && t.arrived[i]
  {
    InitInv(zero);
    RunInv(Init(zero), events, t);
  }

  /** Until the next transmission, a connection that comes up has been handed nothing. */
  lemma {:induction false} StaysUnused<T>(s: Sender<T>, events: seq<Event<T>>, t: Sender<T>)
    requires Reaches(s, events, t) && (s.up ==> s.wire == [])
    requires forall e :: e in events ==> !e.Transmit?
    ensures t.up ==> t.wire == []
    ensures t.up && !s.up ==> Connect in events
    decreases |events|
  {
    if events != [] {
      assert events[0] in events;
      StaysUnused(Step(s, events[0]), events[1..], t);
    }
  }

  /**
   In every run, a transmission that fails closes the connection. Whatever comes next, if the connection is
   open again before another transmission then it was reconnected, and the next batch handed to the socket
   starts with the first record that is neither acknowledged nor dropped.
   */
  lemma FailureIsResent<T>(zero: T, events: seq<Event<T>>, s: Sender<T>, rest: seq<Event<T>>, t: Sender<T>, delivered: bool)
    requires Reaches(Init(zero), events, s) && s.up && s.win.send < |s.win.log|
    requires W.Ok(s.win) && Reaches(Step(s, Transmit(false)), rest, t) && forall e :: e in rest ==> !e.Transmit?
    ensures !Step(s, Transmit(false)).up
    ensures t.up ==> Connect in rest && W.Ok(t.win)
    ensures t.up && t.win.ack + 1 < |t.win.log| ==>
              var u := Step(t, Transmit(delivered));
              && |u.wire| == 1 && u.wire[0].records != [] && u.wire[0].start == t.win.ack + 1
              && (forall n :: 1 <= n < u.wire[0].start ==> n in t.acked || n in t.dropped)
              && u.wire[0].start !in t.acked && u.wire[0].start !in t.dropped
              && u.wire[0].records[0] == t.win.log[t.win.ack + 1]
  {
    InitInv(zero);
    RunInv(Init(zero), events, s);
    StepInv(s, Transmit(false));
    RunInv(Step(s, Transmit(false)), rest, t);
    StaysUnused(Step(s, Transmit(false)), rest, t);
    hide Reaches;
    if t.up && t.win.ack + 1 < |t.win.log| {
      FirstBatch(t, delivered);
    }
  }

  lemma FirstBatch<T>(t: Sender<T>, delivered: bool)
    requires Inv(t) && t.up && t.wire == [] && t.win.ack + 1 < |t.win.log|
    ensures
      var u := Step(t, Transmit(delivered));
      && |u.wire| == 1 && u.wire[0].records != [] && u.wire[0].start == t.win.ack + 1
      && (forall n :: 1 <= n < u.wire[0].start ==> n in t.acked || n in t.dropped)
      && u.wire[0].start !in t.acked && u.wire[0].start !in t.dropped
      && u.wire[0].records[0] == t.win.log[t.win.ack + 1]
  {
  }

  // ---------- everything can be delivered ----------

  lemma ReachesOne<T>(s: Sender<T>, e: Event<T>)
    requires W.Ok(s.win) && Enabled(s, e)
    ensures Reaches(s, [e], Step(s, e))
  {
    assert [e][1..] == [];
  }

  lemma {:induction false} ReachesTrans<T>(s: Sender<T>, xs: seq<Event<T>>, t: Sender<T>, ys: seq<Event<T>>, u: Sender<T>)
    requires Reaches(s, xs, t) && Reaches(t, ys, u)
    ensures Reaches(s, xs + ys, u)
    decreases |xs|
  {
    if xs == [] {
      assert xs + ys == ys;
    } else {
      assert (xs + ys)[1..] == xs[1..] + ys;
      ReachesTrans(Step(s, xs[0]), xs[1..], t, ys, u);
    }
  }

  /** A reachable step appended to a run. */
  lemma Extend<T>(s: Sender<T>, xs: seq<Event<T>>, t: Sender<T>, e: Event<T>) returns (longer: seq<Event<T>>, u: Sender<T>)
    requires Inv(t) && Reaches(s, xs, t) && Enabled(t, e)
    ensures longer == xs + [e] && u == Step(t, e) && Inv(u) && Reaches(s, longer, u)
  {
    longer, u := xs + [e], Step(t, e);
    ReachesOne(t, e);
    ReachesTrans(s, xs, t, [e], u);
    StepInv(t, e);
  }

  lemma {:induction false} SendAll<T>(s: Sender<T>, xs: seq<Event<T>>, t: Sender<T>) returns (longer: seq<Event<T>>, u: Sender<T>)
    requires Inv(t) && Reaches(s, xs, t) && t.up && Inserted(xs) == []
    ensures Inv(u) && Reaches(s, longer, u) && Inserted(longer) == [] && u.up
    ensures u.win.log == t.win.log && u.win.send == |u.win.log|
    decreases |t.win.log| - t.win.send
  {
    if t.win.send == |t.win.log| {
      longer, u := xs, t;
    } else {
      hide Inv, Reaches;
      InvIsOk(t);
      W.SendKeepsOk(t.win);
      longer, u := Extend(s, xs, t, Transmit(true));
      InsertedSnoc(xs, Transmit(true));
      longer, u := SendAll(s, longer, u);
    }
  }

  lemma InvIsOk<T>(s: Sender<T>)
    requires Inv(s)
    ensures W.Ok(s.win) && |s.win.log| > 0 && |s.partial| < 4
  {
  }

  lemma {:induction false} InsertedSnoc<T>(xs: seq<Event<T>>, e: Event<T>)
    requires !e.Insert?
    ensures Inserted(xs + [e]) == Inserted(xs)
  {
    if xs != [] {
      InsertedSnoc(xs[1..], e);
      assert (xs + [e])[1..] == xs[1..] + [e];
    } else {
      assert ([] + [e])[1..] == [];
    }
  }

  /** A closed connection and a new one, nothing transmitted on it yet. */
  lemma Reopen<T>(s: Sender<T>) returns (rest: seq<Event<T>>, t: Sender<T>)
    requires Inv(s)
    ensures Inv(t) && Reaches(s, rest, t) && Inserted(rest) == [] && t.up && t.win.log == s.win.log
  {
    hide Inv, Reaches;
    ReachesNone(s);
    rest, t := Extend(s, [], s, Disconnect);
    InsertedSnoc<T>([], Disconnect);
    InsertedSnoc<T>([Disconnect], Connect);
    rest, t := Extend(s, rest, t, Connect);
  }

  /** A receive on an open connection. */
  lemma ReceiveMore<T>(s: Sender<T>, xs: seq<Event<T>>, t: Sender<T>, bytes: seq<Byte>) returns (longer: seq<Event<T>>, u: Sender<T>)
    requires Inv(t) && Reaches(s, xs, t) && Inserted(xs) == [] && t.up && 1 <= |bytes| && |t.partial| + |bytes| <= 4
    ensures Inv(u) && Reaches(s, longer, u) && Inserted(longer) == []
    ensures u == Step(t, Receive(bytes))
    ensures u.up && u.win.log == t.win.log && u.win.send == t.win.send
    ensures |t.partial| + |bytes| == 4 ==> u.partial == []
  {
    hide Inv, Reaches;
    longer, u := Extend(s, xs, t, Receive(bytes));
    InsertedSnoc(xs, Receive(bytes));
  }

  lemma LastIsNamed<T>(t: Sender<T>, code: Word)
    requires Inv(t) && t.up && t.partial == [] && t.win.send == |t.win.log| && code == (|t.win.log| - 1) % W.RING
    ensures Step(t, Receive(AckFrame(code))).win.ack == |t.win.log| - 1
  {
    var frame := AckFrame(code);
    assert [] + frame == frame;
    AckFraming.FrameRoundTrip(0, 5, code);
    assert W.Names(t.win, code, |t.win.log| - 1);
    W.AckIsExact(t.win, code);
  }

  /** Everything transmitted on a new connection, and the frame that was left open completed. */
  lemma SendAndAlign<T>(s: Sender<T>) returns (rest: seq<Event<T>>, t: Sender<T>)
    requires Inv(s)
    ensures Inv(t) && Reaches(s, rest, t) && Inserted(rest) == [] && t.up && t.partial == []
    ensures t.win.log == s.win.log && t.win.send == |t.win.log|
  {
    hide Inv, Reaches, Step, W.Ok, Inserted;
    rest, t := Reopen(s);
    rest, t := SendAll(s, rest, t);
    InvIsOk(t);
    if t.partial != [] {
      rest, t := ReceiveMore(s, rest, t, seq(4 - |t.partial|, _ => 0));
    }
  }

  /** From every state of every run, reconnecting, transmitting and receiving alone can get every record acknowledged. */
  lemma EverythingCanBeAcknowledged<T>(zero: T, events: seq<Event<T>>, s: Sender<T>) returns (rest: seq<Event<T>>, t: Sender<T>)
    requires Reaches(Init(zero), events, s)
    ensures Reaches(s, rest, t) && Inserted(rest) == [] && t.win.log == s.win.log && t.win.ack == |s.win.log| - 1
  {
    InitInv(zero);
    RunInv(Init(zero), events, s);
    hide *;
    rest, t := AcknowledgeAll(s);
  }

  lemma AcknowledgeAll<T>(s: Sender<T>) returns (rest: seq<Event<T>>, t: Sender<T>)
    requires Inv(s)
    ensures Reaches(s, rest, t) && Inserted(rest) == [] && t.win.log == s.win.log && t.win.ack == |s.win.log| - 1
  {
    hide *;
    var xs, u := SendAndAlign(s);
    InvIsOk(u);
    var code := CodeOf(|u.win.log| - 1);
    LastIsNamed(u, code);
    rest, t := ReceiveMore(s, xs, u, AckFrame(code));
  }

  function AckFrame(code: Word): (frame: seq<Byte>)
    ensures |frame| == 4
  {
    [0, 5, code / 256, code % 256]
  }

  function CodeOf(n: nat): (code: Word)
    ensures code == n % W.RING
  {
    n % W.RING
  }

  lemma ReachesNone<T>(s: Sender<T>)
    ensures Reaches(s, [], s)
  {
  }

  /** After a reconnect the next batch starts with the first unacknowledged record. */
  lemma ReconnectResumes<T>(s: Sender<T>, delivered: bool)
    requires Inv(s) && !s.up
    requires s.win.ack + 1 < |s.win.log|
    ensures
      var t := Step(Step(s, Connect), Transmit(delivered));
      |t.wire| == 1 && t.wire[0].start == s.win.ack + 1 && t.wire[0].records[0] == s.win.log[s.win.ack + 1]
  {
    StepInv(s, Connect);
    StepInv(Step(s, Connect), Transmit(delivered));
  }
}
