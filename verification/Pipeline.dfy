/**
 The capture pipeline of vpu_worker.c: one capture thread, eight packet rings, eight workers, at the
 granularity of the rings' micro-steps.
 */
module Pipeline {
  import opened Bytes
  import opened Sequences
  import opened Sharding
  import opened PktFifo

  /** The fields the pipeline looks at: the length, octets 12, 13 and 16, and the identifier at 20. */
  datatype Packet = Packet(len: nat, ether0: Byte, ether1: Byte, kind: Byte, callid: CallId)

  predicate IsVoice(p: Packet) {
    !(p.len < 36) && p.ether0 == 0x80 && p.ether1 == 0x52 && p.kind == 0x03
  }

  datatype Pipe = Pipe(
    rings: seq<Fifo<Packet>>,
    io: Option<nat>,             // the ring the capture thread is putting into
    pending: seq<bool>,          // get has returned a packet that this worker has not yet handled
    all: nat, lost: nat, voice: nat, other: nat,
    captured: seq<Packet>,       // history: packets accepted by some ring, in capture order
    handled: seq<seq<Packet>>,   // history: packets as each worker read them through its pointer, in order
    torn: bool)                  // some worker has read from a slot that was being or had been overwritten

  datatype Event =
    | Arrive(p: Packet)
    | Io(put: Action<Packet>)
    | Work(worker: nat, get: Action<Packet>)
    | Handle(worker: nat, read: Packet)   // with what the worker has read through its pointer

  function Init(slots: seq<Packet>): Pipe {
    Pipe(seq(WORKERS, _ => PktFifo.Init(slots)), None, seq(WORKERS, _ => false), 0, 0, 0, 0, [],
         seq(WORKERS, _ => []), false)
  }

  predicate IsPut(a: Action<Packet>) { a.PutReject? || a.PutTouch? || a.PutCopy? || a.PutCount? || a.PutMove? }

  predicate IsGet(a: Action<Packet>) {
    a.GetStart? || a.GetEmpty? || a.GetTake? || a.GetCount? || a.GetMove?
  }

  ghost predicate Shaped(s: Pipe) {
    && |s.rings| == |s.pending| == |s.handled| == WORKERS
    && (forall w :: 0 <= w < WORKERS ==> Inv(s.rings[w]))
    && (s.io.Some? ==> s.io.value < WORKERS)
  }

  /** Reading through the pointer yields the packet there, unless a write came in the meantime. */
  ghost predicate MayRead(r: Fifo<Packet>, read: Packet)
    requires Inv(r) && r.held.Some?
  {
    r.torn || read == r.slots[r.held.value]
  }

  ghost predicate Enabled(s: Pipe, e: Event)
    requires Shaped(s)
  {
    match e
    case Arrive(p) => s.io.None? && s.rings[WorkerOf(p.callid)].producer.PutIdle?
    case Io(put) => s.io.Some? && IsPut(put) && PktFifo.Enabled(s.rings[s.io.value], put)
    case Work(w, get) => w < WORKERS && !s.pending[w] && IsGet(get) && PktFifo.Enabled(s.rings[w], get)
    case Handle(w, read) => w < WORKERS && s.pending[w] && s.rings[w].held.Some? && MayRead(s.rings[w], read)
  }

  ghost function Step(s: Pipe, e: Event): Pipe
    requires Shaped(s) && Enabled(s, e)
  {
    match e
    case Arrive(p) =>
      var w := WorkerOf(p.callid);
      s.(rings := s.rings[w := PktFifo.Step(s.rings[w], PutStart(p))], io := Some(w), all := s.all + 1)
    case Io(put) =>
      var w := s.io.value;
      var s' := s.(rings := s.rings[w := PktFifo.Step(s.rings[w], put)]);
      if put.PutReject? then s'.(io := None, lost := s.lost + 1)
      else if put.PutCount? then s'.(captured := s.captured + [s.rings[w].producer.item])
      else if put.PutMove? then s'.(io := None)
      else s'
    case Work(w, get) =>
      var s' := s.(rings := s.rings[w := PktFifo.Step(s.rings[w], get)]);
      if get.GetMove? then s'.(pending := s.pending[w := true]) else s'
    case Handle(w, read) =>
      var s' := s.(pending := s.pending[w := false], handled := s.handled[w := s.handled[w] + [read]],
                   torn := s.torn || s.rings[w].torn);
      if IsVoice(read) then s'.(voice := s.voice + 1) else s'.(other := s.other + 1)
  }

  // ---------- sums over the eight rings ----------

  function AcceptedBy(r: Fifo<Packet>): nat { |r.accepted| }

  function QueuedIn(r: Fifo<Packet>): nat { r.count }

  function Length(xs: seq<Packet>): nat { |xs| }

  function Voices(xs: seq<Packet>): (n: nat)
    ensures n <= |xs|
  {
    if xs == [] then 0 else Voices(xs[..|xs| - 1]) + (if IsVoice(xs[|xs| - 1]) then 1 else 0)
  }

  function Others(xs: seq<Packet>): nat { |xs| - Voices(xs) }

  lemma {:induction false} VoicesAndOthers(handled: seq<seq<Packet>>)
    ensures Total(handled, Length) == Total(handled, Voices) + Total(handled, Others)
  {
    if handled != [] {
      VoicesAndOthers(handled[1..]);
    }
  }

  lemma VoicesSnoc(xs: seq<Packet>, p: Packet)
    ensures Voices(xs + [p]) == Voices(xs) + (if IsVoice(p) then 1 else 0)
  {
    assert (xs + [p])[..|xs|] == xs;
  }

  lemma {:induction false} TotalSplit(rings: seq<Fifo<Packet>>, handled: seq<seq<Packet>>)
    requires |rings| == |handled|
    requires forall w :: 0 <= w < |rings| ==> |rings[w].accepted| == |handled[w]| + rings[w].count
    ensures Total(rings, AcceptedBy) == Total(handled, Length) + Total(rings, QueuedIn)
  {
    if rings != [] {
      TotalSplit(rings[1..], handled[1..]);
    }
  }

  // ---------- packets of one worker and of one slot ----------

  function ForWorker(xs: seq<Packet>, w: nat): seq<Packet> {
    if xs == [] then [] else
    var front, last := ForWorker(xs[..|xs| - 1], w), xs[|xs| - 1];
    if WorkerOf(last.callid) == w then front + [last] else front
  }

  /** What voice_parser is given for a slot, out of the packets in `xs`. */
  function ForSlot(xs: seq<Packet>, slot: Slot): seq<Packet> {
    if xs == [] then [] else
    var front, last := ForSlot(xs[..|xs| - 1], slot), xs[|xs| - 1];
    if IsVoice(last) && SlotOf(last.callid) == slot then front + [last] else front
  }

  lemma {:induction false} ForSlotOfWorker(xs: seq<Packet>, w: nat, slot: Slot)
    ensures ForSlot(ForWorker(xs, w), slot) == if slot.ts % WORKERS == w then ForSlot(xs, slot) else []
  {
    if xs != [] {
      var front, last := xs[..|xs| - 1], xs[|xs| - 1];
      ForSlotOfWorker(front, w, slot);
      if WorkerOf(last.callid) == w {
        assert ForWorker(xs, w)[..|ForWorker(front, w)|] == ForWorker(front, w);
      }
    }
  }

  lemma {:induction false} ForSlotPrefix(xs: seq<Packet>, ys: seq<Packet>, slot: Slot)
    requires xs <= ys
    ensures ForSlot(xs, slot) <= ForSlot(ys, slot)
  {
    if |xs| < |ys| {
      ForSlotPrefix(xs, ys[..|ys| - 1], slot);
    } else {
      assert xs == ys;
    }
  }

  // ---------- the invariant ----------

  /** Fetched by get but not yet handled by the worker. */
  predicate InHand(r: Fifo<Packet>, pending: bool) {
    pending || r.consumer.GetTaken? || r.consumer.GetCounted?
  }

  predicate InFlight(s: Pipe)
    requires |s.rings| == WORKERS && (s.io.Some? ==> s.io.value < WORKERS)
  {
    s.io.Some? && (s.rings[s.io.value].producer.PutRead? || s.rings[s.io.value].producer.PutCopied?)
  }

  ghost predicate RingOk(r: Fifo<Packet>, w: nat, putting: bool, pending: bool, captured: seq<Packet>,
                         handled: seq<Packet>, torn: bool) {
    && r.accepted == ForWorker(captured, w)
    && (r.producer.PutIdle? <==> !putting)
    && (r.producer.PutRead? || r.producer.PutCopied? ==> WorkerOf(r.producer.item.callid) == w)
    && |r.delivered| == |handled| + (if InHand(r, pending) then 1 else 0)
    && (pending ==> r.consumer.GetIdle?)
    && (!torn ==> handled <= r.delivered)
  }

  ghost predicate RingAt(s: Pipe, w: nat)
    requires |s.rings| == |s.pending| == |s.handled| == WORKERS && w < WORKERS
  {
    RingOk(s.rings[w], w, s.io == Some(w), s.pending[w], s.captured, s.handled[w], s.torn)
  }

  ghost predicate PipeInv(s: Pipe) {
    && Shaped(s)
    && (forall w :: 0 <= w < WORKERS ==> RingAt(s, w))
    && s.all == s.lost + |s.captured| + (if InFlight(s) then 1 else 0)
    && Total(s.rings, AcceptedBy) == |s.captured|
    && Total(s.handled, Voices) == s.voice && Total(s.handled, Others) == s.other
  }

  lemma InitPipeInv(slots: seq<Packet>)
    requires slots != []
    ensures PipeInv(Init(slots))
  {
    PktFifo.InitInv(slots);
    TotalZero(Init(slots).rings, AcceptedBy);
    TotalZero(Init(slots).handled, Voices);
    TotalZero(Init(slots).handled, Others);
  }

  lemma ForWorkerSnoc(captured: seq<Packet>, p: Packet, w: nat)
    ensures ForWorker(captured + [p], w) ==
            ForWorker(captured, w) + (if WorkerOf(p.callid) == w then [p] else [])
  {
    assert (captured + [p])[..|captured|] == captured;
  }

  lemma PutKeepsRing(r: Fifo<Packet>, w: nat, put: Action<Packet>, pending: bool, captured: seq<Packet>,
                     handled: seq<Packet>, torn: bool)
    requires Inv(r) && IsPut(put) && PktFifo.Enabled(r, put)
    requires RingOk(r, w, true, pending, captured, handled, torn)
    ensures put.PutCount? ==> WorkerOf(r.producer.item.callid) == w
    ensures r.producer.PutRead? || r.producer.PutCopied? <==> !put.PutMove?
    ensures
      var r' := PktFifo.Step(r, put);
      && (r'.producer.PutRead? || r'.producer.PutCopied? <==> put.PutTouch? || put.PutCopy?)
      && AcceptedBy(r') == AcceptedBy(r) + (if put.PutCount? then 1 else 0)
    ensures
      var r' := PktFifo.Step(r, put);
      var captured' := if put.PutCount? then captured + [r.producer.item] else captured;
      Inv(r') && RingOk(r', w, !put.PutReject? && !put.PutMove?, pending, captured', handled, torn)
  {
    StepInv(r, put);
    if put.PutCount? {
      ForWorkerSnoc(captured, r.producer.item, w);
    }
  }

  lemma CaptureKeepsOtherRing(r: Fifo<Packet>, w: nat, p: Packet, putting: bool, pending: bool,
                              captured: seq<Packet>, handled: seq<Packet>, torn: bool)
    requires RingOk(r, w, putting, pending, captured, handled, torn) && WorkerOf(p.callid) != w
    ensures RingOk(r, w, putting, pending, captured + [p], handled, torn)
  {
    ForWorkerSnoc(captured, p, w);
  }

  lemma GetKeepsRing(r: Fifo<Packet>, w: nat, get: Action<Packet>, putting: bool, captured: seq<Packet>,
                     handled: seq<Packet>, torn: bool)
    requires Inv(r) && IsGet(get) && PktFifo.Enabled(r, get)
    requires RingOk(r, w, putting, false, captured, handled, torn)
    ensures
      var r' := PktFifo.Step(r, get);
      && Inv(r') && RingOk(r', w, putting, get.GetMove?, captured, handled, torn)
      && r'.accepted == r.accepted && r'.producer == r.producer
  {
    StepInv(r, get);
  }

  lemma HandleKeepsRing(r: Fifo<Packet>, w: nat, putting: bool, captured: seq<Packet>,
                        handled: seq<Packet>, torn: bool, read: Packet)
    requires Inv(r) && r.held.Some? && MayRead(r, read)
    requires RingOk(r, w, putting, true, captured, handled, torn)
    ensures RingOk(r, w, putting, false, captured, handled + [read], torn || r.torn)
  {
  }

  lemma ArriveKeepsRing(r: Fifo<Packet>, w: nat, p: Packet, pending: bool, captured: seq<Packet>,
                        handled: seq<Packet>, torn: bool)
    requires Inv(r) && r.producer.PutIdle? && WorkerOf(p.callid) == w
    requires RingOk(r, w, false, pending, captured, handled, torn)
    ensures
      var r' := PktFifo.Step(r, PutStart(p));
      Inv(r') && RingOk(r', w, true, pending, captured, handled, torn)
  {
    StepInv(r, PutStart(p));
  }

  lemma TearingKeepsRing(r: Fifo<Packet>, w: nat, putting: bool, pending: bool, captured: seq<Packet>,
                         handled: seq<Packet>, torn: bool, torn': bool)
    requires RingOk(r, w, putting, pending, captured, handled, torn) && (torn ==> torn')
    ensures RingOk(r, w, putting, pending, captured, handled, torn')
  {
  }

  lemma ArriveInv(s: Pipe, p: Packet)
    requires PipeInv(s) && Enabled(s, Arrive(p))
    ensures PipeInv(Step(s, Arrive(p)))
  {
    hide RingOk, PktFifo.Inv;
    var w, s' := WorkerOf(p.callid), Step(s, Arrive(p));
    assert RingAt(s, w);
    ArriveKeepsRing(s.rings[w], w, p, s.pending[w], s.captured, s.handled[w], s.torn);
    TotalUpdate(s.rings, w, s'.rings[w], AcceptedBy);
    forall v | 0 <= v < WORKERS ensures RingAt(s', v) {
      assert RingAt(s, v);
    }
  }

  lemma IoInv(s: Pipe, put: Action<Packet>)
    requires PipeInv(s) && Enabled(s, Io(put))
    ensures PipeInv(Step(s, Io(put)))
  {
    hide RingOk, PktFifo.Inv, PktFifo.Step;
    var w, s' := s.io.value, Step(s, Io(put));
    assert RingAt(s, w);
    PutKeepsRing(s.rings[w], w, put, s.pending[w], s.captured, s.handled[w], s.torn);
    TotalUpdate(s.rings, w, s'.rings[w], AcceptedBy);
    forall v | 0 <= v < WORKERS ensures RingAt(s', v) {
      assert RingAt(s, v);
      if put.PutCount? && v != w {
        CaptureKeepsOtherRing(s.rings[v], v, s.rings[w].producer.item, false, s.pending[v], s.captured, s.handled[v], s.torn);
      }
    }
  }

  lemma WorkInv(s: Pipe, w: nat, get: Action<Packet>)
    requires PipeInv(s) && Enabled(s, Work(w, get))
    ensures PipeInv(Step(s, Work(w, get)))
  {
    hide RingOk, PktFifo.Inv, PktFifo.Step;
    var s' := Step(s, Work(w, get));
    assert RingAt(s, w);
    GetKeepsRing(s.rings[w], w, get, s.io == Some(w), s.captured, s.handled[w], s.torn);
    TotalUpdate(s.rings, w, s'.rings[w], AcceptedBy);
    forall v | 0 <= v < WORKERS ensures RingAt(s', v) {
      assert RingAt(s, v);
    }
  }

  lemma HandleCounts(handled: seq<seq<Packet>>, w: nat, p: Packet)
    requires w < |handled|
    ensures
      var handled' := handled[w := handled[w] + [p]];
      && Total(handled', Voices) == Total(handled, Voices) + (if IsVoice(p) then 1 else 0)
      && Total(handled', Others) == Total(handled, Others) + (if IsVoice(p) then 0 else 1)
  {
    VoicesSnoc(handled[w], p);
    TotalUpdate(handled, w, handled[w] + [p], Voices);
    TotalUpdate(handled, w, handled[w] + [p], Others);
  }

  lemma HandleInv(s: Pipe, w: nat, read: Packet)
    requires PipeInv(s) && Enabled(s, Handle(w, read))
    ensures PipeInv(Step(s, Handle(w, read)))
  {
    hide RingOk, PktFifo.Inv, IsVoice, MayRead, Voices, Others, Total, InHand;
    var s' := Step(s, Handle(w, read));
    assert RingAt(s, w);
    HandleKeepsRing(s.rings[w], w, s.io == Some(w), s.captured, s.handled[w], s.torn, read);
    HandleCounts(s.handled, w, read);
    forall v | 0 <= v < WORKERS ensures RingAt(s', v) {
      assert RingAt(s, v);
      if v != w {
        TearingKeepsRing(s.rings[v], v, s.io == Some(v), s.pending[v], s.captured, s.handled[v], s.torn, s'.torn);
      }
    }
  }

  lemma PipeStepInv(s: Pipe, e: Event)
    requires PipeInv(s) && Enabled(s, e)
    ensures PipeInv(Step(s, e))
  {
    match e
    case Arrive(p) => ArriveInv(s, p);
    case Io(put) => IoInv(s, put);
    case Work(w, get) => WorkInv(s, w, get);
    case Handle(w, read) => HandleInv(s, w, read);
  }

  // ---------- whole runs ----------

  ghost predicate Reaches(s: Pipe, events: seq<Event>, t: Pipe)
    decreases |events|
  {
    if events == [] then s == t else
    Shaped(s) && Enabled(s, events[0]) && Reaches(Step(s, events[0]), events[1..], t)
  }

  lemma {:induction false} RunInv(s: Pipe, events: seq<Event>, t: Pipe)
    requires PipeInv(s) && Reaches(s, events, t)
    ensures PipeInv(t)
    decreases |events|
  {
    if events != [] {
      PipeStepInv(s, events[0]);
      RunInv(Step(s, events[0]), events[1..], t);
    }
  }

  /** Nobody is inside put, get or the packet handler. */
  predicate Quiescent(t: Pipe)
    requires |t.rings| == |t.pending|
  {
    t.io.None? && forall w :: 0 <= w < |t.rings| ==> !InHand(t.rings[w], t.pending[w])
  }

  /** The voice and other counters count what was handled, and at every quiescent point each packet seen was lost, handled, or is still queued. */
  lemma PacketsAreConserved(slots: seq<Packet>, events: seq<Event>, t: Pipe)
    requires slots != [] && Reaches(Init(slots), events, t)
    ensures |t.rings| == |t.pending|
    ensures t.voice == Total(t.handled, Voices) && t.other == Total(t.handled, Others)
    ensures Quiescent(t) ==> t.all == t.lost + t.voice + t.other + Total(t.rings, QueuedIn)
  {
    InitPipeInv(slots);
    RunInv(Init(slots), events, t);
    if Quiescent(t) {
      forall w | 0 <= w < WORKERS ensures |t.rings[w].accepted| == |t.handled[w]| + t.rings[w].count {
        assert RingAt(t, w);
      }
      TotalSplit(t.rings, t.handled);
      VoicesAndOthers(t.handled);
    }
  }

  /** Positions of packets of 36 octets or more with 0x80 0x52 at 12 and 0x03 at 16. */
  function VoicePositions(xs: seq<Packet>): set<nat> {
    set i: nat | i < |xs| && xs[i].len >= 36 && xs[i].ether0 == 128 && xs[i].ether1 == 82 && xs[i].kind == 3
  }

  /** Exactly those packets are counted as voice. */
  lemma {:induction false} VoicesByOctets(xs: seq<Packet>)
    ensures Voices(xs) == |VoicePositions(xs)|
  {
    if xs != [] {
      var n := |xs| - 1;
      VoicesByOctets(xs[..n]);
      assert VoicePositions(xs) == VoicePositions(xs[..n]) + if IsVoice(xs[n]) then {n} else {};
    }
  }

  /** Exactly those packets, if their identifier's bits are the slot's, reach its handler. */
  lemma {:induction false} SlotPacketsByOctets(xs: seq<Packet>, slot: Slot, p: Packet)
    ensures p in ForSlot(xs, slot) <==>
            p in xs && p.len >= 36 && p.ether0 == 128 && p.ether1 == 82 && p.kind == 3 && SlotOf(p.callid) == slot
  {
    if xs != [] {
      SlotPacketsByOctets(xs[..|xs| - 1], slot, p);
      assert xs == xs[..|xs| - 1] + [xs[|xs| - 1]];
    }
  }

  // ---------- nobody waits for anybody ----------

  /**
   In every reached state any packet can arrive at an idle capture thread, a busy one can go on, a worker that has
   fetched a packet can handle it, whatever it reads if the slot was written to, and any other worker can go on.
   */
  lemma NobodyIsBlocked(slots: seq<Packet>, events: seq<Event>, t: Pipe, w: nat, p: Packet)
    requires slots != [] && Reaches(Init(slots), events, t) && w < WORKERS
    ensures Shaped(t)
    ensures t.io.None? ==> Enabled(t, Arrive(p))
    ensures t.io.Some? ==> Enabled(t, Io(PutReject)) || Enabled(t, Io(PutCopy)) || Enabled(t, Io(PutCount)) || Enabled(t, Io(PutMove))
    ensures t.pending[w] ==> t.rings[w].held.Some? && Enabled(t, Handle(w, t.rings[w].slots[t.rings[w].held.value]))
    ensures t.pending[w] && t.rings[w].torn ==> Enabled(t, Handle(w, p))
    ensures !t.pending[w] ==>
              Enabled(t, Work(w, GetStart)) || Enabled(t, Work(w, GetEmpty)) || Enabled(t, Work(w, GetTake)) ||
              Enabled(t, Work(w, GetCount)) || Enabled(t, Work(w, GetMove))
  {
    InitPipeInv(slots);
    RunInv(Init(slots), events, t);
    hide RingOk, PktFifo.Inv, Reaches, Init;
    RingMoves(t, w);
    RingMoves(t, WorkerOf(p.callid));
    if t.io.Some? {
      RingMoves(t, t.io.value);
    }
  }

  /** Whoever is at work on a ring has a step to take. */
  lemma RingMoves(t: Pipe, w: nat)
    requires PipeInv(t) && w < WORKERS
    ensures
      var r := t.rings[w];
      && (t.io != Some(w) ==> r.producer.PutIdle?)
      && (t.io == Some(w) ==>
            || PktFifo.Enabled(r, PutReject) || PktFifo.Enabled(r, PutCopy)
            || PktFifo.Enabled(r, PutCount) || PktFifo.Enabled(r, PutMove))
      && (t.pending[w] ==> r.held.Some? && r.held.value < |r.slots|)
      && (!t.pending[w] ==>
            || PktFifo.Enabled(r, GetStart) || PktFifo.Enabled(r, GetEmpty) || PktFifo.Enabled(r, GetTake)
            || PktFifo.Enabled(r, GetCount) || PktFifo.Enabled(r, GetMove))
  {
    hide ForWorker;
    assert RingAt(t, w);
    HeldInRange(t.rings[w]);
  }

  lemma HeldInRange(r: Fifo<Packet>)
    requires Inv(r)
    ensures r.held.Some? ==> r.held.value < |r.slots|
    ensures r.delivered != [] ==> r.held.Some?
  {
    if r.held.Some? {
      SumMod(|r.delivered| - 1, 0, |r.slots|);
    }
  }

  // ---------- runs in which nothing is overwritten under a worker ----------

  /** The packet is not put into a ring with exactly one free slot. */
  ghost predicate Leaves(s: Pipe, e: Event)
    requires Shaped(s)
  {
    e.Arrive? ==> PktFifo.Leaves(s.rings[WorkerOf(e.p.callid)], PutStart(e.p))
  }

  /** No packet of the run arrives at a ring with exactly one free slot. */
  ghost predicate Roomy(s: Pipe, events: seq<Event>)
    decreases |events|
  {
    events == [] ||
    (Shaped(s) && Enabled(s, events[0]) && Leaves(s, events[0]) && Roomy(Step(s, events[0]), events[1..]))
  }

  ghost predicate AllSafe(s: Pipe) {
    !s.torn && forall w :: 0 <= w < |s.rings| ==> Safe(s.rings[w])
  }

  lemma StepKeepsAllSafe(s: Pipe, e: Event)
    requires Shaped(s) && Enabled(s, e) && Leaves(s, e) && AllSafe(s)
    ensures AllSafe(Step(s, e))
  {
    hide PktFifo.Inv, PktFifo.Step, IsVoice, MayRead;
    match e
    case Arrive(p) => StepKeepsSafe(s.rings[WorkerOf(p.callid)], PutStart(p));
    case Io(put) => StepKeepsSafe(s.rings[s.io.value], put);
    case Work(w, get) => StepKeepsSafe(s.rings[w], get);
    case Handle(w, read) =>
  }

  lemma {:induction false} RunKeepsAllSafe(s: Pipe, events: seq<Event>, t: Pipe)
    requires Reaches(s, events, t) && Roomy(s, events) && AllSafe(s)
    ensures AllSafe(t)
    decreases |events|
  {
    if events != [] {
      StepKeepsAllSafe(s, events[0]);
      RunKeepsAllSafe(Step(s, events[0]), events[1..], t);
    }
  }

  /**
   In every run in which no packet arrives at a ring with exactly one free slot, the packets that reach a
   slot's handler all come from that slot's one worker, and are a prefix of the slot's accepted packets in
   capture order.
   */
  lemma SlotsSeeCaptureOrder(slots: seq<Packet>, events: seq<Event>, t: Pipe, slot: Slot, w: nat)
    requires slots != [] && Reaches(Init(slots), events, t)
    requires Roomy(Init(slots), events) && w < WORKERS
    ensures |t.handled| == WORKERS
    ensures w == slot.ts % WORKERS ==> ForSlot(t.handled[w], slot) <= ForSlot(t.captured, slot)
    ensures w != slot.ts % WORKERS ==> ForSlot(t.handled[w], slot) == []
  {
    InitPipeInv(slots);
    RunInv(Init(slots), events, t);
    RunKeepsAllSafe(Init(slots), events, t);
    assert RingAt(t, w);
    assert t.handled[w] <= t.rings[w].accepted;
    ForSlotPrefix(t.handled[w], t.rings[w].accepted, slot);
    ForSlotOfWorker(t.captured, w, slot);
  }
}
