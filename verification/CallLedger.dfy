/**
 The whole of VPU's call accounting as one state machine: line slots, the pool of record nodes, the
 fax screening threads, the call-record sender, and the counters.

 Calls whose two files opened are numbered in order of starting; those numbers are the records the
 sender carries. `place` and `spot` are histories that say where each call's record and each node is.
 */
module CallLedger {
  import opened Sequences
  import opened Sharding
  import opened CallControl
  import S = CdrSender

  datatype FaxThread = Resting | Screening(job: Job) | Screened(job: Job)

  datatype Place =
    | InFree(ticket: nat)     // position in the free list, counted from its beginning
    | AtLine(position: nat)
    | InFax(ticket: nat)      // position in the fax queue, counted from its beginning
    | AtThread(thread: nat)
    | InRing(number: nat)     // sequence number in the call-record sender

  datatype Sys = Sys(
    lines: seq<Line>,
    free: seq<nat>, taken: nat,
    fax: seq<Job>, enqueued: nat, dequeued: nat,
    threads: seq<FaxThread>,
    cdr: S.Sender<nat>,
    started: nat, ended: nat, online: int, timedOut: nat,
    fileOk: nat, fileFail: nat, faxLost: nat, faxYes: nat, faxNo: nat,
    nodes: nat,
    place: map<nat, Place>,
    spot: map<nat, Place>)

  datatype Event =
    | Packet(p: Voice, now: int, o: Opening)
    | Sweep(position: nat, tim: int)
    | FaxFetch(thread: nat)
    | FaxInsert(thread: nat, up: int, down: int)
    | FaxReturn(thread: nat)
    | Record(e: S.Event<nat>)

  function Init(nodes: nat, threads: nat): Sys {
    Sys(seq(SLOTS, _ => BLANK), seq(nodes, i => i), 0, [], 0, 0, seq(threads, _ => Resting), S.Init(0),
        0, 0, 0, 0, 0, 0, 0, 0, 0, nodes, map[], map i: nat | i < nodes :: InFree(i))
  }

  // ---------- the parts of a step ----------

  /** The slot's node, if any, goes to the end of the fax queue. */
  function HandOver(s: Sys, i: nat): Sys
    requires i < |s.lines|
  {
    var job := s.lines[i].job;
    if job.None? then s else
    s.(lines := s.lines[i := s.lines[i].(job := None)],
       fax := s.fax + [job.value],
       enqueued := s.enqueued + 1,
       place := s.place[job.value.call := InFax(s.dequeued + |s.fax|)],
       spot := s.spot[job.value.node := InFax(s.dequeued + |s.fax|)])
  }

  /** cleanup_file_struct up to the node: a live call is counted as timed out and ended, files are closed. */
  function Closed(s: Sys, i: nat): Sys
    requires i < |s.lines|
  {
    var s1 := s.(lines := s.lines[i := Close(s.lines[i])]);
    if s.lines[i].callid == 0 then s1 else
    s1.(timedOut := s.timedOut + 1, ended := s.ended + 1, online := s.online - 1)
  }

  function Cleanup(s: Sys, i: nat): Sys
    requires i < |s.lines|
  {
    HandOver(Closed(s, i), i)
  }

  function SetLine(s: Sys, i: nat, l: Line): Sys
    requires i < |s.lines|
  {
    s.(lines := s.lines[i := l])
  }

  /** The start of a call: a node from the free list, or the record sent without screening, or no record. */
  function Start(s: Sys, i: nat, callid: CallId, opening: Opening): Sys
    requires i < |s.lines| && S.W.Ok(s.cdr.win)
  {
    var o := Opened(callid, opening);
    var s1 := s.(started := s.started + 1, online := s.online + 1);
    if !BothOpen(o) then
      SetLine(s1, i, Begin(callid, o, None)).(fileFail := s.fileFail + 1)
    else if s.free == [] then
      SetLine(s1, i, Begin(callid, o, None)).(
        fileOk := s.fileOk + 1, faxLost := s.faxLost + 1,
        cdr := S.Step(s.cdr, S.Insert(s.fileOk)),
        place := s.place[s.fileOk := InRing(|s.cdr.win.log|)])
    else
      var job := Job(s.free[0], s.fileOk);
      SetLine(s1, i, Begin(callid, o, Some(job))).(
        fileOk := s.fileOk + 1,
        free := s.free[1..], taken := s.taken + 1,
        place := s.place[s.fileOk := AtLine(i)],
        spot := s.spot[job.node := AtLine(i)])
  }

  /** The end of a call once both directions have ended, up to the node. */
  function Completed(s: Sys, i: nat): Sys
    requires i < |s.lines|
  {
    s.(lines := s.lines[i := BLANK.(job := s.lines[i].job)], ended := s.ended + 1, online := s.online - 1)
  }

  function Finish(s: Sys, i: nat): Sys
    requires i < |s.lines|
  {
    HandOver(Completed(s, i), i)
  }

  /** Another call takes the slot over. */
  function Replace(s: Sys, i: nat, callid: CallId, o: Opening): Sys
    requires i < |s.lines| && S.W.Ok(s.cdr.win)
  {
    Start(SetLine(Cleanup(s, i), i, BLANK), i, callid, o)
  }

  /** The end mark of a packet, and the end of the call once both directions have one. */
  function Conclude(s: Sys, i: nat, p: Voice): Sys
    requires i < |s.lines|
  {
    var s1 := SetLine(s, i, Mark(s.lines[i], p));
    if Ended(s1.lines[i]) then Finish(s1, i) else s1
  }

  /** voice_parser: stamp, replace another call, mark the end of a direction, end the call. */
  function HandlePacket(s: Sys, p: Voice, now: int, o: Opening): Sys
    requires |s.lines| == SLOTS && S.W.Ok(s.cdr.win)
  {
    var i := Position(p.callid);
    var l := s.lines[i];
    var s1 := SetLine(s, i, Stamp(l, p, now));
    if TooLong(p, now) && l.callid == 0 then s1 else
    Conclude(if l.callid == p.callid then s1 else Replace(s1, i, p.callid, o), i, p)
  }

  function HandleSweep(s: Sys, i: nat, tim: int): Sys
    requires i < |s.lines|
  {
    if !Idle(s.lines[i], tim) then s else
    var s1 := Cleanup(s, i);
    SetLine(s1, i, s1.lines[i].(updateTime := 0))
  }

  predicate Enabled(s: Sys, e: Event) {
    match e
    case Packet(_, _, _) => true
    case Sweep(i, _) => i < SLOTS
    case FaxFetch(t) => t < |s.threads| && s.threads[t].Resting? && s.fax != []
    case FaxInsert(t, _, _) => t < |s.threads| && s.threads[t].Screening?
    case FaxReturn(t) => t < |s.threads| && s.threads[t].Screened?
    case Record(r) => !r.Insert? && S.Enabled(s.cdr, r)
  }

  function Step(s: Sys, e: Event): Sys
    requires |s.lines| == SLOTS && S.W.Ok(s.cdr.win) && Enabled(s, e)
  {
    match e
    case Packet(p, now, o) => HandlePacket(s, p, now, o)
    case Sweep(i, tim) => HandleSweep(s, i, tim)
    case FaxFetch(t) =>
      var job := s.fax[0];
      s.(fax := s.fax[1..], dequeued := s.dequeued + 1,
         threads := s.threads[t := Screening(job)],
         place := s.place[job.call := AtThread(t)],
         spot := s.spot[job.node := AtThread(t)])
    case FaxInsert(t, up, down) =>
      var job := s.threads[t].job;
      var yes := Verdict(up, down) == 1;
      s.(cdr := S.Step(s.cdr, S.Insert(job.call)),
         threads := s.threads[t := Screened(job)],
         faxYes := s.faxYes + (if yes then 1 else 0),
         faxNo := s.faxNo + (if yes then 0 else 1),
         place := s.place[job.call := InRing(|s.cdr.win.log|)])
    case FaxReturn(t) =>
      var job := s.threads[t].job;
      s.(free := s.free + [job.node],
         threads := s.threads[t := Resting],
         spot := s.spot[job.node := InFree(s.taken + |s.free|)])
    case Record(r) => s.(cdr := S.Step(s.cdr, r))
  }

  // ---------- where records and nodes are ----------

  /** Call `c`'s record is, at this moment, in this place. */
  predicate HoldsCall(s: Sys, p: Place, c: nat) {
    match p
    case InFree(_) => false
    case AtLine(i) => i < |s.lines| && s.lines[i].job.Some? && s.lines[i].job.value.call == c
    case InFax(k) => s.dequeued <= k < s.dequeued + |s.fax| && s.fax[k - s.dequeued].call == c
    case AtThread(t) => t < |s.threads| && s.threads[t].Screening? && s.threads[t].job.call == c
    case InRing(n) => 1 <= n < |s.cdr.win.log| && s.cdr.win.log[n] == c
  }

  predicate HoldsNode(s: Sys, p: Place, n: nat) {
    match p
    case InFree(k) => s.taken <= k < s.taken + |s.free| && s.free[k - s.taken] == n
    case AtLine(i) => i < |s.lines| && s.lines[i].job.Some? && s.lines[i].job.value.node == n
    case InFax(k) => s.dequeued <= k < s.dequeued + |s.fax| && s.fax[k - s.dequeued].node == n
    case AtThread(t) => t < |s.threads| && !s.threads[t].Resting? && s.threads[t].job.node == n
    case InRing(_) => false
  }

  /** `place` lists, for every call with a record, the one place that holds it. */
  ghost predicate CallsPlaced(s: Sys) {
    && (forall c: nat :: c in s.place <==> c < s.fileOk)
    && forall p: Place, c: nat :: HoldsCall(s, p, c) <==> c in s.place && s.place[c] == p
  }

  ghost predicate NodesPlaced(s: Sys) {
    && (forall n: nat :: n in s.spot <==> n < s.nodes)
    && forall p: Place, n: nat :: HoldsNode(s, p, n) <==> n in s.spot && s.spot[n] == p
  }

  ghost predicate LinesOk(s: Sys) {
    |s.lines| == SLOTS && forall i :: 0 <= i < SLOTS ==> LineOk(s.lines[i], i)
  }

  ghost predicate CountersOk(s: Sys) {
    && s.started == s.ended + s.online
    && s.started == s.fileOk + s.fileFail
    && s.enqueued == s.dequeued + |s.fax|
    && s.timedOut <= s.ended
  }

  /** Everything but the agreement of the online counter with the slots. */
  ghost predicate Inv(s: Sys) {
    LinesOk(s) && CallsPlaced(s) && NodesPlaced(s) && CountersOk(s) && S.Inv(s.cdr)
  }

  predicate OnlineIsExact(s: Sys) { s.online == Total(s.lines, Live) }

  lemma InitInv(nodes: nat, threads: nat)
    ensures Inv(Init(nodes, threads)) && OnlineIsExact(Init(nodes, threads))
  {
    S.InitInv(0);
    TotalZero(Init(nodes, threads).lines, Live);
  }

  // ---------- every part keeps the invariant ----------

  /** Records and nodes stay put when no job, list or log changes. */
  lemma SameJobs(s: Sys, t: Sys)
    requires CallsPlaced(s) && NodesPlaced(s)
    requires |t.lines| == |s.lines| && forall i :: 0 <= i < |s.lines| ==> t.lines[i].job == s.lines[i].job
    requires t.fax == s.fax && t.dequeued == s.dequeued && t.free == s.free && t.taken == s.taken
    requires t.threads == s.threads && t.cdr.win.log == s.cdr.win.log
    requires t.place == s.place && t.spot == s.spot && t.nodes == s.nodes && t.fileOk == s.fileOk
    ensures CallsPlaced(t) && NodesPlaced(t)
  {
    forall p: Place, c: nat ensures HoldsCall(t, p, c) <==> c in t.place && t.place[c] == p {
      assert HoldsCall(t, p, c) <==> HoldsCall(s, p, c);
    }
    forall p: Place, n: nat ensures HoldsNode(t, p, n) <==> n in t.spot && t.spot[n] == p {
      assert HoldsNode(t, p, n) <==> HoldsNode(s, p, n);
    }
  }

  lemma SetLineInv(s: Sys, i: nat, l: Line)
    requires Inv(s) && i < SLOTS && LineOk(l, i) && l.job == s.lines[i].job
    ensures Inv(SetLine(s, i, l))
  {
    SameJobs(s, SetLine(s, i, l));
  }

  lemma HandOverMoves(s: Sys, i: nat)
    requires CallsPlaced(s) && NodesPlaced(s) && i < |s.lines|
    ensures CallsPlaced(HandOver(s, i)) && NodesPlaced(HandOver(s, i))
  {
    if s.lines[i].job.Some? {
      var s', job := HandOver(s, i), s.lines[i].job.value;
      assert HoldsCall(s, AtLine(i), job.call);
      assert HoldsNode(s, AtLine(i), job.node);
      forall p: Place, c: nat ensures HoldsCall(s', p, c) <==> c in s'.place && s'.place[c] == p {
        var before := HoldsCall(s, p, c);
        assert s'.fax[|s.fax|] == job;
      }
      forall p: Place, n: nat ensures HoldsNode(s', p, n) <==> n in s'.spot && s'.spot[n] == p {
        var before := HoldsNode(s, p, n);
        assert s'.fax[|s.fax|] == job;
      }
    }
  }

  lemma CleanupInv(s: Sys, i: nat)
    requires Inv(s) && i < SLOTS
    ensures Inv(Cleanup(s, i))
    ensures Cleanup(s, i).lines[i] == Close(s.lines[i]).(job := None)
  {
    SameJobs(s, Closed(s, i));
    HandOverMoves(Closed(s, i), i);
    hide CallsPlaced, NodesPlaced, S.Inv;
  }

  lemma FinishInv(s: Sys, i: nat)
    requires Inv(s) && i < SLOTS
    ensures Inv(Finish(s, i))
    ensures Finish(s, i).lines == s.lines[i := BLANK]
  {
    SameJobs(s, Completed(s, i));
    HandOverMoves(Completed(s, i), i);
  }

  lemma StartMovesCalls(s: Sys, i: nat, callid: CallId, o: Opening)
    requires CallsPlaced(s) && S.W.Ok(s.cdr.win) && i < |s.lines| && s.lines[i] == BLANK
    ensures CallsPlaced(Start(s, i, callid, o))
  {
    var s' := Start(s, i, callid, o);
    forall p: Place, c: nat ensures HoldsCall(s', p, c) <==> c in s'.place && s'.place[c] == p {
      var before := HoldsCall(s, p, c);
    }
  }

  lemma StartMovesNodes(s: Sys, i: nat, callid: CallId, o: Opening)
    requires NodesPlaced(s) && S.W.Ok(s.cdr.win) && i < |s.lines| && s.lines[i] == BLANK
    ensures NodesPlaced(Start(s, i, callid, o))
  {
    var s' := Start(s, i, callid, o);
    assert s.free != [] ==> HoldsNode(s, InFree(s.taken), s.free[0]);
    forall p: Place, n: nat ensures HoldsNode(s', p, n) <==> n in s'.spot && s'.spot[n] == p {
      var before := HoldsNode(s, p, n);
    }
  }

  lemma StartInv(s: Sys, i: nat, callid: CallId, o: Opening)
    requires Inv(s) && i < SLOTS && s.lines[i] == BLANK && Position(callid) == i
    ensures Inv(Start(s, i, callid, o))
  {
    S.StepInv(s.cdr, S.Insert(s.fileOk));
    StartMovesCalls(s, i, callid, o);
    StartMovesNodes(s, i, callid, o);
    hide CallsPlaced, NodesPlaced, S.Inv;
  }

  lemma ReplaceInv(s: Sys, i: nat, callid: CallId, o: Opening)
    requires Inv(s) && i < SLOTS && Position(callid) == i
    ensures Inv(Replace(s, i, callid, o))
  {
    CleanupInv(s, i);
    SetLineInv(Cleanup(s, i), i, BLANK);
    StartInv(SetLine(Cleanup(s, i), i, BLANK), i, callid, o);
  }

  lemma ConcludeInv(s: Sys, i: nat, p: Voice)
    requires Inv(s) && i < SLOTS
    ensures Inv(Conclude(s, i, p))
  {
    SetLineInv(s, i, Mark(s.lines[i], p));
    FinishInv(SetLine(s, i, Mark(s.lines[i], p)), i);
  }

  lemma PacketInv(s: Sys, p: Voice, now: int, o: Opening)
    requires Inv(s)
    ensures Inv(HandlePacket(s, p, now, o))
  {
    var i := Position(p.callid);
    var l := s.lines[i];
    var s1 := SetLine(s, i, Stamp(l, p, now));
    SetLineInv(s, i, Stamp(l, p, now));
    ReplaceInv(s1, i, p.callid, o);
    ConcludeInv(if l.callid == p.callid then s1 else Replace(s1, i, p.callid, o), i, p);
  }

  lemma SweepInv(s: Sys, i: nat, tim: int)
    requires Inv(s) && i < SLOTS
    ensures Inv(HandleSweep(s, i, tim))
  {
    CleanupInv(s, i);
    var s1 := Cleanup(s, i);
    SetLineInv(s1, i, s1.lines[i].(updateTime := 0));
  }

  lemma FaxMovesCalls(s: Sys, e: Event)
    requires CallsPlaced(s) && |s.lines| == SLOTS && S.W.Ok(s.cdr.win)
    requires Enabled(s, e) && (e.FaxFetch? || e.FaxInsert? || e.FaxReturn?)
    ensures CallsPlaced(Step(s, e))
  {
    var s', t := Step(s, e), e.thread;
    assert e.FaxFetch? ==> HoldsCall(s, InFax(s.dequeued), s.fax[0].call);
    assert e.FaxInsert? ==> HoldsCall(s, AtThread(t), s.threads[t].job.call);
    forall p: Place, c: nat ensures HoldsCall(s', p, c) <==> c in s'.place && s'.place[c] == p {
      var before := HoldsCall(s, p, c);
    }
  }

  lemma FaxMovesNodes(s: Sys, e: Event)
    requires NodesPlaced(s) && |s.lines| == SLOTS && S.W.Ok(s.cdr.win)
    requires Enabled(s, e) && (e.FaxFetch? || e.FaxInsert? || e.FaxReturn?)
    ensures NodesPlaced(Step(s, e))
  {
    var s', t := Step(s, e), e.thread;
    assert e.FaxFetch? ==> HoldsNode(s, InFax(s.dequeued), s.fax[0].node);
    assert !e.FaxFetch? ==> HoldsNode(s, AtThread(t), s.threads[t].job.node);
    forall p: Place, n: nat ensures HoldsNode(s', p, n) <==> n in s'.spot && s'.spot[n] == p {
      var before := HoldsNode(s, p, n);
    }
  }

  lemma StepInv(s: Sys, e: Event)
    requires Inv(s) && Enabled(s, e)
    ensures Inv(Step(s, e))
  {
    match e
    case Packet(p, now, o) => PacketInv(s, p, now, o);
    case Sweep(i, tim) => SweepInv(s, i, tim);
    case Record(r) =>
      S.StepInv(s.cdr, r);
      SameJobs(s, Step(s, e));
    case FaxInsert(t, _, _) =>
      S.StepInv(s.cdr, S.Insert(s.threads[t].job.call));
      FaxMovesCalls(s, e);
      FaxMovesNodes(s, e);
    case _ =>
      FaxMovesCalls(s, e);
      FaxMovesNodes(s, e);
  }

  /** What the free list would yield to a call starting now. */
  function Available(s: Sys): Option<Job> {
    if s.free == [] then None else Some(Job(s.free[0], s.fileOk))
  }

  /**
   The system's packet step changes exactly the packet's own slot, as the slot's own control function
   says, and appends to the fax queue exactly the nodes that function hands over.
   */
  lemma PacketActsOnItsSlot(s: Sys, p: Voice, now: int, o: Opening)
    requires |s.lines| == SLOTS && S.W.Ok(s.cdr.win)
    ensures
      var i, s' := Position(p.callid), HandlePacket(s, p, now, o);
      && s'.lines == s.lines[i := Next(s.lines[i], p, now, o, Available(s))]
      && s'.fax == s.fax + Handed(s.lines[i], p, now, o, Available(s))
  {
    hide S.Step, TooLong, Stamp, Mark, Ended, Start, Cleanup, Finish;
    var i := Position(p.callid);
    var l := s.lines[i];
    var s1 := SetLine(s, i, Stamp(l, p, now));
    StampKeepsJob(l, p, now);
    ReplaceActsOnItsSlot(s1, i, p.callid, o);
    var s2 := if l.callid == p.callid then s1 else Replace(s1, i, p.callid, o);
    ConcludeActsOnItsSlot(s2, i, p);
    if !Refused(l, p, now) {
      var owned := Owned(l, p, now, o, Available(s));
      StampKeepsJob(owned, p, now);
      assert s2.lines[i] == owned && s2.lines == s.lines[i := owned];
      assert s2.fax == s.fax + if l.callid == p.callid then [] else Jobs(l.job);
    }
  }

  lemma StampKeepsJob(l: Line, p: Voice, now: int)
    ensures Stamp(l, p, now).job == l.job
    ensures Mark(l, p).job == l.job
  {
  }

  lemma CleanupActsOnItsSlot(s: Sys, i: nat)
    requires i < |s.lines|
    ensures
      var s' := Cleanup(s, i);
      && s'.lines == s.lines[i := Close(s.lines[i]).(job := None)]
      && s'.fax == s.fax + Jobs(s.lines[i].job) && s'.free == s.free && s'.fileOk == s.fileOk && s'.cdr == s.cdr
  {
  }

  lemma ReplaceActsOnItsSlot(s: Sys, i: nat, callid: CallId, o: Opening)
    requires i < |s.lines| && S.W.Ok(s.cdr.win)
    ensures
      var s', made := Replace(s, i, callid, o), Opened(callid, o);
      && s'.lines == s.lines[i := Begin(callid, made, if BothOpen(made) then Available(s) else None)]
      && s'.fax == s.fax + Jobs(s.lines[i].job)
  {
    hide S.Step, Opened, Cleanup;
    CleanupActsOnItsSlot(s, i);
  }

  lemma ConcludeActsOnItsSlot(s: Sys, i: nat, p: Voice)
    requires i < |s.lines|
    ensures
      var s', marked := Conclude(s, i, p), Mark(s.lines[i], p);
      && s'.lines == s.lines[i := if Ended(marked) then BLANK else marked]
      && s'.fax == s.fax + if Ended(marked) then Jobs(marked.job) else []
  {
    hide Mark, Ended;
  }

  // ---------- the online counter ----------

  /** How far the online counter is above the number of slots that carry a call. */
  function Excess(s: Sys): int { s.online - Total(s.lines, Live) }

  lemma SetLineExcess(s: Sys, i: nat, l: Line)
    requires i < |s.lines|
    ensures Excess(SetLine(s, i, l)) == Excess(s) + Live(s.lines[i]) - Live(l)
  {
    TotalUpdate(s.lines, i, l, Live);
  }

  lemma HandOverExcess(s: Sys, i: nat)
    requires i < |s.lines|
    ensures Excess(HandOver(s, i)) == Excess(s)
  {
    SetLineExcess(s, i, s.lines[i].(job := None));
  }

  lemma CleanupExcess(s: Sys, i: nat)
    requires i < |s.lines|
    ensures Excess(Cleanup(s, i)) == Excess(s)
  {
    TotalUpdate(s.lines, i, Close(s.lines[i]), Live);
    HandOverExcess(Closed(s, i), i);
  }

  lemma StartExcess(s: Sys, i: nat, callid: CallId, o: Opening)
    requires i < |s.lines| && S.W.Ok(s.cdr.win) && s.lines[i] == BLANK
    ensures Excess(Start(s, i, callid, o)) == Excess(s) + (if callid == 0 then 1 else 0)
  {
    TotalUpdate(s.lines, i, Start(s, i, callid, o).lines[i], Live);
  }

  lemma ReplaceExcess(s: Sys, i: nat, callid: CallId, o: Opening)
    requires i < |s.lines| && S.W.Ok(s.cdr.win)
    ensures Excess(Replace(s, i, callid, o)) == Excess(s) + (if callid == 0 then 1 else 0)
  {
    hide Start;
    var s1 := Cleanup(s, i);
    CleanupExcess(s, i);
    SetLineExcess(s1, i, BLANK);
    StartExcess(SetLine(s1, i, BLANK), i, callid, o);
  }

  lemma ConcludeExcess(s: Sys, i: nat, p: Voice)
    requires i < |s.lines|
    ensures Excess(Conclude(s, i, p)) ==
            Excess(s) - (if Ended(Mark(s.lines[i], p)) && s.lines[i].callid == 0 then 1 else 0)
  {
    SetLineExcess(s, i, Mark(s.lines[i], p));
    var s1 := SetLine(s, i, Mark(s.lines[i], p));
    TotalUpdate(s1.lines, i, BLANK.(job := s1.lines[i].job), Live);
    HandOverExcess(Completed(s1, i), i);
  }

  /**
   A packet leaves the counter right unless its identifier is 0 and either it takes over a live slot, or
   it completes both end marks of an idle one without being refused for its age.
   */
  predicate Counted(s: Sys, e: Event)
    requires |s.lines| == SLOTS
  {
    e.Packet? && e.p.callid == 0 ==>
      var l := s.lines[0];
      l.callid == 0 && (TooLong(e.p, e.now) || !Ended(Mark(l, e.p)))
  }

  lemma ReplacedLine(s: Sys, i: nat, callid: CallId, o: Opening)
    requires i < |s.lines| && S.W.Ok(s.cdr.win)
    ensures var l := Replace(s, i, callid, o).lines[i]; l.callid == callid && !l.upEnd && !l.downEnd
  {
  }

  lemma PacketExcess(s: Sys, p: Voice, now: int, o: Opening)
    requires |s.lines| == SLOTS && S.W.Ok(s.cdr.win)
    ensures
      var l := s.lines[Position(p.callid)];
      Excess(HandlePacket(s, p, now, o)) - Excess(s) ==
        if p.callid != 0 || (l.callid == 0 && (TooLong(p, now) || !Ended(Mark(l, p)))) then 0
        else if l.callid != 0 then 1
        else -1
  {
    var i := Position(p.callid);
    var l := s.lines[i];
    var s1 := SetLine(s, i, Stamp(l, p, now));
    SetLineExcess(s, i, Stamp(l, p, now));
    if !(TooLong(p, now) && l.callid == 0) {
      if l.callid == p.callid {
        ConcludeExcess(s1, i, p);
      } else {
        ReplaceExcess(s1, i, p.callid, o);
        ReplacedLine(s1, i, p.callid, o);
        ConcludeExcess(Replace(s1, i, p.callid, o), i, p);
      }
    }
  }

  lemma SweepExcess(s: Sys, i: nat, tim: int)
    requires Inv(s) && i < SLOTS
    ensures Excess(HandleSweep(s, i, tim)) == Excess(s)
  {
    CleanupExcess(s, i);
    var s1 := Cleanup(s, i);
    SetLineExcess(s1, i, s1.lines[i].(updateTime := 0));
  }

  lemma OnlineStaysExact(s: Sys, e: Event)
    requires Inv(s) && Enabled(s, e) && OnlineIsExact(s)
    ensures OnlineIsExact(Step(s, e)) <==> Counted(s, e)
  {
    match e
    case Packet(p, now, o) => PacketExcess(s, p, now, o);
    case Sweep(i, tim) => SweepExcess(s, i, tim);
    case _ =>
  }

  /** What no packet and no sweep touches. */
  predicate SameRest(s: Sys, t: Sys) {
    t.nodes == s.nodes && t.threads == s.threads && t.dequeued == s.dequeued && t.faxYes == s.faxYes && t.faxNo == s.faxNo
  }

  lemma CleanupKeepsRest(s: Sys, i: nat)
    requires i < |s.lines|
    ensures SameRest(s, Cleanup(s, i)) && SameRest(s, Finish(s, i))
    ensures Cleanup(s, i).cdr == s.cdr && |Cleanup(s, i).lines| == |s.lines|
  {
  }

  lemma StartKeepsRest(s: Sys, i: nat, callid: CallId, o: Opening)
    requires i < |s.lines| && S.W.Ok(s.cdr.win)
    ensures SameRest(s, Start(s, i, callid, o)) && |Start(s, i, callid, o).lines| == |s.lines|
  {
    hide S.Step, Begin, Opened;
  }

  lemma PacketKeepsRest(s: Sys, p: Voice, now: int, o: Opening)
    requires |s.lines| == SLOTS && S.W.Ok(s.cdr.win)
    ensures SameRest(s, HandlePacket(s, p, now, o))
  {
    hide Cleanup, Finish, Start, Stamp, Mark, Ended, TooLong;
    var i := Position(p.callid);
    var s1 := SetLine(s, i, Stamp(s.lines[i], p, now));
    CleanupKeepsRest(s1, i);
    var idle := SetLine(Cleanup(s1, i), i, BLANK);
    StartKeepsRest(idle, i, p.callid, o);
    var s2 := if s.lines[i].callid == p.callid then s1 else Replace(s1, i, p.callid, o);
    CleanupKeepsRest(SetLine(s2, i, Mark(s2.lines[i], p)), i);
  }

  // ---------- calls handed to fax screening ----------

  function Busy(t: FaxThread): nat { if t.Screening? then 1 else 0 }

  /** Opened calls that were neither refused a node, nor handed over, nor still hold one. */
  function Unscreened(s: Sys): int { s.fileOk - s.faxLost - s.enqueued - Total(s.lines, Holding) }

  /** Fetched nodes whose verdict is not in and which no thread is screening. */
  function Unjudged(s: Sys): int { s.dequeued - s.faxYes - s.faxNo - Total(s.threads, Busy) }

  lemma SetLineUnscreened(s: Sys, i: nat, l: Line)
    requires i < |s.lines| && l.job == s.lines[i].job
    ensures Unscreened(SetLine(s, i, l)) == Unscreened(s)
  {
    TotalUpdate(s.lines, i, l, Holding);
  }

  lemma HandOverUnscreened(s: Sys, i: nat)
    requires i < |s.lines|
    ensures Unscreened(HandOver(s, i)) == Unscreened(s)
  {
    TotalUpdate(s.lines, i, s.lines[i].(job := None), Holding);
  }

  lemma CleanupUnscreened(s: Sys, i: nat)
    requires i < |s.lines|
    ensures |Cleanup(s, i).lines| == |s.lines| && Cleanup(s, i).lines[i].job == None
    ensures Unscreened(Cleanup(s, i)) == Unscreened(s)
  {
    TotalUpdate(s.lines, i, Close(s.lines[i]), Holding);
    HandOverUnscreened(Closed(s, i), i);
  }

  lemma StartUnscreened(s: Sys, i: nat, callid: CallId, o: Opening)
    requires i < |s.lines| && S.W.Ok(s.cdr.win) && s.lines[i] == BLANK
    ensures Unscreened(Start(s, i, callid, o)) == Unscreened(s)
  {
    TotalUpdate(s.lines, i, Start(s, i, callid, o).lines[i], Holding);
  }

  lemma ReplaceUnscreened(s: Sys, i: nat, callid: CallId, o: Opening)
    requires i < |s.lines| && S.W.Ok(s.cdr.win)
    ensures Unscreened(Replace(s, i, callid, o)) == Unscreened(s)
    ensures |Replace(s, i, callid, o).lines| == |s.lines|
  {
    hide Start, Unscreened;
    var s1 := Cleanup(s, i);
    CleanupUnscreened(s, i);
    SetLineUnscreened(s1, i, BLANK);
    StartKeepsRest(SetLine(s1, i, BLANK), i, callid, o);
    StartUnscreened(SetLine(s1, i, BLANK), i, callid, o);
  }

  lemma ConcludeUnscreened(s: Sys, i: nat, p: Voice)
    requires i < |s.lines|
    ensures Unscreened(Conclude(s, i, p)) == Unscreened(s)
  {
    var s1 := SetLine(s, i, Mark(s.lines[i], p));
    SetLineUnscreened(s, i, Mark(s.lines[i], p));
    TotalUpdate(s1.lines, i, BLANK.(job := s1.lines[i].job), Holding);
    HandOverUnscreened(Completed(s1, i), i);
  }

  lemma PacketUnscreened(s: Sys, p: Voice, now: int, o: Opening)
    requires |s.lines| == SLOTS && S.W.Ok(s.cdr.win)
    ensures Unscreened(HandlePacket(s, p, now, o)) == Unscreened(s)
  {
    hide Replace, Conclude, Unscreened, TooLong;
    var i := Position(p.callid);
    var l := s.lines[i];
    var s1 := SetLine(s, i, Stamp(l, p, now));
    SetLineUnscreened(s, i, Stamp(l, p, now));
    if l.callid == p.callid {
      ConcludeUnscreened(s1, i, p);
    } else {
      ReplaceUnscreened(s1, i, p.callid, o);
      ConcludeUnscreened(Replace(s1, i, p.callid, o), i, p);
    }
  }

  lemma SweepUnscreened(s: Sys, i: nat, tim: int)
    requires i < |s.lines|
    ensures Unscreened(HandleSweep(s, i, tim)) == Unscreened(s)
  {
    hide Cleanup, Unscreened;
    if Idle(s.lines[i], tim) {
      CleanupUnscreened(s, i);
      var s1 := Cleanup(s, i);
      SetLineUnscreened(s1, i, s1.lines[i].(updateTime := 0));
    }
  }

  /** No step changes either balance. */
  lemma FaxBalancesStay(s: Sys, e: Event)
    requires |s.lines| == SLOTS && S.W.Ok(s.cdr.win) && Enabled(s, e)
    ensures Unscreened(Step(s, e)) == Unscreened(s) && Unjudged(Step(s, e)) == Unjudged(s)
  {
    hide HandlePacket, HandleSweep, S.Step;
    match e
    case Packet(p, now, o) =>
      PacketUnscreened(s, p, now, o);
      PacketKeepsRest(s, p, now, o);
    case Sweep(i, tim) =>
      SweepUnscreened(s, i, tim);
      SweepKeepsRest(s, i, tim);
    case FaxFetch(t) => TotalUpdate(s.threads, t, Screening(s.fax[0]), Busy);
    case FaxInsert(t, _, _) => TotalUpdate(s.threads, t, Screened(s.threads[t].job), Busy);
    case FaxReturn(t) => TotalUpdate(s.threads, t, Resting, Busy);
    case _ =>
  }

  lemma SweepKeepsRest(s: Sys, i: nat, tim: int)
    requires i < |s.lines|
    ensures SameRest(s, HandleSweep(s, i, tim))
  {
    hide Cleanup;
    CleanupKeepsRest(s, i);
  }

  // ---------- whole runs ----------

  lemma StepKeepsNodes(s: Sys, e: Event)
    requires |s.lines| == SLOTS && S.W.Ok(s.cdr.win) && Enabled(s, e)
    ensures Step(s, e).nodes == s.nodes
  {
    hide HandlePacket, Cleanup, S.Step;
    match e
    case Packet(p, now, o) => PacketKeepsRest(s, p, now, o);
    case Sweep(i, _) => CleanupKeepsRest(s, i);
    case _ =>
  }

  ghost predicate Reaches(s: Sys, events: seq<Event>, t: Sys)
    decreases |events|
  {
    if events == [] then s == t else
    |s.lines| == SLOTS && S.W.Ok(s.cdr.win) && Enabled(s, events[0]) && Reaches(Step(s, events[0]), events[1..], t)
  }

  lemma {:induction false} RunInv(s: Sys, events: seq<Event>, t: Sys)
    requires Inv(s) && Reaches(s, events, t)
    ensures Inv(t) && t.nodes == s.nodes
    decreases |events|
  {
    hide Inv, Step;
    if events != [] {
      StepInv(s, events[0]);
      StepKeepsNodes(s, events[0]);
      RunInv(Step(s, events[0]), events[1..], t);
    }
  }

  lemma {:induction false} RunBalances(s: Sys, events: seq<Event>, t: Sys)
    requires Reaches(s, events, t)
    ensures Unscreened(t) == Unscreened(s) && Unjudged(t) == Unjudged(s)
    decreases |events|
  {
    hide Step, Unscreened, Unjudged;
    if events != [] {
      FaxBalancesStay(s, events[0]);
      RunBalances(Step(s, events[0]), events[1..], t);
    }
  }

  /**
   In every run, each opened call was refused a node, handed over to fax screening, or holds its node; and
   each node fetched for screening was judged fax, judged not fax, or is being screened.
   */
  lemma FaxIsLedgered(nodes: nat, threads: nat, events: seq<Event>, t: Sys)
    requires Reaches(Init(nodes, threads), events, t)
    ensures t.fileOk == t.faxLost + t.enqueued + Total(t.lines, Holding)
    ensures t.dequeued == t.faxYes + t.faxNo + Total(t.threads, Busy)
  {
    TotalZero(Init(nodes, threads).lines, Holding);
    TotalZero(Init(nodes, threads).threads, Busy);
    RunBalances(Init(nodes, threads), events, t);
  }

  ghost predicate Somewhere(s: Sys, p: Place, c: nat) { HoldsCall(s, p, c) && forall q :: HoldsCall(s, q, c) ==> q == p }

  /**
   In every run, the record of each call whose two files opened is in exactly one place: a slot's node,
   the fax queue, a fax thread that has not yet passed it on, or one number of the sender's log; and
   there it is exactly one of acknowledged, dropped by overflow, or still in the window.
   */
  lemma EveryCallHasOneRecord(nodes: nat, threads: nat, events: seq<Event>, t: Sys, c: nat)
    requires Reaches(Init(nodes, threads), events, t) && c < t.fileOk
    ensures exists p :: Somewhere(t, p, c)
    ensures forall n: nat :: HoldsCall(t, InRing(n), c) ==>
              && (n in t.cdr.acked ==> n !in t.cdr.dropped && n in t.cdr.sent)
              && (n !in t.cdr.acked && n !in t.cdr.dropped <==> t.cdr.win.ack < n < |t.cdr.win.log|)
  {
    InitInv(nodes, threads);
    RunInv(Init(nodes, threads), events, t);
    assert Somewhere(t, t.place[c], c);
  }

  /** In every run, each record node is in exactly one place: free list, slot, fax queue or fax thread. */
  lemma NodesArePartitioned(nodes: nat, threads: nat, events: seq<Event>, t: Sys, n: nat)
    requires Reaches(Init(nodes, threads), events, t) && n < nodes
    ensures exists p :: HoldsNode(t, p, n) && forall q :: HoldsNode(t, q, n) ==> q == p
    ensures forall p: Place, m: nat :: HoldsNode(t, p, m) ==> m < nodes
  {
    InitInv(nodes, threads);
    RunInv(Init(nodes, threads), events, t);
    assert HoldsNode(t, t.spot[n], n);
  }

  /** In every run, open files and nodes belong to live slots, and starts balance ends and file outcomes. */
  lemma CallsAreLedgered(nodes: nat, threads: nat, events: seq<Event>, t: Sys)
    requires Reaches(Init(nodes, threads), events, t)
    ensures |t.lines| == SLOTS
    ensures forall i :: 0 <= i < SLOTS ==> LineOk(t.lines[i], i)
    ensures t.started == t.ended + t.online == t.fileOk + t.fileFail
    ensures t.enqueued == t.dequeued + |t.fax|
  {
    InitInv(nodes, threads);
    RunInv(Init(nodes, threads), events, t);
  }

  lemma {:induction false} RunOnline(s: Sys, events: seq<Event>, t: Sys)
    requires Inv(s) && OnlineIsExact(s) && Reaches(s, events, t)
    requires forall e :: e in events && e.Packet? ==> e.p.callid != 0
    ensures OnlineIsExact(t)
    decreases |events|
  {
    hide Inv, Step;
    if events != [] {
      StepInv(s, events[0]);
      OnlineStaysExact(s, events[0]);
      RunOnline(Step(s, events[0]), events[1..], t);
    }
  }

  lemma {:induction false} TotalOfNone(lines: seq<Line>)
    ensures Total(lines, Live) == 0 <==> forall l :: l in lines ==> l.callid == 0
  {
    if lines != [] {
      TotalOfNone(lines[1..]);
      assert lines == [lines[0]] + lines[1..];
    }
  }

  /**
   In every run of packets with nonzero identifiers, the online counter is the number of slots that carry
   a call, so the shutdown test `call_online == 0` succeeds exactly when no slot does, and then no file is
   open and no slot holds a node.
   */
  lemma ShutdownIsSafe(nodes: nat, threads: nat, events: seq<Event>, t: Sys)
    requires Reaches(Init(nodes, threads), events, t)
    requires forall e :: e in events && e.Packet? ==> e.p.callid != 0
    ensures t.online == Total(t.lines, Live)
    ensures t.online == 0 <==> forall l :: l in t.lines ==> l.callid == 0
    ensures t.online == 0 ==> forall l :: l in t.lines ==> !l.upOpen && !l.downOpen && l.job.None?
  {
    InitInv(nodes, threads);
    RunInv(Init(nodes, threads), events, t);
    RunOnline(Init(nodes, threads), events, t);
    TotalOfNone(t.lines);
  }

  /**
   A run from the start: a packet of call 1 makes slot 0 live, and one with identifier 0 takes it over; then
   the counter counts a call and no slot carries one.
   */
  lemma ZeroIdentifierIsMiscounted(nodes: nat, threads: nat, o: Opening) returns (events: seq<Event>, t: Sys)
    ensures events == [Packet(Voice(1, true, false), 0, o), Packet(Voice(0, true, false), 0, o)]
    ensures Reaches(Init(nodes, threads), events, t) && Excess(t) == 1
  {
    var first, second := Packet(Voice(1, true, false), 0, o), Packet(Voice(0, true, false), 0, o);
    events := [first, second];
    FirstPacketStarts(nodes, threads, o);
    hide HandlePacket, Init, Excess, S.W.Ok, HandleSweep;
    var s1 := HandlePacket(Init(nodes, threads), first.p, 0, o);
    ZeroTakesOver(s1, o);
    t := HandlePacket(s1, second.p, 0, o);
    ReachesTwo(Init(nodes, threads), first, second);
  }

  lemma ZeroTakesOver(s: Sys, o: Opening)
    requires |s.lines| == SLOTS && S.W.Ok(s.cdr.win) && s.lines[0].callid != 0
    ensures Excess(HandlePacket(s, Voice(0, true, false), 0, o)) == Excess(s) + 1
  {
    PacketExcess(s, Voice(0, true, false), 0, o);
  }

  lemma ReachesTwo(s: Sys, first: Event, second: Event)
    requires |s.lines| == SLOTS && S.W.Ok(s.cdr.win) && Enabled(s, first)
    requires var t := Step(s, first); |t.lines| == SLOTS && S.W.Ok(t.cdr.win) && Enabled(t, second)
    ensures Reaches(s, [first, second], Step(Step(s, first), second))
  {
    hide Step;
    var t := Step(s, first);
    assert [first, second][1..] == [second] && [second][1..] == [];
    assert Reaches(Step(t, second), [], Step(t, second));
    assert Reaches(t, [second], Step(t, second));
  }

  lemma FirstPacketStarts(nodes: nat, threads: nat, o: Opening)
    ensures
      var s := Init(nodes, threads);
      var t := HandlePacket(s, Voice(1, true, false), 0, o);
      && |s.lines| == SLOTS && S.W.Ok(s.cdr.win)
      && |t.lines| == SLOTS && S.W.Ok(t.cdr.win) && t.lines[0].callid == 1 && Excess(t) == 0
  {
    var s, p := Init(nodes, threads), Voice(1, true, false);
    InitInv(nodes, threads);
    PacketExcess(s, p, 0, o);
    PacketActsOnItsSlot(s, p, 0, o);
    StepInv(s, Packet(p, 0, o));
    hide HandlePacket, CallsPlaced, NodesPlaced, Total;
    assert Position(1) == 0 && s.lines[0] == BLANK;
  }
}
