/**
 What the counters, the free list and the sender's log owe to each event, by the packet's own fields and the
 slot it finds, and hence to the list of events of a run.
 */
module CallCounts {
  import opened Sequences
  import opened Sharding
  import opened CallControl
  import opened CallLife
  import L = CallLedger

  function LineOf(s: L.Sys, callid: CallId): Line
    requires |s.lines| == SLOTS
  {
    s.lines[callid / 0x8000 % 0x2_0000]
  }

  /** A packet of another call that its slot accepts. */
  predicate Takes(s: L.Sys, e: L.Event)
    requires |s.lines| == SLOTS
  {
    e.Packet? && LineOf(s, e.p.callid).callid != e.p.callid &&
    (LineOf(s, e.p.callid).callid != 0 || !FiveHoursPast(e.p.callid, e.now))
  }

  /** It starts a call whose two files open; identifier 0 has no file names. */
  predicate Opens(s: L.Sys, e: L.Event)
    requires |s.lines| == SLOTS
  {
    Takes(s, e) && e.p.callid != 0 && e.o.up && e.o.down
  }

  predicate Fails(s: L.Sys, e: L.Event)
    requires |s.lines| == SLOTS
  {
    Takes(s, e) && !(e.p.callid != 0 && e.o.up && e.o.down)
  }

  /** Both files open, but no node is free for screening. */
  predicate Unscreenable(s: L.Sys, e: L.Event)
    requires |s.lines| == SLOTS
  {
    Opens(s, e) && s.free == []
  }

  predicate Sweeps(s: L.Sys, e: L.Event)
    requires |s.lines| == SLOTS
  {
    e.Sweep? && e.position < SLOTS &&
    s.lines[e.position].updateTime != 0 && e.tim - s.lines[e.position].updateTime >= 60
  }

  /** A live slot is swept or taken over before its call has ended. */
  predicate TimesOut(s: L.Sys, e: L.Event)
    requires |s.lines| == SLOTS
  {
    (Takes(s, e) && LineOf(s, e.p.callid).callid != 0) || (Sweeps(s, e) && s.lines[e.position].callid != 0)
  }

  /** The packet after which both directions of the slot's call are over. */
  predicate Completes(s: L.Sys, e: L.Event)
    requires |s.lines| == SLOTS
  {
    e.Packet? &&
    var l, forced := LineOf(s, e.p.callid), FiveHoursPast(e.p.callid, e.now);
    && l.callid == e.p.callid && (l.callid != 0 || !forced)
    && (l.upEnd || forced || (e.p.last && e.p.up)) && (l.downEnd || forced || (e.p.last && !e.p.up))
  }

  function One(b: bool): nat { if b then 1 else 0 }

  /** What Start counts and puts where. */
  lemma StartCounts(s: L.Sys, i: nat, callid: CallId, o: Opening)
    requires i < |s.lines| && L.S.W.Ok(s.cdr.win)
    ensures
      var t, both := L.Start(s, i, callid, o), callid != 0 && o.up && o.down;
      && |t.lines| == |s.lines| && t.started == s.started + 1 && t.ended == s.ended && t.timedOut == s.timedOut
      && t.fileOk == s.fileOk + One(both) && t.fileFail == s.fileFail + One(!both)
      && t.faxLost == s.faxLost + One(both && s.free == [])
      && t.cdr.win.log == s.cdr.win.log + (if both && s.free == [] then [s.fileOk] else [])
      && t.free == (if both && s.free != [] then s.free[1..] else s.free)
      && t.faxYes == s.faxYes && t.faxNo == s.faxNo
  {
    assert s.cdr.win.log + [] == s.cdr.win.log;
  }

  /** Cleaning a slot up counts a live call as timed out and ended, and nothing else. */
  lemma CleanupCounts(s: L.Sys, i: nat)
    requires i < |s.lines|
    ensures
      var t, live := L.Cleanup(s, i), s.lines[i].callid != 0;
      && t.ended == s.ended + One(live) && t.timedOut == s.timedOut + One(live)
      && t.started == s.started && t.fileOk == s.fileOk && t.fileFail == s.fileFail && t.faxLost == s.faxLost
      && t.cdr == s.cdr && t.free == s.free && t.faxYes == s.faxYes && t.faxNo == s.faxNo && |t.lines| == |s.lines|
  {
  }

  lemma ConcludeCounts(s: L.Sys, i: nat, p: Voice)
    requires i < |s.lines|
    ensures
      var t, l := L.Conclude(s, i, p), s.lines[i];
      && t.ended == s.ended + One((l.upEnd || (p.last && p.up)) && (l.downEnd || (p.last && !p.up)))
      && t.timedOut == s.timedOut && t.started == s.started
      && t.fileOk == s.fileOk && t.fileFail == s.fileFail && t.faxLost == s.faxLost
      && t.cdr == s.cdr && t.free == s.free && t.faxYes == s.faxYes && t.faxNo == s.faxNo
  {
  }

  /** Every counter, the free list and the log after one event. */
  ghost predicate Counted(s: L.Sys, e: L.Event, t: L.Sys)
    requires Ready(s, e)
  {
    && t.started == s.started + One(Takes(s, e))
    && t.fileOk == s.fileOk + One(Opens(s, e)) && t.fileFail == s.fileFail + One(Fails(s, e))
    && t.faxLost == s.faxLost + One(Unscreenable(s, e))
    && t.timedOut == s.timedOut + One(TimesOut(s, e))
    && t.ended == s.ended + One(TimesOut(s, e)) + One(Completes(s, e))
    && t.cdr.win.log == s.cdr.win.log + Recorded(s, e)
    && t.free == (if Opens(s, e) && s.free != [] then s.free[1..] else if e.FaxReturn? then s.free + [s.threads[e.thread].job.node] else s.free)
    && t.faxYes == s.faxYes + One(IsFax(e)) && t.faxNo == s.faxNo + One(IsNotFax(e))
  }

  /** A screened record is fax when one of the two directions' octet verdicts is 1. */
  predicate IsFax(e: L.Event) { e.FaxInsert? && (e.up % 256 == 1 || e.down % 256 == 1) }

  predicate IsNotFax(e: L.Event) { e.FaxInsert? && e.up % 256 != 1 && e.down % 256 != 1 }

  /** The records that go to the sender: an opened call's that no node was free for, or a screened one. */
  function Recorded(s: L.Sys, e: L.Event): seq<nat>
    requires |s.lines| == SLOTS && L.Enabled(s, e)
  {
    if Unscreenable(s, e) then [s.fileOk] else if e.FaxInsert? then [s.threads[e.thread].job.call] else []
  }

  lemma PacketIsCounted(s: L.Sys, e: L.Event)
    requires Ready(s, e) && e.Packet?
    ensures Counted(s, e, L.Step(s, e))
  {
    hide L.Cleanup, L.Start, L.Conclude, L.S.Step;
    var p, now, o, i := e.p, e.now, e.o, Position(e.p.callid);
    var l := s.lines[i];
    var s1 := L.SetLine(s, i, Stamp(l, p, now));
    CleanupCounts(s1, i);
    var s2 := L.SetLine(L.Cleanup(s1, i), i, BLANK);
    StartCounts(s2, i, p.callid, o);
    var s3 := if l.callid == p.callid then s1 else L.Start(s2, i, p.callid, o);
    if !(TooLong(p, now) && l.callid == 0) {
      if l.callid != p.callid {
        L.ReplacedLine(s1, i, p.callid, o);
      }
      ConcludeCounts(s3, i, p);
    }
    assert s.cdr.win.log + [] == s.cdr.win.log;
  }

  lemma EventIsCounted(s: L.Sys, e: L.Event)
    requires Ready(s, e)
    ensures Counted(s, e, L.Step(s, e))
  {
    assert s.cdr.win.log + [] == s.cdr.win.log;
    match e
    case Packet(_, _, _) => PacketIsCounted(s, e);
    case Sweep(i, tim) => CleanupCounts(s, i);
    case _ =>
  }

  // ---------- over runs ----------

  function OpenedBy(s: L.Sys, e: L.Event): seq<CallId>
    requires |s.lines| == SLOTS
  {
    if Opens(s, e) then [e.p.callid] else []
  }

  /** The calls of a run whose two files opened, in order of starting. */
  ghost function CallsOf(s: L.Sys, events: seq<L.Event>): seq<CallId>
    decreases |events|
  {
    if events == [] || !Ready(s, events[0]) then [] else
    OpenedBy(s, events[0]) + CallsOf(L.Step(s, events[0]), events[1..])
  }

  /** How often something happened along a run. */
  ghost function Tally(s: L.Sys, events: seq<L.Event>, what: Kind): nat
    decreases |events|
  {
    if events == [] || !Ready(s, events[0]) then 0 else
    One(Is(s, events[0], what)) + Tally(L.Step(s, events[0]), events[1..], what)
  }

  datatype Kind = Taking | BothOpening | Failing | Unscreened | TimingOut | Completing | YesVerdict | NoVerdict

  ghost predicate Is(s: L.Sys, e: L.Event, what: Kind)
    requires |s.lines| == SLOTS
  {
    match what
    case Taking => Takes(s, e)
    case BothOpening => Opens(s, e)
    case Failing => Fails(s, e)
    case Unscreened => Unscreenable(s, e)
    case TimingOut => TimesOut(s, e)
    case Completing => Completes(s, e)
    case YesVerdict => IsFax(e)
    case NoVerdict => IsNotFax(e)
  }

  /** The counter of each kind; calls that end by their own packets are those ended but not timed out. */
  function Counter(s: L.Sys, what: Kind): int {
    match what
    case Taking => s.started
    case BothOpening => s.fileOk
    case Failing => s.fileFail
    case Unscreened => s.faxLost
    case TimingOut => s.timedOut
    case Completing => s.ended - s.timedOut
    case YesVerdict => s.faxYes
    case NoVerdict => s.faxNo
  }

  lemma CounterStep(s: L.Sys, e: L.Event, what: Kind)
    requires Ready(s, e)
    ensures Counter(L.Step(s, e), what) == Counter(s, what) + One(Is(s, e, what))
  {
    hide L.Step, Takes, Opens, Fails, Unscreenable, TimesOut, Completes, IsFax, IsNotFax, Recorded;
    EventIsCounted(s, e);
  }

  lemma {:induction false} CounterCounts(s: L.Sys, events: seq<L.Event>, t: L.Sys, what: Kind)
    requires L.Reaches(s, events, t)
    ensures Counter(t, what) == Counter(s, what) + Tally(s, events, what)
    decreases |events|
  {
    if events != [] {
      hide L.Step, Is, Counter, L.Enabled;
      CounterStep(s, events[0], what);
      CounterCounts(L.Step(s, events[0]), events[1..], t, what);
    }
  }

  /** In every run, each counter is the number of events of its kind. */
  lemma CountersCountTheRun(nodes: nat, threads: nat, events: seq<L.Event>, t: L.Sys)
    requires L.Reaches(L.Init(nodes, threads), events, t)
    ensures
      var s := L.Init(nodes, threads);
      && t.started == Tally(s, events, Taking)
      && t.fileOk == Tally(s, events, BothOpening) && t.fileFail == Tally(s, events, Failing)
      && t.faxLost == Tally(s, events, Unscreened)
      && t.timedOut == Tally(s, events, TimingOut)
      && t.ended == Tally(s, events, TimingOut) + Tally(s, events, Completing)
      && t.faxYes == Tally(s, events, YesVerdict) && t.faxNo == Tally(s, events, NoVerdict)
  {
    var s := L.Init(nodes, threads);
    hide Tally, L.Reaches;
    CounterCounts(s, events, t, Taking);
    CounterCounts(s, events, t, BothOpening);
    CounterCounts(s, events, t, Failing);
    CounterCounts(s, events, t, Unscreened);
    CounterCounts(s, events, t, TimingOut);
    CounterCounts(s, events, t, Completing);
    CounterCounts(s, events, t, YesVerdict);
    CounterCounts(s, events, t, NoVerdict);
  }

  lemma {:induction false} OpenedCalls(s: L.Sys, events: seq<L.Event>)
    ensures |CallsOf(s, events)| == Tally(s, events, BothOpening)
    decreases |events|
  {
    if events != [] && Ready(s, events[0]) {
      OpenedCalls(L.Step(s, events[0]), events[1..]);
    }
  }

  /** The n-th opened call is the call of the slot that holds record n's node. */
  ghost predicate Named(s: L.Sys, names: seq<CallId>) {
    |names| == s.fileOk && forall i :: 0 <= i < |s.lines| && s.lines[i].job.Some? ==>
      s.lines[i].job.value.call < |names| && names[s.lines[i].job.value.call] == s.lines[i].callid
  }

  lemma NamedStep(s: L.Sys, e: L.Event, names: seq<CallId>)
    requires Ready(s, e) && Named(s, names) && L.LinesOk(s)
    ensures Named(L.Step(s, e), names + OpenedBy(s, e))
  {
    hide L.Step, Next, Handed, L.S.Step;
    EventIsCounted(s, e);
    hide Counted, Recorded;
    var t, more := L.Step(s, e), names + OpenedBy(s, e);
    CountedOpens(s, e);
    forall j | 0 <= j < |t.lines| && t.lines[j].job.Some?
      ensures t.lines[j].job.value.call < |more| && more[t.lines[j].job.value.call] == t.lines[j].callid
    {
      LineAfter(s, e, j);
    }
  }

  lemma CountedOpens(s: L.Sys, e: L.Event)
    requires Ready(s, e)
    ensures L.Step(s, e).fileOk == s.fileOk + One(Opens(s, e))
  {
    EventIsCounted(s, e);
  }

  /** A slot's node after an event: the one it had for the same call, or a new call's. */
  lemma LineAfter(s: L.Sys, e: L.Event, j: nat)
    requires Ready(s, e) && L.LinesOk(s)
    ensures
      var t := L.Step(s, e);
      |t.lines| == SLOTS &&
      (j < SLOTS && t.lines[j].job.Some? ==>
        || (t.lines[j].job == s.lines[j].job && t.lines[j].callid == s.lines[j].callid)
        || (Opens(s, e) && t.lines[j].job.value.call == s.fileOk && t.lines[j].callid == e.p.callid))
  {
    hide L.HandlePacket, L.HandleSweep, L.S.Step, Next, Handed;
    match e
    case Packet(p, now, o) =>
      L.PacketActsOnItsSlot(s, p, now, o);
      var l := s.lines[Position(p.callid)];
      if l.callid == 0 && FiveHoursPast(p.callid, now) {
        PacketIsRefused(l, p, now, o, L.Available(s));
      } else if l.callid == p.callid {
        PacketContinues(l, p, now, o, L.Available(s));
      } else {
        PacketTakesSlot(l, p, now, o, L.Available(s));
      }
    case Sweep(i, tim) => SweepOutcome(s, i, tim);
    case _ =>
  }

  lemma NothingNamed(nodes: nat, threads: nat)
    ensures Named(L.Init(nodes, threads), [])
  {
  }

  lemma LinesAreOk(s: L.Sys)
    requires L.Inv(s)
    ensures L.LinesOk(s)
  {
  }

  lemma {:induction false} NamedRun(s: L.Sys, events: seq<L.Event>, t: L.Sys, names: seq<CallId>)
    requires L.Inv(s) && L.Reaches(s, events, t) && Named(s, names)
    ensures Named(t, names + CallsOf(s, events))
    decreases |events|
  {
    hide L.Inv, L.Step, Named, OpenedBy, L.Enabled, L.LinesOk;
    if events == [] {
      assert names + [] == names;
    } else {
      LinesAreOk(s);
      NamedStep(s, events[0], names);
      L.StepInv(s, events[0]);
      var first := OpenedBy(s, events[0]);
      NamedRun(L.Step(s, events[0]), events[1..], t, names + first);
      var rest := CallsOf(L.Step(s, events[0]), events[1..]);
      assert CallsOf(s, events) == first + rest && names + first + rest == names + (first + rest);
    }
  }

  ghost predicate HasOnePlace(t: L.Sys, c: nat) { exists p :: L.Somewhere(t, p, c) }

  /**
   In every run, each call that a packet started and whose two files opened has its record in exactly one place: a
   slot that carries that very call, the fax queue, a fax thread, or one number of the sender's log.
   */
  lemma EveryOpenedCallHasOneRecord(nodes: nat, threads: nat, events: seq<L.Event>, t: L.Sys, c: nat)
    requires L.Reaches(L.Init(nodes, threads), events, t)
    ensures |CallsOf(L.Init(nodes, threads), events)| == t.fileOk
    ensures c < |CallsOf(L.Init(nodes, threads), events)| <==> HasOnePlace(t, c)
    ensures forall i: nat :: L.HoldsCall(t, L.AtLine(i), c) && c < |CallsOf(L.Init(nodes, threads), events)| ==>
              CallsOf(L.Init(nodes, threads), events)[c] == t.lines[i].callid
  {
    var s := L.Init(nodes, threads);
    var calls := CallsOf(s, events);
    L.InitInv(nodes, threads);
    L.RunInv(s, events, t);
    CountersCountTheRun(nodes, threads, events, t);
    OpenedCalls(s, events);
    NothingNamed(nodes, threads);
    NamedRun(s, events, t, []);
    assert [] + calls == calls;
    hide L.Init, CallsOf, Tally, L.Reaches, L.Inv, HasOnePlace;
    if c < |calls| {
      OpenedIsPlaced(t, c);
    }
    if HasOnePlace(t, c) {
      PlacedIsOpened(t, c);
    }
  }

  lemma OpenedIsPlaced(t: L.Sys, c: nat)
    requires L.Inv(t) && c < t.fileOk
    ensures HasOnePlace(t, c)
  {
    assert L.Somewhere(t, t.place[c], c);
  }

  lemma PlacedIsOpened(t: L.Sys, c: nat)
    requires L.Inv(t) && HasOnePlace(t, c)
    ensures c < t.fileOk
  {
    var p :| L.Somewhere(t, p, c);
    assert L.HoldsCall(t, p, c);
  }

  /** A free fax thread can take the queue's first record, pass it on with its verdict, and return its node. */
  lemma FaxThreadServes(s: L.Sys, k: nat, up: int, down: int)
    requires |s.lines| == SLOTS && L.S.W.Ok(s.cdr.win) && k < |s.threads| && s.threads[k].Resting? && s.fax != []
    ensures L.Enabled(s, L.FaxFetch(k))
    ensures var a := L.Step(s, L.FaxFetch(k)); Ready(a, L.FaxInsert(k, up, down))
    ensures var b := L.Step(L.Step(s, L.FaxFetch(k)), L.FaxInsert(k, up, down)); Ready(b, L.FaxReturn(k))
    ensures
      var t := L.Step(L.Step(L.Step(s, L.FaxFetch(k)), L.FaxInsert(k, up, down)), L.FaxReturn(k));
      && t.fax == s.fax[1..] && t.cdr.win.log == s.cdr.win.log + [s.fax[0].call] && t.free == s.free + [s.fax[0].node]
      && t.threads == s.threads && t.lines == s.lines && t.faxYes + t.faxNo == s.faxYes + s.faxNo + 1
  {
    L.S.W.InsertKeepsOk(s.cdr.win, s.fax[0].call);
  }

  /**
   A packet that comes after both last ones starts the call again: three packets of one identifier, in every system and for
   every young identifier, open two calls and hence two records.
   */
  lemma LatePacketStartsAnotherCall(nodes: nat, threads: nat, c: CallId, now: int)
    requires c != 0 && !FiveHoursPast(c, now)
    ensures
      var o := Opening(true, true);
      var up, down, late := L.Packet(Voice(c, true, true), now, o), L.Packet(Voice(c, false, true), now, o), L.Packet(Voice(c, true, false), now, o);
      CallsOf(L.Init(nodes, threads), [up, down, late]) == [c, c]
  {
    var o, i := Opening(true, true), c / 0x8000 % 0x2_0000;
    var up, down, late := L.Packet(Voice(c, true, true), now, o), L.Packet(Voice(c, false, true), now, o), L.Packet(Voice(c, true, false), now, o);
    var s0 := L.Init(nodes, threads);
    StartsBlank(nodes, threads, i);
    LifeBegins(s0, up, i);
    L.StepInv(s0, up);
    var s1 := L.Step(s0, up);
    LifeEnds(s1, down, i, c, FirstLife(up.p));
    L.StepInv(s1, down);
    var s2 := L.Step(s1, down);
    hide L.Step, L.Inv, L.Init, CallsOf;
    CallsOfThree(s0, up, down, late);
  }

  lemma StartsBlank(nodes: nat, threads: nat, i: nat)
    requires i < SLOTS
    ensures var s := L.Init(nodes, threads); |s.lines| == SLOTS && L.S.W.Ok(s.cdr.win) && L.Inv(s) && s.lines[i].callid == 0
  {
    L.InitInv(nodes, threads);
  }

  lemma CallsOfThree(s: L.Sys, a: L.Event, b: L.Event, c: L.Event)
    requires Ready(s, a) && Ready(L.Step(s, a), b) && Ready(L.Step(L.Step(s, a), b), c)
    ensures CallsOf(s, [a, b, c]) == OpenedBy(s, a) + OpenedBy(L.Step(s, a), b) + OpenedBy(L.Step(L.Step(s, a), b), c)
  {
    hide L.Step, OpenedBy;
    var t := L.Step(s, a);
    var u := L.Step(t, b);
    assert [a, b, c][1..] == [b, c] && [b, c][1..] == [c] && [c][1..] == [];
    assert CallsOf(u, [c]) == OpenedBy(u, c) + CallsOf(L.Step(u, c), []);
    assert CallsOf(t, [b, c]) == OpenedBy(t, b) + CallsOf(u, [c]);
  }
}
