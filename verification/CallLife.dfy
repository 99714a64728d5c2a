/**
 The life of one call in its slot, over runs of the whole system: from the packet that starts it to the
 packet, sweep or other call that ends it, told by the packets' own fields and times.
 */
module CallLife {
  import opened Sequences
  import opened Sharding
  import opened CallControl
  import L = CallLedger

  /** The directions that have sent their last packet, and when the last packet after the starting one came. */
  datatype Life = Life(up: bool, down: bool, seen: Option<int>)

  /** Bits 15 to 31 of a packet's identifier select its slot. */
  predicate AtSlot(e: L.Event, i: nat) { e.Packet? && e.p.callid / 0x8000 % 0x2_0000 == i }

  function Follow(life: Life, e: L.Event, i: nat): Life {
    if !AtSlot(e, i) then life else
    Life(life.up || (e.p.last && e.p.up), life.down || (e.p.last && !e.p.up), Some(e.now))
  }

  /**
   The event ends call `c`: another call's packet, a packet five hours past its start, the second direction's
   last packet, or a sweep sixty seconds after a packet other than the first.
   */
  predicate Over(c: CallId, life: Life, e: L.Event, i: nat) {
    if AtSlot(e, i) then e.p.callid != c || FiveHoursPast(c, e.now) || (Follow(life, e, i).up && Follow(life, e, i).down)
    else e.Sweep? && e.position == i && life.seen.Some? && life.seen.value != 0 && e.tim - life.seen.value >= 60
  }

  ghost predicate Lives(s: L.Sys, i: nat, c: CallId, life: Life) {
    && i < |s.lines| && c != 0 && s.lines[i].callid == c
    && s.lines[i].upEnd == life.up && s.lines[i].downEnd == life.down
    && s.lines[i].updateTime == (if life.seen.Some? then life.seen.value else 0)
  }

  ghost predicate Ready(s: L.Sys, e: L.Event) { |s.lines| == SLOTS && L.S.W.Ok(s.cdr.win) && L.Enabled(s, e) }

  lemma StepOutsideSlot(s: L.Sys, e: L.Event, i: nat)
    requires Ready(s, e) && i < SLOTS && !AtSlot(e, i) && !(e.Sweep? && e.position == i)
    ensures |L.Step(s, e).lines| == SLOTS && L.Step(s, e).lines[i] == s.lines[i]
  {
    hide L.HandlePacket, L.HandleSweep, L.S.Step;
    match e
    case Packet(p, now, o) => L.PacketActsOnItsSlot(s, p, now, o);
    case Sweep(j, tim) => SweepOutcome(s, j, tim);
    case _ =>
  }

  /** A sweep closes a slot stamped sixty seconds ago or more. */
  lemma SweepOutcome(s: L.Sys, i: nat, tim: int)
    requires |s.lines| == SLOTS && i < SLOTS
    ensures
      var t, l := L.HandleSweep(s, i, tim), s.lines[i];
      if l.updateTime != 0 && tim - l.updateTime >= 60
      then t.lines == s.lines[i := l.(callid := 0, upOpen := false, downOpen := false, job := None, updateTime := 0)]
           && t.fax == s.fax + Jobs(l.job)
      else t == s
  {
    hide L.Cleanup;
    L.CleanupActsOnItsSlot(s, i);
  }

  /** The packet that starts a call. */
  predicate StartsCall(s: L.Sys, e: L.Event, i: nat) {
    && AtSlot(e, i) && i < |s.lines| && e.p.callid != 0 && s.lines[i].callid != e.p.callid
    && (s.lines[i].callid != 0 || !FiveHoursPast(e.p.callid, e.now))
  }

  function FirstLife(p: Voice): Life { Life(p.last && p.up, p.last && !p.up, None) }

  lemma LifeBegins(s: L.Sys, e: L.Event, i: nat)
    requires Ready(s, e) && i < SLOTS && StartsCall(s, e, i)
    ensures
      var t := L.Step(s, e);
      && |t.lines| == SLOTS && Lives(t, i, e.p.callid, FirstLife(e.p))
      && t.lines[i].upOpen == e.o.up && t.lines[i].downOpen == e.o.down
      && t.lines[i].job == (if e.o.up && e.o.down then L.Available(s) else None)
  {
    hide L.HandlePacket, Next, Handed;
    L.PacketActsOnItsSlot(s, e.p, e.now, e.o);
    PacketTakesSlot(s.lines[i], e.p, e.now, e.o, L.Available(s));
  }

  /** An event that does not end the call changes its slot as the packets say, and leaves its files and node. */
  lemma LifeGoesOn(s: L.Sys, e: L.Event, i: nat, c: CallId, life: Life)
    requires Ready(s, e) && Lives(s, i, c, life) && !Over(c, life, e, i)
    ensures
      var t := L.Step(s, e);
      && |t.lines| == SLOTS && Lives(t, i, c, Follow(life, e, i)) && t.lines[i].job == s.lines[i].job
      && t.lines[i].upOpen == s.lines[i].upOpen && t.lines[i].downOpen == s.lines[i].downOpen
  {
    hide L.HandlePacket, L.HandleSweep, Next, Handed;
    if AtSlot(e, i) {
      L.PacketActsOnItsSlot(s, e.p, e.now, e.o);
      PacketContinues(s.lines[i], e.p, e.now, e.o, L.Available(s));
    } else if e.Sweep? && e.position == i {
      SweepOutcome(s, i, e.tim);
    } else {
      StepOutsideSlot(s, e, i);
    }
  }

  /** An event that ends the call hands its node over and closes its files; only another call's packet leaves the slot live. */
  lemma LifeEnds(s: L.Sys, e: L.Event, i: nat, c: CallId, life: Life)
    requires Ready(s, e) && Lives(s, i, c, life) && Over(c, life, e, i) && !(life.up && life.down)
    ensures
      var t, l := L.Step(s, e), s.lines[i];
      && |t.lines| == SLOTS && t.fax == s.fax + Jobs(l.job)
      && if AtSlot(e, i) && e.p.callid != c
         then t.lines[i].callid == e.p.callid
         else t.lines[i].callid == 0 && !t.lines[i].upOpen && !t.lines[i].downOpen && t.lines[i].job.None?
  {
    hide L.HandlePacket, L.HandleSweep, Next, Handed;
    if AtSlot(e, i) {
      L.PacketActsOnItsSlot(s, e.p, e.now, e.o);
      if e.p.callid == c {
        PacketContinues(s.lines[i], e.p, e.now, e.o, L.Available(s));
      } else {
        PacketTakesSlot(s.lines[i], e.p, e.now, e.o, L.Available(s));
      }
    } else {
      SweepOutcome(s, i, e.tim);
    }
  }

  // ---------- over runs ----------

  ghost predicate GoesOn(c: CallId, life: Life, events: seq<L.Event>, i: nat)
    decreases |events|
  {
    events == [] || (!Over(c, life, events[0], i) && GoesOn(c, Follow(life, events[0], i), events[1..], i))
  }

  function FollowAll(life: Life, events: seq<L.Event>, i: nat): Life
    decreases |events|
  {
    if events == [] then life else FollowAll(Follow(life, events[0], i), events[1..], i)
  }

  lemma {:induction false} LivesThrough(s: L.Sys, events: seq<L.Event>, t: L.Sys, i: nat, c: CallId, life: Life)
    requires L.Reaches(s, events, t) && |s.lines| == SLOTS && Lives(s, i, c, life) && GoesOn(c, life, events, i)
    ensures |t.lines| == SLOTS && Lives(t, i, c, FollowAll(life, events, i)) && t.lines[i].job == s.lines[i].job
    ensures t.lines[i].upOpen == s.lines[i].upOpen && t.lines[i].downOpen == s.lines[i].downOpen
    decreases |events|
  {
    if events != [] {
      hide L.Step, Lives, Over, Follow;
      LivesInRange(s, i, c, life);
      LifeGoesOn(s, events[0], i, c, life);
      LivesThrough(L.Step(s, events[0]), events[1..], t, i, c, Follow(life, events[0], i));
    }
  }

  lemma LivesInRange(s: L.Sys, i: nat, c: CallId, life: Life)
    requires Lives(s, i, c, life)
    ensures i < |s.lines|
  {
  }

  // ---------- told by the list of events ----------

  /** A last packet of the direction came to the slot. */
  ghost predicate LastCame(events: seq<L.Event>, i: nat, up: bool) {
    exists k :: 0 <= k < |events| && AtSlot(events[k], i) && events[k].p.last && events[k].p.up == up
  }

  /** When the latest packet came to the slot. */
  function LastSeen(events: seq<L.Event>, i: nat): Option<int> {
    if events == [] then None
    else if AtSlot(events[|events| - 1], i) then Some(events[|events| - 1].now)
    else LastSeen(events[..|events| - 1], i)
  }

  lemma LastCameRest(events: seq<L.Event>, i: nat, up: bool)
    requires events != []
    ensures LastCame(events, i, up) <==>
            (AtSlot(events[0], i) && events[0].p.last && events[0].p.up == up) || LastCame(events[1..], i, up)
  {
    assert forall k :: 1 <= k < |events| ==> events[k] == events[1..][k - 1];
  }

  lemma {:induction false} LastSeenRest(events: seq<L.Event>, i: nat)
    requires events != []
    ensures LastSeen(events, i) ==
            if LastSeen(events[1..], i).Some? then LastSeen(events[1..], i)
            else if AtSlot(events[0], i) then Some(events[0].now) else None
  {
    if |events| > 1 {
      var front := events[..|events| - 1];
      LastSeenRest(front, i);
      assert front[1..] == events[1..][..|events| - 2];
    }
  }

  /** The flags and the time stamp are those of the packets in the list. */
  lemma {:induction false} LifeIsTold(life: Life, events: seq<L.Event>, i: nat)
    ensures
      var f := FollowAll(life, events, i);
      && (f.up <==> life.up || LastCame(events, i, true)) && (f.down <==> life.down || LastCame(events, i, false))
      && f.seen == if LastSeen(events, i).Some? then LastSeen(events, i) else life.seen
    decreases |events|
  {
    if events != [] {
      LifeIsTold(Follow(life, events[0], i), events[1..], i);
      LastCameRest(events, i, true);
      LastCameRest(events, i, false);
      LastSeenRest(events, i);
      hide LastCame, LastSeen, FollowAll;
      FollowStep(life, events, i);
    }
  }

  lemma FollowStep(life: Life, events: seq<L.Event>, i: nat)
    requires events != []
    ensures FollowAll(life, events, i) == FollowAll(Follow(life, events[0], i), events[1..], i)
  {
  }

  /** Event k is a sweep of the slot sixty seconds or more after the latest packet there. */
  ghost predicate SweptAt(events: seq<L.Event>, k: nat, i: nat, before: Option<int>)
    requires k < |events|
  {
    var seen := if LastSeen(events[..k], i).Some? then LastSeen(events[..k], i) else before;
    events[k].Sweep? && events[k].position == i && seen.Some? && seen.value != 0 && events[k].tim - seen.value >= 60
  }

  /** Every packet to the slot is a young one of the call, and no sweep comes there after sixty silent seconds. */
  ghost predicate Undisturbed(events: seq<L.Event>, i: nat, c: CallId, before: Option<int>) {
    forall k :: 0 <= k < |events| ==>
      (AtSlot(events[k], i) ==> events[k].p.callid == c && !FiveHoursPast(c, events[k].now))
      && !SweptAt(events, k, i, before)
  }

  lemma UndisturbedRest(events: seq<L.Event>, i: nat, c: CallId, life: Life)
    requires events != [] && Undisturbed(events, i, c, life.seen)
    ensures Undisturbed(events[1..], i, c, Follow(life, events[0], i).seen)
  {
    var rest := events[1..];
    forall k | 0 <= k < |rest|
      ensures AtSlot(rest[k], i) ==> rest[k].p.callid == c && !FiveHoursPast(c, rest[k].now)
      ensures !SweptAt(rest, k, i, Follow(life, events[0], i).seen)
    {
      assert rest[k] == events[k + 1] && !SweptAt(events, k + 1, i, life.seen);
      LastSeenRest(events[..k + 1], i);
      assert events[..k + 1][1..] == rest[..k] && events[..k + 1][0] == events[0];
    }
  }

  lemma UndisturbedFront(events: seq<L.Event>, e: L.Event, i: nat, c: CallId, before: Option<int>)
    requires Undisturbed(events + [e], i, c, before)
    ensures Undisturbed(events, i, c, before)
  {
    var all := events + [e];
    forall k | 0 <= k < |events|
      ensures AtSlot(events[k], i) ==> events[k].p.callid == c && !FiveHoursPast(c, events[k].now)
      ensures !SweptAt(events, k, i, before)
    {
      assert all[k] == events[k] && all[..k] == events[..k] && !SweptAt(all, k, i, before);
    }
  }

  lemma {:induction false} UndisturbedGoesOn(c: CallId, life: Life, events: seq<L.Event>, i: nat)
    requires Undisturbed(events, i, c, life.seen)
    requires !((life.up || LastCame(events, i, true)) && (life.down || LastCame(events, i, false)))
    ensures GoesOn(c, life, events, i)
    decreases |events|
  {
    if events != [] {
      LastCameRest(events, i, true);
      LastCameRest(events, i, false);
      assert events[..0] == [] && !SweptAt(events, 0, i, life.seen);
      UndisturbedRest(events, i, c, life);
      UndisturbedGoesOn(c, Follow(life, events[0], i), events[1..], i);
    }
  }

  lemma LastIsUndisturbed(c: CallId, events: seq<L.Event>, e: L.Event, i: nat)
    requires Undisturbed(events + [e], i, c, None)
    ensures AtSlot(e, i) ==> e.p.callid == c && !FiveHoursPast(c, e.now)
    ensures e.Sweep? && e.position == i ==>
              LastSeen(events, i).None? || LastSeen(events, i).value == 0 || e.tim - LastSeen(events, i).value < 60
  {
    assert (events + [e])[|events|] == e && (events + [e])[..|events|] == events;
    assert !SweptAt(events + [e], |events|, i, None);
  }

  lemma {:induction false} ReachesFront(s: L.Sys, events: seq<L.Event>, e: L.Event, t: L.Sys) returns (u: L.Sys)
    requires L.Reaches(s, events + [e], t)
    ensures L.Reaches(s, events, u) && Ready(u, e) && t == L.Step(u, e)
    decreases |events|
  {
    hide L.Step;
    if events == [] {
      assert ([] + [e])[1..] == [] && ([] + [e])[0] == e;
      u := s;
    } else {
      assert (events + [e])[1..] == events[1..] + [e] && (events + [e])[0] == events[0];
      u := ReachesFront(L.Step(s, events[0]), events[1..], e, t);
    }
  }

  /**
   A call ends by its own packets exactly when both directions have sent a last one: from the starting packet
   on, with only young packets of the call in its slot and no sweep after sixty silent seconds, the slot is blank, its files closed
   and the call's node at the end of the fax queue if and only if some packet was an up last and some packet was
   a down last; before that the slot carries the call.
   */
  lemma CallEndsExactly(s: L.Sys, start: L.Event, events: seq<L.Event>, e: L.Event, t: L.Sys, i: nat)
    requires i < SLOTS && Ready(s, start) && StartsCall(s, start, i)
    requires L.Reaches(L.Step(s, start), events + [e], t) && Undisturbed(events + [e], i, start.p.callid, None)
    requires !(LastCame([start] + events, i, true) && LastCame([start] + events, i, false))
    ensures
      |t.lines| == SLOTS &&
      var all, l := [start] + events + [e], t.lines[i];
      && l.callid == (if LastCame(all, i, true) && LastCame(all, i, false) then 0 else start.p.callid)
      && (l.callid == 0 ==> !l.upOpen && !l.downOpen && l.job.None?)
      && (l.callid == 0 && start.o.up && start.o.down && s.free != [] ==>
            t.fax != [] && t.fax[|t.fax| - 1] == Job(s.free[0], s.fileOk))
      && (l.callid != 0 ==> l.upOpen == start.o.up && l.downOpen == start.o.down)
  {
    var c, first := start.p.callid, FirstLife(start.p);
    LifeBegins(s, start, i);
    hide L.Step, LastCame, FollowAll, GoesOn, Lives, L.Reaches, FirstLife, StartsCall, L.Enabled, Undisturbed;
    AtStart(s, start, i);
    var u := ReachesFront(L.Step(s, start), events, e, t);
    MarksOf(start, events, i);
    MarksOf(start, events + [e], i);
    assert [start] + (events + [e]) == [start] + events + [e];
    UndisturbedFront(events, e, i, c, None);
    LastIsUndisturbed(c, events, e, i);
    NothingSeen(start.p);
    UndisturbedGoesOn(c, first, events, i);
    LivesThrough(L.Step(s, start), events, u, i, c, first);
    LifeIsTold(first, events, i);
    LastCameSnoc(events, e, i, true);
    LastCameSnoc(events, e, i, false);
    var life := FollowAll(first, events, i);
    if Over(c, life, e, i) {
      LifeEnds(u, e, i, c, life);
    } else {
      LifeGoesOn(u, e, i, c, life);
      LivesCarries(t, i, c, Follow(life, e, i));
    }
  }

  lemma AtStart(s: L.Sys, e: L.Event, i: nat)
    requires StartsCall(s, e, i)
    ensures AtSlot(e, i) && e.p.callid != 0
  {
  }

  lemma NothingSeen(p: Voice)
    ensures FirstLife(p).seen == None
  {
  }

  lemma LivesCarries(s: L.Sys, i: nat, c: CallId, life: Life)
    requires Lives(s, i, c, life)
    ensures i < |s.lines| && c != 0 && s.lines[i].callid == c
  {
  }

  lemma MarksOf(start: L.Event, events: seq<L.Event>, i: nat)
    requires AtSlot(start, i)
    ensures LastCame([start] + events, i, true) <==> FirstLife(start.p).up || LastCame(events, i, true)
    ensures LastCame([start] + events, i, false) <==> FirstLife(start.p).down || LastCame(events, i, false)
  {
    LastCameRest([start] + events, i, true);
    LastCameRest([start] + events, i, false);
    assert ([start] + events)[1..] == events;
  }

  lemma LastCameSnoc(events: seq<L.Event>, e: L.Event, i: nat, up: bool)
    ensures LastCame(events + [e], i, up) <==> LastCame(events, i, up) || (AtSlot(e, i) && e.p.last && e.p.up == up)
  {
    var all := events + [e];
    if LastCame(events, i, up) {
      var k :| 0 <= k < |events| && AtSlot(events[k], i) && events[k].p.last && events[k].p.up == up;
      assert all[k] == events[k];
    }
    assert all[|events|] == e;
  }

  /**
   A sweep closes a call that goes on exactly when a packet other than the starting one came to its slot, and the
   latest such packet came sixty seconds ago or more; a call that fell silent after its first packet is never swept.
   */
  lemma SweepClosesExactly(s: L.Sys, start: L.Event, events: seq<L.Event>, t: L.Sys, i: nat, tim: int)
    requires i < SLOTS && Ready(s, start) && StartsCall(s, start, i)
    requires L.Reaches(L.Step(s, start), events, t) && GoesOn(start.p.callid, FirstLife(start.p), events, i)
    requires L.S.W.Ok(t.cdr.win)
    ensures |t.lines| == SLOTS && t.lines[i].callid == start.p.callid
    ensures
      var u, seen := L.Step(t, L.Sweep(i, tim)), LastSeen(events, i);
      && |u.lines| == SLOTS
      && (u.lines[i].callid == 0 <==> seen.Some? && seen.value != 0 && tim - seen.value >= 60)
      && (u.lines[i].callid != 0 ==> u == t)
      && (u.lines[i].callid == 0 ==> u.fax == t.fax + Jobs(t.lines[i].job))
  {
    LifeBegins(s, start, i);
    LivesThrough(L.Step(s, start), events, t, i, start.p.callid, FirstLife(start.p));
    LifeIsTold(FirstLife(start.p), events, i);
    SweepOutcome(t, i, tim);
  }
}
