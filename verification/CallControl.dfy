/**
 The control part of one line slot of voice_parser.c: which call it carries, which files are open,
 which record node it holds, and how packets, the idle sweep and the end of a call change that.
 */
module CallControl {
  import opened Sequences
  import opened Sharding

  /** A record node in use, and the serial number of the call it records. */
  datatype Job = Job(node: nat, call: nat)

  datatype Line = Line(
    callid: CallId,
    upOpen: bool, downOpen: bool,
    job: Option<Job>,
    upEnd: bool, downEnd: bool,
    updateTime: int)

  /** A voice packet as the control part sees it: its call, its direction, and whether it is that direction's last. */
  datatype Voice = Voice(callid: CallId, up: bool, last: bool)

  /** Whether each of the two fopen calls would succeed; neither is made without a file name. */
  datatype Opening = Opening(up: bool, down: bool)

  const BLANK := Line(0, false, false, None, false, false, 0)

  function Live(l: Line): nat { if l.callid != 0 then 1 else 0 }

  /** A slot holds an open file or a node only for a call; both files are open when it holds a node. */
  predicate LineOk(l: Line, position: nat) {
    && (l.upOpen || l.downOpen || l.job.Some? ==> l.callid != 0)
    && (l.job.Some? ==> l.upOpen && l.downOpen)
    && (l.callid != 0 ==> Position(l.callid) == position)
  }

  /** A call of more than five hours is forced to end. */
  predicate TooLong(p: Voice, now: int) { now - StartTime(p.callid) >= 18000 }

  /** open_voice_file makes no name, hence opens nothing, for identifier 0. */
  function Opened(callid: CallId, o: Opening): Opening {
    if callid == 0 then Opening(false, false) else o
  }

  function BothOpen(o: Opening): bool { o.up && o.down }

  /** cleanup_file_struct, apart from the node: the end flags and the time stamp stay. */
  function Close(l: Line): Line { l.(callid := 0, upOpen := false, downOpen := false) }

  function Begin(callid: CallId, o: Opening, job: Option<Job>): Line {
    BLANK.(callid := callid, upOpen := o.up, downOpen := o.down, job := job)
  }

  function Stamp(l: Line, p: Voice, now: int): Line {
    if TooLong(p, now) && l.callid != 0
    then l.(updateTime := now, upEnd := true, downEnd := true)
    else l.(updateTime := now)
  }

  function Mark(l: Line, p: Voice): Line {
    if !p.last then l else if p.up then l.(upEnd := true) else l.(downEnd := true)
  }

  predicate Ended(l: Line) { l.upEnd && l.downEnd }

  predicate Idle(l: Line, tim: int) { l.updateTime != 0 && tim - l.updateTime >= 60 }

  /** A record is marked as fax exactly when one of decode_mem's two verdicts is 1 in the record's one-octet flag. */
  function Verdict(up: int, down: int): nat { if up % 256 == 1 || down % 256 == 1 then 1 else 0 }

  /** The screening in fax_pre: the second direction is decoded only if the first did not decide. */
  method Screen(up: int, down: int) returns (flag: int)
    ensures flag == Verdict(up, down)
  {
    flag := up % 256;
    if flag != 1 {
      flag := down % 256;
      if flag != 1 {
        flag := 0;
      }
    }
  }

  function Holding(l: Line): nat { if l.job.Some? then 1 else 0 }

  /** Packets of a long-finished call are refused by an idle slot. */
  predicate Refused(l: Line, p: Voice, now: int) { TooLong(p, now) && l.callid == 0 }

  /** The slot once the packet's call owns it; `fetched` is what the free list would yield. */
  function Owned(l: Line, p: Voice, now: int, o: Opening, fetched: Option<Job>): Line {
    if l.callid == p.callid then Stamp(l, p, now) else
    var made := Opened(p.callid, o);
    Begin(p.callid, made, if BothOpen(made) then fetched else None)
  }

  /** The slot after voice_parser. */
  function Next(l: Line, p: Voice, now: int, o: Opening, fetched: Option<Job>): Line {
    if Refused(l, p, now) then Stamp(l, p, now) else
    var marked := Mark(Owned(l, p, now, o, fetched), p);
    if Ended(marked) then BLANK else marked
  }

  function Jobs(job: Option<Job>): seq<Job> { if job.None? then [] else [job.value] }

  /** The nodes voice_parser puts on the fax queue, in order: a replaced call's, then an ended call's. */
  function Handed(l: Line, p: Voice, now: int, o: Opening, fetched: Option<Job>): seq<Job> {
    if Refused(l, p, now) then [] else
    var owned := Owned(l, p, now, o, fetched);
    (if l.callid == p.callid then [] else Jobs(l.job)) +
    (if Ended(Mark(owned, p)) then Jobs(owned.job) else [])
  }

  // ---------- what a packet does to a slot, field by field ----------

  /** The identifier's upper half is a time in seconds; this one is five hours past, or more. */
  predicate FiveHoursPast(callid: CallId, now: int) { now - callid / 0x1_0000_0000 >= 5 * 3600 }

  /** A packet of another call takes the slot, unless the slot is idle and the packet is too old. */
  lemma PacketTakesSlot(l: Line, p: Voice, now: int, o: Opening, fetched: Option<Job>)
    requires l.callid != p.callid && (l.callid != 0 || !FiveHoursPast(p.callid, now))
    ensures
      var n := Next(l, p, now, o, fetched);
      && n.callid == p.callid && n.upEnd == (p.last && p.up) && n.downEnd == (p.last && !p.up)
      && n.updateTime == 0
      && n.upOpen == (p.callid != 0 && o.up) && n.downOpen == (p.callid != 0 && o.down)
      && n.job == (if n.upOpen && n.downOpen then fetched else None)
      && Handed(l, p, now, o, fetched) == Jobs(l.job)
  {
  }

  /** A packet of the slot's own call refreshes the time stamp, or ends the call. */
  lemma PacketContinues(l: Line, p: Voice, now: int, o: Opening, fetched: Option<Job>)
    requires l.callid == p.callid && (l.callid != 0 || !FiveHoursPast(p.callid, now))
    ensures
      var n, forced := Next(l, p, now, o, fetched), FiveHoursPast(p.callid, now);
      var up, down := l.upEnd || forced || (p.last && p.up), l.downEnd || forced || (p.last && !p.up);
      if up && down
      then n == Line(0, false, false, None, false, false, 0) && Handed(l, p, now, o, fetched) == Jobs(l.job)
      else n == l.(upEnd := up, downEnd := down, updateTime := now) && Handed(l, p, now, o, fetched) == []
  {
  }

  /** An idle slot takes no packet that is too old. */
  lemma PacketIsRefused(l: Line, p: Voice, now: int, o: Opening, fetched: Option<Job>)
    requires l.callid == 0 && FiveHoursPast(p.callid, now)
    ensures Next(l, p, now, o, fetched) == l.(updateTime := now) && Handed(l, p, now, o, fetched) == []
  {
  }
}
