/** One turn of cycle_thread: the sweep of idle slots and the shutdown decision. */
module CycleThread {
  import opened Sequences
  import opened Sharding
  import opened CallControl
  import L = CallLedger

  /** A slot after the sweep. */
  function Swept(l: Line, tim: int): Line {
    if Idle(l, tim) then Close(l).(job := None, updateTime := 0) else l
  }

  lemma SweepActsOnItsSlot(s: L.Sys, i: nat, tim: int)
    requires i < |s.lines|
    ensures
      var t := L.HandleSweep(s, i, tim);
      && t.lines == s.lines[i := Swept(s.lines[i], tim)]
      && t.fax == s.fax + (if Idle(s.lines[i], tim) then Jobs(s.lines[i].job) else [])
      && t.online == s.online - (if Idle(s.lines[i], tim) then Live(s.lines[i]) else 0)
  {
  }

  class Cycle {
    const lines: array<Line>
    var fax: seq<Job>
    var online: int
    ghost var s: L.Sys

    ghost predicate Valid()
      reads this, lines
    {
      L.Inv(s) && lines[..] == s.lines && fax == s.fax && online == s.online
    }

    constructor (ghost nodes: nat, ghost threads: nat)
      ensures Valid() && fresh(lines) && s == L.Init(nodes, threads)
    {
      lines := new Line[SLOTS](_ => BLANK);
      fax, online := [], 0;
      s := L.Init(nodes, threads);
      new;
      L.InitInv(nodes, threads);
    }

    /** The visit to one slot under its lock. */
    method SweepSlot(i: nat, tim: int)
      requires Valid() && i < SLOTS
      modifies this, lines
      ensures Valid() && s == L.HandleSweep(old(s), i, tim)
      ensures s.lines == old(s.lines)[i := Swept(old(s.lines)[i], tim)]
    {
      hide L.Inv, L.HandleSweep;
      assert lines.Length == SLOTS by { SlotCount(); }
      L.SweepInv(s, i, tim);
      SweepActsOnItsSlot(s, i, tim);
      var l := lines[i];
      if l.updateTime != 0 && tim - l.updateTime >= 60 {
        if l.callid != 0 {
          online := online - 1;
        }
        fax := fax + Jobs(l.job);
        lines[i] := Close(l).(job := None, updateTime := 0);
      }
      s := L.HandleSweep(s, i, tim);
    }

    lemma SlotCount()
      requires Valid()
      ensures lines.Length == SLOTS
    {
      assert |lines[..]| == SLOTS;
    }

    /** The sweep and, when a stop signal has come, the test of the online counter. */
    method Turn(tim: int, stopping: bool) returns (done: bool)
      requires Valid()
      modifies this, lines
      ensures Valid()
      ensures |old(s.lines)| == SLOTS && |s.lines| == SLOTS
      ensures forall p :: 0 <= p < SLOTS ==> s.lines[p] == Swept(old(s.lines)[p], tim)
      ensures done <==> stopping && s.online == 0
      ensures L.OnlineIsExact(old(s)) ==> (done <==> stopping && forall l :: l in s.lines ==> l.callid == 0)
    {
      hide L.Inv, L.HandleSweep, Swept;
      SlotCount();
      var i := 0;
      while i < 64
        invariant Valid() && 0 <= i <= 64 && SweptUpTo(old(s), s, i * 0x800, tim)
      {
        var j := 0;
        while j < 64
          invariant Valid() && 0 <= j <= 64 && SweptUpTo(old(s), s, i * 0x800 + j * 0x20, tim)
        {
          var k := 0;
          while k < 32
            invariant Valid() && 0 <= k <= 32 && SweptUpTo(old(s), s, i * 0x800 + j * 0x20 + k, tim)
          {
            ghost var before := s;
            SweepSlot(i * 0x800 + j * 0x20 + k, tim);
            SweptOneMore(old(s), before, i * 0x800 + j * 0x20 + k, tim);
            k := k + 1;
          }
          j := j + 1;
        }
        i := i + 1;
      }
      done := stopping && online == 0;
      L.TotalOfNone(s.lines);
    }
  }

  /** The first n slots have been swept, the others not; a right online counter is still right. */
  ghost predicate SweptUpTo(before: L.Sys, s: L.Sys, n: int, tim: int) {
    && |before.lines| == |s.lines| == SLOTS && 0 <= n <= SLOTS
    && (forall p :: 0 <= p < n ==> s.lines[p] == Swept(before.lines[p], tim))
    && (forall p :: n <= p < SLOTS ==> s.lines[p] == before.lines[p])
    && (L.OnlineIsExact(before) ==> L.OnlineIsExact(s))
  }

  lemma SweptOneMore(before: L.Sys, s: L.Sys, n: nat, tim: int)
    requires n < SLOTS && SweptUpTo(before, s, n, tim) && L.Inv(s)
    ensures SweptUpTo(before, L.HandleSweep(s, n, tim), n + 1, tim)
  {
    hide Swept, L.HandleSweep;
    SweepActsOnItsSlot(s, n, tim);
    L.SweepExcess(s, n, tim);
  }
}
