/** How a call identifier selects a line slot and a worker (vpu_worker.c, voice_parser.c). */
module Sharding {
  type CallId = x: int | 0 <= x < 0x1_0000_0000_0000_0000

  const WORKERS := 8
  const SLOTS := 64 * 64 * 32

  datatype Slot = Slot(sr155: nat, e1: nat, ts: nat)

  /** Bits 15 to 31 of the identifier. */
  function Position(callid: CallId): nat { callid / 0x8000 % 0x2_0000 }

  function SlotOf(callid: CallId): Slot {
    var pos := Position(callid);
    Slot(pos / 0x800, pos / 0x20 % 0x40, pos % 0x20)
  }

  function WorkerOf(callid: CallId): nat { Position(callid) % 0x20 % WORKERS }

  /** The upper half of the identifier is the call's start time in seconds. */
  function StartTime(callid: CallId): nat { callid / 0x1_0000_0000 }

  /** The identifier whose start time is 0 and whose position is `pos`. */
  function AtPosition(pos: nat): (callid: CallId)
    requires pos < SLOTS
    ensures Position(callid) == pos
  {
    pos * 0x8000
  }

  lemma PositionParts(pos: nat)
    requires pos < SLOTS
    ensures pos / 0x800 < 64 && pos / 0x20 % 0x40 < 64 && pos % 0x20 < 32
    ensures pos / 0x800 * 0x800 + pos / 0x20 % 0x40 * 0x20 + pos % 0x20 == pos
  {
    var high, low := pos / 0x20, pos % 0x20;
    assert pos == high * 0x20 + low;
    assert pos / 0x800 == high / 0x40;
    assert high == high / 0x40 * 0x40 + high % 0x40;
  }

  /** The bounds test of get_file_struct never fails, and slots stand one-to-one for positions. */
  lemma SlotsArePositions(a: CallId, b: CallId)
    ensures var s := SlotOf(a); s.sr155 < 64 && s.e1 < 64 && s.ts < 32
    ensures Position(a) == SlotOf(a).sr155 * 0x800 + SlotOf(a).e1 * 0x20 + SlotOf(a).ts
    ensures SlotOf(a) == SlotOf(b) <==> Position(a) == Position(b)
  {
    PositionParts(Position(a));
    PositionParts(Position(b));
  }

  lemma EverySlotIsReached(s: Slot)
    requires s.sr155 < 64 && s.e1 < 64 && s.ts < 32
    ensures exists callid: CallId :: SlotOf(callid) == s
  {
    var callid := AtPosition(s.sr155 * 0x800 + s.e1 * 0x20 + s.ts);
    assert SlotOf(callid) == s;
  }

  lemma SlotHasOneWorker(a: CallId, b: CallId)
    requires SlotOf(a) == SlotOf(b)
    ensures WorkerOf(a) == WorkerOf(b) == SlotOf(a).ts % WORKERS < WORKERS
  {
  }

  /** An identifier composed of its parts: the start time above, then unit, line, time slot, and a serial number below. */
  function Compose(time: nat, sr155: nat, e1: nat, ts: nat, serial: nat): (callid: CallId)
    requires time < 0x1_0000_0000 && sr155 < 64 && e1 < 64 && ts < 32 && serial < 0x8000
  {
    time * 0x1_0000_0000 + (sr155 * 0x800 + e1 * 0x20 + ts) * 0x8000 + serial
  }

  /** Decoding an identifier gives back the parts, and the time slot's remainder by 8 is the worker. */
  lemma PartsOfIdentifier(time: nat, sr155: nat, e1: nat, ts: nat, serial: nat)
    requires time < 0x1_0000_0000 && sr155 < 64 && e1 < 64 && ts < 32 && serial < 0x8000
    ensures
      var callid := Compose(time, sr155, e1, ts, serial);
      StartTime(callid) == time && SlotOf(callid) == Slot(sr155, e1, ts) && WorkerOf(callid) == ts % 8
  {
    var pos := sr155 * 0x800 + e1 * 0x20 + ts;
    var callid := Compose(time, sr155, e1, ts, serial);
    assert callid == (time * 0x2_0000 + pos) * 0x8000 + serial;
    assert callid / 0x8000 == time * 0x2_0000 + pos;
    assert Position(callid) == pos;
    assert pos / 0x20 == sr155 * 0x40 + e1;
  }
}
