/** The call-record buffer of send_cdr.c: a 65536-slot array and three 16-bit cursors. */
module CdrRing {
  import opened Bytes
  import opened CdrWindow

  datatype Cdr = Cdr(callid: nat, time: int, path: Word, callflag: Byte, ruleflag: Byte, recv3: nat)

  const ZERO_CDR := Cdr(0, 0, 0, 0, 0, 0)

  /** Unsigned short arithmetic. */
  function Wrap(x: int): Word { x % 0x1_0000 }

  /** The six octets sent before a batch: command 4, the first record's 16-bit number, and the count. */
  function Header(first: Word, count: nat): seq<Byte>
    requires count < 256
  {
    [0, 4, High(first), Low(first), 0, count]
  }

  lemma HeaderRoundTrip(first: Word, count: nat)
    requires count < 256
    ensures
      var h := Header(first, count);
      && |h| == 6 && h[0] == 0 && h[1] == 4
      && h[2] as int * 256 + h[3] == first && h[4] as int * 256 + h[5] == count
  {
  }

  // ---------- 16-bit cursors against unbounded numbers ----------

  lemma WrapSum(x: int, y: int)
    ensures Wrap(Wrap(x) + y) == Wrap(x + y)
  {
  }

  lemma WrapDifference(x: int, y: int)
    ensures Wrap(Wrap(x) - Wrap(y)) == Wrap(x - y)
  {
  }

  lemma WrapMinus(x: int, y: int)
    ensures Wrap(x - Wrap(y)) == Wrap(x - y)
  {
  }

  lemma FullWhenCursorsMeet(w: Window<Cdr>)
    requires Ok(w)
    ensures Wrap(|w.log|) == Wrap(w.ack) <==> Full(w)
  {
    WrapDifference(|w.log|, w.ack);
  }

  lemma SendMeetsAck(w: Window<Cdr>)
    requires Ok(w)
    ensures Full(w) ==> (Wrap(w.ack + 1) == Wrap(w.send) <==> w.ack + 1 == w.send)
  {
    WrapDifference(w.send, w.ack + 1);
  }

  lemma OtherSlot(w: Window<Cdr>, n: nat)
    requires Ok(w) && w.ack < n < |w.log|
    ensures Wrap(n) != Wrap(|w.log|)
  {
    WrapDifference(|w.log|, n);
  }

  lemma BatchSizeFromCursors(w: Window<Cdr>)
    requires Ok(w)
    ensures Wrap(w.send) == Wrap(|w.log|) <==> w.send == |w.log|
    ensures
      var s, e := Wrap(w.send), Wrap(|w.log|);
      w.send < |w.log| ==> BatchSize(w) == Min(BATCH, if s > e then RING - s else e - s)
  {
    WrapDifference(|w.log|, w.send);
  }

  /** A batch never wraps, so its slots are consecutive. */
  lemma BatchSlots(w: Window<Cdr>, k: nat)
    requires Ok(w) && k < BatchSize(w)
    ensures Wrap(w.send + k) == Wrap(w.send) + k
  {
  }

  lemma AckTest(w: Window<Cdr>, code: Word)
    requires Ok(w)
    ensures Wrap(Wrap(w.send) - 1 - Wrap(w.ack)) == w.send - 1 - w.ack
    ensures Wrap(code - Wrap(w.ack)) == (code - w.ack) % RING
  {
    WrapSum(w.send, -1 - Wrap(w.ack));
    WrapMinus(w.send - 1, w.ack);
    WrapMinus(code, w.ack);
  }

  lemma CandidateResidue(w: Window<Cdr>, code: Word)
    ensures Wrap(Candidate(w, code)) == code
  {
    WrapSum(code - w.ack, w.ack);
  }

  // ---------- the array holds the window ----------

  /** Every record still in the window sits at its number's residue. */
  ghost predicate Stored(slots: seq<Cdr>, w: Window<Cdr>)
    requires |slots| == RING
  {
    forall n {:trigger w.log[n]} :: w.ack < n < |w.log| ==> slots[Wrap(n)] == w.log[n]
  }

  lemma InsertKeepsStored(slots: seq<Cdr>, w: Window<Cdr>, record: Cdr)
    requires |slots| == RING && Ok(w) && Stored(slots, w)
    ensures Stored(slots[Wrap(|w.log|) := record], Insert(w, record))
  {
    var slots', w' := slots[Wrap(|w.log|) := record], Insert(w, record);
    forall n | w'.ack < n < |w'.log| ensures slots'[Wrap(n)] == w'.log[n] {
      if n < |w.log| {
        OtherSlot(w, n);
        assert w'.log[n] == w.log[n];
      }
    }
  }

  lemma SliceIsNextBatch(slots: seq<Cdr>, w: Window<Cdr>)
    requires |slots| == RING && Ok(w) && Stored(slots, w)
    ensures Wrap(w.send) + BatchSize(w) <= RING
    ensures slots[Wrap(w.send)..Wrap(w.send) + BatchSize(w)] == NextBatch(w).records
  {
    var from, size := Wrap(w.send), BatchSize(w);
    var slice, records := slots[from..from + size], NextBatch(w).records;
    forall k | 0 <= k < size ensures slice[k] == records[k] {
      BatchSlots(w, k);
      assert records[k] == w.log[w.send + k];
    }
  }

  class Ring {
    const buf: array<Cdr>
    var ack: Word
    var send: Word
    var wait: Word
    ghost var win: Window<Cdr>

    ghost predicate Valid()
      reads this, buf
    {
      && buf.Length == RING
      && Ok(win)
      && ack == Wrap(win.ack)
      && send == Wrap(win.send)
      && wait == Wrap(|win.log|)
      && Stored(buf[..], win)
    }

    constructor ()
      ensures Valid() && fresh(buf)
      ensures win == Start(ZERO_CDR)
    {
      buf := new Cdr[RING](_ => ZERO_CDR);
      ack, send, wait := 0, 1, 1;
      win := Start(ZERO_CDR);
    }

    method Insert(record: Cdr)
      requires Valid()
      modifies this, buf
      ensures Valid()
      ensures win == CdrWindow.Insert(old(win), record)
    {
      FullWhenCursorsMeet(win);
      SendMeetsAck(win);
      WrapSum(win.ack, 1);
      WrapSum(win.send, 1);
      WrapSum(|win.log|, 1);
      if wait == ack {
        ack := Wrap(ack + 1);
        if ack == send {
          send := Wrap(send + 1);
        }
      }
      InsertKeepsStored(buf[..], win, record);
      ghost var slots := buf[..][wait := record];
      buf[wait] := record;
      assert buf[..] == slots;
      wait := Wrap(wait + 1);
      InsertKeepsOk(win, record);
      win := CdrWindow.Insert(win, record);
    }

    /** Takes the next batch for the socket; both results are empty when nothing waits. */
    method Send() returns (header: seq<Byte>, records: seq<Cdr>)
      requires Valid()
      modifies this`send, this`win
      ensures Valid()
      ensures win == CdrWindow.Send(old(win))
      ensures records == NextBatch(old(win)).records
      ensures header == if records == [] then [] else Header(Wrap(old(win).send), |records|)
    {
      BatchSizeFromCursors(win);
      SliceIsNextBatch(buf[..], win);
      if send == wait {
        return [], [];
      }
      var num: Word;
      if send > wait {
        num := 0x1_0000 - send;
      } else {
        num := wait - send;
      }
      num := if num > 16 then 16 else num;
      var first := send;
      records := buf[send..send + num];
      WrapSum(win.send, num);
      send := Wrap(send + num);
      header := Header(first, num);
      win := CdrWindow.Send(win);
    }

    method UpdateAck(code: Word)
      requires Valid()
      modifies this`ack, this`win
      ensures Valid()
      ensures win == Acknowledge(old(win), code)
    {
      AckTest(win, code);
      CandidateResidue(win, code);
      AckIsExact(win, code);
      var sendNum := Wrap(send - 1 - ack);
      var ackNum := Wrap(code - ack);
      if ackNum <= sendNum {
        ack := code;
      }
      win := Acknowledge(win, code);
    }

    method ResetSend()
      requires Valid()
      modifies this`send, this`win
      ensures Valid()
      ensures win == Rewind(old(win))
    {
      WrapSum(win.ack, 1);
      send := Wrap(ack + 1);
      win := Rewind(win);
    }
  }
}
