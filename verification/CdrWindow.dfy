/**
 The call-record sender's window with unbounded record numbers: what the
 65536-slot ring of send_cdr.c stands for.

 Record number 0 is the zeroed record present after cdr_init, so the first
 inserted record is number 1. `ack` is the last record acknowledged or given
 up, `send` the next record to transmit, and the log's length the next number
 to be assigned.
 */
module CdrWindow {
  import opened Bytes

  const RING := 0x1_0000
  const BATCH := 16

  datatype Window<T> = Window(log: seq<T>, ack: nat, send: nat)

  /** A slice of the log handed to the socket, with the number it starts at. */
  datatype Batch<T> = Batch(start: nat, records: seq<T>) {
    function End(): nat { start + |records| }
  }

  ghost predicate Ok<T>(w: Window<T>) {
    w.ack < w.send <= |w.log| <= w.ack + RING
  }

  function Start<T>(zero: T): (w: Window<T>)
    ensures Ok(w)
  {
    Window([zero], 0, 1)
  }

  predicate Full<T>(w: Window<T>) { |w.log| == w.ack + RING }

  /** A full ring gives up its oldest unacknowledged record, number ack + 1. */
  function Insert<T>(w: Window<T>, record: T): Window<T> {
    var ack := if Full(w) then w.ack + 1 else w.ack;
    Window(w.log + [record], ack, if ack == w.send then w.send + 1 else w.send)
  }

  function Min(x: int, y: int): int { if x < y then x else y }

  /** How many records one call transmits: up to 16, never past the array's end. */
  function BatchSize<T>(w: Window<T>): nat
    requires Ok(w)
  {
    Min(BATCH, Min(|w.log| - w.send, RING - w.send % RING))
  }

  function NextBatch<T>(w: Window<T>): Batch<T>
    requires Ok(w)
  {
    Batch(w.send, w.log[w.send..w.send + BatchSize(w)])
  }

  function Send<T>(w: Window<T>): Window<T>
    requires Ok(w)
  {
    w.(send := w.send + BatchSize(w))
  }

  /** Record number `n` has been transmitted or is the current `ack`, and `code` is its residue. */
  predicate Names<T>(w: Window<T>, code: Word, n: nat) {
    w.ack <= n < w.send && n % RING == code
  }

  /** The only number at or above `ack`, within one turn of the ring, that `code` can stand for. */
  function Candidate<T>(w: Window<T>, code: Word): nat {
    w.ack + (code - w.ack) % RING
  }

  function Acknowledge<T>(w: Window<T>, code: Word): Window<T> {
    if Candidate(w, code) < w.send then w.(ack := Candidate(w, code)) else w
  }

  function Rewind<T>(w: Window<T>): Window<T> { w.(send := w.ack + 1) }

  // ---------- every operation keeps the window well formed ----------

  lemma InsertKeepsOk<T>(w: Window<T>, record: T)
    requires Ok(w)
    ensures Ok(Insert(w, record))
    ensures Insert(w, record).log == w.log + [record]
    ensures Insert(w, record).ack == w.ack + (if Full(w) then 1 else 0)
    ensures w.send <= Insert(w, record).send <= w.send + 1
    // transmission jumps over a record only when that record has just been given up
    ensures Insert(w, record).send == w.send + 1 <==> Full(w) && w.send == w.ack + 1
  {
  }

  lemma SendKeepsOk<T>(w: Window<T>)
    requires Ok(w)
    ensures Ok(Send(w))
    ensures LegalBatch(w.log, NextBatch(w)) <==> w.send < |w.log|
    ensures w.send < |w.log| ==> |w.log| - Send(w).send < |w.log| - w.send
    ensures NextBatch(w).End() == Send(w).send
  {
  }

  /** A non-empty run of at most 16 consecutive records that does not wrap around the array. */
  ghost predicate LegalBatch<T>(log: seq<T>, b: Batch<T>) {
    && 1 <= |b.records| <= BATCH
    && b.start % RING + |b.records| <= RING
    && b.End() <= |log|
    && b.records == log[b.start..b.End()]
  }

  // ---------- acknowledgement decoding ----------

  /** A code names at most one transmitted record. */
  lemma NamedIsCandidate<T>(w: Window<T>, code: Word, n: nat)
    requires Ok(w) && Names(w, code, n)
    ensures n == Candidate(w, code)
  {
    var d := Candidate(w, code) - n;
    assert -RING < d < RING;
    assert d % RING == 0;
  }

  /** A 16-bit code is accepted exactly when it names a transmitted record, and that record becomes `ack`. */
  lemma AckIsExact<T>(w: Window<T>, code: Word)
    requires Ok(w)
    ensures forall n :: Names(w, code, n) ==> Acknowledge(w, code) == w.(ack := n)
    ensures (forall n :: !Names(w, code, n)) ==> Acknowledge(w, code) == w
    ensures w.ack <= Acknowledge(w, code).ack < w.send
    ensures Ok(Acknowledge(w, code))
  {
    forall n | Names(w, code, n) ensures n == Candidate(w, code) {
      NamedIsCandidate(w, code, n);
    }
    assert Candidate(w, code) < w.send ==> Names(w, code, Candidate(w, code));
  }

  /** With records outstanding, a code that lies k behind the last acknowledged one is ignored. */
  lemma StaleAckIsIgnored<T>(w: Window<T>, k: nat)
    requires Ok(w)
    requires 0 < k < RING - (w.send - 1 - w.ack)
    ensures Acknowledge(w, (w.ack - k) % RING) == w
  {
    var d := (w.ack - k) % RING - w.ack;
    assert d % RING == RING - k;
  }

  // ---------- draining ----------

  /** The batches transmitted by repeated sends until nothing is waiting. */
  function Drain<T>(w: Window<T>): seq<Batch<T>>
    requires Ok(w)
    decreases |w.log| - w.send
  {
    if w.send == |w.log| then [] else [NextBatch(w)] + Drain(Send(w))
  }

  function Payload<T>(batches: seq<Batch<T>>): seq<T> {
    if batches == [] then [] else batches[0].records + Payload(batches[1..])
  }

  /** With no new inserts, repeated sends transmit exactly the waiting records, in order, in legal batches. */
  lemma {:induction false} DrainSendsEverything<T>(w: Window<T>)
    requires Ok(w)
    ensures Payload(Drain(w)) == w.log[w.send..]
    ensures |Drain(w)| <= |w.log| - w.send
    ensures forall b :: b in Drain(w) ==> LegalBatch(w.log, b)
    decreases |w.log| - w.send
  {
    if w.send < |w.log| {
      SendKeepsOk(w);
      DrainSendsEverything(Send(w));
      var e := Send(w).send;
      assert w.log[w.send..] == w.log[w.send..e] + w.log[e..];
    }
  }
}
