/** The ring itself: an array, two indices and a count, updated in place one micro-step at a time. */
module PktFifoRing {
  import opened PktFifo
  import opened Sequences

  class Ring<T> {
    const pkt: array<T>
    var inn: nat
    var out: nat
    var count: nat
    var producer: Producer<T>   // the capture thread's position and local variables
    var consumer: Consumer      // the worker's position and local variables
    var held: Option<nat>       // the slot node->pkt points into
    ghost var f: Fifo<T>

    ghost predicate Valid()
      reads this, pkt
    {
      && Inv(f)
      && pkt[..] == f.slots
      && inn == f.inn && out == f.out && count == f.count
      && producer == f.producer && consumer == f.consumer && held == f.held
    }

    /** init_pkt_fifo: everything zeroed, the size set. */
    constructor (size: nat, blank: T)
      requires 0 < size
      ensures Valid() && fresh(pkt)
      ensures f == PktFifo.Init(seq(size, _ => blank))
    {
      pkt := new T[size](_ => blank);
      inn, out, count := 0, 0, 0;
      producer, consumer, held := PutIdle, GetIdle, None;
      f := PktFifo.Init(seq(size, _ => blank));
    }

    method PutReadsCount(item: T)
      requires Valid() && producer.PutIdle?
      modifies this
      ensures Valid() && f == Step(old(f), PutStart(item))
    {
      StepInv(f, PutStart(item));
      producer := PutRead(item, inn, count);
      f := Step(f, PutStart(item));
    }

    method PutGivesUp()
      requires Valid() && producer.PutRead? && producer.seen >= pkt.Length
      modifies this
      ensures Valid() && f == Step(old(f), PutReject)
    {
      StepInv(f, PutReject);
      producer := PutIdle;
      f := Step(f, PutReject);
    }

    /** Part of the copy: the slot has whatever the memory copy has left in it so far. */
    method PutTouches(partial: T)
      requires Valid() && producer.PutRead? && producer.seen < pkt.Length
      modifies this`f, pkt
      ensures Valid() && f == Step(old(f), PutTouch(partial))
    {
      StepInv(f, PutTouch(partial));
      pkt[producer.inn] := partial;
      f := Step(f, PutTouch(partial));
    }

    method PutCopies()
      requires Valid() && producer.PutRead? && producer.seen < pkt.Length
      modifies this, pkt
      ensures Valid() && f == Step(old(f), PutCopy)
    {
      StepInv(f, PutCopy);
      pkt[producer.inn] := producer.item;
      producer := PutCopied(producer.item, producer.inn);
      f := Step(f, PutCopy);
    }

    method PutRaisesCount()
      requires Valid() && producer.PutCopied?
      modifies this
      ensures Valid() && f == Step(old(f), PutCount)
    {
      StepInv(f, PutCount);
      count := count + 1;
      producer := PutCounted(producer.inn);
      f := Step(f, PutCount);
    }

    method PutMovesIndex()
      requires Valid() && producer.PutCounted?
      modifies this
      ensures Valid() && f == Step(old(f), PutMove)
    {
      StepInv(f, PutMove);
      var next := producer.inn + 1;
      if next >= pkt.Length {
        next := 0;
      }
      inn := next;
      producer := PutIdle;
      f := Step(f, PutMove);
    }

    method GetReadsCount()
      requires Valid() && consumer.GetIdle?
      modifies this
      ensures Valid() && f == Step(old(f), GetStart)
    {
      StepInv(f, GetStart);
      consumer := GetRead(out, count);
      f := Step(f, GetStart);
    }

    method GetFindsNothing()
      requires Valid() && consumer.GetRead? && consumer.seen == 0
      modifies this
      ensures Valid() && f == Step(old(f), GetEmpty)
    {
      StepInv(f, GetEmpty);
      consumer := GetIdle;
      f := Step(f, GetEmpty);
    }

    method GetTakesPointer()
      requires Valid() && consumer.GetRead? && consumer.seen > 0
      modifies this
      ensures Valid() && f == Step(old(f), GetTake)
    {
      StepInv(f, GetTake);
      held := Some(consumer.out);
      consumer := GetTaken(consumer.out);
      f := Step(f, GetTake);
    }

    method GetLowersCount()
      requires Valid() && consumer.GetTaken?
      modifies this
      ensures Valid() && f == Step(old(f), GetCount)
    {
      StepInv(f, GetCount);
      count := count - 1;
      consumer := GetCounted(consumer.out);
      f := Step(f, GetCount);
    }

    method GetMovesIndex()
      requires Valid() && consumer.GetCounted?
      modifies this
      ensures Valid() && f == Step(old(f), GetMove)
    {
      StepInv(f, GetMove);
      var next := consumer.out + 1;
      if next >= pkt.Length {
        next := 0;
      }
      out := next;
      consumer := GetIdle;
      f := Step(f, GetMove);
    }

    /** pkt_fifo_put run without interference: 0 and the packet queued, or -1 and nothing changed. */
    method Put(item: T) returns (result: int)
      requires Valid() && producer.PutIdle?
      modifies this, pkt
      ensures Valid() && producer.PutIdle? && consumer == old(consumer)
      ensures result == if old(count) < pkt.Length then 0 else -1
      ensures Contents(f) == if result == 0 then old(Contents(f)) + [item] else old(Contents(f))
      ensures f.delivered == old(f.delivered)
    {
      PutReadsCount(item);
      if producer.seen >= pkt.Length {
        PutGivesUp();
        return -1;
      }
      PutCopies();
      StepRefinesQueue(f, PutCount);
      PutRaisesCount();
      PutMovesIndex();
      return 0;
    }

    /** pkt_fifo_get run without interference: 0 and the oldest packet under the pointer, or -2. */
    method Get() returns (result: int)
      requires Valid() && consumer.GetIdle?
      modifies this
      ensures Valid() && consumer.GetIdle? && producer == old(producer) && pkt[..] == old(pkt[..])
      ensures result == if old(count) > 0 then 0 else -2
      ensures result == -2 ==> f.delivered == old(f.delivered) && Contents(f) == old(Contents(f))
      ensures result == 0 ==>
                && old(Contents(f)) != [] && Contents(f) == old(Contents(f))[1..]
                && held.Some? && held.value < pkt.Length && pkt[held.value] == old(Contents(f))[0]
    {
      hide PktFifo.Inv;
      GetReadsCount();
      if consumer.seen == 0 {
        GetFindsNothing();
        return -2;
      }
      StepRefinesQueue(f, GetTake);
      GetTakesPointer();
      GetLowersCount();
      GetMovesIndex();
      PointerShowsLastDelivered(f);
      return 0;
    }
  }
}
