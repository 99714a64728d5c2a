/**
 The packet ring between the capture thread and one worker (pkt_fifo.c), as micro-steps of one
 producer and one consumer that share only an atomic count.

 `pkt_fifo_put` and `pkt_fifo_get` each read the count once, act on their slot, change the count, and
 only then store their moved index, so every interleaving of those steps is a run of this machine.
 The copy into a slot is not atomic: any number of `PutTouch` steps leave arbitrary contents there
 before `PutCopy` completes it.
 The worker keeps a pointer into the ring after get has returned; `held` is that slot.
 */
module PktFifo {
  import opened Sequences

  /** Where pkt_fifo_put is, with its local copies of `in` and of the count it read. */
  datatype Producer<T> =
    | PutIdle
    | PutRead(item: T, inn: nat, seen: nat)
    | PutCopied(item: T, inn: nat)
    | PutCounted(inn: nat)

  /** Where pkt_fifo_get is, with its local copies of `out` and of the count it read. */
  datatype Consumer =
    | GetIdle
    | GetRead(out: nat, seen: nat)
    | GetTaken(out: nat)
    | GetCounted(out: nat)

  datatype Fifo<T> = Fifo(
    slots: seq<T>,
    inn: nat,
    out: nat,
    count: nat,
    producer: Producer<T>,
    consumer: Consumer,
    held: Option<nat>,     // the slot the worker's packet pointer points into
    torn: bool,            // that slot has been overwritten since it was fetched
    accepted: seq<T>,      // history: packets whose put has raised the count
    released: nat,         // history: how many times get has lowered the count
    delivered: seq<T>)     // history: packets as they were when get read their slot

  datatype Action<T> =
    | PutStart(item: T) | PutReject | PutTouch(partial: T) | PutCopy | PutCount | PutMove
    | GetStart | GetEmpty | GetTake | GetCount | GetMove

  function Init<T>(slots: seq<T>): Fifo<T> {
    Fifo(slots, 0, 0, 0, PutIdle, GetIdle, None, false, [], 0, [])
  }

  function Next(i: nat, size: nat): nat { if i + 1 >= size then 0 else i + 1 }

  predicate Enabled<T>(f: Fifo<T>, a: Action<T>) {
    match a
    case PutStart(_) => f.producer.PutIdle?
    case PutReject => f.producer.PutRead? && f.producer.seen >= |f.slots|
    case PutTouch(_) => f.producer.PutRead? && f.producer.seen < |f.slots|
    case PutCopy => f.producer.PutRead? && f.producer.seen < |f.slots|
    case PutCount => f.producer.PutCopied?
    case PutMove => f.producer.PutCounted?
    case GetStart => f.consumer.GetIdle?
    case GetEmpty => f.consumer.GetRead? && f.consumer.seen == 0
    case GetTake => f.consumer.GetRead? && f.consumer.seen > 0
    case GetCount => f.consumer.GetTaken?
    case GetMove => f.consumer.GetCounted?
  }

  function Step<T>(f: Fifo<T>, a: Action<T>): Fifo<T>
    requires Inv(f) && Enabled(f, a)
  {
    match a
    case PutStart(item) => f.(producer := PutRead(item, f.inn, f.count))
    case PutReject => f.(producer := PutIdle)
    case PutTouch(partial) =>
      f.(slots := f.slots[f.producer.inn := partial], torn := f.torn || f.held == Some(f.producer.inn))
    case PutCopy =>
      f.(slots := f.slots[f.producer.inn := f.producer.item],
         torn := f.torn || f.held == Some(f.producer.inn),
         producer := PutCopied(f.producer.item, f.producer.inn))
    case PutCount =>
      f.(count := f.count + 1, accepted := f.accepted + [f.producer.item], producer := PutCounted(f.producer.inn))
    case PutMove => f.(inn := Next(f.producer.inn, |f.slots|), producer := PutIdle)
    case GetStart => f.(consumer := GetRead(f.out, f.count))
    case GetEmpty => f.(consumer := GetIdle)
    case GetTake =>
      f.(held := Some(f.consumer.out), torn := false, delivered := f.delivered + [f.slots[f.consumer.out]],
         consumer := GetTaken(f.consumer.out))
    case GetCount => f.(count := f.count - 1, released := f.released + 1, consumer := GetCounted(f.consumer.out))
    case GetMove => f.(out := Next(f.consumer.out, |f.slots|), consumer := GetIdle)
  }

  // ---------- the invariant ----------

  ghost predicate ProducerOk<T>(f: Fifo<T>)
    requires 0 < |f.slots|
  {
    var puts, size := |f.accepted|, |f.slots|;
    match f.producer
    case PutIdle => f.inn == puts % size
    case PutRead(_, inn, seen) => f.inn == inn == puts % size && f.count <= seen <= size
    case PutCopied(item, inn) => f.inn == inn == puts % size && f.slots[inn] == item && f.count < size
    case PutCounted(inn) => f.inn == inn && 0 < puts && inn == (puts - 1) % size
  }

  ghost predicate ConsumerOk<T>(f: Fifo<T>)
    requires 0 < |f.slots|
  {
    var size := |f.slots|;
    match f.consumer
    case GetIdle => f.out == f.released % size
    case GetRead(out, seen) => f.out == out == f.released % size && seen <= f.count
    case GetTaken(out) => f.out == out == f.released % size && 0 < f.count
    case GetCounted(out) => f.out == out && 0 < f.released && out == (f.released - 1) % size
  }

  /** The unfetched packets are in their slots. */
  ghost predicate Unfetched<T>(f: Fifo<T>)
    requires 0 < |f.slots|
  {
    forall n {:trigger f.accepted[n]} :: f.released <= n < |f.accepted| ==> f.slots[n % |f.slots|] == f.accepted[n]
  }

  /** What was delivered is a prefix of what was accepted, in order. */
  ghost predicate DeliveredOk<T>(f: Fifo<T>) {
    && |f.delivered| == f.released + (if f.consumer.GetTaken? then 1 else 0)
    && f.delivered <= f.accepted
  }

  /** The worker's slot is the last one fetched, and holds its packet until overwritten. */
  ghost predicate HeldOk<T>(f: Fifo<T>)
    requires 0 < |f.slots|
  {
    && (f.held.Some? <==> f.delivered != [])
    && (f.held.Some? ==>
          f.held.value == (|f.delivered| - 1) % |f.slots| &&
          (!f.torn ==> f.slots[f.held.value] == f.delivered[|f.delivered| - 1]))
  }

  ghost predicate Inv<T>(f: Fifo<T>) {
    && 0 < |f.slots|
    && f.count <= |f.slots|
    && f.released + f.count == |f.accepted|
    && ProducerOk(f)
    && ConsumerOk(f)
    && Unfetched(f)
    && DeliveredOk(f)
    && HeldOk(f)
  }

  lemma InitInv<T>(slots: seq<T>)
    requires slots != []
    ensures Inv(Init(slots))
  {
  }

  lemma NextIsSuccessor(n: nat, size: nat)
    requires 0 < size
    ensures Next(n % size, size) == (n + 1) % size
  {
    SumMod(n, 1, size);
  }

  lemma SumMod(n: nat, k: nat, size: nat)
    requires 0 < size && k <= size
    ensures (n + k) % size == if n % size + k < size then n % size + k else n % size + k - size
  {
    var q, r := n / size, n % size;
    if r + k < size {
      QuotientIsUnique(n + k, q, r + k, size);
    } else {
      assert n + k == (q + 1) * size + (r + k - size);
      if r + k - size < size {
        QuotientIsUnique(n + k, q + 1, r + k - size, size);
      }
    }
  }

  lemma QuotientIsUnique(n: nat, q: nat, r: nat, size: nat)
    requires 0 < size && r < size && n == q * size + r
    ensures n % size == r
  {
    var d := n / size - q;
    assert d * size == r - n % size;
    ProductBound(d, size);
  }

  lemma ProductBound(d: int, size: nat)
    ensures d >= 1 ==> d * size >= size
    ensures d <= -1 ==> d * size <= -(size as int)
  {
  }

  /** Two numbers less than one turn apart share a slot only if equal; exactly one turn apart they do. */
  lemma SameSlot(n: nat, m: nat, size: nat)
    requires 0 < size && n <= m <= n + size
    ensures n % size == m % size <==> n == m || m == n + size
  {
    SumMod(n, m - n, size);
  }

  /** A write lands in no unfetched packet's slot. */
  lemma WriteInv<T>(f: Fifo<T>, a: Action<T>)
    requires Inv(f) && Enabled(f, a) && (a.PutTouch? || a.PutCopy?)
    ensures Inv(Step(f, a))
  {
    var size, puts := |f.slots|, |f.accepted|;
    forall n {:trigger f.accepted[n]} | f.released <= n < puts ensures n % size != puts % size {
      SameSlot(n, puts, size);
    }
  }

  lemma OtherPutInv<T>(f: Fifo<T>, a: Action<T>)
    requires Inv(f) && Enabled(f, a) && (a.PutStart? || a.PutReject? || a.PutCount? || a.PutMove?)
    ensures Inv(Step(f, a))
  {
    if a.PutMove? {
      NextIsSuccessor(|f.accepted| - 1, |f.slots|);
    }
  }

  lemma GetInv<T>(f: Fifo<T>, a: Action<T>)
    requires Inv(f) && Enabled(f, a)
    requires a.GetStart? || a.GetEmpty? || a.GetTake? || a.GetCount? || a.GetMove?
    ensures Inv(Step(f, a))
  {
    if a.GetTake? {
      assert f.slots[f.released % |f.slots|] == f.accepted[f.released];
    } else if a.GetMove? {
      NextIsSuccessor(f.released - 1, |f.slots|);
    }
  }

  lemma StepInv<T>(f: Fifo<T>, a: Action<T>)
    requires Inv(f) && Enabled(f, a)
    ensures Inv(Step(f, a))
  {
    hide Inv, Step;
    match a
    case PutTouch(_) => WriteInv(f, a);
    case PutCopy => WriteInv(f, a);
    case PutStart(_) => OtherPutInv(f, a);
    case PutReject => OtherPutInv(f, a);
    case PutCount => OtherPutInv(f, a);
    case PutMove => OtherPutInv(f, a);
    case _ => GetInv(f, a);
  }

  // ---------- whole runs ----------

  ghost predicate Reaches<T>(f: Fifo<T>, actions: seq<Action<T>>, g: Fifo<T>)
    decreases |actions|
  {
    if actions == [] then f == g else
    Inv(f) && Enabled(f, actions[0]) && Reaches(Step(f, actions[0]), actions[1..], g)
  }

  lemma {:induction false} RunInv<T>(f: Fifo<T>, actions: seq<Action<T>>, g: Fifo<T>)
    requires Inv(f) && Reaches(f, actions, g)
    ensures Inv(g)
    decreases |actions|
  {
    if actions != [] {
      StepInv(f, actions[0]);
      RunInv(Step(f, actions[0]), actions[1..], g);
    }
  }

  /** For every interleaving: bounded count, delivery in order without loss, duplication or overwriting. */
  lemma DeliversAcceptedInOrder<T>(slots: seq<T>, actions: seq<Action<T>>, g: Fifo<T>)
    requires slots != [] && Reaches(Init(slots), actions, g)
    ensures 0 <= g.count <= |g.slots| && 0 < |g.slots|
    ensures g.delivered <= g.accepted
    ensures g.producer.PutIdle? && g.consumer.GetIdle? ==> |g.accepted| - |g.delivered| == g.count
    ensures forall n :: |g.delivered| <= n < |g.accepted| ==> g.slots[n % |g.slots|] == g.accepted[n]
    ensures g.out < |g.slots|
  {
    InitInv(slots);
    RunInv(Init(slots), actions, g);
  }

  /**
   In every run, a write lands in the slot the worker's pointer points into exactly when that slot has
   been released and every other slot is unfetched; and then the put had read a count of size - 1.
   */
  lemma WhenTheHeldSlotIsOverwritten<T>(slots: seq<T>, actions: seq<Action<T>>, g: Fifo<T>, write: Action<T>)
    requires slots != [] && Reaches(Init(slots), actions, g)
    requires (write.PutTouch? || write.PutCopy?) && Enabled(g, write) && g.held.Some?
    ensures Inv(g)
    ensures g.producer.inn == g.held.value <==> !g.consumer.GetTaken? && g.count == |g.slots| - 1
    ensures g.producer.inn == g.held.value ==> g.producer.seen == |g.slots| - 1
    ensures Step(g, write).torn <==> g.torn || (!g.consumer.GetTaken? && g.count == |g.slots| - 1)
  {
    InitInv(slots);
    RunInv(Init(slots), actions, g);
    SameSlot(|g.delivered| - 1, |g.accepted|, |g.slots|);
  }

  // ---------- when a put is refused and a get finds nothing ----------

  predicate OfConsumer<T>(a: Action<T>) { a.GetStart? || a.GetEmpty? || a.GetTake? || a.GetCount? || a.GetMove? }

  lemma {:induction false} ProducerWaits<T>(f: Fifo<T>, actions: seq<Action<T>>, g: Fifo<T>)
    requires Reaches(f, actions, g) && forall a :: a in actions ==> OfConsumer(a)
    ensures g.producer == f.producer && |g.slots| == |f.slots|
    decreases |actions|
  {
    if actions != [] {
      assert OfConsumer(actions[0]);
      ProducerWaits(Step(f, actions[0]), actions[1..], g);
    }
  }

  lemma {:induction false} ConsumerWaits<T>(f: Fifo<T>, actions: seq<Action<T>>, g: Fifo<T>)
    requires Reaches(f, actions, g) && forall a :: a in actions ==> !OfConsumer(a)
    ensures g.consumer == f.consumer && |g.slots| == |f.slots|
    decreases |actions|
  {
    if actions != [] {
      assert !OfConsumer(actions[0]);
      ConsumerWaits(Step(f, actions[0]), actions[1..], g);
    }
  }

  /** A put is refused exactly when the ring was full as it began, and copies exactly otherwise, whatever the consumer does meanwhile. */
  lemma RefusedExactlyWhenFull<T>(f: Fifo<T>, x: T, actions: seq<Action<T>>, g: Fifo<T>)
    requires Inv(f) && f.producer.PutIdle?
    requires Reaches(Step(f, PutStart(x)), actions, g) && forall a :: a in actions ==> OfConsumer(a)
    ensures Enabled(f, PutStart(x)) && 0 < |f.slots|
    ensures Enabled(g, PutReject) <==> |f.accepted| - f.released == |f.slots|
    ensures Enabled(g, PutCopy) <==> |f.accepted| - f.released < |f.slots|
  {
    ProducerWaits(Step(f, PutStart(x)), actions, g);
  }

  /** A get finds nothing exactly when nothing was unfetched as it began, and takes a packet exactly otherwise, whatever the producer does meanwhile. */
  lemma EmptyExactlyWhenNothingWaits<T>(f: Fifo<T>, actions: seq<Action<T>>, g: Fifo<T>)
    requires Inv(f) && f.consumer.GetIdle?
    requires Reaches(Step(f, GetStart), actions, g) && forall a :: a in actions ==> !OfConsumer(a)
    ensures Enabled(f, GetStart)
    ensures Enabled(g, GetEmpty) <==> |f.accepted| == |f.delivered|
    ensures Enabled(g, GetTake) <==> |f.delivered| < |f.accepted|
  {
    ConsumerWaits(Step(f, GetStart), actions, g);
  }

  // ---------- runs that never overwrite, and runs that do ----------

  /** No put of the run reads a count of size - 1. */
  ghost predicate Roomy<T>(f: Fifo<T>, actions: seq<Action<T>>)
    decreases |actions|
  {
    actions == [] ||
    (Inv(f) && Enabled(f, actions[0]) && Leaves(f, actions[0]) && Roomy(Step(f, actions[0]), actions[1..]))
  }

  predicate Leaves<T>(f: Fifo<T>, a: Action<T>) { a.PutStart? ==> f.count != |f.slots| - 1 }

  ghost predicate Safe<T>(f: Fifo<T>) { !f.torn && (f.producer.PutRead? ==> f.producer.seen != |f.slots| - 1) }

  lemma StepKeepsSafe<T>(f: Fifo<T>, a: Action<T>)
    requires Inv(f) && Enabled(f, a) && Safe(f) && Leaves(f, a)
    ensures Safe(Step(f, a))
  {
    if (a.PutTouch? || a.PutCopy?) && f.held.Some? {
      SameSlot(|f.delivered| - 1, |f.accepted|, |f.slots|);
    }
  }

  lemma {:induction false} RunKeepsSafe<T>(f: Fifo<T>, actions: seq<Action<T>>, g: Fifo<T>)
    requires Inv(f) && Safe(f) && Reaches(f, actions, g) && Roomy(f, actions)
    ensures Safe(g)
    decreases |actions|
  {
    if actions != [] {
      hide Inv, Step, Safe, Leaves, Enabled;
      StepInv(f, actions[0]);
      StepKeepsSafe(f, actions[0]);
      RunKeepsSafe(Step(f, actions[0]), actions[1..], g);
    }
  }

  /** If no put reads a count of size - 1, the worker's pointer shows the packet last fetched at every moment of the run. */
  lemma RoomyRunsNeverOverwrite<T>(slots: seq<T>, actions: seq<Action<T>>, g: Fifo<T>)
    requires slots != [] && Reaches(Init(slots), actions, g) && Roomy(Init(slots), actions)
    ensures !g.torn
    ensures g.held.Some? ==> g.held.value < |g.slots| && g.delivered != [] &&
                             g.slots[g.held.value] == g.delivered[|g.delivered| - 1]
  {
    InitInv(slots);
    RunInv(Init(slots), actions, g);
    RunKeepsSafe(Init(slots), actions, g);
  }

  lemma {:induction false} ReachesSnoc<T>(f: Fifo<T>, actions: seq<Action<T>>, g: Fifo<T>, a: Action<T>)
    requires Reaches(f, actions, g) && Inv(g) && Enabled(g, a)
    ensures Reaches(f, actions + [a], Step(g, a))
    decreases |actions|
  {
    hide Inv, Step, Enabled;
    if actions == [] {
      assert ([a])[1..] == [];
      assert [] + [a] == [a];
      assert Reaches(Step(f, a), [], Step(g, a));
    } else {
      ReachesSnoc(Step(f, actions[0]), actions[1..], g, a);
      assert (actions + [a])[1..] == actions[1..] + [a];
    }
  }

  /** One more step of a run that keeps to the invariant. */
  lemma Extend<T>(f: Fifo<T>, actions: seq<Action<T>>, g: Fifo<T>, a: Action<T>) returns (longer: seq<Action<T>>, h: Fifo<T>)
    requires Inv(g) && Reaches(f, actions, g) && Enabled(g, a)
    ensures h == Step(g, a) && Inv(h) && Reaches(f, longer, h) && |h.slots| == |g.slots|
  {
    ReachesSnoc(f, actions, g, a);
    StepInv(g, a);
    longer, h := actions + [a], Step(g, a);
  }

  /** A put with nobody else at work. */
  lemma PutOnce<T>(f: Fifo<T>, actions: seq<Action<T>>, g: Fifo<T>, x: T) returns (longer: seq<Action<T>>, h: Fifo<T>)
    requires Inv(g) && Reaches(f, actions, g) && g.producer.PutIdle? && g.count < |g.slots|
    ensures Inv(h) && Reaches(f, longer, h) && h.producer.PutIdle? && |h.slots| == |g.slots|
    ensures h.count == g.count + 1 && h.accepted == g.accepted + [x]
    ensures h.consumer == g.consumer && h.held == g.held && h.delivered == g.delivered && h.released == g.released
  {
    hide Inv, Reaches;
    longer, h := Extend(f, actions, g, PutStart(x));
    longer, h := Extend(f, longer, h, PutCopy);
    longer, h := Extend(f, longer, h, PutCount);
    longer, h := Extend(f, longer, h, PutMove);
  }

  lemma {:induction false} FillUp<T>(slots: seq<T>, x: T, n: nat) returns (actions: seq<Action<T>>, g: Fifo<T>)
    requires slots != [] && n <= |slots|
    ensures Reaches(Init(slots), actions, g) && Inv(g) && |g.slots| == |slots| && g.producer.PutIdle? && g.consumer.GetIdle?
    ensures g.count == |g.accepted| == n && g.held.None? && g.delivered == [] && g.released == 0
    ensures forall i :: 0 <= i < n ==> g.accepted[i] == x
  {
    if n == 0 {
      InitInv(slots);
      actions, g := [], Init(slots);
      assert Reaches(g, actions, g);
    } else {
      hide Inv, Reaches;
      actions, g := FillUp(slots, x, n - 1);
      actions, g := PutOnce(Init(slots), actions, g, x);
    }
  }

  /** Rings of every size can be driven into it: the worker has fetched one packet and its pointer shows another. */
  lemma EverySizeCanOverwrite<T>(slots: seq<T>, x: T, y: T) returns (actions: seq<Action<T>>, g: Fifo<T>)
    requires slots != []
    ensures Reaches(Init(slots), actions, g) && g.torn && g.delivered == [x]
    ensures g.held.Some? && g.held.value < |g.slots| && g.slots[g.held.value] == y
  {
    var init := Init(slots);
    actions, g := FillUp(slots, x, |slots|);
    actions, g := Extend(init, actions, g, GetStart);
    actions, g := Extend(init, actions, g, GetTake);
    assert g.delivered == [x];
    actions, g := Extend(init, actions, g, GetCount);
    actions, g := Extend(init, actions, g, PutStart(y));
    SameSlot(0, |slots|, |slots|);
    actions, g := Extend(init, actions, g, PutCopy);
  }

  lemma PointerShowsLastDelivered<T>(f: Fifo<T>)
    requires Inv(f) && f.held.Some? && !f.torn
    ensures f.held.value < |f.slots| && f.delivered != []
    ensures f.slots[f.held.value] == f.delivered[|f.delivered| - 1]
  {
  }

  /** Until such a put, the pointer still shows the packet that was fetched. */
  lemma HeldPacketIsIntact<T>(slots: seq<T>, actions: seq<Action<T>>, g: Fifo<T>)
    requires slots != [] && Reaches(Init(slots), actions, g)
    requires g.held.Some? && !g.torn
    ensures g.held.value < |g.slots| && g.delivered != []
    ensures g.slots[g.held.value] == g.delivered[|g.delivered| - 1]
  {
    InitInv(slots);
    RunInv(Init(slots), actions, g);
  }

  // ---------- refinement of an atomic bounded queue ----------

  function Contents<T>(f: Fifo<T>): seq<T>
    requires Inv(f)
  {
    f.accepted[|f.delivered|..]
  }

  /** Each micro-step changes the abstract queue by one whole operation or not at all. */
  lemma StepRefinesQueue<T>(f: Fifo<T>, a: Action<T>)
    requires Inv(f) && Enabled(f, a)
    ensures Inv(Step(f, a))
    ensures match a
            case PutCount => Contents(Step(f, a)) == Contents(f) + [f.producer.item] && |Contents(f)| < |f.slots|
            case GetTake => Contents(f) != [] && Contents(Step(f, a)) == Contents(f)[1..] &&
                            Step(f, a).delivered == f.delivered + [Contents(f)[0]]
            case _ => Contents(Step(f, a)) == Contents(f)
  {
    StepInv(f, a);
    if a == GetTake {
      assert f.slots[f.released % |f.slots|] == f.accepted[f.released];
    }
  }
}
