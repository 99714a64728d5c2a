/** The record-node queues of fax_queue.c: singly linked lists with a cached length. */
module FaxQueue {
  import opened CdrRing

  class Node {
    var cdr: Cdr
    var next: Node?

    constructor ()
      ensures next == null && cdr == ZERO_CDR
    {
      cdr := ZERO_CDR;
      next := null;
    }
  }

  ghost predicate Distinct(nodes: seq<Node>) {
    forall i, j :: 0 <= i < j < |nodes| ==> nodes[i] != nodes[j]
  }

  /** Following `next` from `head` visits exactly `nodes`, each once, and stops. */
  ghost predicate Chain(head: Node?, nodes: seq<Node>)
    reads nodes
  {
    && Distinct(nodes)
    && head == (if nodes == [] then null else nodes[0])
    && (forall i :: 0 <= i < |nodes| - 1 ==> nodes[i].next == nodes[i + 1])
    && (nodes != [] ==> nodes[|nodes| - 1].next == null)
  }

  class Queue {
    var phead: Node?
    var len: int
    ghost var nodes: seq<Node>

    ghost predicate Valid()
      reads this, nodes
    {
      Chain(phead, nodes) && len == |nodes|
    }

    constructor ()
      ensures Valid() && nodes == []
    {
      phead, len, nodes := null, 0, [];
    }

    /** EN_QUEUE: the counted walk ends at the last node, so the new node goes behind it. */
    method EnQueue(tmp: Node)
      requires Valid()
      requires tmp !in nodes && tmp.next == null
      modifies this, nodes
      ensures Valid()
      ensures nodes == old(nodes) + [tmp]
      ensures forall n :: n in old(nodes) ==> n.cdr == old(n.cdr)
    {
      var p := phead;
      var i := 1;
      while i < len
        invariant 1 <= i <= len || len == 0
        invariant p == if len == 0 then null else nodes[i - 1]
      {
        p := p.next;
        i := i + 1;
      }
      if p == null {
        phead := tmp;
      } else {
        p.next := tmp;
      }
      len := len + 1;
      nodes := nodes + [tmp];
    }

    /** FETCH_PHEAD as one step: the first node, unlinked, or null from an empty queue. */
    method FetchHead() returns (p: Node?)
      requires Valid()
      modifies this, nodes
      ensures Valid()
      ensures p == null <==> old(nodes) == []
      ensures p == null ==> nodes == []
      ensures p != null ==> old(nodes) == [p] + nodes && p.next == null && p !in nodes
      ensures forall n :: n in old(nodes) ==> n.cdr == old(n.cdr)
    {
      p := phead;
      if p == null {
        len := 0;
      } else {
        phead := p.next;
        p.next := null;
        len := len - 1;
        nodes := nodes[1..];
      }
    }
  }

  /** INIT_QUEUE: a free list of `num` new nodes (at least one: the loop tests at its end) and an empty queue. */
  method InitQueue(num: int) returns (eq: Queue, fq: Queue)
    ensures fresh(eq) && fresh(fq) && eq != fq && fresh(eq.nodes)
    ensures eq.Valid() && fq.Valid() && fq.nodes == []
    ensures |eq.nodes| == if num < 1 then 1 else num
  {
    eq := new Queue();
    fq := new Queue();
    var p: Node? := null;
    var more := true;
    while more
      invariant eq.Valid() && fq.Valid() && fq.nodes == [] && eq != fq
      invariant fresh(eq) && fresh(fq) && fresh(eq.nodes)
      invariant p == if eq.nodes == [] then null else eq.nodes[|eq.nodes| - 1]
      invariant |eq.nodes| <= if num < 1 then 1 else num
      invariant more <==> eq.nodes == [] || |eq.nodes| < num
      decreases (if num < 1 then 1 else num) - |eq.nodes|
    {
      var q := new Node();
      if eq.phead == null {
        eq.phead := q;
      } else {
        p.next := q;
      }
      p := q;
      eq.len := eq.len + 1;
      eq.nodes := eq.nodes + [q];
      more := eq.len < num;
    }
  }

  /** A node going from one list to another: no node is lost, duplicated, or shared. */
  method Move(source: Queue, target: Queue) returns (moved: bool)
    requires source != target && source.Valid() && target.Valid()
    requires forall n :: n in source.nodes ==> n !in target.nodes
    modifies source, target, source.nodes, target.nodes
    ensures source.Valid() && target.Valid()
    ensures forall n :: n in source.nodes ==> n !in target.nodes
    ensures moved == (old(source.nodes) != [])
    ensures moved ==> source.nodes == old(source.nodes)[1..] && target.nodes == old(target.nodes) + [old(source.nodes)[0]]
    ensures !moved ==> source.nodes == [] && target.nodes == old(target.nodes)
  {
    hide Chain;
    assert forall i :: 0 <= i < |target.nodes| ==> target.nodes[i] in target.nodes;
    var p := source.FetchHead();
    moved := p != null;
    if p != null {
      assert forall i :: 0 <= i < |source.nodes| ==> source.nodes[i] == old(source.nodes)[i + 1];
      target.EnQueue(p);
    }
  }

  // ---------- what the cached length is needed for ----------

  /** A list and its cached length, when the two may disagree. */
  datatype Counted<T> = Counted(nodes: seq<T>, len: int)

  datatype Outcome<T> = NullDereference | Done(q: Counted<T>)

  /** EN_QUEUE on any such list: `next` is overwritten at the node where the counted walk stops. */
  function CountedEnQueue<T>(q: Counted<T>, tmp: T): Outcome<T> {
    var stop := if q.len < 1 then 1 else q.len;
    if q.nodes == [] then
      if stop == 1 then Done(Counted([tmp], q.len + 1)) else NullDereference
    else if stop <= |q.nodes| then Done(Counted(q.nodes[..stop] + [tmp], q.len + 1))
    else if stop == |q.nodes| + 1 then Done(Counted([tmp], q.len + 1))
    else NullDereference
  }

  /** EN_QUEUE as it runs on such a list: the walk may stop early, at the end, behind it, or at a null pointer before its count is done. */
  method WalkAndLink(phead: Node?, len: int, tmp: Node, ghost nodes: seq<Node>)
    returns (head: Node?, newLen: int, crashed: bool, ghost after: seq<Node>)
    requires Chain(phead, nodes) && tmp !in nodes && tmp.next == null
    modifies nodes
    ensures CountedEnQueue(Counted(nodes, len), tmp) == if crashed then NullDereference else Done(Counted(after, newLen))
    ensures !crashed ==> Chain(head, after)
  {
    head, newLen, crashed, after := phead, len, false, nodes;
    var p := phead;
    var i := 1;
    while i < len
      invariant 1 <= i && (i <= len || i == 1)
      invariant i <= |nodes| + 1
      invariant p == if i <= |nodes| then nodes[i - 1] else null
    {
      if p == null {
        crashed := true;
        return;
      }
      p := p.next;
      i := i + 1;
    }
    if p == null {
      head, after := tmp, [tmp];
    } else {
      p.next := tmp;
      after := nodes[..i] + [tmp];
    }
    newLen := len + 1;
  }

  /** Appending keeps every node and a correct length exactly when the length was correct. */
  lemma AppendNeedsTheLength<T>(q: Counted<T>, tmp: T)
    ensures CountedEnQueue(q, tmp) == Done(Counted(q.nodes + [tmp], |q.nodes| + 1)) <==> q.len == |q.nodes|
  {
    var r := CountedEnQueue(q, tmp);
    if q.len == |q.nodes| {
      assert q.nodes[..|q.nodes|] == q.nodes;
    } else if r.Done? {
      assert r.q.len == q.len + 1;
    }
  }

  function AppendTwo<T>(q: Counted<T>, a: T, b: T): Outcome<T> {
    match CountedEnQueue(q, a)
    case NullDereference => NullDereference
    case Done(r) => CountedEnQueue(r, b)
  }

  /** After the length reset FETCH_PHEAD makes, the next two appends keep every node exactly when the list was empty. */
  lemma LateResetNeedsAnEmptyList<T>(q: Counted<T>, a: T, b: T)
    ensures AppendTwo(q.(len := 0), a, b) == Done(Counted(q.nodes + [a, b], 2)) <==> q.nodes == []
  {
    var r := CountedEnQueue(q.(len := 0), a);
    if q.nodes == [] {
      assert r == Done(Counted([a], 1)) && [a][..1] + [b] == [a, b] == q.nodes + [a, b];
    } else {
      assert r == Done(Counted(q.nodes[..1] + [a], 1));
      assert CountedEnQueue(r.q, b) == Done(Counted((q.nodes[..1] + [a])[..1] + [b], 2));
      assert |(q.nodes[..1] + [a])[..1] + [b]| == 2 < |q.nodes + [a, b]|;
    }
  }

  /**
   A run in which the reset comes late: a fetch finds the list empty and unlocks, `a` is queued, the
   reset is stored, and `b` and `c` are queued; `b` is gone.
   */
  lemma LateResetLosesANode<T>(a: T, b: T, c: T)
    ensures
      var q0 := Counted([], 0);
      && CountedEnQueue(q0, a) == Done(Counted([a], 1))
      && CountedEnQueue(Counted([a], 0), b) == Done(Counted([a, b], 1))
      && CountedEnQueue(Counted([a, b], 1), c) == Done(Counted([a, c], 2))
  {
    assert [a, b][..1] + [c] == [a, c];
    assert [a][..1] + [b] == [a, b];
  }
}
