/**
 The tail queue of yaml_conf.h that links a configuration node's children. A `tqe_prev` or `tqh_last`
 field holds the address of a link: the head's own, or the `tqe_next` of an element.
 */
module Tailq {
  import opened Sequences

  /** A pointer to an element; a removed element's is invalid, which is not null. */
  datatype Link = Null | To(elem: Elem) | Invalid

  datatype Address = HeadLink | NextOf(owner: Elem) | InvalidAddress

  class Elem {
    const id: nat      // which node of the store this is
    const name: string
    var next: Link
    var prev: Address

    constructor (id: nat, name: string)
      ensures this.id == id && this.name == name
    {
      this.id, this.name := id, name;
      next, prev := Null, InvalidAddress;
    }
  }

  /** Element i points on to the next element, and back to the link that points to it. */
  ghost predicate Linked(elems: seq<Elem>, i: nat)
    requires i < |elems|
    reads elems
  {
    && elems[i].next == LinkAt(elems, i + 1)
    && elems[i].prev == (if i == 0 then HeadLink else NextOf(elems[i - 1]))
  }

  function LinkAt(elems: seq<Elem>, i: nat): Link { if i < |elems| then To(elems[i]) else Null }

  function Ids(elems: seq<Elem>): seq<nat> { seq(|elems|, i requires 0 <= i < |elems| => elems[i].id) }

  function Names(elems: seq<Elem>): seq<string> { seq(|elems|, i requires 0 <= i < |elems| => elems[i].name) }

  lemma IdsWithout(elems: seq<Elem>, k: nat)
    requires k < |elems|
    ensures Ids(Without(elems, k)) == Without(Ids(elems), k)
  {
  }

  class Head {
    var first: Link
    var last: Address
    ghost var elems: seq<Elem>

    ghost predicate Valid()
      reads this, elems
    {
      && (forall i, j :: 0 <= i < j < |elems| ==> elems[i] != elems[j])
      && first == LinkAt(elems, 0)
      && last == (if elems == [] then HeadLink else NextOf(elems[|elems| - 1]))
      && (forall i :: 0 <= i < |elems| ==> Linked(elems, i))
    }

    /** TAILQ_INIT. */
    constructor ()
      ensures Valid() && elems == []
    {
      first, last, elems := Null, HeadLink, [];
    }

    /** TAILQ_INSERT_TAIL. */
    method InsertTail(elm: Elem)
      requires Valid() && elm !in elems
      modifies this, elems, elm
      ensures Valid()
      ensures elems == old(elems) + [elm]
      ensures Ids(elems) == Ids(old(elems)) + [elm.id]
    {
      elm.next := Null;
      elm.prev := last;
      assert elems != [] ==> elems[|elems| - 1] in elems;
      if last.HeadLink? {   // an assignment through the address held in `last`
        first := To(elm);
      } else {
        last.owner.next := To(elm);
      }
      last := NextOf(elm);
      ghost var all := elems;
      elems := elems + [elm];
      forall i | 0 <= i < |elems| ensures Linked(elems, i) {
        assert i < |all| ==> all[i] in all && old(Linked(all, i));
      }
    }

    /** TAILQ_REMOVE of the element at a position: the others keep their order, its own links become invalid. */
    method Remove(elm: Elem, ghost k: nat)
      requires Valid() && k < |elems| && elm == elems[k]
      modifies this, elems
      ensures Valid()
      ensures elems == Without(old(elems), k)
      ensures Ids(elems) == Without(Ids(old(elems)), k)
      ensures elm.next == Invalid && elm.prev == InvalidAddress
    {
      hide Without, Ids;
      ghost var all := elems;
      IdsWithout(all, k);
      assert Linked(all, k);
      assert k > 0 ==> Linked(all, k - 1) && all[k - 1] in all;
      assert k + 1 < |all| ==> Linked(all, k + 1) && all[k + 1] in all;
      if elm.next != Null {
        elm.next.elem.prev := elm.prev;
      } else {
        last := elm.prev;
      }
      if elm.prev.HeadLink? {   // an assignment through the address held in `prev`
        first := elm.next;
      } else {
        elm.prev.owner.next := elm.next;
      }
      elm.prev, elm.next := InvalidAddress, Invalid;
      elems := Without(all, k);
      forall i | 0 <= i < |elems| ensures Linked(elems, i) {
        var j := Skip(k, i);
        assert elems[i] == all[j] && all[j] in all && all[j] != elm;
        assert old(Linked(all, j));
      }
    }

    /** TAILQ_FOREACH with strcmp: the first element with the name, if any. */
    method Lookup(name: string) returns (found: Link)
      requires Valid()
      ensures found == match FirstIndex(Names(elems), name)
                       case None => Null
                       case Some(k) => To(elems[k])
    {
      found := first;
      ghost var k := 0;
      while found != Null
        invariant 0 <= k <= |elems|
        invariant found == LinkAt(elems, k)
        invariant forall j :: 0 <= j < k ==> elems[j].name != name
        decreases |elems| - k
      {
        assert Linked(elems, k);
        if found.elem.name == name {
          assert Names(elems)[k] == name;
          return;
        }
        found := found.elem.next;
        k := k + 1;
      }
    }
  }
}
