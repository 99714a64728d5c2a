/** The parser as it runs: a loop over events with recursive calls, editing the node store. */
module ConfYamlParser {
  import opened Sequences
  import opened ConfStore
  import opened ConfYaml

  class Parser {
    const events: seq<Event>
    var pos: nat
    var store: Store

    ghost predicate Valid()
      reads this
    {
      Closed(store) && pos <= |events|
    }

    /** A parser at the start of a stream, over the nodes there are. */
    constructor (events: seq<Event>, store: Store)
      requires Closed(store)
      ensures Valid() && this.events == events && pos == 0 && this.store == store
    {
      this.events, this.store := events, store;
      pos := 0;
    }

    method LookupChild(p: Ptr, name: string) returns (c: Option<Ptr>)
      requires Valid() && p < |store|
      ensures var r := FirstNamed(store, store[p].kids, name);
              c == if r.None? then None else Some(store[p].kids[r.value])
    {
      var i := 0;
      while i < |store[p].kids|
        invariant 0 <= i <= |store[p].kids|
        invariant forall j :: 0 <= j < i ==> store[store[p].kids[j]].name != name
      {
        if store[store[p].kids[i]].name == name {
          assert Names(store, store[p].kids)[i] == name;
          return Some(store[p].kids[i]);
        }
        i := i + 1;
      }
      return None;
    }

    /** Allocates a node and puts it at the end of a parent's children. */
    method Insert(p: Ptr, name: string, val: Option<string>, isSeq: bool) returns (n: Ptr)
      requires Valid() && p < |store|
      modifies this`store
      ensures Valid()
      ensures n == |old(store)| && store == AddChild(old(store), p, name, val, isSeq)
    {
      n := |store|;
      store := store + [ConfNode(name, val, isSeq, true, None, [])];
      store := store[p := store[p].(kids := store[p].kids + [n])];
    }

    /** The scalar branch for a mapping's key. */
    method Key(f: Frame, value: string) returns (g: Frame)
      requires Valid() && FrameIn(store, f)
      modifies this`store
      ensures Valid() && (store, g) == TakeKey(old(store), f, value)
    {
      if store[f.parent].isSeq {
        if store[f.parent].val == None {
          store := SetVal(store, f.parent, Mangle(value));
        }
      }
      var n0 := LookupChild(f.parent, value);
      if n0 != None {
        g := f.(node := n0.value);
      } else {
        var name := value;
        if '_' in value && !(store[f.parent].name == "address-groups" || store[f.parent].name == "port-groups") {
          name := Mangle(value);
        }
        MangleWithoutUnderscore(value);
        var n := Insert(f.parent, name, None, false);
        g := f.(node := n);
      }
      g := g.(wantsKey := false);
    }

    method Scalar(f: Frame, value: string) returns (g: Frame)
      requires Valid() && FrameIn(store, f)
      modifies this`store
      ensures Valid() && (store, g) == TakeScalar(old(store), f, value)
    {
      if f.inSeq {
        var _ := Insert(f.parent, Decimal(f.index), Some(value), false);
        g := f.(index := f.index + 1);
      } else if f.wantsKey {
        g := Key(f, value);
      } else {
        if store[f.node].allow {
          store := SetVal(store, f.node, value);
        }
        g := f.(wantsKey := true);
      }
    }

    /** ConfYamlParse. */
    method ConfYamlParse(parent: Ptr, inSeq: bool) returns (result: int)
      requires Valid() && parent < |store|
      modifies this
      ensures Valid()
      ensures Outcome(store, pos, result) == Parse(old(store), events, old(pos), parent, inSeq)
      ensures pos >= old(pos) && |store| >= |old(store)|
      decreases |events| - pos
    {
      hide TakeScalar, AddChild, FirstNamed;
      ghost var target := Parse(store, events, pos, parent, inSeq);
      var f := Frame(parent, parent, true, 0, inSeq);
      while true
        invariant Valid() && pos >= old(pos) && |store| >= |old(store)|
        invariant FrameIn(store, f) && f.inSeq == inSeq
        invariant Loop(store, events, pos, f) == target
        decreases |events| - pos
      {
        if pos == |events| {
          return -1;
        }
        var event := events[pos];
        pos := pos + 1;
        match event {
          case DocumentStart(version) =>
            if version != Some((1, 1)) {
              return -1;
            }
          case Scalar(value) =>
            f := Scalar(f, value);
          case SequenceStart =>
            var r := ConfYamlParse(f.node, true);
            if r != 0 {
              return -1;
            }
            f := f.(wantsKey := true);
          case SequenceEnd =>
            return 0;
          case MappingStart =>
            if f.inSeq {
              var n := InsertItem(f.node, f.index);
              f := f.(index := f.index + 1);
              var r := ConfYamlParse(n, false);
              if r != 0 {
                return -1;
              }
            } else {
              var r := ConfYamlParse(f.node, f.inSeq);
              if r != 0 {
                return -1;
              }
            }
            f := f.(wantsKey := true);
          case MappingEnd =>
            return 0;
          case StreamEnd =>
            return 0;
          case OtherEvent =>
        }
      }
    }

    /** A sequence's mapping item: a numbered node marked as such. */
    method InsertItem(p: Ptr, index: nat) returns (n: Ptr)
      requires Valid() && p < |store|
      modifies this`store
      ensures Valid()
      ensures n == |old(store)| && store == AddChild(old(store), p, Decimal(index), None, true)
      ensures |store| == |old(store)| + 1
    {
      n := Insert(p, Decimal(index), None, true);
    }
  }

  lemma MangleWithoutUnderscore(s: string)
    ensures '_' !in s ==> Mangle(s) == s
  {
  }
}
