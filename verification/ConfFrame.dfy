/** What one call of the parser can change, on every event stream whatever, well formed or not. */
module ConfFrame {
  import opened Sequences
  import opened ConfStore
  import opened ConfForest
  import opened ConfYaml

  lemma OrderedIsClosed(s: Store)
    requires Ordered(s)
    ensures Closed(s)
  {
  }

  lemma AddChildBelow(s: Store, p: Ptr, name: string, val: Option<string>, isSeq: bool)
    requires Linked(s) && p < |s|
    ensures
      var t := AddChild(s, p, name, val, isSeq);
      && Below(s, t, p) && Closed(t) && |t| == |s| + 1 && Under(t, p, |s|) && Under(t, p, p)
      && t[p].kids == s[p].kids + [|s|]
      && Read(t, |s|) == Tree(name, val, isSeq, true, [])
      && Read(t, p) == Read(s, p).(kids := Read(s, p).kids + [Read(t, |s|)])
  {
    AddNodeBelow(s, p, NewNode(name, None).(val := val, isSeq := isSeq));
    AddNodeReads(s, p, NewNode(name, None).(val := val, isSeq := isSeq));
    OrderedIsClosed(AddChild(s, p, name, val, isSeq));
  }

  lemma LabelBelow(s: Store, p: Ptr, key: string)
    requires Linked(s) && p < |s|
    ensures Below(s, Label(s, p, key), p)
  {
    if s[p].isSeq && s[p].val.None? {
      SetValBelow(s, p, Mangle(key));
    }
    NothingBelow(s, p);
  }

  lemma TakeKeyBelow(s: Store, f: Frame, key: string)
    requires Linked(s) && FrameIn(s, f)
    ensures
      var (t, g) := TakeKey(s, f, key);
      Below(s, t, f.parent) && g.parent == f.parent && g.node < |t| && Under(t, f.parent, g.node)
  {
    var p, u := f.parent, Label(s, f.parent, key);
    LabelBelow(s, p, key);
    hide Linked, Below, Label, AddChild;
    assert Linked(u) && |u| == |s| by { LabelKeepsNodes(s, p, key); }
    var found := FirstNamed(u, u[p].kids, key);
    if found.Some? {
      KidIsUnder(u, p, p, found.value);
    } else {
      var name := KeyName(u[p].name, key);
      AddChildBelow(u, p, name, None, false);
      BelowTrans(s, u, AddChild(u, p, name, None, false), p);
    }
  }

  lemma LabelKeepsNodes(s: Store, p: Ptr, key: string)
    requires Linked(s) && p < |s|
    ensures var u := Label(s, p, key);
            Linked(u) && Closed(u) && |u| == |s| && u[p].kids == s[p].kids && u[p].name == s[p].name
  {
    LabelBelow(s, p, key);
  }

  lemma TakeScalarBelow(s: Store, f: Frame, value: string)
    requires Linked(s) && FrameIn(s, f) && Under(s, f.parent, f.node)
    ensures
      var (t, g) := TakeScalar(s, f, value);
      Below(s, t, f.parent) && g.parent == f.parent && g.node < |t| && Under(t, f.parent, g.node)
  {
    hide Below, Under, TakeKey, AddChild;
    if f.inSeq {
      AddChildBelow(s, f.parent, Decimal(f.index), Some(value), false);
      OldUnder(s, AddChild(s, f.parent, Decimal(f.index), Some(value), false), f.parent, f.parent, f.node);
    } else if f.wantsKey {
      TakeKeyBelow(s, f, value);
    } else {
      if s[f.node].allow {
        SetValBelow(s, f.node, value);
        BelowWiden(s, SetVal(s, f.node, value), f.node, f.parent);
        OldUnder(s, SetVal(s, f.node, value), f.parent, f.parent, f.node);
      }
      NothingBelow(s, f.parent);
    }
  }

  /** A call changes only its parent node, nodes below it and new ones, and the store stays a forest. */
  lemma {:induction false} LoopBelow(s: Store, events: seq<Event>, pos: nat, f: Frame)
    requires Linked(s) && FrameIn(s, f) && pos <= |events| && Under(s, f.parent, f.node)
    ensures Below(s, Loop(s, events, pos, f).store, f.parent)
    decreases |events| - pos, 0
  {
    hide Ordered, Below, AddChild, TakeScalar, Closed, Under;
    NothingBelow(s, f.parent);
    NothingBelow(s, f.node);
    UnderSelf(s, f.node);
    if pos < |events| {
      match events[pos]
      case DocumentStart(v) =>
        if v == Some((1, 1)) {
          LoopBelow(s, events, pos + 1, f);
        }
      case OtherEvent => LoopBelow(s, events, pos + 1, f);
      case Scalar(value) =>
        TakeScalarBelow(s, f, value);
        var (t, g) := TakeScalar(s, f, value);
        BelowLinks(s, t, f.parent);
        GoOn(s, t, events, pos + 1, g);
      case SequenceStart =>
        Nested(s, s, events, pos + 1, f, Frame(f.node, f.node, true, 0, true), f.(wantsKey := true));
      case MappingStart =>
        if f.inSeq {
          AddChildBelow(s, f.node, Decimal(f.index), None, true);
          var t := AddChild(s, f.node, Decimal(f.index), None, true);
          BelowLinks(s, t, f.node);
          Nested(s, t, events, pos + 1, f, Frame(|s|, |s|, true, 0, false), f.(wantsKey := true, index := f.index + 1));
        } else {
          Nested(s, s, events, pos + 1, f, Frame(f.node, f.node, true, 0, false), f.(wantsKey := true));
        }
      case _ =>
    }
  }

  lemma {:induction false} GoOn(s: Store, t: Store, events: seq<Event>, pos: nat, g: Frame)
    requires Linked(s) && g.parent < |s| && Below(s, t, g.parent)
    requires Linked(t) && FrameIn(t, g) && pos <= |events| && Under(t, g.parent, g.node)
    ensures Below(s, Loop(t, events, pos, g).store, g.parent)
    decreases |events| - pos, 1
  {
    hide Loop, Ordered, Below, Under;
    LoopBelow(t, events, pos, g);
    BelowTrans(s, t, Loop(t, events, pos, g).store, g.parent);
  }

  /** A call nested at a node at or below the outer call's node, and the loop that goes on after it. */
  lemma {:induction false} Nested(s: Store, t: Store, events: seq<Event>, pos: nat, f: Frame, inner: Frame, g: Frame)
    requires Linked(s) && FrameIn(s, f) && pos <= |events| && Under(s, f.parent, f.node)
    requires Linked(t) && FrameIn(t, inner) && Below(s, t, f.node) && Under(t, f.node, inner.parent) && inner.node == inner.parent
    requires g.parent == f.parent && g.node == f.node
    ensures
      var r := Loop(t, events, pos, inner);
      Below(s, r.store, f.parent) && Below(s, Loop(r.store, events, r.pos, g).store, f.parent)
    decreases |events| - pos, 2
  {
    hide Loop, Ordered, Below;
    UnderSelf(t, inner.parent);
    LoopBelow(t, events, pos, inner);
    var r := Loop(t, events, pos, inner);
    BelowLinks(t, r.store, inner.parent);
    BelowWiden(t, r.store, inner.parent, f.node);
    BelowTrans(s, t, r.store, f.node);
    BelowWiden(s, r.store, f.node, f.parent);
    OldUnder(s, r.store, f.parent, f.parent, f.node);
    BelowLinks(s, r.store, f.parent);
    GoOn(s, r.store, events, r.pos, g);
  }

  lemma UnderSelf(s: Store, n: Ptr)
    requires Ordered(s) && n < |s|
    ensures Under(s, n, n)
  {
  }

  lemma BelowLinks(s: Store, t: Store, m: Ptr)
    requires Ordered(s) && m < |s| && Below(s, t, m)
    ensures Linked(t) && Closed(t) && |s| <= |t|
  {
  }

  // ---------- the parser never sets a parent link ----------

  /** The nodes allocated since there were `base` of them have no parent link. */
  ghost predicate Unparented(s: Store, base: nat) { forall n :: base <= n < |s| ==> s[n].parent == None }

  lemma TakeScalarLeavesUnparented(s: Store, f: Frame, value: string, base: nat)
    requires FrameIn(s, f) && Unparented(s, base)
    ensures Unparented(TakeScalar(s, f, value).0, base)
  {
  }

  /** No node made by a call, on any stream, has the parent link that a removal needs to unlink it. */
  lemma {:induction false} LoopLeavesUnparented(s: Store, events: seq<Event>, pos: nat, f: Frame, base: nat)
    requires FrameIn(s, f) && pos <= |events| && Unparented(s, base)
    ensures Unparented(Loop(s, events, pos, f).store, base)
    decreases |events| - pos
  {
    hide TakeScalar, Closed;
    if pos < |events| {
      match events[pos]
      case DocumentStart(v) =>
        if v == Some((1, 1)) {
          LoopLeavesUnparented(s, events, pos + 1, f, base);
        }
      case OtherEvent => LoopLeavesUnparented(s, events, pos + 1, f, base);
      case Scalar(value) =>
        TakeScalarLeavesUnparented(s, f, value, base);
        var (t, g) := TakeScalar(s, f, value);
        LoopLeavesUnparented(t, events, pos + 1, g, base);
      case SequenceStart =>
        var g := Frame(f.node, f.node, true, 0, true);
        LoopLeavesUnparented(s, events, pos + 1, g, base);
        var r := Loop(s, events, pos + 1, g);
        LoopLeavesUnparented(r.store, events, r.pos, f.(wantsKey := true), base);
      case MappingStart =>
        var t := if f.inSeq then AddChild(s, f.node, Decimal(f.index), None, true) else s;
        var child := if f.inSeq then |s| else f.node;
        AddChildIsClosed(s, f.node, Decimal(f.index), None, true);
        var g := Frame(child, child, true, 0, false);
        LoopLeavesUnparented(t, events, pos + 1, g, base);
        var r := Loop(t, events, pos + 1, g);
        LoopLeavesUnparented(r.store, events, r.pos,
                             f.(wantsKey := true, index := if f.inSeq then f.index + 1 else f.index), base);
      case _ =>
    }
  }

  lemma AddChildIsClosed(s: Store, p: Ptr, name: string, val: Option<string>, isSeq: bool)
    requires Closed(s) && p < |s|
    ensures var t := AddChild(s, p, name, val, isSeq);
            Closed(t) && |t| == |s| + 1 && t[|s|].parent == None && forall n :: 0 <= n < |s| ==> t[n].parent == s[n].parent
  {
  }
}
