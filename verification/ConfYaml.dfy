/** ConfYamlParse of yaml_conf.c: a recursive walk over YAML events that builds the configuration tree. */
module ConfYaml {
  import opened Sequences
  import opened ConfStore

  /** libyaml's events, as far as the parser tells them apart; the stream's end without one is a parse failure. */
  datatype Event =
    | DocumentStart(version: Option<(int, int)>)
    | Scalar(value: string)
    | SequenceStart | SequenceEnd
    | MappingStart | MappingEnd
    | StreamEnd
    | OtherEvent

  /** The local variables of one call. */
  datatype Frame = Frame(parent: Ptr, node: Ptr, wantsKey: bool, index: nat, inSeq: bool)

  datatype Outcome = Outcome(store: Store, pos: nat, code: int)

  function Digit(d: nat): char
    requires d < 10
  {
    ['0', '1', '2', '3', '4', '5', '6', '7', '8', '9'][d]
  }

  /** snprintf with "%d". */
  function Decimal(n: nat): string { if n < 10 then [Digit(n)] else Decimal(n / 10) + [Digit(n % 10)] }

  function Mangle(s: string): string { seq(|s|, i requires 0 <= i < |s| => if s[i] == '_' then '-' else s[i]) }

  /** The stored name of a key; two parents keep underscores. */
  function KeyName(parentName: string, key: string): string {
    if parentName == "address-groups" || parentName == "port-groups" then key else Mangle(key)
  }

  /** A node added to a parent's children by the parser, which sets no parent link. */
  function AddChild(s: Store, p: Ptr, name: string, val: Option<string>, isSeq: bool): Store
    requires p < |s|
  {
    AddNode(s, p, NewNode(name, None).(val := val, isSeq := isSeq))
  }

  predicate Closed(s: Store) { 0 < |s| && forall p :: 0 <= p < |s| ==> InStore(s, s[p].kids) }

  predicate FrameIn(s: Store, f: Frame) { Closed(s) && f.parent < |s| && f.node < |s| }

  /** A mapping item is labelled with its first key. */
  function Label(s: Store, p: Ptr, key: string): Store
    requires p < |s|
  {
    if s[p].isSeq && s[p].val.None? then SetVal(s, p, Mangle(key)) else s
  }

  /** The effect of a key in a mapping: an existing child is reused. */
  function TakeKey(s: Store, f: Frame, key: string): (Store, Frame)
    requires FrameIn(s, f)
  {
    var t := Label(s, f.parent, key);
    var found := FirstNamed(t, t[f.parent].kids, key);
    if found.Some? then (t, f.(node := t[f.parent].kids[found.value], wantsKey := false))
    else (AddChild(t, f.parent, KeyName(t[f.parent].name, key), None, false), f.(node := |t|, wantsKey := false))
  }

  function TakeValue(s: Store, f: Frame, value: string): (Store, Frame)
    requires FrameIn(s, f)
  {
    (if s[f.node].allow then SetVal(s, f.node, value) else s, f.(wantsKey := true))
  }

  function TakeItem(s: Store, f: Frame, value: string): (Store, Frame)
    requires FrameIn(s, f)
  {
    (AddChild(s, f.parent, Decimal(f.index), Some(value), false), f.(index := f.index + 1))
  }

  function TakeScalar(s: Store, f: Frame, value: string): (r: (Store, Frame))
    requires FrameIn(s, f)
    ensures FrameIn(r.0, r.1) && |s| <= |r.0| && r.1.inSeq == f.inSeq
  {
    if f.inSeq then TakeItem(s, f, value)
    else if f.wantsKey then TakeKey(s, f, value)
    else TakeValue(s, f, value)
  }

  /** One call of the parser from `pos` on, in the middle of its loop. */
  function Loop(s: Store, events: seq<Event>, pos: nat, f: Frame): (r: Outcome)
    requires FrameIn(s, f) && pos <= |events|
    ensures pos <= r.pos <= |events| && Closed(r.store) && |s| <= |r.store|
    decreases |events| - pos
  {
    if pos == |events| then Outcome(s, pos, -1) else
    match events[pos]
    case DocumentStart(v) =>
      if v == Some((1, 1)) then Loop(s, events, pos + 1, f) else Outcome(s, pos + 1, -1)
    case Scalar(value) =>
      var (t, g) := TakeScalar(s, f, value);
      Loop(t, events, pos + 1, g)
    case SequenceStart =>
      var r := Loop(s, events, pos + 1, Frame(f.node, f.node, true, 0, true));
      if r.code != 0 then Outcome(r.store, r.pos, -1) else Loop(r.store, events, r.pos, f.(wantsKey := true))
    case SequenceEnd => Outcome(s, pos + 1, 0)
    case MappingStart =>
      var t := if f.inSeq then AddChild(s, f.node, Decimal(f.index), None, true) else s;
      var child := if f.inSeq then |s| else f.node;
      var r := Loop(t, events, pos + 1, Frame(child, child, true, 0, false));
      if r.code != 0 then Outcome(r.store, r.pos, -1) else
      Loop(r.store, events, r.pos, f.(wantsKey := true, index := if f.inSeq then f.index + 1 else f.index))
    case MappingEnd => Outcome(s, pos + 1, 0)
    case StreamEnd => Outcome(s, pos + 1, 0)
    case OtherEvent => Loop(s, events, pos + 1, f)
  }

  /** A call from its beginning. */
  function Parse(s: Store, events: seq<Event>, pos: nat, parent: Ptr, inSeq: bool): Outcome
    requires Closed(s) && parent < |s| && pos <= |events|
  {
    Loop(s, events, pos, Frame(parent, parent, true, 0, inSeq))
  }
}
