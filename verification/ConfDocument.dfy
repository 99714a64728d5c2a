/** What the parser makes of a document: it merges the document into the tree that is already there. */
module ConfDocument {
  import opened Sequences
  import opened ConfStore
  import opened ConfForest
  import opened ConfYaml
  import opened ConfFrame

  datatype Value = Leaf(value: string) | Map(entries: seq<Entry>) | List(items: seq<Item>)

  datatype Entry = Entry(key: string, value: Value)

  datatype Item = Plain(value: string) | Group(entries: seq<Entry>) | Nested(items: seq<Item>)

  // ---------- events ----------

  function Events(v: Value): seq<Event>
    decreases v, 0
  {
    match v
    case Leaf(value) => [Scalar(value)]
    case Map(entries) => [MappingStart] + EntryEvents(entries)
    case List(items) => [SequenceStart] + ItemEvents(items)
  }

  /** The entries from some point on, and the mapping's end. */
  function EntryEvents(entries: seq<Entry>): seq<Event>
    decreases entries, 1
  {
    if entries == [] then [MappingEnd] else
    [Scalar(entries[0].key)] + (Events(entries[0].value) + EntryEvents(entries[1..]))
  }

  function ItemEvents(items: seq<Item>): seq<Event>
    decreases items, 1
  {
    if items == [] then [SequenceEnd] else OneItemEvents(items[0]) + ItemEvents(items[1..])
  }

  function OneItemEvents(item: Item): seq<Event>
    decreases item, 0
  {
    match item
    case Plain(value) => [Scalar(value)]
    case Group(entries) => [MappingStart] + EntryEvents(entries)
    case Nested(items) => [SequenceStart] + ItemEvents(items)
  }

  // ---------- merging a document into a tree ----------

  function Fresh(name: string): Tree { Tree(name, None, false, true, []) }

  /** A list item is labelled with its first key. */
  function Labelled(t: Tree, key: string): Tree {
    if t.isSeq && t.val.None? then t.(val := Some(Mangle(key))) else t
  }

  /** The tree in which a key has a child, and that child's position: an existing one of that very name, or a new one. */
  function KeyInto(t: Tree, key: string): (r: (Tree, nat))
    ensures r.1 < |r.0.kids|
  {
    var u := Labelled(t, key);
    match FirstIndex(TreeNames(u.kids), key)
    case Some(i) => (u, i)
    case None => (u.(kids := u.kids + [Fresh(KeyName(u.name, key))]), |u.kids|)
  }

  function Into(t: Tree, v: Value): Tree
    decreases v, 0
  {
    match v
    case Leaf(value) => if t.allow then t.(val := Some(value)) else t
    case Map(entries) => EntriesInto(t, entries)
    case List(items) => ItemsInto(t, 0, items)
  }

  /** Each entry's value goes into its key's child. */
  function EntriesInto(t: Tree, entries: seq<Entry>): Tree
    decreases entries, 1
  {
    if entries == [] then t else
    var (u, i) := KeyInto(t, entries[0].key);
    EntriesInto(u.(kids := u.kids[i := Into(u.kids[i], entries[0].value)]), entries[1..])
  }

  /** Items become new children named by position; a list directly in a list counts from 0 at the same node. */
  function ItemsInto(t: Tree, index: nat, items: seq<Item>): Tree
    decreases items, 1
  {
    if items == [] then t else
    var n := if items[0].Nested? then index else index + 1;
    ItemsInto(ItemInto(t, index, items[0]), n, items[1..])
  }

  function ItemInto(t: Tree, index: nat, item: Item): Tree
    decreases item, 0
  {
    match item
    case Plain(value) => t.(kids := t.kids + [Tree(Decimal(index), Some(value), false, true, [])])
    case Group(entries) => t.(kids := t.kids + [EntriesInto(Tree(Decimal(index), None, true, true, []), entries)])
    case Nested(items) => ItemsInto(t, 0, items)
  }

  // ---------- single turns of the parser's loop ----------

  lemma LoopPasses(s: Store, events: seq<Event>, pos: nat, f: Frame)
    requires FrameIn(s, f) && pos < |events|
    requires events[pos] == OtherEvent || events[pos] == DocumentStart(Some((1, 1)))
    ensures Loop(s, events, pos, f) == Loop(s, events, pos + 1, f)
  {
  }

  lemma LoopEnds(s: Store, events: seq<Event>, pos: nat, f: Frame)
    requires FrameIn(s, f) && pos < |events|
    requires events[pos] == StreamEnd || events[pos] == MappingEnd || events[pos] == SequenceEnd
    ensures Loop(s, events, pos, f) == Outcome(s, pos + 1, 0)
  {
  }

  lemma LoopTakesScalar(s: Store, events: seq<Event>, pos: nat, f: Frame, value: string)
    requires FrameIn(s, f) && pos < |events| && events[pos] == Scalar(value)
    ensures var (t, g) := TakeScalar(s, f, value); Loop(s, events, pos, f) == Loop(t, events, pos + 1, g)
  {
  }

  lemma LoopEntersMapping(s: Store, events: seq<Event>, pos: nat, f: Frame)
    requires FrameIn(s, f) && pos < |events| && events[pos] == MappingStart && !f.inSeq
    ensures
      var r := Loop(s, events, pos + 1, Frame(f.node, f.node, true, 0, false));
      r.code == 0 ==> Loop(s, events, pos, f) == Loop(r.store, events, r.pos, f.(wantsKey := true))
  {
  }

  lemma LoopEntersSequence(s: Store, events: seq<Event>, pos: nat, f: Frame)
    requires FrameIn(s, f) && pos < |events| && events[pos] == SequenceStart
    ensures
      var r := Loop(s, events, pos + 1, Frame(f.node, f.node, true, 0, true));
      r.code == 0 ==> Loop(s, events, pos, f) == Loop(r.store, events, r.pos, f.(wantsKey := true))
  {
  }

  lemma LoopEntersItem(s: Store, events: seq<Event>, pos: nat, f: Frame, t: Store, r: Outcome)
    requires FrameIn(s, f) && pos < |events| && events[pos] == MappingStart && f.inSeq
    requires t == AddChild(s, f.node, Decimal(f.index), None, true) && Closed(t)
    requires r == Loop(t, events, pos + 1, Frame(|s|, |s|, true, 0, false)) && r.code == 0
    ensures Loop(s, events, pos, f) == Loop(r.store, events, r.pos, f.(wantsKey := true, index := f.index + 1))
  {
  }

  // ---------- one parser call consumes one value ----------

  /** The events from `pos` on begin with `xs`. */
  ghost predicate At(events: seq<Event>, pos: nat, xs: seq<Event>) {
    pos + |xs| <= |events| && events[pos..pos + |xs|] == xs
  }

  lemma AtSplit(events: seq<Event>, pos: nat, xs: seq<Event>, ys: seq<Event>)
    requires At(events, pos, xs + ys)
    ensures At(events, pos, xs) && At(events, pos + |xs|, ys)
  {
    var both := events[pos..pos + |xs + ys|];
    assert events[pos..pos + |xs|] == both[..|xs|];
    assert events[pos + |xs|..pos + |xs| + |ys|] == both[|xs|..];
  }

  lemma AtHead(events: seq<Event>, pos: nat, e: Event, ys: seq<Event>)
    requires At(events, pos, [e] + ys)
    ensures pos < |events| && events[pos] == e && At(events, pos + 1, ys)
  {
    AtSplit(events, pos, [e], ys);
    assert events[pos..pos + 1][0] == e;
  }

  /** The state of a call between two values: a forest, with the current node at or below the call's parent. */
  ghost predicate Ready(s: Store, f: Frame) {
    Linked(s) && FrameIn(s, f) && Under(s, f.parent, f.node)
  }

  lemma StartsReady(s: Store, m: Ptr, inSeq: bool)
    requires Linked(s) && m < |s|
    ensures Ready(s, Frame(m, m, true, 0, inSeq))
  {
    OrderedIsClosed(s);
  }

  lemma LabelReads(s: Store, p: Ptr, key: string)
    requires Linked(s) && p < |s|
    ensures var u := Label(s, p, key); Linked(u) && |u| == |s| && Read(u, p) == Labelled(Read(s, p), key)
  {
    LabelKeepsNodes(s, p, key);
    if s[p].isSeq && s[p].val.None? {
      SetValBelow(s, p, Mangle(key));
    }
  }

  /** A key leads to the child that the merged tree has for it. */
  lemma KeyReads(s: Store, f: Frame, key: string)
    requires Ready(s, f)
    ensures
      var (t, g) := TakeKey(s, f, key);
      var (tree, i) := KeyInto(Read(s, f.parent), key);
      && Below(s, t, f.parent) && Ready(t, g) && Read(t, f.parent) == tree
      && i < |t[f.parent].kids| && g == f.(node := t[f.parent].kids[i], wantsKey := false)
  {
    TakeKeyBelow(s, f, key);
    LabelReads(s, f.parent, key);
    LabelKeepsNodes(s, f.parent, key);
    hide Ordered, Below, Label, Labelled, AddChild, Under;
    var p, u := f.parent, Label(s, f.parent, key);
    ReadNames(u, p);
    if FirstNamed(u, u[p].kids, key).None? {
      AddChildBelow(u, p, KeyName(u[p].name, key), None, false);
    }
    BelowLinks(s, TakeKey(s, f, key).0, p);
  }

  lemma {:induction false} ParseValue(s: Store, events: seq<Event>, pos: nat, f: Frame, v: Value) returns (t: Store)
    requires Ready(s, f) && !f.inSeq && !f.wantsKey && At(events, pos, Events(v))
    ensures Below(s, t, f.node) && Read(t, f.node) == Into(Read(s, f.node), v)
    ensures Loop(s, events, pos, f) == Loop(t, events, pos + |Events(v)|, f.(wantsKey := true))
    decreases v, 0
  {
    hide Loop, Ordered, Below, Under, EntriesInto, ItemsInto, Read;
    var m := f.node;
    match v {
      case Leaf(value) =>
        AtHead(events, pos, Scalar(value), []);
        LoopTakesScalar(s, events, pos, f, value);
        t := TakeScalar(s, f, value).0;
        LeafReads(s, m, value);
      case Map(entries) =>
        AtHead(events, pos, MappingStart, EntryEvents(entries));
        var g := Frame(m, m, true, 0, false);
        StartsReady(s, m, false);
        t := ParseEntries(s, events, pos + 1, g, entries);
        LoopEntersMapping(s, events, pos, f);
      case List(items) =>
        AtHead(events, pos, SequenceStart, ItemEvents(items));
        var g := Frame(m, m, true, 0, true);
        StartsReady(s, m, true);
        t := ParseItems(s, events, pos + 1, g, items);
        LoopEntersSequence(s, events, pos, f);
    }
  }

  lemma LeafReads(s: Store, m: Ptr, value: string)
    requires Linked(s) && m < |s|
    ensures var t := if s[m].allow then SetVal(s, m, value) else s;
            Below(s, t, m) && Read(t, m) == Into(Read(s, m), Leaf(value))
  {
    if s[m].allow {
      SetValBelow(s, m, value);
    }
    NothingBelow(s, m);
  }

  /** A mapping is consumed through its end event and merged into the parent's tree. */
  lemma {:induction false} ParseEntries(s: Store, events: seq<Event>, pos: nat, f: Frame, entries: seq<Entry>) returns (t: Store)
    requires Ready(s, f) && !f.inSeq && f.wantsKey && At(events, pos, EntryEvents(entries))
    ensures Loop(s, events, pos, f) == Outcome(t, pos + |EntryEvents(entries)|, 0)
    ensures Below(s, t, f.parent) && Read(t, f.parent) == EntriesInto(Read(s, f.parent), entries)
    decreases entries, 1
  {
    hide Loop, Ordered, Below, Under, Events, Into, Read, KeyInto, TakeKey;
    var p := f.parent;
    if entries == [] {
      AtHead(events, pos, MappingEnd, []);
      LoopEnds(s, events, pos, f);
      NothingBelow(s, p);
      t := s;
    } else {
      var e, rest := entries[0], entries[1..];
      AtHead(events, pos, Scalar(e.key), Events(e.value) + EntryEvents(rest));
      AtSplit(events, pos + 1, Events(e.value), EntryEvents(rest));
      LoopTakesScalar(s, events, pos, f, e.key);
      KeyReads(s, f, e.key);
      var (k, g) := TakeKey(s, f, e.key);
      var u := ParseValue(k, events, pos + 1, g, e.value);
      ChildParsed(s, k, u, f, g, KeyInto(Read(s, p), e.key).1);
      t := ParseEntries(u, events, pos + 1 + |Events(e.value)|, g.(wantsKey := true), rest);
      BelowTrans(s, u, t, p);
    }
  }

  /** A value parsed into one child of the call's parent. */
  lemma ChildParsed(s: Store, k: Store, u: Store, f: Frame, g: Frame, i: nat)
    requires Linked(s) && f.parent < |s| && Below(s, k, f.parent) && Ready(k, g) && g.parent == f.parent
    requires i < |k[f.parent].kids| && g.node == k[f.parent].kids[i] && Below(k, u, g.node)
    ensures Below(s, u, f.parent) && Ready(u, g)
    ensures |Read(k, f.parent).kids| == |k[f.parent].kids| && Read(k, f.parent).kids[i] == Read(k, g.node)
    ensures Read(u, f.parent) == Read(k, f.parent).(kids := Read(k, f.parent).kids[i := Read(u, g.node)])
  {
    hide Ordered, Below, Under;
    BelowLinks(k, u, g.node);
    ReadAfterChild(k, u, f.parent, i);
    BelowWiden(k, u, g.node, f.parent);
    BelowTrans(s, k, u, f.parent);
    OldUnder(k, u, f.parent, f.parent, g.node);
  }

  /** A list is consumed through its end event and its items added to the parent's tree. */
  lemma {:induction false} ParseItems(s: Store, events: seq<Event>, pos: nat, f: Frame, items: seq<Item>) returns (t: Store)
    requires Ready(s, f) && f.inSeq && f.node == f.parent && At(events, pos, ItemEvents(items))
    ensures Loop(s, events, pos, f) == Outcome(t, pos + |ItemEvents(items)|, 0)
    ensures Below(s, t, f.parent) && Read(t, f.parent) == ItemsInto(Read(s, f.parent), f.index, items)
    decreases items, 1
  {
    hide Loop, Ordered, Below, Under, OneItemEvents, ItemInto, Read;
    if items == [] {
      AtHead(events, pos, SequenceEnd, []);
      LoopEnds(s, events, pos, f);
      NothingBelow(s, f.parent);
      t := s;
    } else {
      var rest := items[1..];
      AtSplit(events, pos, OneItemEvents(items[0]), ItemEvents(rest));
      var u, g := ParseItem(s, events, pos, f, items[0]);
      t := ParseItems(u, events, pos + |OneItemEvents(items[0])|, g, rest);
      BelowTrans(s, u, t, f.parent);
    }
  }

  lemma {:induction false} ParseItem(s: Store, events: seq<Event>, pos: nat, f: Frame, item: Item)
    returns (u: Store, g: Frame)
    requires Ready(s, f) && f.inSeq && f.node == f.parent && At(events, pos, OneItemEvents(item))
    ensures Below(s, u, f.parent) && Ready(u, g) && Read(u, f.parent) == ItemInto(Read(s, f.parent), f.index, item)
    ensures g == f.(index := if item.Nested? then f.index else f.index + 1, wantsKey := g.wantsKey)
    ensures Loop(s, events, pos, f) == Loop(u, events, pos + |OneItemEvents(item)|, g)
    decreases item, 0
  {
    hide Loop, Ordered, Below, Under, EntriesInto, ItemsInto, Read, AddChild;
    var p, m := f.parent, |s|;
    match item {
      case Plain(value) =>
        AtHead(events, pos, Scalar(value), []);
        LoopTakesScalar(s, events, pos, f, value);
        AddChildBelow(s, p, Decimal(f.index), Some(value), false);
        u := AddChild(s, p, Decimal(f.index), Some(value), false);
        g := f.(index := f.index + 1);
        BelowLinks(s, u, p);
      case Group(entries) =>
        AtHead(events, pos, MappingStart, EntryEvents(entries));
        AddChildBelow(s, p, Decimal(f.index), None, true);
        var t := AddChild(s, p, Decimal(f.index), None, true);
        BelowLinks(s, t, p);
        StartsReady(t, m, false);
        u := ParseEntries(t, events, pos + 1, Frame(m, m, true, 0, false), entries);
        LoopEntersItem(s, events, pos, f, t, Loop(t, events, pos + 1, Frame(m, m, true, 0, false)));
        g := f.(index := f.index + 1, wantsKey := true);
        ItemParsed(s, t, u, p);
        StartsReady(u, p, true);
      case Nested(items) =>
        AtHead(events, pos, SequenceStart, ItemEvents(items));
        StartsReady(s, p, true);
        u := ParseItems(s, events, pos + 1, Frame(p, p, true, 0, true), items);
        LoopEntersSequence(s, events, pos, f);
        g := f.(wantsKey := true);
        BelowLinks(s, u, p);
        StartsReady(u, p, true);
    }
  }

  /** A mapping parsed into a new last child. */
  lemma ItemParsed(s: Store, t: Store, u: Store, p: Ptr)
    requires Linked(s) && p < |s| && Below(s, t, p) && Linked(t) && |t| == |s| + 1 && t[p].kids == s[p].kids + [|s|]
    requires Read(t, p) == Read(s, p).(kids := Read(s, p).kids + [Read(t, |s|)])
    requires Below(t, u, |s|)
    ensures Below(s, u, p) && Linked(u)
    ensures Read(u, p) == Read(s, p).(kids := Read(s, p).kids + [Read(u, |s|)])
  {
    hide Ordered, Below;
    var i := |s[p].kids|;
    assert t[p].kids[i] == |s|;
    ReadAfterChild(t, u, p, i);
    UnderSelf(t, p);
    KidIsUnder(t, p, p, i);
    BelowLinks(t, u, |s|);
    BelowWiden(t, u, |s|, p);
    BelowTrans(s, t, u, p);
    assert |Read(s, p).kids| == i;
  }

  // ---------- a whole file ----------

  /** The events of a file with one document. */
  function FileEvents(v: Value): seq<Event> {
    [OtherEvent, DocumentStart(Some((1, 1)))] + Events(v) + [OtherEvent, StreamEnd]
  }

  /** A bare scalar is taken for a key. */
  function FileInto(t: Tree, v: Value): Tree {
    match v
    case Leaf(value) => KeyInto(t, value).0
    case Map(entries) => EntriesInto(t, entries)
    case List(items) => ItemsInto(t, 0, items)
  }

  /** The document's value, as the outermost call meets it. */
  lemma ParseRoot(s: Store, events: seq<Event>, pos: nat, root: Ptr, v: Value) returns (t: Store, g: Frame)
    requires Linked(s) && root < |s| && At(events, pos, Events(v))
    ensures Ready(s, Frame(root, root, true, 0, false)) && Ready(t, g) && Below(s, t, root)
    ensures Read(t, root) == FileInto(Read(s, root), v)
    ensures Loop(s, events, pos, Frame(root, root, true, 0, false)) == Loop(t, events, pos + |Events(v)|, g)
  {
    hide Loop, Ordered, Below, Under, EntriesInto, ItemsInto, Read, KeyInto, TakeKey;
    var f := Frame(root, root, true, 0, false);
    StartsReady(s, root, false);
    match v {
      case Leaf(value) =>
        AtHead(events, pos, Scalar(value), []);
        LoopTakesScalar(s, events, pos, f, value);
        KeyReads(s, f, value);
        t, g := TakeKey(s, f, value).0, TakeKey(s, f, value).1;
      case Map(entries) =>
        AtHead(events, pos, MappingStart, EntryEvents(entries));
        t := ParseEntries(s, events, pos + 1, f, entries);
        LoopEntersMapping(s, events, pos, f);
        g := f;
        BelowLinks(s, t, root);
        StartsReady(t, root, false);
      case List(items) =>
        AtHead(events, pos, SequenceStart, ItemEvents(items));
        StartsReady(s, root, true);
        t := ParseItems(s, events, pos + 1, Frame(root, root, true, 0, true), items);
        LoopEntersSequence(s, events, pos, f);
        g := f;
        BelowLinks(s, t, root);
        StartsReady(t, root, false);
    }
  }

  lemma FileLayout(v: Value)
    ensures
      var events, body := FileEvents(v), Events(v);
      && |events| == |body| + 4 && events[0] == OtherEvent && events[1] == DocumentStart(Some((1, 1)))
      && At(events, 2, body) && events[2 + |body|] == OtherEvent && events[3 + |body|] == StreamEnd
  {
  }

  /**
   Whatever tree was there, a file is consumed to its last event, and leaves a forest in which the root's
   tree is the old one with the document merged into it.
   */
  lemma FileIsMerged(s: Store, root: Ptr, v: Value)
    requires Linked(s) && Closed(s) && root < |s|
    ensures
      var r := Parse(s, FileEvents(v), 0, root, false);
      && r.code == 0 && r.pos == |FileEvents(v)|
      && Below(s, r.store, root) && Read(r.store, root) == FileInto(Read(s, root), v)
  {
    var events, n := FileEvents(v), |Events(v)|;
    FileLayout(v);
    hide FileEvents, Loop, Below, Read, FileInto, Events, Ordered, Under;
    var f := Frame(root, root, true, 0, false);
    LoopPasses(s, events, 0, f);
    LoopPasses(s, events, 1, f);
    var t, g := ParseRoot(s, events, 2, root, v);
    LoopPasses(t, events, 2 + n, g);
    LoopEnds(t, events, 3 + n, g);
  }
}
