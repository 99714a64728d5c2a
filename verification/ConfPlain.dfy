/** Documents whose keys are all new when they come: one child for every entry, and the tree of a plain file. */
module ConfPlain {
  import opened Sequences
  import opened ConfStore
  import opened ConfForest
  import opened ConfYaml
  import opened ConfFrame
  import opened ConfDocument
  import opened ConfNames

  // ---------- the expected tree ----------

  function LeafValue(v: Value): Option<string> { if v.Leaf? then Some(v.value) else None }

  /** The children a value gives to the node called `name`. */
  function Kids(name: string, v: Value): seq<Tree>
    decreases v, 0
  {
    match v
    case Leaf(_) => []
    case Map(entries) => EntryKids(name, entries)
    case List(items) => ItemKids(0, items)
  }

  function EntryTree(name: string, v: Value): Tree
    decreases v, 1
  {
    Tree(name, LeafValue(v), false, true, Kids(name, v))
  }

  function EntryKids(name: string, entries: seq<Entry>): seq<Tree>
    decreases entries, 1
  {
    if entries == [] then [] else
    [EntryTree(KeyName(name, entries[0].key), entries[0].value)] + EntryKids(name, entries[1..])
  }

  /** List items are named by their positions; a list in the list counts anew. */
  function ItemKids(index: nat, items: seq<Item>): seq<Tree>
    decreases items, 1
  {
    if items == [] then [] else OneItemKids(index, items[0]) + ItemKids(After(index, items[0]), items[1..])
  }

  function After(index: nat, item: Item): nat { if item.Nested? then index else index + 1 }

  /** A mapping item has its first key as value. */
  function OneItemKids(index: nat, item: Item): seq<Tree>
    decreases item, 0
  {
    match item
    case Plain(value) => [Tree(Decimal(index), Some(value), false, true, [])]
    case Group(entries) => [Tree(Decimal(index), FirstKey(entries), true, true, EntryKids(Decimal(index), entries))]
    case Nested(inner) => ItemKids(0, inner)
  }

  function FirstKey(entries: seq<Entry>): Option<string> {
    if entries == [] then None else Some(Mangle(entries[0].key))
  }

  // ---------- keys that are new when they come ----------

  /** No key equals an earlier sibling's stored name, here and below. */
  predicate Good(name: string, v: Value)
    decreases v, 0
  {
    match v
    case Leaf(_) => true
    case Map(entries) => GoodEntries(name, entries)
    case List(items) => GoodItems(0, items)
  }

  predicate GoodEntries(name: string, entries: seq<Entry>)
    decreases entries, 1
  {
    if entries == [] then true else
    var key := KeyName(name, entries[0].key);
    && (forall j :: 1 <= j < |entries| ==> entries[j].key != key)
    && Good(key, entries[0].value)
    && GoodEntries(name, entries[1..])
  }

  predicate GoodItems(index: nat, items: seq<Item>)
    decreases items, 1
  {
    items == [] || (GoodItem(index, items[0]) && GoodItems(After(index, items[0]), items[1..]))
  }

  predicate GoodItem(index: nat, item: Item)
    decreases item, 0
  {
    match item
    case Plain(_) => true
    case Group(entries) => GoodEntries(Decimal(index), entries)
    case Nested(inner) => GoodItems(0, inner)
  }

  /** No key is the name of a child that is already there. */
  ghost predicate NoClash(kids: seq<Tree>, entries: seq<Entry>) {
    forall i, j :: 0 <= i < |kids| && 0 <= j < |entries| ==> kids[i].name != entries[j].key
  }

  /** A good value makes of a fresh node exactly its tree. */
  lemma {:induction false} GoodValueIsItsTree(name: string, v: Value)
    requires Good(name, v)
    ensures Into(Fresh(name), v) == EntryTree(name, v)
    decreases v, 0
  {
    match v
    case Leaf(_) =>
    case Map(entries) => GoodEntriesAreAdded(Fresh(name), entries);
    case List(items) => GoodItemsAreAdded(Fresh(name), 0, items);
  }

  /** What `FirstKey` gives a list item, and nothing to another node. */
  function LabelOf(t: Tree, entries: seq<Entry>): Option<string> {
    if t.isSeq && t.val.None? then FirstKey(entries) else t.val
  }

  lemma {:induction false} GoodEntriesAreAdded(t: Tree, entries: seq<Entry>)
    requires GoodEntries(t.name, entries) && NoClash(t.kids, entries)
    ensures EntriesInto(t, entries) == t.(val := LabelOf(t, entries), kids := t.kids + EntryKids(t.name, entries))
    decreases entries, 1
  {
    hide KeyName, NoClash, KeyInto, Into, EntryTree;
    if entries == [] {
      assert t.kids + [] == t.kids;
    } else {
      var e, rest := entries[0], entries[1..];
      var name := KeyName(t.name, e.key);
      var u := Labelled(t, e.key);
      var tree := EntryTree(name, e.value);
      NewKey(t, entries);
      GoodValueIsItsTree(name, e.value);
      var w := u.(kids := u.kids + [tree]);
      assert (u.kids + [Fresh(name)])[|u.kids| := tree] == w.kids;
      assert EntriesInto(t, entries) == EntriesInto(w, rest);
      NoClashAfter(t.kids, name, tree, entries);
      GoodEntriesAreAdded(w, rest);
      assert t.kids + [tree] + EntryKids(t.name, rest) == t.kids + EntryKids(t.name, entries);
    }
  }

  lemma NewKey(t: Tree, entries: seq<Entry>)
    requires entries != [] && NoClash(t.kids, entries)
    ensures
      var u := Labelled(t, entries[0].key);
      KeyInto(t, entries[0].key) == (u.(kids := u.kids + [Fresh(KeyName(t.name, entries[0].key))]), |u.kids|)
  {
  }

  lemma NoClashAfter(kids: seq<Tree>, name: string, tree: Tree, entries: seq<Entry>)
    requires entries != [] && NoClash(kids, entries) && forall j :: 1 <= j < |entries| ==> entries[j].key != name
    requires tree == EntryTree(name, entries[0].value)
    ensures NoClash(kids + [tree], entries[1..])
  {
  }

  lemma {:induction false} GoodItemsAreAdded(t: Tree, index: nat, items: seq<Item>)
    requires GoodItems(index, items)
    ensures ItemsInto(t, index, items) == t.(kids := t.kids + ItemKids(index, items))
    decreases items, 1
  {
    hide ItemInto, OneItemKids, GoodItem;
    if items == [] {
      assert t.kids + [] == t.kids;
    } else {
      var u, n, rest := ItemInto(t, index, items[0]), After(index, items[0]), items[1..];
      GoodItemIsAdded(t, index, items[0]);
      GoodItemsAreAdded(u, n, rest);
      assert t.kids + OneItemKids(index, items[0]) + ItemKids(n, rest) == t.kids + ItemKids(index, items);
    }
  }

  lemma {:induction false} GoodItemIsAdded(t: Tree, index: nat, item: Item)
    requires GoodItem(index, item)
    ensures ItemInto(t, index, item) == t.(kids := t.kids + OneItemKids(index, item))
    decreases item, 0
  {
    match item
    case Plain(_) =>
    case Group(entries) =>
      GoodEntriesAreAdded(Tree(Decimal(index), None, true, true, []), entries);
      assert [] + EntryKids(Decimal(index), entries) == EntryKids(Decimal(index), entries);
    case Nested(inner) => GoodItemsAreAdded(t, 0, inner);
  }

  // ---------- plain documents ----------

  /** Keys without underscores, different at each level, and no list directly inside a list. */
  ghost predicate PlainValue(v: Value)
    decreases v, 0
  {
    match v
    case Leaf(_) => true
    case Map(entries) => PlainEntries(entries)
    case List(items) => forall i :: 0 <= i < |items| ==> PlainItem(items[i])
  }

  ghost predicate PlainItem(item: Item)
    decreases item, 0
  {
    match item
    case Plain(_) => true
    case Group(entries) => PlainEntries(entries)
    case Nested(_) => false
  }

  ghost predicate PlainEntries(entries: seq<Entry>)
    decreases entries, 1
  {
    && (forall i :: 0 <= i < |entries| ==> '_' !in entries[i].key && PlainValue(entries[i].value))
    && (forall i, j :: 0 <= i < j < |entries| ==> entries[i].key != entries[j].key)
  }

  lemma {:induction false} PlainIsGood(name: string, v: Value)
    requires PlainValue(v)
    ensures Good(name, v)
    decreases v, 0
  {
    match v
    case Leaf(_) =>
    case Map(entries) => PlainEntriesAreGood(name, entries);
    case List(items) => PlainItemsAreGood(0, items);
  }

  /** Distinct keys without underscores, at every level, are new when they come. */
  lemma {:induction false} PlainEntriesAreGood(name: string, entries: seq<Entry>)
    requires PlainEntries(entries)
    ensures GoodEntries(name, entries)
    decreases entries, 1
  {
    if entries != [] {
      PlainName(name, entries[0].key);
      PlainIsGood(entries[0].key, entries[0].value);
      assert forall i :: 0 <= i < |entries[1..]| ==> entries[1..][i] == entries[i + 1];
      PlainEntriesAreGood(name, entries[1..]);
    }
  }

  lemma {:induction false} PlainItemsAreGood(index: nat, items: seq<Item>)
    requires forall i :: 0 <= i < |items| ==> PlainItem(items[i])
    ensures GoodItems(index, items)
    decreases items, 1
  {
    if items != [] {
      if items[0].Group? {
        PlainEntriesAreGood(Decimal(index), items[0].entries);
      }
      assert GoodItem(index, items[0]);
      PlainItemsAreGood(index + 1, items[1..]);
    }
  }

  /** At every node of the tree the children have different names. */
  ghost predicate Apart(t: Tree) {
    Distinct(TreeNames(t.kids)) && forall i :: 0 <= i < |t.kids| ==> Apart(t.kids[i])
  }

  lemma {:induction false} PlainValueIsApart(name: string, v: Value)
    requires PlainValue(v)
    ensures Apart(EntryTree(name, v))
    decreases v, 1
  {
    match v
    case Leaf(_) =>
    case Map(entries) =>
      assert Kids(name, v) == EntryKids(name, entries);
      PlainEntriesAreApart(name, entries, EntryTree(name, v));
    case List(items) =>
      assert Kids(name, v) == ItemKids(0, items);
      PlainItemsAreApart(items, EntryTree(name, v));
  }

  lemma {:induction false} PlainEntriesAreApart(name: string, entries: seq<Entry>, t: Tree)
    requires PlainEntries(entries) && t.kids == EntryKids(name, entries)
    ensures Apart(t)
    decreases entries, 1
  {
    forall i | 0 <= i < |t.kids| ensures i < |entries| && t.kids[i].name == entries[i].key && Apart(t.kids[i]) {
      EntryKidAt(name, entries, i);
      PlainName(name, entries[i].key);
      PlainValueIsApart(KeyName(name, entries[i].key), entries[i].value);
    }
  }

  lemma {:induction false} EntryKidAt(name: string, entries: seq<Entry>, i: nat)
    ensures |EntryKids(name, entries)| == |entries|
    ensures i < |entries| ==> EntryKids(name, entries)[i] == EntryTree(KeyName(name, entries[i].key), entries[i].value)
    decreases entries
  {
    if entries != [] {
      EntryKidAt(name, entries[1..], if i > 0 then i - 1 else 0);
    }
  }

  lemma {:induction false} PlainItemsAreApart(items: seq<Item>, t: Tree)
    requires (forall i :: 0 <= i < |items| ==> PlainItem(items[i])) && t.kids == ItemKids(0, items)
    ensures Apart(t)
    decreases items, 1
  {
    forall i | 0 <= i < |t.kids| ensures t.kids[i].name == Decimal(i) && Apart(t.kids[i]) {
      ItemKidAt(0, items, i);
      assert t.kids[i] == [t.kids[i]][0];
      if items[i].Group? {
        PlainEntriesAreApart(Decimal(i), items[i].entries, t.kids[i]);
      }
    }
    forall i, j | 0 <= i < j < |t.kids| ensures t.kids[i].name != t.kids[j].name {
      ItemNamesDiffer(i, j);
    }
  }

  lemma {:induction false} ItemKidAt(index: nat, items: seq<Item>, i: nat)
    requires forall i :: 0 <= i < |items| ==> PlainItem(items[i])
    ensures |ItemKids(index, items)| == |items|
    ensures i < |items| ==> [ItemKids(index, items)[i]] == OneItemKids(index + i, items[i])
    decreases items
  {
    if items != [] {
      ItemKidAt(index + 1, items[1..], if i > 0 then i - 1 else 0);
    }
  }

  /**
   A file whose keys have no underscore and are different at each level, with no list directly inside a list,
   leaves under a fresh root exactly the document's tree, one child for every entry and item, and nowhere two
   siblings of one name.
   */
  lemma PlainFileBecomesItsTree(entries: seq<Entry>)
    requires PlainEntries(entries)
    ensures
      var r := Parse([NewNode("", None)], FileEvents(Map(entries)), 0, 0, false);
      var tree := Tree("", None, false, true, EntryKids("", entries));
      r.code == 0 && Linked(r.store) && Read(r.store, 0) == tree && Apart(tree)
  {
    var root := [NewNode("", None)];
    assert Linked(root) && Read(root, 0) == Fresh("");
    OrderedIsClosed(root);
    FileIsMerged(root, 0, Map(entries));
    PlainEntriesAreGood("", entries);
    GoodEntriesAreAdded(Fresh(""), entries);
    assert [] + EntryKids("", entries) == EntryKids("", entries);
    hide FileEvents, Loop;
    PlainEntriesAreApart("", entries, Tree("", None, false, true, EntryKids("", entries)));
  }
}
