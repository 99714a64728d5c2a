/** When the children that the parser gives a node have different names. */
module ConfNames {
  import opened Sequences
  import opened ConfStore
  import opened ConfForest
  import opened ConfYaml
  import opened ConfFrame
  import opened ConfDocument

  ghost predicate Distinct(names: seq<string>) { forall i, j :: 0 <= i < j < |names| ==> names[i] != names[j] }

  // ---------- merging keeps names ----------

  lemma {:induction false} IntoKeepsName(t: Tree, v: Value)
    ensures Into(t, v).name == t.name
    decreases v, 0
  {
    match v
    case Leaf(_) =>
    case Map(entries) => EntriesKeepName(t, entries);
    case List(items) => ItemsKeepName(t, 0, items);
  }

  lemma {:induction false} EntriesKeepName(t: Tree, entries: seq<Entry>)
    ensures EntriesInto(t, entries).name == t.name
    decreases |entries|
  {
    if entries != [] {
      var (u, i) := KeyInto(t, entries[0].key);
      EntriesKeepName(u.(kids := u.kids[i := Into(u.kids[i], entries[0].value)]), entries[1..]);
    }
  }

  lemma {:induction false} ItemsKeepName(t: Tree, index: nat, items: seq<Item>)
    ensures ItemsInto(t, index, items).name == t.name
    decreases items, 1
  {
    if items != [] {
      if items[0].Nested? {
        ItemsKeepName(t, 0, items[0].items);
      }
      ItemsKeepName(ItemInto(t, index, items[0]), if items[0].Nested? then index else index + 1, items[1..]);
    }
  }

  // ---------- the names of a mapping's children ----------

  function Keys(entries: seq<Entry>): (keys: seq<string>)
    ensures |keys| == |entries| && forall i :: 0 <= i < |entries| ==> keys[i] == entries[i].key
  {
    seq(|entries|, i requires 0 <= i < |entries| => entries[i].key)
  }

  function NamesAfter(parent: string, names: seq<string>, keys: seq<string>): seq<string>
    decreases |keys|
  {
    if keys == [] then names
    else NamesAfter(parent, if keys[0] in names then names else names + [KeyName(parent, keys[0])], keys[1..])
  }

  lemma {:induction false} EntryNames(t: Tree, entries: seq<Entry>)
    ensures TreeNames(EntriesInto(t, entries).kids) == NamesAfter(t.name, TreeNames(t.kids), Keys(entries))
    decreases |entries|
  {
    if entries != [] {
      var (u, i) := KeyInto(t, entries[0].key);
      var w := u.(kids := u.kids[i := Into(u.kids[i], entries[0].value)]);
      IntoKeepsName(u.kids[i], entries[0].value);
      assert TreeNames(w.kids) == TreeNames(u.kids);
      assert TreeNames(u.kids) == if entries[0].key in TreeNames(t.kids) then TreeNames(t.kids)
                                  else TreeNames(t.kids) + [KeyName(t.name, entries[0].key)];
      assert Keys(entries)[1..] == Keys(entries[1..]);
      EntryNames(w, entries[1..]);
    }
  }

  lemma KeyNameTwice(parent: string, key: string)
    ensures KeyName(parent, KeyName(parent, key)) == KeyName(parent, key)
  {
    assert Mangle(Mangle(key)) == Mangle(key);
  }

  /** A key is stored with every underscore replaced, except under the two parents that keep them. */
  lemma StoredName(parent: string, key: string)
    ensures
      var name, keeps := KeyName(parent, key), parent == "address-groups" || parent == "port-groups";
      |name| == |key| && forall i :: 0 <= i < |key| ==> name[i] == if key[i] == '_' && !keeps then '-' else key[i]
  {
  }

  // ---------- repeated keys ----------

  ghost predicate PlainLeaves(entries: seq<Entry>) {
    forall i :: 0 <= i < |entries| ==> '_' !in entries[i].key && entries[i].value.Leaf?
  }

  /** The value of the last entry with the key. */
  function LastValue(entries: seq<Entry>, key: string): Option<string> {
    if entries == [] then None else
    var later := LastValue(entries[1..], key);
    if later.Some? then later
    else if entries[0].key == key && entries[0].value.Leaf? then Some(entries[0].value.value)
    else None
  }

  /** What a lookup of one name under a tree's root finds. */
  function ValueAt(t: Tree, key: string): Option<string> {
    var i := FirstIndex(TreeNames(t.kids), key);
    if i.None? then None else t.kids[i.value].val
  }

  ghost predicate Open(t: Tree) { !t.isSeq && forall i :: 0 <= i < |t.kids| ==> t.kids[i].allow }

  lemma OneLeaf(t: Tree, e: Entry, key: string)
    requires Open(t) && '_' !in e.key && e.value.Leaf?
    ensures
      var (u, i) := KeyInto(t, e.key);
      var w := u.(kids := u.kids[i := Into(u.kids[i], e.value)]);
      Open(w) && w.name == t.name && ValueAt(w, key) == if e.key == key then Some(e.value.value) else ValueAt(t, key)
  {
    var (u, i) := KeyInto(t, e.key);
    var w := u.(kids := u.kids[i := Into(u.kids[i], e.value)]);
    PlainName(t.name, e.key);
    assert TreeNames(w.kids) == TreeNames(u.kids);
    var names, more := TreeNames(t.kids), TreeNames(u.kids);
    assert more == if e.key in names then names else names + [e.key];
    FirstInLonger(names, e.key, key);
  }

  lemma FirstInLonger(names: seq<string>, name: string, key: string)
    ensures
      var more := if name in names then names else names + [name];
      FirstIndex(more, key) == if name !in names && name == key then Some(|names|) else FirstIndex(names, key)
  {
    var more := if name in names then names else names + [name];
    assert forall i :: 0 <= i < |names| ==> more[i] == names[i];
    assert name !in names ==> more[|names|] == name;
  }

  lemma PlainName(parent: string, key: string)
    requires '_' !in key
    ensures KeyName(parent, key) == key
  {
    assert Mangle(key) == key;
  }

  /** Under keys without underscores, a repeated key keeps its first place and its last value, and other values stay. */
  lemma {:induction false} RepeatedKeysKeepTheLastValue(t: Tree, entries: seq<Entry>, key: string)
    requires Open(t) && PlainLeaves(entries)
    ensures ValueAt(EntriesInto(t, entries), key) ==
            if LastValue(entries, key).Some? then LastValue(entries, key) else ValueAt(t, key)
    decreases |entries|
  {
    if entries != [] {
      var (u, i) := KeyInto(t, entries[0].key);
      OneLeaf(t, entries[0], key);
      hide Open, KeyInto, ValueAt;
      RepeatedKeysKeepTheLastValue(u.(kids := u.kids[i := Into(u.kids[i], entries[0].value)]), entries[1..], key);
    }
  }

  /** No key that mangling changes has the stored name of an earlier key. */
  ghost predicate NoLateMangling(parent: string, keys: seq<string>) {
    forall i, j :: 0 <= i < j < |keys| ==> KeyName(parent, keys[j]) == keys[j] || KeyName(parent, keys[i]) != KeyName(parent, keys[j])
  }

  /** `names` are the stored names of the keys so far. */
  ghost predicate NamesOf(parent: string, names: seq<string>, keys: seq<string>) {
    && (forall i :: 0 <= i < |keys| ==> KeyName(parent, keys[i]) in names)
    && (forall n :: n in names ==> exists i :: 0 <= i < |keys| && KeyName(parent, keys[i]) == n)
    && (Distinct(names) <==> NoLateMangling(parent, keys))
  }

  lemma OneMoreKey(parent: string, names: seq<string>, keys: seq<string>, key: string)
    requires NamesOf(parent, names, keys)
    ensures NamesOf(parent, if key in names then names else names + [KeyName(parent, key)], keys + [key])
  {
    var all, more := keys + [key], if key in names then names else names + [KeyName(parent, key)];
    forall n | n in names ensures KeyName(parent, n) == n {
      var i :| 0 <= i < |keys| && KeyName(parent, keys[i]) == n;
      KeyNameTwice(parent, keys[i]);
    }
    forall n | n in more ensures exists i :: 0 <= i < |all| && KeyName(parent, all[i]) == n {
      if n in names {
        var i :| 0 <= i < |keys| && KeyName(parent, keys[i]) == n;
        assert all[i] == keys[i];
      } else {
        assert all[|keys|] == key;
      }
    }
    forall i | 0 <= i < |all| ensures KeyName(parent, all[i]) in more {
      assert i < |keys| ==> all[i] == keys[i];
    }
    OneMoreName(names, KeyName(parent, key));
    LateManglingSnoc(parent, keys, key);
  }

  lemma OneMoreName(names: seq<string>, name: string)
    ensures Distinct(names + [name]) <==> Distinct(names) && name !in names
  {
    var more := names + [name];
    if Distinct(more) {
      forall i, j | 0 <= i < j < |names| ensures names[i] != names[j] {
        assert more[i] != more[j];
      }
      forall i | 0 <= i < |names| ensures names[i] != name {
        assert more[i] != more[|names|];
      }
    }
  }

  lemma LateManglingSnoc(parent: string, keys: seq<string>, key: string)
    ensures NoLateMangling(parent, keys + [key]) <==>
            && NoLateMangling(parent, keys)
            && (KeyName(parent, key) == key || forall i :: 0 <= i < |keys| ==> KeyName(parent, keys[i]) != KeyName(parent, key))
  {
    var all := keys + [key];
    if NoLateMangling(parent, all) {
      forall i, j | 0 <= i < j < |keys|
        ensures KeyName(parent, keys[j]) == keys[j] || KeyName(parent, keys[i]) != KeyName(parent, keys[j])
      {
        assert all[i] == keys[i] && all[j] == keys[j];
      }
      forall i | 0 <= i < |keys| && KeyName(parent, key) != key ensures KeyName(parent, keys[i]) != KeyName(parent, key) {
        assert all[i] == keys[i] && all[|keys|] == key;
      }
    }
  }

  lemma {:induction false} NamesOfAll(parent: string, names: seq<string>, done: seq<string>, keys: seq<string>)
    requires NamesOf(parent, names, done)
    ensures NamesOf(parent, NamesAfter(parent, names, keys), done + keys)
    decreases |keys|
  {
    hide NamesOf, KeyName;
    if keys == [] {
      assert done + keys == done;
    } else {
      OneMoreKey(parent, names, done, keys[0]);
      var more := if keys[0] in names then names else names + [KeyName(parent, keys[0])];
      NamesOfAll(parent, more, done + [keys[0]], keys[1..]);
      assert done + [keys[0]] + keys[1..] == done + keys;
    }
  }

  /**
   The children stored for a mapping, whatever its keys and values, repeats included, have different names if
   and only if no key that mangling changes has the stored name of an earlier key.
   */
  lemma ChildrenDifferUnlessMangledLate(s: Store, events: seq<Event>, pos: nat, f: Frame, entries: seq<Entry>)
    requires Ready(s, f) && !f.inSeq && f.wantsKey && At(events, pos, EntryEvents(entries))
    requires s[f.parent].kids == []
    ensures
      var t, keys := Loop(s, events, pos, f).store, Keys(entries);
      && Linked(t) && f.parent < |t|
      && (Distinct(Names(t, t[f.parent].kids)) <==>
          forall i, j :: 0 <= i < j < |keys| ==>
            KeyName(s[f.parent].name, keys[j]) == keys[j] ||
            KeyName(s[f.parent].name, keys[i]) != KeyName(s[f.parent].name, keys[j]))
  {
    hide Loop, Below, EntriesInto, KeyName, Distinct, NamesAfter, Ordered, Under;
    var parent := s[f.parent].name;
    var t := ParseEntries(s, events, pos, f, entries);
    BelowLinks(s, t, f.parent);
    ReadNames(t, f.parent);
    EntryNames(Read(s, f.parent), entries);
    assert TreeNames(Read(s, f.parent).kids) == [];
    NamesAfterAll(parent, Keys(entries));
  }

  lemma NamesAfterAll(parent: string, keys: seq<string>)
    ensures Distinct(NamesAfter(parent, [], keys)) <==> NoLateMangling(parent, keys)
  {
    NamesOfAll(parent, [], [], keys);
    assert [] + keys == keys;
  }

  lemma NewKeyInto(t: Tree, key: string)
    requires !t.isSeq && forall i :: 0 <= i < |t.kids| ==> t.kids[i].name != key
    ensures KeyInto(t, key) == (t.(kids := t.kids + [Fresh(KeyName(t.name, key))]), |t.kids|)
  {
  }

  /** Two equal keys with an underscore are not recognised as one: both nodes are made, under one name. */
  lemma UnderscoredKeyIsDuplicated(v: string, w: string)
    ensures
      EntriesInto(Fresh(""), [Entry("a_b", Leaf(v)), Entry("a_b", Leaf(w))]).kids ==
      [Tree("a-b", Some(v), false, true, []), Tree("a-b", Some(w), false, true, [])]
  {
    var first, second := Entry("a_b", Leaf(v)), Entry("a_b", Leaf(w));
    var a, b := Tree("a-b", Some(v), false, true, []), Tree("a-b", Some(w), false, true, []);
    assert Mangle("a_b") == "a-b" && "a_b"[1] != "a-b"[1];
    var none, one := Fresh(""), Fresh("").(kids := [a]);
    assert KeyName("", "a_b") == "a-b";
    NewKeyInto(none, "a_b");
    NewKeyInto(one, "a_b");
    hide KeyInto, KeyName;
    assert [] + [Fresh("a-b")] == [Fresh("a-b")] && [Fresh("a-b")][0 := a] == [a];
    assert [a] + [Fresh("a-b")] == [a, Fresh("a-b")] && [a, Fresh("a-b")][1 := b] == [a, b];
    assert [first, second][1..] == [second] && [second][1..] == [];
    assert EntriesInto(none, [first, second]) == EntriesInto(one, [second]);
    assert EntriesInto(one, [second]) == EntriesInto(none.(kids := [a, b]), []);
  }

  // ---------- the names of a list's items ----------

  function ItemNames(index: nat, items: seq<Item>): seq<string>
    decreases items
  {
    if items == [] then [] else
    match items[0]
    case Nested(inner) => ItemNames(0, inner) + ItemNames(index, items[1..])
    case _ => [Decimal(index)] + ItemNames(index + 1, items[1..])
  }

  lemma {:induction false} ItemsAddNames(t: Tree, index: nat, items: seq<Item>)
    ensures TreeNames(ItemsInto(t, index, items).kids) == TreeNames(t.kids) + ItemNames(index, items)
    decreases items
  {
    if items != [] {
      var u := ItemInto(t, index, items[0]);
      match items[0] {
        case Nested(inner) =>
          ItemsAddNames(t, 0, inner);
          ItemsAddNames(u, index, items[1..]);
        case Plain(_) =>
          assert TreeNames(u.kids) == TreeNames(t.kids) + [Decimal(index)];
          ItemsAddNames(u, index + 1, items[1..]);
        case Group(entries) =>
          EntriesKeepName(Tree(Decimal(index), None, true, true, []), entries);
          assert TreeNames(u.kids) == TreeNames(t.kids) + [Decimal(index)];
          ItemsAddNames(u, index + 1, items[1..]);
      }
    }
  }

  /** The list has an item that is not itself a list. */
  ghost predicate Holds(items: seq<Item>) { exists i :: 0 <= i < |items| && !items[i].Nested? }

  /** How many lists, of this one and those directly inside it at any depth, have an item that is not a list. */
  ghost function Holders(items: seq<Item>): nat
    decreases items, 1
  {
    (if Holds(items) then 1 else 0) + InnerHolders(items)
  }

  ghost function InnerHolders(items: seq<Item>): nat
    decreases items, 0
  {
    if items == [] then 0 else
    (if items[0].Nested? then Holders(items[0].items) else 0) + InnerHolders(items[1..])
  }

  lemma HoldsRest(items: seq<Item>)
    requires items != []
    ensures Holds(items) <==> !items[0].Nested? || Holds(items[1..])
  {
    assert forall i :: 1 <= i < |items| ==> items[i] == items[1..][i - 1];
  }

  lemma NothingHolds(index: nat, items: seq<Item>)
    requires items == []
    ensures !Holds(items) && ItemNames(index, items) == []
  {
  }

  lemma NamesStep(index: nat, items: seq<Item>)
    requires items != []
    ensures ItemNames(index, items) ==
            if items[0].Nested? then ItemNames(0, items[0].items) + ItemNames(index, items[1..])
            else [Decimal(index)] + ItemNames(index + 1, items[1..])
  {
  }

  lemma CountSum(a: seq<string>, b: seq<string>, name: string)
    ensures multiset(a + b)[name] == multiset(a)[name] + multiset(b)[name]
  {
  }

  /** Every list with an item of its own gives the parent one child named "0". */
  lemma {:induction false} ZerosAreHolders(index: nat, items: seq<Item>)
    ensures multiset(ItemNames(index, items))[Decimal(0)] ==
            (if index == 0 && Holds(items) then 1 else 0) + InnerHolders(items)
    decreases items
  {
    hide Holds, Decimal, ItemNames;
    if items == [] {
      NothingHolds(index, items);
    } else {
      HoldsRest(items);
      NamesStep(index, items);
      if items[0].Nested? {
        ZerosAreHolders(0, items[0].items);
        ZerosAreHolders(index, items[1..]);
        CountSum(ItemNames(0, items[0].items), ItemNames(index, items[1..]), Decimal(0));
      } else {
        ZerosAreHolders(index + 1, items[1..]);
        ItemNamesDiffer(index, 0);
        CountSum([Decimal(index)], ItemNames(index + 1, items[1..]), Decimal(0));
      }
    }
  }

  lemma DistinctCounts(names: seq<string>, name: string)
    requires Distinct(names)
    ensures multiset(names)[name] <= 1
    decreases |names|
  {
    if names != [] {
      var front, last := names[..|names| - 1], names[|names| - 1];
      assert names == front + [last];
      OneMoreName(front, last);
      DistinctCounts(front, name);
    }
  }

  lemma {:induction false} NothingHeld(index: nat, items: seq<Item>)
    requires Holders(items) == 0
    ensures ItemNames(index, items) == []
    decreases items
  {
    if items != [] {
      HoldsRest(items);
      NothingHeld(0, items[0].items);
      NothingHeld(index, items[1..]);
    }
  }

  /** If no list inside holds anything, the names count up from the index. */
  lemma {:induction false} NamesCountUp(index: nat, items: seq<Item>)
    requires InnerHolders(items) == 0
    ensures forall i :: 0 <= i < |ItemNames(index, items)| ==> ItemNames(index, items)[i] == Decimal(index + i)
    decreases items
  {
    if items != [] {
      if items[0].Nested? {
        NothingHeld(0, items[0].items);
        NamesCountUp(index, items[1..]);
      } else {
        NamesCountUp(index + 1, items[1..]);
      }
    }
  }

  lemma {:induction false} OneHolderIsDistinct(items: seq<Item>)
    requires Holders(items) <= 1
    ensures Distinct(ItemNames(0, items))
    decreases items
  {
    if InnerHolders(items) == 0 {
      NamesCountUp(0, items);
      var names := ItemNames(0, items);
      forall i, j | 0 <= i < j < |names| ensures names[i] != names[j] {
        ItemNamesDiffer(i, j);
      }
    } else {
      HoldsRest(items);
      var inner, rest := items[0].items, items[1..];
      if Holders(inner) == 0 {
        NothingHeld(0, inner);
        OneHolderIsDistinct(rest);
        assert ItemNames(0, items) == ItemNames(0, rest);
      } else {
        NothingHeld(0, rest);
        OneHolderIsDistinct(inner);
        assert ItemNames(0, items) == ItemNames(0, inner);
      }
    }
  }

  /**
   The children stored for a list have different names if and only if at most one list, of it and those
   directly inside it at any depth, has an item that is not itself a list.
   */
  lemma ItemsDifferUnlessListsAreNested(s: Store, events: seq<Event>, pos: nat, f: Frame, items: seq<Item>)
    requires Ready(s, f) && f.inSeq && f.node == f.parent && f.index == 0 && At(events, pos, ItemEvents(items))
    requires s[f.parent].kids == []
    ensures
      var t := Loop(s, events, pos, f).store;
      && Linked(t) && f.parent < |t|
      && (Distinct(Names(t, t[f.parent].kids)) <==> Holders(items) <= 1)
  {
    hide Loop, Below, ItemsInto, Holders, ItemNames, Distinct;
    var t := ParseItems(s, events, pos, f, items);
    BelowLinks(s, t, f.parent);
    ReadNames(t, f.parent);
    ItemsAddNames(Read(s, f.parent), 0, items);
    assert TreeNames(Read(s, f.parent).kids) == [];
    assert [] + ItemNames(0, items) == ItemNames(0, items);
    NamesDifferWithOneHolder(items);
  }

  lemma NamesDifferWithOneHolder(items: seq<Item>)
    ensures Distinct(ItemNames(0, items)) <==> Holders(items) <= 1
  {
    if Distinct(ItemNames(0, items)) {
      ZerosAreHolders(0, items);
      DistinctCounts(ItemNames(0, items), Decimal(0));
    }
    if Holders(items) <= 1 {
      OneHolderIsDistinct(items);
    }
  }

  /** A list in a list, and an item after it: two children named "0". */
  lemma NestedListDuplicatesAName(a: string, b: string)
    ensures
      ItemsInto(Fresh("k"), 0, [Nested([Plain(a)]), Plain(b)]).kids ==
      [Tree("0", Some(a), false, true, []), Tree("0", Some(b), false, true, [])]
  {
    var t := Fresh("k");
    var u := t.(kids := [Tree("0", Some(a), false, true, [])]);
    var items := [Nested([Plain(a)]), Plain(b)];
    assert items[1..] == [Plain(b)] && [Plain(b)][1..] == [] && [Plain(a)][1..] == [];
    assert ItemsInto(t, 0, [Plain(a)]) == ItemsInto(u, 1, []);
    assert ItemsInto(t, 0, items) == ItemsInto(u, 0, [Plain(b)]);
    assert ItemsInto(u, 0, [Plain(b)]) == ItemsInto(ItemInto(u, 0, Plain(b)), 1, []);
  }

  // ---------- numerals ----------

  function DigitValue(c: char): nat {
    if '0' <= c <= '9' then (c - '0') as nat else 0
  }

  function Value(s: string): nat { if s == [] then 0 else 10 * Value(s[..|s| - 1]) + DigitValue(s[|s| - 1]) }

  lemma {:induction false} DecimalValue(n: nat)
    ensures Decimal(n) != [] && Value(Decimal(n)) == n
  {
    if n >= 10 {
      DecimalValue(n / 10);
      assert Decimal(n)[..|Decimal(n)| - 1] == Decimal(n / 10);
    } else {
      assert Decimal(n)[..0] == [];
    }
  }

  lemma ItemNamesDiffer(a: nat, b: nat)
    ensures Decimal(a) == Decimal(b) <==> a == b
  {
    DecimalValue(a);
    DecimalValue(b);
  }
}
