/** The configuration operations of yaml_conf.c on the node store, and the map they implement. */
module ConfTree {
  import opened Sequences
  import opened ConfStore
  import opened ConfForest
  import opened ConfYaml
  import opened ConfYamlParser
  import opened ConfFrame
  import opened ConfOutcome

  // ---------- names ----------

  /** The length of the leading part without a dot. */
  function WordLength(s: string): (n: nat)
    ensures n <= |s| && (n < |s| ==> s[n] == '.')
  {
    if s == [] || s[0] == '.' then 0 else 1 + WordLength(s[1..])
  }

  /** strtok_r with ".": maximal dot-free pieces, empty ones skipped. */
  function Tokens(name: string): Path {
    if name == [] then []
    else if name[0] == '.' then Tokens(name[1..])
    else var n := WordLength(name); [name[..n]] + Tokens(name[n..])
  }

  function Join(path: Path): string {
    if path == [] then [] else if |path| == 1 then path[0] else path[0] + "." + Join(path[1..])
  }

  ghost predicate Nameable(path: Path) {
    forall i :: 0 <= i < |path| ==> path[i] != [] && '.' !in path[i]
  }

  lemma {:induction false} WordBeforeDot(word: string, rest: string)
    requires '.' !in word && (rest == [] || rest[0] == '.')
    ensures WordLength(word + rest) == |word|
  {
    if word == [] {
      assert word + rest == rest;
    } else {
      assert (word + rest)[1..] == word[1..] + rest;
      WordBeforeDot(word[1..], rest);
    }
  }

  /** Every path of non-empty dot-free components is the token list of its dotted name. */
  lemma {:induction false} TokensOfJoin(path: Path)
    requires Nameable(path)
    ensures Tokens(Join(path)) == path
  {
    if |path| == 1 {
      WordBeforeDot(path[0], []);
      assert path[0] + [] == path[0];
    } else if |path| > 1 {
      var word, rest := path[0], "." + Join(path[1..]);
      TokensOfJoin(path[1..]);
      WordBeforeDot(word, rest);
      assert Join(path) == word + rest;
      assert (word + rest)[..|word|] == word && (word + rest)[|word|..] == rest;
      assert rest[1..] == Join(path[1..]);
    }
  }

  /** A dot separates: what stands before and after it is tokenised apart, so empty pieces vanish. */
  lemma {:induction false} TokensSplitAtDot(a: string, b: string)
    ensures Tokens(a + "." + b) == Tokens(a) + Tokens(b)
    decreases |a|
  {
    var s := a + "." + b;
    if a == [] {
      assert s[1..] == b;
    } else if a[0] == '.' {
      assert s[1..] == a[1..] + "." + b;
      TokensSplitAtDot(a[1..], b);
    } else {
      var n := WordLength(a);
      var word, rest := a[..n], a[n..];
      WordHasNoDot(a);
      assert s == word + (rest + "." + b);
      WordBeforeDot(word, rest + "." + b);
      assert s[n..] == rest + "." + b && s[..n] == word;
      TokensSplitAtDot(rest, b);
      assert [word] + (Tokens(rest) + Tokens(b)) == [word] + Tokens(rest) + Tokens(b);
    }
  }

  lemma {:induction false} WordHasNoDot(s: string)
    ensures '.' !in s[..WordLength(s)]
    ensures s != [] && s[0] != '.' ==> WordLength(s) > 0
  {
    if s != [] && s[0] != '.' {
      WordHasNoDot(s[1..]);
      assert s[..WordLength(s)] == [s[0]] + s[1..][..WordLength(s[1..])];
    }
  }

  // ---------- what a successful set does to the map ----------

  /** `t` has every prefix of `done`; those that `s` lacked are new and without a value; nothing else differs. */
  ghost predicate Grown(s: Store, t: Store, done: Path)
    requires Ordered(s) && Ordered(t)
  {
    forall q :: View(t, q) == if q <= done && View(s, q).None? then Some(Setting(None, true)) else View(s, q)
  }

  /** The path has the value; its missing prefixes exist without one; every other path is as before. */
  ghost predicate SetTo(s: Store, t: Store, path: Path, val: string, allow: bool)
    requires Ordered(s) && Ordered(t)
  {
    forall q :: View(t, q) ==
      if q == path then Some(Setting(Some(val), allow))
      else if q <= path && View(s, q).None? then Some(Setting(None, true))
      else View(s, q)
  }

  lemma FoundIsGrown(s: Store, path: Path)
    requires Linked(s) && Find(s, path).Some?
    ensures Grown(s, s, path)
  {
    forall q: Path | q <= path ensures Find(s, q).Some? {
      assert q == path[..|q|];
      if Find(s, q).None? {
        MissingPrefix(s, path, |q|);
      }
    }
  }

  lemma CreatedAllowsOverride(s: Store, t: Store, path: Path)
    requires Linked(s) && Linked(t) && Grown(s, t, path) && View(s, path).None? && Find(t, path).Some?
    ensures t[Find(t, path).value].allow
  {
    assert View(t, path) == Some(Setting(None, true));
  }

  lemma GrownByChild(s: Store, t: Store, done: Path, name: string)
    requires Linked(s) && Linked(t) && Grown(s, t, done) && Find(t, done).Some?
    requires Child(t, Find(t, done).value, name).Some?
    ensures Grown(s, t, done + [name])
    ensures Find(t, done + [name]) == Child(t, Find(t, done).value, name)
  {
    assert (done + [name])[..|done|] == done;
    assert View(t, done + [name]).Some?;
    forall q ensures View(t, q) == if q <= done + [name] && View(s, q).None? then Some(Setting(None, true)) else View(s, q) {
      assert q <= done + [name] <==> q <= done || q == done + [name];
    }
  }

  lemma GrownByAppend(s: Store, t: Store, done: Path, name: string)
    requires Linked(s) && Linked(t) && Grown(s, t, done) && Find(t, done).Some?
    requires Child(t, Find(t, done).value, name).None?
    ensures
      var u := Append(t, Find(t, done).value, name);
      Linked(u) && Grown(s, u, done + [name]) && Find(u, done + [name]) == Some(|t|)
  {
    var p := Find(t, done).value;
    var u := Append(t, p, name);
    assert (done + [name])[..|done|] == done;
    assert View(t, done + [name]).None?;
    AddNodeKeepsLinks(t, p, NewNode(name, Some(p)));
    AppendFind(t, done, p, name, done + [name]);
    forall q ensures View(u, q) == if q <= done + [name] && View(s, q).None? then Some(Setting(None, true)) else View(s, q) {
      AppendAddsOnePath(t, done, name, q);
      assert q <= done + [name] <==> q <= done || q == done + [name];
    }
  }

  lemma AssignCompletesSet(s: Store, t: Store, path: Path, val: string, allow: bool)
    requires Linked(s) && Linked(t) && Grown(s, t, path) && Find(t, path).Some?
    ensures
      var u := Assign(t, Find(t, path).value, val, allow);
      Linked(u) && SetTo(s, u, path, val, allow)
  {
    var u := Assign(t, Find(t, path).value, val, allow);
    AssignKeepsLinks(t, Find(t, path).value, val, allow);
    forall q ensures View(u, q) ==
      if q == path then Some(Setting(Some(val), allow))
      else if q <= path && View(s, q).None? then Some(Setting(None, true))
      else View(s, q)
    {
      AssignChangesOnePath(t, path, val, allow, q);
    }
  }

  // ---------- what a removal does to the map ----------

  ghost predicate RemovedFrom(s: Store, t: Store, path: Path)
    requires Ordered(s) && Ordered(t)
  {
    forall q :: View(t, q) == if path <= q then None else View(s, q)
  }

  lemma SameFindSameView(s: Store, t: Store, path: Path)
    requires Ordered(s) && Ordered(t) && |t| == |s|
    requires forall k :: 0 <= k < |s| ==> t[k].val == s[k].val && t[k].allow == s[k].allow
    requires forall q :: Find(t, q) == if path <= q then None else Find(s, q)
    ensures RemovedFrom(s, t, path)
  {
    forall q ensures View(t, q) == if path <= q then None else View(s, q) {
      assert Find(t, q) == if path <= q then None else Find(s, q);
    }
  }

  lemma TwinStays(s: Store, front: Path, p: Ptr, i: nat)
    requires Linked(s) && Find(s, front) == Some(p) && i < |s[p].kids| && Linked(Unlink(s, p, i)) && HasTwin(s, p, i)
    ensures Find(Unlink(s, p, i), front + [s[s[p].kids[i]].name]).Some?
  {
    var name := s[s[p].kids[i]].name;
    assert (front + [name])[..|front|] == front;
    UnlinkKeepsOtherPaths(s, front, p, i, front);
    ChildAfterUnlink(s, p, i, name);
  }

  /** Unlinking a node removes exactly its paths from the map if and only if no sibling has its name. */
  lemma UnlinkRemoves(s: Store, front: Path, p: Ptr, i: nat)
    requires Linked(s) && Find(s, front) == Some(p) && i < |s[p].kids|
    ensures
      var t, path := Unlink(s, p, i), front + [s[s[p].kids[i]].name];
      Linked(t) && (RemovedFrom(s, t, path) <==> !HasTwin(s, p, i))
  {
    var t, path := Unlink(s, p, i), front + [s[s[p].kids[i]].name];
    UnlinkKeepsLinks(s, p, i);
    hide Ordered, Unlink, Find, HasTwin;
    if HasTwin(s, p, i) {
      TwinStays(s, front, p, i);
      assert View(t, path).Some?;
    } else {
      UnlinkFind(s, front, p, i);
      SameFindSameView(s, t, path);
    }
  }

  /** Nothing the root leads to, by name or by any walk of the tree, has been freed. */
  ghost predicate NoDangling(s: Store, freed: set<Ptr>)
    requires Ordered(s)
  {
    forall q: nat :: Under(s, 0, q) ==> q !in freed
  }

  /** Unlinking a node before freeing it leaves nothing dangling. */
  lemma UnlinkedIsNotDangling(s: Store, p: Ptr, i: nat, freed: set<Ptr>)
    requires Linked(s) && p < |s| && i < |s[p].kids| && NoDangling(s, freed) && Linked(Unlink(s, p, i))
    ensures NoDangling(Unlink(s, p, i), freed + Subtree(s, s[p].kids[i]))
  {
    var t := Unlink(s, p, i);
    forall q: nat | Under(t, 0, q) ensures q !in freed + Subtree(s, s[p].kids[i]) {
      UnlinkedSubtreeIsUnreachable(s, p, i, q);
    }
  }

  lemma UnlinkKeepsSubtree(s: Store, p: Ptr, i: nat)
    requires Linked(s) && p < |s| && i < |s[p].kids| && Linked(Unlink(s, p, i))
    ensures Subtree(Unlink(s, p, i), s[p].kids[i]) == Subtree(s, s[p].kids[i])
  {
    var t, n := Unlink(s, p, i), s[p].kids[i];
    forall q: nat | q < |s| ensures Under(t, n, q) <==> Under(s, n, q) {
      SameUnder(s, t, n, q);
    }
  }

  lemma AppendIsNotDangling(s: Store, p: Ptr, name: string, freed: set<Ptr>)
    requires Linked(s) && p < |s| && NoDangling(s, freed) && Linked(Append(s, p, name)) && forall f :: f in freed ==> f < |s|
    ensures NoDangling(Append(s, p, name), freed)
  {
    forall q: nat | Under(Append(s, p, name), 0, q) ensures q !in freed {
      if q < |s| {
        AddedUnder(s, p, NewNode(name, Some(p)), 0, q);
      }
    }
  }

  lemma {:induction false} AssignKeepsUnder(s: Store, n: Ptr, val: string, allow: bool, m: Ptr, q: Ptr)
    requires Linked(s) && n < |s| && m < |s| && Ordered(Assign(s, n, val, allow))
    ensures Under(Assign(s, n, val, allow), m, q) <==> Under(s, m, q)
    decreases |s| - m
  {
    forall i | 0 <= i < |s[m].kids|
      ensures Under(Assign(s, n, val, allow), s[m].kids[i], q) <==> Under(s, s[m].kids[i], q)
    {
      AssignKeepsUnder(s, n, val, allow, s[m].kids[i], q);
    }
  }

  lemma AssignIsNotDangling(s: Store, n: Ptr, val: string, allow: bool, freed: set<Ptr>)
    requires Linked(s) && n < |s| && NoDangling(s, freed) && Linked(Assign(s, n, val, allow))
    ensures NoDangling(Assign(s, n, val, allow), freed)
  {
    forall q: nat | Under(Assign(s, n, val, allow), 0, q) ensures q !in freed {
      AssignKeepsUnder(s, n, val, allow, 0, q);
    }
  }

  // ---------- trees that only ConfSet has built ----------

  /** Every child has its parent link, and siblings have different names. */
  ghost predicate Tidy(s: Store)
    requires Ordered(s)
  {
    && (forall p, i :: 0 <= p < |s| && 0 <= i < |s[p].kids| ==> s[s[p].kids[i]].parent == Some(p))
    && (forall p :: 0 <= p < |s| ==> NamesDiffer(s, p))
  }

  ghost predicate NamesDiffer(s: Store, p: Ptr)
    requires Ordered(s) && p < |s|
  {
    forall i, j :: 0 <= i < j < |s[p].kids| ==> s[s[p].kids[i]].name != s[s[p].kids[j]].name
  }

  lemma TidyHasNoTwins(s: Store, p: Ptr, i: nat)
    requires Ordered(s) && Tidy(s) && p < |s| && i < |s[p].kids|
    ensures !HasTwin(s, p, i) && s[s[p].kids[i]].parent == Some(p)
  {
    assert NamesDiffer(s, p);
  }

  lemma AppendIsTidy(s: Store, p: Ptr, name: string)
    requires Linked(s) && p < |s| && Tidy(s) && Child(s, p, name).None? && Linked(Append(s, p, name))
    ensures Tidy(Append(s, p, name))
  {
    AddedNode(s, p, NewNode(name, Some(p)));
    hide AddNode, Linked;
    var t := Append(s, p, name);
    assert forall q, i :: 0 <= q < |s| && 0 <= i < |s[q].kids| ==> t[q].kids[i] == s[q].kids[i] < |s|;
    assert forall q :: 0 <= q < |s| ==> t[q].name == s[q].name && t[q].parent == s[q].parent;
    assert t[p].kids[|s[p].kids|] == |s|;
    forall q | 0 <= q < |t| ensures NamesDiffer(t, q) {
      assert q < |s| ==> NamesDiffer(s, q);
    }
  }

  lemma AssignIsTidy(s: Store, n: Ptr, val: string, allow: bool)
    requires Linked(s) && n < |s| && Tidy(s) && Ordered(Assign(s, n, val, allow))
    ensures Tidy(Assign(s, n, val, allow))
  {
    var t := Assign(s, n, val, allow);
    assert forall q :: 0 <= q < |s| ==> t[q].name == s[q].name && t[q].parent == s[q].parent && t[q].kids == s[q].kids;
    forall q | 0 <= q < |t| ensures NamesDiffer(t, q) {
      assert NamesDiffer(s, q);
    }
  }

  lemma UnlinkIsTidy(s: Store, p: Ptr, i: nat)
    requires Linked(s) && p < |s| && i < |s[p].kids| && Tidy(s) && Linked(Unlink(s, p, i))
    ensures Tidy(Unlink(s, p, i))
  {
    UnlinkKeepsLinks(s, p, i);
    hide Linked, Unlink;
    var t := Unlink(s, p, i);
    assert forall q :: 0 <= q < |s| ==> t[q].name == s[q].name && t[q].parent == s[q].parent;
    forall q, k | 0 <= q < |t| && 0 <= k < |t[q].kids| ensures t[t[q].kids[k]].parent == Some(q) {
      assert t[q].kids[k] == s[q].kids[if q == p then Skip(i, k) else k];
    }
    forall q | 0 <= q < |t| ensures NamesDiffer(t, q) {
      assert NamesDiffer(s, q);
      forall j, k | 0 <= j < k < |t[q].kids| ensures t[t[q].kids[j]].name != t[t[q].kids[k]].name {
        var l, m := if q == p then Skip(i, j) else j, if q == p then Skip(i, k) else k;
        assert t[q].kids[j] == s[q].kids[l] && t[q].kids[k] == s[q].kids[m] && l < m;
      }
    }
  }

  // ---------- the operations ----------

  class Conf {
    var store: Store
    ghost var freed: set<Ptr>

    ghost predicate Valid()
      reads this
    {
      Linked(store) && forall f :: f in freed ==> f < |store|
    }

    /** ConfInit. */
    constructor ()
      ensures Valid() && freed == {} && store == [NewNode("", None)]
      ensures Tidy(store) && NoDangling(store, freed)
    {
      store, freed := [NewNode("", None)], {};
    }

    /** ConfNodeLookupChild. */
    method LookupChild(p: Ptr, name: string) returns (c: Option<Ptr>)
      requires Valid() && p < |store|
      ensures c == Child(store, p, name)
    {
      var i := 0;
      while i < |store[p].kids|
        invariant 0 <= i <= |store[p].kids|
        invariant forall j :: 0 <= j < i ==> store[store[p].kids[j]].name != name
      {
        if store[store[p].kids[i]].name == name {
          assert Names(store, store[p].kids)[i] == name;
          return Some(store[p].kids[i]);
        }
        i := i + 1;
      }
      return None;
    }

    /** ConfGetNode: every lookup goes one token further down. */
    method GetNode(path: Path) returns (node: Option<Ptr>)
      requires Valid() && path != []
      ensures node == Find(store, path)
    {
      node := Some(0);
      var i := 0;
      while i < |path|
        invariant 0 <= i <= |path|
        invariant node.Some? && node == Find(store, path[..i])
      {
        assert path[..i + 1][..i] == path[..i];
        node := LookupChild(node.value, path[i]);
        if node.None? {
          MissingPrefix(store, path, i + 1);
          return;
        }
        i := i + 1;
      }
      assert path[..i] == path;
    }

    /** ConfGet: found or not, and the value, which may be absent. */
    method Get(name: string) returns (result: int, val: Option<string>)
      requires Valid() && Tokens(name) != []
      ensures result == 0 <==> View(store, Tokens(name)).None?
      ensures result == 1 <==> View(store, Tokens(name)).Some?
      ensures result == 1 ==> val == View(store, Tokens(name)).value.val
    {
      var node := GetNode(Tokens(name));
      if node.None? {
        return 0, None;
      }
      return 1, store[node.value].val;
    }

    /** One step of ConfSet down a path, creating the child if it is missing. */
    method Descend(ghost origin: Store, ghost done: Path, node: Ptr, name: string) returns (next: Ptr)
      requires Valid() && Linked(origin) && Grown(origin, store, done) && Find(store, done) == Some(node)
      modifies this`store
      ensures Valid()
      ensures Grown(origin, store, done + [name]) && Find(store, done + [name]) == Some(next)
      ensures old(NoDangling(store, freed)) ==> NoDangling(store, freed)
      ensures old(Tidy(store)) ==> Tidy(store)
    {
      hide Grown, Find, FirstNamed, NoDangling, Tidy;
      var child := LookupChild(node, name);
      if child.None? {
        GrownByAppend(origin, store, done, name);
        if Tidy(store) {
          AppendIsTidy(store, node, name);
        }
        if NoDangling(store, freed) {
          AppendIsNotDangling(store, node, name, freed);
        }
        next := |store|;
        store := Append(store, node, name);
      } else {
        GrownByChild(origin, store, done, name);
        next := child.value;
      }
    }

    /** The walk of ConfSet down a path that does not fully exist. */
    method CreatePath(path: Path) returns (node: Ptr)
      requires Valid()
      modifies this`store
      ensures Valid()
      ensures Grown(old(store), store, path) && Find(store, path) == Some(node)
      ensures old(NoDangling(store, freed)) ==> NoDangling(store, freed)
      ensures old(Tidy(store)) ==> Tidy(store)
    {
      node := 0;
      var i := 0;
      assert Find(store, []) == Some(0) && path[..0] == [];
      FoundIsGrown(store, []);
      ghost var origin := store;
      hide Grown, Find, FirstNamed, NoDangling, Tidy;
      while i < |path|
        invariant 0 <= i <= |path|
        invariant Valid()
        invariant Grown(origin, store, path[..i])
        invariant Find(store, path[..i]) == Some(node)
        invariant NoDangling(origin, freed) ==> NoDangling(store, freed)
        invariant Tidy(origin) ==> Tidy(store)
      {
        assert path[..i + 1] == path[..i] + [path[i]];
        node := Descend(origin, path[..i], node, path[i]);
        i := i + 1;
      }
      assert path[..i] == path;
    }

    /** The assignment at the end of ConfSet. */
    method AssignNode(ghost origin: Store, ghost path: Path, node: Ptr, val: string, allow: bool)
      requires Valid() && Linked(origin) && Grown(origin, store, path) && Find(store, path) == Some(node)
      modifies this`store
      ensures Valid() && SetTo(origin, store, path, val, allow)
      ensures old(NoDangling(store, freed)) ==> NoDangling(store, freed)
      ensures old(Tidy(store)) ==> Tidy(store)
    {
      hide SetTo, Grown, Find, NoDangling, Tidy;
      AssignCompletesSet(origin, store, path, val, allow);
      if NoDangling(store, freed) {
        AssignIsNotDangling(store, node, val, allow, freed);
      }
      if Tidy(store) {
        AssignIsTidy(store, node, val, allow);
      }
      store := Assign(store, node, val, allow);
    }

    /** ConfSet: refused on a node that forbids it, else the path is created as needed and assigned. */
    method Set(name: string, val: string, allow: bool) returns (result: int)
      requires Valid() && Tokens(name) != []
      modifies this`store
      ensures Valid()
      ensures result == 0 || result == 1
      ensures result == 0 <==> old(View(store, Tokens(name))).Some? && !old(View(store, Tokens(name))).value.allow
      ensures result == 0 ==> store == old(store)
      ensures result == 1 ==> SetTo(old(store), store, Tokens(name), val, allow)
      ensures old(NoDangling(store, freed)) ==> NoDangling(store, freed)
      ensures old(Tidy(store)) ==> Tidy(store)
    {
      hide SetTo, Grown, Linked, NoDangling, Tidy;
      var path := Tokens(name);
      var node := GetNode(path);
      if node.Some? {
        if !store[node.value].allow {
          return 0;
        }
        FoundIsGrown(store, path);
        AssignNode(store, path, node.value, val, allow);
      } else {
        var n := CreatePath(path);
        CreatedAllowsOverride(old(store), store, path);
        if store[n].allow {
          AssignNode(old(store), path, n, val, allow);
        }
      }
      return 1;
    }

    /** ConfYamlLoadFile, from the first event on: the parser works on the nodes there are. */
    method Load(events: seq<Event>) returns (result: int)
      requires Valid()
      modifies this`store
      ensures Valid()
      ensures Closed(old(store))
      ensures var r := Parse(old(store), events, 0, 0, false); store == r.store && result == r.code
      ensures (result == 0 || result == -1) && (result == 0 <==> Succeeds(events))
      ensures |old(store)| <= |store|
      ensures forall n :: 0 <= n < |store| ==>
                store[n].parent == if n < |old(store)| then old(store)[n].parent else None
    {
      hide Loop, Succeeds;
      OrderedIsClosed(store);
      var parser := new Parser(events, store);
      var f := Frame(0, 0, true, 0, false);
      UnderSelf(store, 0);
      LoopBelow(store, events, 0, f);
      BelowLinks(store, Loop(store, events, 0, f).store, 0);
      LoopLeavesUnparented(store, events, 0, f, |store|);
      LoadSucceedsExactly(store, events, 0);
      ghost var loaded := Loop(store, events, 0, f).store;
      assert forall n :: 0 <= n < |store| ==> Grew(store[n], loaded[n], |store|);
      result := parser.ConfYamlParse(0, false);
      store := parser.store;
    }

    /** ConfNodeFree: the node and everything below it. */
    ghost method Free(n: Ptr)
      requires Valid() && n < |store|
      modifies this`freed
      ensures Valid() && freed == old(freed) + Subtree(store, n)
      decreases |store| - n
    {
      var i := 0;
      while i < |store[n].kids|
        invariant 0 <= i <= |store[n].kids| && Valid()
        invariant forall q :: q in freed <==>
                    q in old(freed) || exists j :: 0 <= j < i && Under(store, store[n].kids[j], q)
      {
        Free(store[n].kids[i]);
        i := i + 1;
      }
      freed := freed + {n};
    }

    /**
     ConfRemove: the node is freed with its subtree; it is unlinked only if its parent link is set, which
     ConfSet does and the parser does not.
     */
    method Remove(name: string) returns (result: int)
      requires Valid() && Tokens(name) != []
      modifies this
      ensures Valid()
      ensures result == 0 || result == 1
      ensures result == 0 <==> old(View(store, Tokens(name))).None?
      ensures result == 0 ==> store == old(store) && freed == old(freed)
      ensures result == 1 ==> freed == old(freed) + Subtree(old(store), Find(old(store), Tokens(name)).value)
      ensures result == 1 && old(HasParentLink(Tokens(name))) ==>
                && (RemovedFrom(old(store), store, Tokens(name)) <==> !old(IsTwin(Tokens(name))))
                && (old(NoDangling(store, freed)) ==> NoDangling(store, freed))
      ensures result == 1 && !old(HasParentLink(Tokens(name))) ==>
                && store == old(store) && !NoDangling(store, freed)
                && Find(store, Tokens(name)).Some? && Find(store, Tokens(name)).value in freed
      ensures result == 1 && old(Tidy(store)) ==> RemovedFrom(old(store), store, Tokens(name)) && Tidy(store)
    {
      hide NoDangling, Tidy, RemovedFrom;
      var path := Tokens(name);
      var node := GetNode(path);
      if node.None? {
        return 0;
      }
      var n := node.value;
      ghost var front, last := path[..|path| - 1], path[|path| - 1];
      assert path == front + [last];
      if store[n].parent.Some? {
        var p := store[n].parent.value;
        ghost var k := FirstNamed(store, store[Find(store, front).value].kids, last).value;
        assert p == Find(store, front).value && store[p].kids[k] == n;
        var i := 0;
        while store[p].kids[i] != n
          invariant 0 <= i <= k
          decreases k - i
        {
          i := i + 1;
        }
        assert i == k;
        UnlinkRemoves(store, front, p, i);
        UnlinkKeepsSubtree(store, p, i);
        if NoDangling(store, freed) {
          UnlinkedIsNotDangling(store, p, i, freed);
        }
        if Tidy(store) {
          TidyHasNoTwins(store, p, i);
          UnlinkIsTidy(store, p, i);
        }
        store := Unlink(store, p, i);
      } else {
        FreedIsDangling(store, path, freed + Subtree(store, n));
        if Tidy(store) {
          ghost var p := Find(store, front).value;
          TidyHasNoTwins(store, p, FirstNamed(store, store[p].kids, last).value);
        }
      }
      Free(n);
      return 1;
    }

    /** The node at the path has its parent link set. */
    ghost predicate HasParentLink(path: Path)
      requires Ordered(store)
      reads this
    {
      Find(store, path).Some? && store[Find(store, path).value].parent.Some?
    }

    /** The node at the path shares its name with a sibling. */
    ghost predicate IsTwin(path: Path)
      requires Ordered(store) && path != []
      reads this
    {
      Find(store, path).Some? &&
      var p := Find(store, path[..|path| - 1]).value;
      HasTwin(store, p, FirstNamed(store, store[p].kids, path[|path| - 1]).value)
    }
  }

  lemma FreedIsDangling(s: Store, path: Path, freed: set<Ptr>)
    requires Ordered(s) && Find(s, path).Some? && Find(s, path).value in freed
    ensures !NoDangling(s, freed)
  {
    FoundIsUnderRoot(s, path);
  }

  /** A setting that came from a file: its removal reports success, changes nothing, and lookups still find the freed node. */
  method LoadAndRemove(events: seq<Event>, name: string) returns (c: Conf, result: int)
    requires Tokens(name) != []
    ensures fresh(c) && c.Valid()
    ensures c.store == Parse([NewNode("", None)], events, 0, 0, false).store
    ensures result == 1 <==> View(c.store, Tokens(name)).Some?
    ensures result == 1 ==> Find(c.store, Tokens(name)).value in c.freed && !NoDangling(c.store, c.freed)
  {
    hide Loop, Ordered, Find, NoDangling, Tidy, RemovedFrom, Tokens, Subtree;
    c := new Conf();
    var _ := c.Load(events);
    result := c.Remove(name);
  }
}
