/**
 The configuration tree of yaml_conf.c as linked nodes in allocation order: a pointer is a node's
 index, the root is node 0, and a node's children are its tail queue's elements in order.
 */
module ConfStore {
  import opened Sequences

  type Ptr = nat

  datatype ConfNode = ConfNode(
    name: string, val: Option<string>, isSeq: bool, allow: bool, parent: Option<Ptr>, kids: seq<Ptr>)

  type Store = seq<ConfNode>

  type Path = seq<string>

  /** ConfNodeNew, with the name its creator gives it. */
  function NewNode(name: string, parent: Option<Ptr>): ConfNode { ConfNode(name, None, false, true, parent, []) }

  // ---------- lookups ----------

  predicate InStore(s: Store, kids: seq<Ptr>) { forall i :: 0 <= i < |kids| ==> kids[i] < |s| }

  function Names(s: Store, kids: seq<Ptr>): (r: seq<string>)
    requires InStore(s, kids)
    ensures |r| == |kids| && forall i :: 0 <= i < |kids| ==> r[i] == s[kids[i]].name
  {
    seq(|kids|, i requires 0 <= i < |kids| => s[kids[i]].name)
  }

  /** The position of the first child with the name. */
  function FirstNamed(s: Store, kids: seq<Ptr>, name: string): (r: Option<nat>)
    requires InStore(s, kids)
    ensures r == FirstIndex(Names(s, kids), name)
    ensures r.Some? ==> r.value < |kids| && s[kids[r.value]].name == name
  {
    FirstIndex(Names(s, kids), name)
  }

  /** Children are allocated after their parents, and stored parent links are the real ones. */
  ghost predicate Ordered(s: Store) {
    && 0 < |s|
    && forall p, i :: 0 <= p < |s| && 0 <= i < |s[p].kids| ==>
         var c := s[p].kids[i];
         p < c < |s| && (s[c].parent == None || s[c].parent == Some(p))
  }

  /** The store is a forest: every node is linked at most once. */
  ghost predicate Linked(s: Store) {
    && Ordered(s)
    && (forall p, q, i, j :: 0 <= p < |s| && 0 <= q < |s| && 0 <= i < |s[p].kids| && 0 <= j < |s[q].kids| ==>
          s[p].kids[i] == s[q].kids[j] ==> p == q && i == j)
  }

  ghost function Child(s: Store, p: Ptr, name: string): (c: Option<Ptr>)
    requires Ordered(s) && p < |s|
    ensures c.Some? ==> p < c.value < |s| && s[c.value].name == name
  {
    var r := FirstNamed(s, s[p].kids, name);
    if r.None? then None else Some(s[p].kids[r.value])
  }

  /** The node at the end of a path from the root. */
  ghost function Find(s: Store, path: Path): (n: Option<Ptr>)
    requires Ordered(s)
    ensures n.Some? ==> n.value < |s|
  {
    if path == [] then Some(0) else
    var up := Find(s, path[..|path| - 1]);
    if up.None? then None else Child(s, up.value, path[|path| - 1])
  }

  datatype Setting = Setting(val: Option<string>, allow: bool)

  /** The map the tree stands for. */
  ghost function View(s: Store, path: Path): Option<Setting>
    requires Ordered(s)
  {
    var n := Find(s, path);
    if n.None? then None else Some(Setting(s[n.value].val, s[n.value].allow))
  }

  /** Different paths lead to different nodes. */
  lemma {:induction false} FindIsInjective(s: Store, a: Path, b: Path)
    requires Linked(s) && Find(s, a).Some? && Find(s, a) == Find(s, b)
    ensures a == b
    decreases |a|
  {
    if a != [] && b != [] {
      var fa, fb := a[..|a| - 1], b[..|b| - 1];
      var p, q, c := Find(s, fa).value, Find(s, fb).value, Find(s, a).value;
      var i := FirstNamed(s, s[p].kids, a[|a| - 1]).value;
      var j := FirstNamed(s, s[q].kids, b[|b| - 1]).value;
      assert s[p].kids[i] == c == s[q].kids[j];
      FindIsInjective(s, fa, fb);
      assert a == fa + [s[c].name] && b == fb + [s[c].name];
    }
  }

  // ---------- changing one node's value ----------

  function SetVal(s: Store, n: Ptr, val: string): Store
    requires n < |s|
  {
    s[n := s[n].(val := Some(val))]
  }

  function Assign(s: Store, n: Ptr, val: string, allow: bool): Store
    requires n < |s|
  {
    s[n := s[n].(val := Some(val), allow := allow)]
  }

  lemma AssignKeepsLinks(s: Store, n: Ptr, val: string, allow: bool)
    requires Linked(s) && n < |s|
    ensures Linked(Assign(s, n, val, allow))
  {
    var t := Assign(s, n, val, allow);
    assert forall p :: 0 <= p < |s| ==> t[p].kids == s[p].kids && t[p].name == s[p].name && t[p].parent == s[p].parent;
  }

  /** Lookups depend only on the children's names. */
  lemma SameNamesSameChild(s: Store, t: Store, p: Ptr, name: string)
    requires Ordered(s) && Ordered(t) && p < |s| && p < |t| && s[p].kids == t[p].kids
    requires forall i :: 0 <= i < |s[p].kids| ==> s[s[p].kids[i]].name == t[t[p].kids[i]].name
    ensures Child(s, p, name) == Child(t, p, name)
  {
    assert Names(s, s[p].kids) == Names(t, t[p].kids);
  }

  lemma {:induction false} AssignKeepsPaths(s: Store, n: Ptr, val: string, allow: bool, q: Path)
    requires Linked(s) && n < |s| && Ordered(Assign(s, n, val, allow))
    ensures Find(Assign(s, n, val, allow), q) == Find(s, q)
  {
    var t := Assign(s, n, val, allow);
    if q != [] {
      AssignKeepsPaths(s, n, val, allow, q[..|q| - 1]);
      var up := Find(s, q[..|q| - 1]);
      if up.Some? {
        SameNamesSameChild(s, t, up.value, q[|q| - 1]);
      }
    }
  }

  /** Assigning the node of one path changes the view of that path alone. */
  lemma AssignChangesOnePath(s: Store, path: Path, val: string, allow: bool, q: Path)
    requires Linked(s) && Find(s, path).Some?
    ensures
      var t := Assign(s, Find(s, path).value, val, allow);
      Linked(t) && View(t, q) == if q == path then Some(Setting(Some(val), allow)) else View(s, q)
  {
    var n := Find(s, path).value;
    AssignKeepsLinks(s, n, val, allow);
    AssignKeepsPaths(s, n, val, allow, q);
    if Find(s, q) == Some(n) {
      FindIsInjective(s, q, path);
    }
  }

  // ---------- adding a node at the end of a child list ----------

  function AddNode(s: Store, p: Ptr, node: ConfNode): Store
    requires p < |s|
  {
    s[p := s[p].(kids := s[p].kids + [|s|])] + [node]
  }

  lemma AddedNode(s: Store, p: Ptr, node: ConfNode)
    requires p < |s|
    ensures var t := AddNode(s, p, node);
            && |t| == |s| + 1 && t[|s|] == node && t[p] == s[p].(kids := s[p].kids + [|s|])
            && (forall q :: 0 <= q < |s| && q != p ==> t[q] == s[q])
  {
  }

  lemma AddNodeKeepsLinks(s: Store, p: Ptr, node: ConfNode)
    requires Linked(s) && p < |s| && node.kids == [] && (node.parent == None || node.parent == Some(p))
    ensures Linked(AddNode(s, p, node))
  {
    AddedNode(s, p, node);
    hide AddNode;
    var t := AddNode(s, p, node);
    assert forall i :: 0 <= i < |s[p].kids| ==> t[p].kids[i] == s[p].kids[i] < |s|;
    assert Ordered(t);
  }

  lemma ChildAfterAdd(s: Store, p: Ptr, node: ConfNode, wanted: string)
    requires Linked(s) && p < |s| && Linked(AddNode(s, p, node))
    ensures Child(AddNode(s, p, node), p, wanted) ==
            if Child(s, p, wanted).Some? then Child(s, p, wanted) else if wanted == node.name then Some(|s|) else None
  {
    var t := AddNode(s, p, node);
    var kids := s[p].kids;
    assert forall i :: 0 <= i < |kids| ==> t[p].kids[i] == kids[i] && t[kids[i]].name == s[kids[i]].name;
    assert t[p].kids[|kids|] == |s| && t[|s|].name == node.name;
    var a, b := FirstNamed(s, kids, wanted), FirstNamed(t, t[p].kids, wanted);
    assert forall i :: 0 <= i < |kids| ==> Names(t, t[p].kids)[i] == Names(s, kids)[i];
    if a.Some? {
      assert b.Some? && a.value <= b.value && b.value <= a.value;
    }
  }

  /** ConfSet's new node, which has its parent link. */
  function Append(s: Store, p: Ptr, name: string): Store
    requires p < |s|
  {
    AddNode(s, p, NewNode(name, Some(p)))
  }

  lemma {:induction false} AppendFind(s: Store, at: Path, p: Ptr, name: string, q: Path)
    requires Linked(s) && Find(s, at) == Some(p) && Child(s, p, name).None? && Linked(Append(s, p, name))
    ensures Find(Append(s, p, name), q) == if q == at + [name] then Some(|s|) else Find(s, q)
    decreases |q|
  {
    var t := Append(s, p, name);
    if q != [] {
      var f, last := q[..|q| - 1], q[|q| - 1];
      assert q == f + [last];
      AppendFind(s, at, p, name, f);
      AddedNode(s, p, NewNode(name, Some(p)));
      hide AddNode, Linked;
      if f == at + [name] {
        FindOfMissing(s, at + [name], last);
      } else if Find(s, f).Some? {
        var u := Find(s, f).value;
        if u == p {
          FindIsInjective(s, f, at);
          ChildAfterAdd(s, p, NewNode(name, Some(p)), last);
        } else {
          SameNamesSameChild(s, t, u, last);
        }
      }
    }
  }

  lemma FindOfMissing(s: Store, path: Path, name: string)
    requires Ordered(s) && Find(s, path).None?
    ensures Find(s, path + [name]).None?
  {
    assert (path + [name])[..|path|] == path;
  }

  /** Appending a child makes exactly one new path, with no value, and changes no other. */
  lemma AppendAddsOnePath(s: Store, at: Path, name: string, q: Path)
    requires Linked(s) && Find(s, at).Some? && Child(s, Find(s, at).value, name).None?
    ensures
      var t := Append(s, Find(s, at).value, name);
      Linked(t) && View(t, q) == if q == at + [name] then Some(Setting(None, true)) else View(s, q)
  {
    var p := Find(s, at).value;
    AddNodeKeepsLinks(s, p, NewNode(name, Some(p)));
    AppendFind(s, at, p, name, q);
  }

  // ---------- unlinking a node ----------

  function Unlink(s: Store, p: Ptr, i: nat): Store
    requires p < |s| && i < |s[p].kids|
  {
    s[p := s[p].(kids := Without(s[p].kids, i))]
  }

  lemma UnlinkKeepsLinks(s: Store, p: Ptr, i: nat)
    requires Linked(s) && p < |s| && i < |s[p].kids|
    ensures Linked(Unlink(s, p, i))
    ensures
      var t := Unlink(s, p, i);
      && |t| == |s| && t[p] == s[p].(kids := Without(s[p].kids, i))
      && (forall q :: 0 <= q < |s| && q != p ==> t[q] == s[q])
  {
    hide Without;
    var t := Unlink(s, p, i);
    assert forall q :: 0 <= q < |s| ==> t[q].parent == s[q].parent && (q != p ==> t[q] == s[q]);
  }

  /** Another child has the name of child `i`. */
  ghost predicate HasTwin(s: Store, p: Ptr, i: nat)
    requires Ordered(s) && p < |s| && i < |s[p].kids|
  {
    exists j :: 0 <= j < |s[p].kids| && j != i && s[s[p].kids[j]].name == s[s[p].kids[i]].name
  }

  /** Without one child, a lookup of its name finds a twin if it has one, and other lookups do not change. */
  lemma ChildAfterUnlink(s: Store, p: Ptr, i: nat, name: string)
    requires Linked(s) && p < |s| && i < |s[p].kids| && Linked(Unlink(s, p, i))
    ensures
      var c := Child(Unlink(s, p, i), p, name);
      if s[s[p].kids[i]].name == name then c.Some? <==> HasTwin(s, p, i) else c == Child(s, p, name)
  {
    var t, kids := Unlink(s, p, i), s[p].kids;
    assert forall q :: 0 <= q < |s| ==> t[q].name == s[q].name;
    assert Names(t, t[p].kids) == Without(Names(s, kids), i);
    FirstIndexWithout(Names(s, kids), i, name);
  }

  /** Paths that do not go through the unlinked node's parent and name keep their nodes, whether or not it has a twin. */
  lemma {:induction false} UnlinkKeepsOtherPaths(s: Store, front: Path, p: Ptr, i: nat, q: Path)
    requires Linked(s) && Find(s, front) == Some(p) && i < |s[p].kids| && Linked(Unlink(s, p, i))
    requires !(front + [s[s[p].kids[i]].name] <= q)
    ensures Find(Unlink(s, p, i), q) == Find(s, q)
    decreases |q|
  {
    if q != [] {
      var f, last := q[..|q| - 1], q[|q| - 1];
      assert q == f + [last];
      UnlinkKeepsOtherPaths(s, front, p, i, f);
      if Find(s, f).Some? {
        var u := Find(s, f).value;
        UnlinkKeepsLinks(s, p, i);
        hide Unlink, Linked;
        if u == p {
          FindIsInjective(s, f, front);
          ChildAfterUnlink(s, p, i, last);
        } else {
          SameNamesSameChild(s, Unlink(s, p, i), u, last);
        }
      }
    }
  }

  lemma {:induction false} MissingPrefix(s: Store, path: Path, i: nat)
    requires Ordered(s) && i <= |path| && Find(s, path[..i]).None?
    ensures Find(s, path).None?
    decreases |path| - i
  {
    if i < |path| {
      assert path[..i + 1][..i] == path[..i];
      MissingPrefix(s, path, i + 1);
    } else {
      assert path[..i] == path;
    }
  }

  /** Unlinking a node removes exactly the paths through it if and only if it has no twin. */
  lemma UnlinkFind(s: Store, front: Path, p: Ptr, i: nat)
    requires Linked(s) && Find(s, front) == Some(p) && i < |s[p].kids| && Linked(Unlink(s, p, i))
    ensures
      var path := front + [s[s[p].kids[i]].name];
      (forall q :: Find(Unlink(s, p, i), q) == if path <= q then None else Find(s, q)) <==> !HasTwin(s, p, i)
  {
    var name := s[s[p].kids[i]].name;
    var t, path := Unlink(s, p, i), front + [name];
    assert path[..|front|] == front;
    UnlinkKeepsOtherPaths(s, front, p, i, front);
    ChildAfterUnlink(s, p, i, name);
    assert Find(t, path) == Child(t, p, name);
    hide Linked, Unlink, Child;
    if !HasTwin(s, p, i) {
      forall q ensures Find(t, q) == if path <= q then None else Find(s, q) {
        if path <= q {
          assert q[..|path|] == path;
          MissingPrefix(t, q, |path|);
        } else {
          UnlinkKeepsOtherPaths(s, front, p, i, q);
        }
      }
    }
  }

  // ---------- the nodes of a subtree ----------

  /** Node `q` is `n` or below it. */
  ghost predicate Under(s: Store, n: Ptr, q: Ptr)
    requires Ordered(s) && n < |s|
    ensures Under(s, n, q) ==> n <= q < |s|
    decreases |s| - n
  {
    q == n || exists i :: 0 <= i < |s[n].kids| && Under(s, s[n].kids[i], q)
  }

  lemma {:induction false} UnderTrans(s: Store, a: Ptr, b: Ptr, c: Ptr)
    requires Ordered(s) && a < |s| && b < |s| && Under(s, a, b) && Under(s, b, c)
    ensures Under(s, a, c)
    decreases |s| - a
  {
    if a != b {
      var i :| 0 <= i < |s[a].kids| && Under(s, s[a].kids[i], b);
      UnderTrans(s, s[a].kids[i], b, c);
    }
  }

  lemma KidIsUnder(s: Store, n: Ptr, w: Ptr, i: nat)
    requires Ordered(s) && n < |s| && w < |s| && i < |s[w].kids| && Under(s, n, w)
    ensures Under(s, n, s[w].kids[i])
  {
    assert Under(s, s[w].kids[i], s[w].kids[i]);
    assert Under(s, w, s[w].kids[i]);
    UnderTrans(s, n, w, s[w].kids[i]);
  }

  /** A node strictly below another has its parent there. */
  lemma {:induction false} UnderUp(s: Store, n: Ptr, q: Ptr) returns (w: Ptr, i: nat)
    requires Ordered(s) && n < |s| && Under(s, n, q) && q != n
    ensures w < |s| && i < |s[w].kids| && s[w].kids[i] == q && Under(s, n, w)
    decreases |s| - n
  {
    var k :| 0 <= k < |s[n].kids| && Under(s, s[n].kids[k], q);
    if s[n].kids[k] == q {
      w, i := n, k;
    } else {
      w, i := UnderUp(s, s[n].kids[k], q);
    }
  }

  /** What lies under a node depends only on that node and the later ones. */
  lemma {:induction false} SameUnder(s: Store, t: Store, n: Ptr, q: Ptr)
    requires Ordered(s) && Ordered(t) && n < |s| == |t| && forall k :: n <= k < |s| ==> t[k] == s[k]
    ensures Under(t, n, q) <==> Under(s, n, q)
    decreases |s| - n
  {
    forall i | 0 <= i < |s[n].kids| ensures Under(t, s[n].kids[i], q) <==> Under(s, s[n].kids[i], q) {
      SameUnder(s, t, s[n].kids[i], q);
    }
  }

  /** An added node is all that is new under any node. */
  lemma {:induction false} AddedUnder(s: Store, p: Ptr, node: ConfNode, n: Ptr, q: Ptr)
    requires Linked(s) && p < |s| && n < |s| && q < |s| && Linked(AddNode(s, p, node)) && Under(AddNode(s, p, node), n, q)
    ensures Under(s, n, q)
    decreases |s| - n
  {
    var t := AddNode(s, p, node);
    if q != n {
      var i :| 0 <= i < |t[n].kids| && Under(t, t[n].kids[i], q);
      assert t[n].kids[i] == s[n].kids[i];
      AddedUnder(s, p, node, s[n].kids[i], q);
    }
  }

  /** Two nodes above one node are above each other. */
  lemma {:induction false} AncestorsAreNested(s: Store, a: Ptr, b: Ptr, q: Ptr)
    requires Linked(s) && a < |s| && b < |s| && Under(s, a, q) && Under(s, b, q)
    ensures Under(s, a, b) || Under(s, b, a)
    decreases q
  {
    if q != a && q != b {
      var v, i := UnderUp(s, a, q);
      var w, j := UnderUp(s, b, q);
      AncestorsAreNested(s, a, b, v);
    }
  }

  /** Siblings' subtrees have no node in common. */
  lemma SiblingsAreApart(s: Store, p: Ptr, i: nat, j: nat, q: Ptr)
    requires Linked(s) && p < |s| && i < |s[p].kids| && j < |s[p].kids| && i != j
    ensures !(Under(s, s[p].kids[i], q) && Under(s, s[p].kids[j], q))
  {
    var a, b := s[p].kids[i], s[p].kids[j];
    if Under(s, a, q) && Under(s, b, q) {
      AncestorsAreNested(s, a, b, q);
      if Under(s, a, b) {
        var w, k := UnderUp(s, a, b);
      } else {
        var w, k := UnderUp(s, b, a);
      }
    }
  }

  lemma {:induction false} FoundIsUnderRoot(s: Store, path: Path)
    requires Ordered(s) && Find(s, path).Some?
    ensures Under(s, 0, Find(s, path).value)
  {
    if path != [] {
      var front := path[..|path| - 1];
      FoundIsUnderRoot(s, front);
      var p := Find(s, front).value;
      KidIsUnder(s, 0, p, FirstNamed(s, s[p].kids, path[|path| - 1]).value);
    }
  }

  ghost function Subtree(s: Store, n: Ptr): set<Ptr>
    requires Ordered(s) && n < |s|
  {
    set q | 0 <= q < |s| && Under(s, n, q)
  }

  /** After unlinking a node, nothing below the root is in its subtree. */
  lemma {:induction false} UnlinkedSubtreeIsUnreachable(s: Store, p: Ptr, i: nat, q: Ptr)
    requires Linked(s) && p < |s| && i < |s[p].kids| && Linked(Unlink(s, p, i))
    requires Under(Unlink(s, p, i), 0, q)
    ensures Under(s, 0, q) && !Under(s, s[p].kids[i], q)
    decreases q
  {
    var t, n := Unlink(s, p, i), s[p].kids[i];
    UnlinkKeepsLinks(s, p, i);
    if q != 0 {
      var w, j := UnderUp(t, 0, q);
      UnlinkedSubtreeIsUnreachable(s, p, i, w);
      var k := if w == p then Skip(i, j) else j;
      assert s[w].kids[k] == q && q != n;
      KidIsUnder(s, 0, w, k);
      if Under(s, n, q) {
        var v, l := UnderUp(s, n, q);
      }
    }
  }
}
