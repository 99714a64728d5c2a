/** Subtrees of the node store as values, and what a change below one node leaves alone. */
module ConfForest {
  import opened Sequences
  import opened ConfStore

  datatype Tree = Tree(name: string, val: Option<string>, isSeq: bool, allow: bool, kids: seq<Tree>)

  function TreeNames(kids: seq<Tree>): (r: seq<string>)
    ensures |r| == |kids| && forall i :: 0 <= i < |kids| ==> r[i] == kids[i].name
  {
    seq(|kids|, i requires 0 <= i < |kids| => kids[i].name)
  }

  /** The tree at a node. */
  ghost function Read(s: Store, n: Ptr): Tree
    requires Ordered(s) && n < |s|
    decreases |s| - n
  {
    Tree(s[n].name, s[n].val, s[n].isSeq, s[n].allow,
         seq(|s[n].kids|, i requires 0 <= i < |s[n].kids| => Read(s, s[n].kids[i])))
  }

  lemma ReadNames(s: Store, n: Ptr)
    requires Ordered(s) && n < |s|
    ensures TreeNames(Read(s, n).kids) == Names(s, s[n].kids)
  {
  }

  lemma {:induction false} ReadKept(s: Store, t: Store, n: Ptr)
    requires Ordered(s) && Ordered(t) && n < |s| <= |t|
    requires forall q: nat :: Under(s, n, q) ==> t[q] == s[q]
    ensures Read(t, n) == Read(s, n)
    decreases |s| - n
  {
    assert Under(s, n, n);
    forall i | 0 <= i < |s[n].kids| ensures Read(t, s[n].kids[i]) == Read(s, s[n].kids[i]) {
      ReadKept(s, t, s[n].kids[i]);
    }
  }

  // ---------- changes below one node ----------

  /**
   A node keeps everything but its value, which it keeps too if it forbids overriding and is no unlabelled list
   item, and its children may only be followed by new nodes.
   */
  ghost predicate Grew(a: ConfNode, b: ConfNode, size: nat) {
    && b.name == a.name && b.isSeq == a.isSeq && b.allow == a.allow && b.parent == a.parent
    && (!a.allow && !(a.isSeq && a.val.None?) ==> b.val == a.val)
    && |a.kids| <= |b.kids|
    && (forall i :: 0 <= i < |a.kids| ==> b.kids[i] == a.kids[i])
    && (forall i :: |a.kids| <= i < |b.kids| ==> size <= b.kids[i])
  }

  /** From `s` to `t`, nodes were allocated and nothing else changed but at `m` and below. */
  ghost predicate Below(s: Store, t: Store, m: Ptr)
    requires Ordered(s) && m < |s|
  {
    && Linked(t) && |s| <= |t|
    && (forall q :: 0 <= q < |s| ==> Grew(s[q], t[q], |s|))
    && (forall q :: 0 <= q < |s| && !Under(s, m, q) ==> t[q] == s[q])
  }

  lemma {:induction false} OldUnder(s: Store, t: Store, m: Ptr, n: Ptr, q: Ptr)
    requires Ordered(s) && m < |s| && Below(s, t, m) && n < |s| && q < |s|
    ensures Under(t, n, q) <==> Under(s, n, q)
    decreases |s| - n
  {
    assert Grew(s[n], t[n], |s|);
    forall i | 0 <= i < |s[n].kids| ensures Under(t, t[n].kids[i], q) <==> Under(s, s[n].kids[i], q) {
      OldUnder(s, t, m, s[n].kids[i], q);
    }
  }

  lemma BelowTrans(s: Store, t: Store, u: Store, m: Ptr)
    requires Ordered(s) && m < |s| && Below(s, t, m) && Below(t, u, m)
    ensures Below(s, u, m)
  {
    forall q | 0 <= q < |s| ensures Grew(s[q], u[q], |s|) {
      assert Grew(s[q], t[q], |s|) && Grew(t[q], u[q], |t|);
    }
    forall q | 0 <= q < |s| && !Under(s, m, q) ensures u[q] == s[q] {
      OldUnder(s, t, m, m, q);
    }
  }

  lemma BelowWiden(s: Store, t: Store, c: Ptr, m: Ptr)
    requires Ordered(s) && m < |s| && Under(s, m, c) && Below(s, t, c)
    ensures Below(s, t, m)
  {
    forall q | 0 <= q < |s| && !Under(s, m, q) ensures t[q] == s[q] {
      if Under(s, c, q) {
        UnderTrans(s, m, c, q);
      }
    }
  }

  lemma NothingBelow(s: Store, m: Ptr)
    requires Linked(s) && m < |s|
    ensures Below(s, s, m)
  {
  }

  /** A change below one child replaces that child's tree and keeps the others. */
  lemma ReadAfterChild(s: Store, t: Store, p: Ptr, i: nat)
    requires Linked(s) && p < |s| && i < |s[p].kids| && Below(s, t, s[p].kids[i])
    ensures Read(t, p) == Read(s, p).(kids := Read(s, p).kids[i := Read(t, s[p].kids[i])])
  {
    var c := s[p].kids[i];
    assert t[p] == s[p];
    forall j | 0 <= j < |s[p].kids| && j != i ensures Read(t, s[p].kids[j]) == Read(s, s[p].kids[j]) {
      forall q: nat | Under(s, s[p].kids[j], q) ensures t[q] == s[q] {
        SiblingsAreApart(s, p, i, j, q);
      }
      ReadKept(s, t, s[p].kids[j]);
    }
    assert forall j :: 0 <= j < |s[p].kids| ==> Read(t, p).kids[j] == Read(t, s[p].kids[j]);
  }

  // ---------- setting a value and adding a leaf ----------

  lemma SetValBelow(s: Store, n: Ptr, val: string)
    requires Linked(s) && n < |s| && (s[n].allow || (s[n].isSeq && s[n].val.None?))
    ensures Below(s, SetVal(s, n, val), n)
    ensures Read(SetVal(s, n, val), n) == Read(s, n).(val := Some(val))
  {
    var t := SetVal(s, n, val);
    assert forall q :: 0 <= q < |s| ==> t[q].kids == s[q].kids && t[q].parent == s[q].parent;
    assert Under(s, n, n);
    KidsKept(s, t, n);
    assert forall i :: 0 <= i < |s[n].kids| ==> Read(t, n).kids[i] == Read(s, n).kids[i];
  }

  /** A change at a node alone keeps its children's trees. */
  lemma KidsKept(s: Store, t: Store, n: Ptr)
    requires Ordered(s) && Ordered(t) && n < |s| <= |t| && forall q :: n < q < |s| ==> t[q] == s[q]
    ensures forall i :: 0 <= i < |s[n].kids| ==> Read(t, s[n].kids[i]) == Read(s, s[n].kids[i])
  {
    forall i | 0 <= i < |s[n].kids| ensures Read(t, s[n].kids[i]) == Read(s, s[n].kids[i]) {
      ReadKept(s, t, s[n].kids[i]);
    }
  }

  lemma AddNodeBelow(s: Store, p: Ptr, node: ConfNode)
    requires Linked(s) && p < |s| && node.kids == [] && node.parent == None
    ensures var t := AddNode(s, p, node); Below(s, t, p) && Under(t, p, |s|)
  {
    AddNodeKeepsLinks(s, p, node);
    AddedNode(s, p, node);
    hide AddNode, Linked;
    var t := AddNode(s, p, node);
    assert Linked(t);
    assert Under(s, p, p) && Under(t, p, p) && t[p].kids[|s[p].kids|] == |s|;
    assert forall i :: 0 <= i < |s[p].kids| ==> t[p].kids[i] == s[p].kids[i];
    assert Grew(s[p], t[p], |s|);
    KidIsUnder(t, p, p, |s[p].kids|);
  }

  lemma AddNodeReads(s: Store, p: Ptr, node: ConfNode)
    requires Linked(s) && p < |s| && node.kids == [] && Ordered(AddNode(s, p, node))
    ensures
      var t := AddNode(s, p, node);
      && Read(t, |s|) == Tree(node.name, node.val, node.isSeq, node.allow, [])
      && Read(t, p) == Read(s, p).(kids := Read(s, p).kids + [Read(t, |s|)])
  {
    AddedNode(s, p, node);
    hide AddNode, Linked;
    var t := AddNode(s, p, node);
    KidsKept(s, t, p);
    assert forall i :: 0 <= i < |s[p].kids| ==> Read(t, p).kids[i] == Read(s, p).kids[i];
  }
}
