/** Looking values up after loading files: the store answers as the merged documents say. */
module ConfLoad {
  import opened Sequences
  import opened ConfStore
  import opened ConfForest
  import opened ConfYaml
  import opened ConfFrame
  import opened ConfDocument

  // ---------- lookups in a tree ----------

  /** The subtree at the end of a path. */
  function Descend(t: Tree, path: Path): Option<Tree> {
    if path == [] then Some(t) else
    var up := Descend(t, path[..|path| - 1]);
    if up.None? then None else
    var r := FirstIndex(TreeNames(up.value.kids), path[|path| - 1]);
    if r.None? then None else Some(up.value.kids[r.value])
  }

  /** The map a tree stands for. */
  function TreeView(t: Tree, path: Path): Option<Setting> {
    var d := Descend(t, path);
    if d.None? then None else Some(Setting(d.value.val, d.value.allow))
  }

  /** The store finds on a path what the root's tree has there. */
  lemma {:induction false} FindFollowsTree(s: Store, path: Path)
    requires Ordered(s)
    ensures
      var n, d := Find(s, path), Descend(Read(s, 0), path);
      if d.None? then n.None? else n.Some? && Read(s, n.value) == d.value
  {
    if path != [] {
      var front := path[..|path| - 1];
      FindFollowsTree(s, front);
      if Find(s, front).Some? {
        ReadNames(s, Find(s, front).value);
      }
    }
  }

  /**
   After a file has been loaded over any tree, every lookup by path finds a node exactly when the tree with
   the document merged into it has one there, and then its value is the merged tree's.
   */
  lemma LoadedFileAnswersLookups(s: Store, v: Value, path: Path)
    requires Linked(s) && Closed(s)
    ensures
      var t := Parse(s, FileEvents(v), 0, 0, false).store;
      Linked(t) && View(t, path) == TreeView(FileInto(Read(s, 0), v), path)
  {
    hide Loop, FileEvents, FileInto;
    FileIsMerged(s, 0, v);
    var t := Parse(s, FileEvents(v), 0, 0, false).store;
    FindFollowsTree(t, path);
  }

  /** Loading several files one after another, as included files are. */
  function LoadAll(s: Store, files: seq<Value>): Store
    requires Closed(s)
    decreases |files|
  {
    if files == [] then s else LoadAll(Parse(s, FileEvents(files[0]), 0, 0, false).store, files[1..])
  }

  function MergeAll(t: Tree, files: seq<Value>): Tree
    decreases |files|
  {
    if files == [] then t else MergeAll(FileInto(t, files[0]), files[1..])
  }

  lemma {:induction false} FilesAreMergedInOrder(s: Store, files: seq<Value>)
    requires Linked(s) && Closed(s)
    ensures var t := LoadAll(s, files); Linked(t) && Read(t, 0) == MergeAll(Read(s, 0), files)
    decreases |files|
  {
    if files != [] {
      hide Loop, FileEvents, FileInto, Read;
      FileIsMerged(s, 0, files[0]);
      FilesAreMergedInOrder(Parse(s, FileEvents(files[0]), 0, 0, false).store, files[1..]);
    }
  }

  // ---------- any stream ----------

  /**
   Whatever the events, well formed or not, and wherever they stop, the store stays a forest, keeps every
   node's name, flags, parent link and children, and gives no new node a parent link.
   */
  lemma AnyStreamKeepsTheForest(s: Store, events: seq<Event>)
    requires Linked(s) && Closed(s)
    ensures
      var t := Parse(s, events, 0, 0, false).store;
      && Linked(t) && |s| <= |t|
      && (forall q :: 0 <= q < |s| ==> Grew(s[q], t[q], |s|))
      && (forall n :: |s| <= n < |t| ==> t[n].parent.None?)
  {
    var f := Frame(0, 0, true, 0, false);
    UnderSelf(s, 0);
    LoopBelow(s, events, 0, f);
    LoopLeavesUnparented(s, events, 0, f, |s|);
  }
}
