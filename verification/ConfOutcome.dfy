/** When loading succeeds: the parser's result code, on every event stream. */
module ConfOutcome {
  import opened Sequences
  import opened ConfStore
  import opened ConfForest
  import opened ConfYaml
  import opened ConfFrame
  import opened ConfDocument

  predicate Opening(e: Event) { e.SequenceStart? || e.MappingStart? }

  predicate Closing(e: Event) { e.SequenceEnd? || e.MappingEnd? || e.StreamEnd? }

  /** A document that does not begin with the directive for YAML 1.1. */
  predicate WrongVersion(e: Event) { e.DocumentStart? && e.version != Some((1, 1)) }

  function Weight(e: Event): int { if Opening(e) then 1 else if Closing(e) then -1 else 0 }

  /** How many more openings than closings there are from `pos` up to `k`. */
  function Level(events: seq<Event>, pos: nat, k: nat): int
    requires k <= |events|
    decreases k - pos
  {
    if k <= pos then 0 else Weight(events[pos]) + Level(events, pos + 1, k)
  }

  /** The events from `pos` up to `end` close, for the first time, more than they open, and every document in them is of version 1.1. */
  ghost predicate ClosesAt(events: seq<Event>, pos: nat, depth: nat, end: nat) {
    && pos < end <= |events|
    && depth + Level(events, pos, end) == -1
    && (forall j :: pos <= j < end ==> depth + Level(events, pos, j) >= 0)
    && (forall j :: pos <= j < end ==> !WrongVersion(events[j]))
  }

  /** Reading with a counter of the open collections. */
  function Scan(events: seq<Event>, pos: nat, depth: nat): (end: Option<nat>)
    requires pos <= |events|
    ensures end.Some? ==> pos < end.value <= |events|
    decreases |events| - pos
  {
    if pos == |events| || WrongVersion(events[pos]) then None
    else if Opening(events[pos]) then Scan(events, pos + 1, depth + 1)
    else if !Closing(events[pos]) then Scan(events, pos + 1, depth)
    else if depth == 0 then Some(pos + 1)
    else Scan(events, pos + 1, depth - 1)
  }

  /** Closing one collection more is closing the inner ones and going on. */
  lemma {:induction false} ScanNested(events: seq<Event>, pos: nat, inner: nat, outer: nat)
    requires pos <= |events|
    ensures
      var mid := Scan(events, pos, inner);
      Scan(events, pos, inner + 1 + outer) == if mid.None? then None else Scan(events, mid.value, outer)
    decreases |events| - pos
  {
    if pos < |events| && !WrongVersion(events[pos]) {
      if Opening(events[pos]) {
        ScanNested(events, pos + 1, inner + 1, outer);
      } else if !Closing(events[pos]) {
        ScanNested(events, pos + 1, inner, outer);
      } else if inner > 0 {
        ScanNested(events, pos + 1, inner - 1, outer);
      }
    }
  }

  lemma {:induction false} ScanIsClosing(events: seq<Event>, pos: nat, depth: nat, end: nat)
    requires pos <= |events|
    ensures Scan(events, pos, depth) == Some(end) <==> ClosesAt(events, pos, depth, end)
    decreases |events| - pos
  {
    if pos < |events| && !WrongVersion(events[pos]) {
      var w := Weight(events[pos]);
      if depth + w >= 0 {
        ScanIsClosing(events, pos + 1, depth + w, end);
        LevelsShift(events, pos, depth, end);
      } else {
        assert Level(events, pos, pos) == 0 && Level(events, pos, pos + 1) == -1;
      }
    }
  }

  lemma LevelsShift(events: seq<Event>, pos: nat, depth: nat, end: nat)
    requires pos < |events| && !WrongVersion(events[pos]) && depth + Weight(events[pos]) >= 0
    ensures ClosesAt(events, pos, depth, end) <==> ClosesAt(events, pos + 1, depth + Weight(events[pos]), end)
  {
    var w := Weight(events[pos]);
    assert Level(events, pos, pos) == 0 && Level(events, pos + 1, pos + 1) == 0;
    if ClosesAt(events, pos, depth, end) {
      assert end != pos + 1;
      var next := pos + 1;
      forall j: nat | next <= j < end ensures depth + w + Level(events, next, j) >= 0 {
        assert Level(events, pos, j) == w + Level(events, next, j);
      }
      assert ClosesAt(events, pos + 1, depth + w, end);
    }
    if ClosesAt(events, pos + 1, depth + w, end) {
      forall j: nat | pos <= j < end ensures depth + Level(events, pos, j) >= 0 && !WrongVersion(events[j]) {
        assert j > pos ==> Level(events, pos, j) == w + Level(events, pos + 1, j);
      }
    }
  }

  /** The parser's result and the position it stops at, told without its store or its recursion. */
  lemma {:induction false} LoopScans(s: Store, events: seq<Event>, pos: nat, f: Frame)
    requires FrameIn(s, f) && pos <= |events|
    ensures
      var r, end := Loop(s, events, pos, f), Scan(events, pos, 0);
      if end.Some? then r.code == 0 && r.pos == end.value else r.code == -1
    decreases |events| - pos
  {
    hide TakeScalar, Closed;
    if pos < |events| {
      match events[pos]
      case DocumentStart(v) =>
        if v == Some((1, 1)) {
          LoopScans(s, events, pos + 1, f);
        }
      case OtherEvent => LoopScans(s, events, pos + 1, f);
      case Scalar(value) =>
        var (t, g) := TakeScalar(s, f, value);
        LoopScans(t, events, pos + 1, g);
      case SequenceStart =>
        var g := Frame(f.node, f.node, true, 0, true);
        LoopScans(s, events, pos + 1, g);
        ScanNested(events, pos + 1, 0, 0);
        var r := Loop(s, events, pos + 1, g);
        LoopScans(r.store, events, r.pos, f.(wantsKey := true));
      case MappingStart =>
        var t := if f.inSeq then AddChild(s, f.node, Decimal(f.index), None, true) else s;
        var child := if f.inSeq then |s| else f.node;
        AddChildIsClosed(s, f.node, Decimal(f.index), None, true);
        var g := Frame(child, child, true, 0, false);
        LoopScans(t, events, pos + 1, g);
        ScanNested(events, pos + 1, 0, 0);
        var r := Loop(t, events, pos + 1, g);
        LoopScans(r.store, events, r.pos, f.(wantsKey := true, index := if f.inSeq then f.index + 1 else f.index));
      case _ =>
    }
  }

  /** The stream closes its outermost level before it ends or a document of another version begins. */
  ghost predicate Succeeds(events: seq<Event>) { exists end :: ClosesAt(events, 0, 0, end) }

  /**
   On any stream, loading returns 0 if and only if the events close more than they open at some point, every document
   up to there being of version 1.1, and it stops at the first such point; otherwise it returns -1.
   */
  lemma LoadSucceedsExactly(s: Store, events: seq<Event>, root: Ptr)
    requires Closed(s) && root < |s|
    ensures
      var r := Parse(s, events, 0, root, false);
      && (r.code == 0 || r.code == -1)
      && (r.code == 0 <==> Succeeds(events))
      && (r.code == 0 ==> ClosesAt(events, 0, 0, r.pos))
  {
    LoopScans(s, events, 0, Frame(root, root, true, 0, false));
    var end := Scan(events, 0, 0);
    if end.Some? {
      ScanIsClosing(events, 0, 0, end.value);
    }
    if Succeeds(events) {
      var e :| ClosesAt(events, 0, 0, e);
      ScanIsClosing(events, 0, 0, e);
    }
  }

  /** A file that does not declare version 1.1 is refused with nothing changed, whatever follows. */
  lemma WrongVersionIsRefused(s: Store, root: Ptr, version: Option<(int, int)>, rest: seq<Event>)
    requires Closed(s) && root < |s| && version != Some((1, 1))
    ensures Parse(s, [OtherEvent, DocumentStart(version)] + rest, 0, root, false) == Outcome(s, 2, -1)
  {
    var events := [OtherEvent, DocumentStart(version)] + rest;
    assert events[0] == OtherEvent && events[1] == DocumentStart(version);
    LoopPasses(s, events, 0, Frame(root, root, true, 0, false));
  }

  lemma {:induction false} ScanOfPrefix(events: seq<Event>, n: nat, pos: nat, depth: nat)
    requires pos <= n <= |events| && Scan(events[..n], pos, depth).Some?
    ensures Scan(events, pos, depth) == Scan(events[..n], pos, depth)
    decreases n - pos
  {
    if pos < n {
      var e := events[pos];
      assert events[..n][pos] == e;
      if !WrongVersion(e) && !(Closing(e) && depth == 0) {
        ScanOfPrefix(events, n, pos + 1, depth + Weight(e));
      }
    }
  }

  /** A file cut off anywhere before its end is reported as a failure. */
  lemma TruncatedFileFails(s: Store, root: Ptr, v: Value, n: nat)
    requires Linked(s) && Closed(s) && root < |s| && n < |FileEvents(v)|
    ensures Parse(s, FileEvents(v)[..n], 0, root, false).code == -1
  {
    var events, f := FileEvents(v), Frame(root, root, true, 0, false);
    FileIsMerged(s, root, v);
    LoopScans(s, events, 0, f);
    LoopScans(s, events[..n], 0, f);
    if Scan(events[..n], 0, 0).Some? {
      ScanOfPrefix(events, n, 0, 0);
    }
  }
}
