/** Sums and concatenations over sequences, and the option type. */
module Sequences {
  datatype Option<+T> = None | Some(value: T)

  /** The concatenation of a sequence of chunks. */
  function Concat<T>(chunks: seq<seq<T>>): seq<T> {
    if chunks == [] then [] else chunks[0] + Concat(chunks[1..])
  }

  lemma {:induction false} ConcatSnoc<T>(chunks: seq<seq<T>>, last: seq<T>)
    ensures Concat(chunks + [last]) == Concat(chunks) + last
  {
    if chunks == [] {
      assert [last][1..] == [];
    } else {
      ConcatSnoc(chunks[1..], last);
      assert (chunks + [last])[1..] == chunks[1..] + [last];
    }
  }

  /** The sequence without its element at `i`. */
  function Without<T>(xs: seq<T>, i: nat): (r: seq<T>)
    requires i < |xs|
    ensures |r| == |xs| - 1 && forall j :: 0 <= j < |r| ==> r[j] == xs[Skip(i, j)]
  {
    xs[..i] + xs[i + 1..]
  }

  function Skip(i: nat, j: nat): nat { if j < i then j else j + 1 }

  /** The position of the first occurrence. */
  function FirstIndex<T(==)>(xs: seq<T>, x: T): (r: Option<nat>)
    ensures match r
            case Some(i) => i < |xs| && xs[i] == x && forall j :: 0 <= j < i ==> xs[j] != x
            case None => forall j :: 0 <= j < |xs| ==> xs[j] != x
  {
    if xs == [] then None
    else if xs[0] == x then Some(0)
    else
      var r := FirstIndex(xs[1..], x);
      assert forall j :: 1 <= j < |xs| ==> xs[j] == xs[1..][j - 1];
      if r.None? then None else Some(r.value + 1)
  }

  lemma StaysWithout<T>(xs: seq<T>, i: nat, j: nat)
    requires i < |xs| && j < |xs| && j != i
    ensures Without(xs, i)[if j < i then j else j - 1] == xs[j]
  {
  }

  /** How a first occurrence moves when an element goes. */
  lemma FirstIndexWithout<T>(xs: seq<T>, i: nat, x: T)
    requires i < |xs|
    ensures
      var a, b := FirstIndex(xs, x), FirstIndex(Without(xs, i), x);
      if xs[i] == x then b.Some? <==> exists j :: 0 <= j < |xs| && j != i && xs[j] == x
      else a == if b.None? then None else Some(Skip(i, b.value))
  {
    hide FirstIndex, Without;
    var rest := Without(xs, i);
    var a, b := FirstIndex(xs, x), FirstIndex(rest, x);
    if b.Some? {
      assert xs[Skip(i, b.value)] == x;
    }
    if j :| 0 <= j < |xs| && j != i && xs[j] == x {
      StaysWithout(xs, i, j);
    }
    if a.Some? && a.value != i {
      StaysWithout(xs, i, a.value);
    }
  }

  function Total<T>(xs: seq<T>, f: T -> nat): nat {
    if xs == [] then 0 else f(xs[0]) + Total(xs[1..], f)
  }

  lemma {:induction false} TotalUpdate<T>(xs: seq<T>, i: nat, x: T, f: T -> nat)
    requires i < |xs|
    ensures Total(xs[i := x], f) == Total(xs, f) - f(xs[i]) + f(x)
  {
    if i == 0 {
      assert xs[i := x][1..] == xs[1..];
    } else {
      assert xs[i := x][1..] == xs[1..][i - 1 := x];
      TotalUpdate(xs[1..], i - 1, x, f);
    }
  }

  lemma {:induction false} TotalZero<T>(xs: seq<T>, f: T -> nat)
    requires forall x :: x in xs ==> f(x) == 0
    ensures Total(xs, f) == 0
  {
    if xs != [] {
      TotalZero(xs[1..], f);
    }
  }
}
