/**
 `_MemoryParser._flatten`: a list whose elements are either plain values or
 (arbitrarily deeply) nested lists, flattened depth-first, left to right.
 */
module Nesting {

  /** An element of a Python list that `_flatten` inspects: a non-list value or a list. */
  datatype Nested<T> = Atom(value: T) | Group(items: seq<Nested<T>>)

  /** `_flatten(l)`: atoms are kept, groups are flattened recursively, in order. */
  function Flatten<T>(l: seq<Nested<T>>): (r: seq<T>)
    ensures forall i :: 0 <= i < |l| && l[i].Atom? ==> l[i].value in r
    decreases l
  {
    if |l| == 0 then []
    else
      var head := match l[0]
        case Atom(v) => [v]
        case Group(items) => Flatten(items);
      head + Flatten(l[1..])
  }

  /** A flat list of plain values, seen as a Python list. */
  function Atoms<T>(xs: seq<T>): (r: seq<Nested<T>>)
    ensures |r| == |xs|
    ensures forall i :: 0 <= i < |xs| ==> r[i] == Atom(xs[i])
  {
    seq(|xs|, i requires 0 <= i < |xs| => Atom(xs[i]))
  }

  /** A list of flat lists, seen as a Python list of lists. */
  function Groups<T>(ls: seq<seq<T>>): (r: seq<Nested<T>>)
    ensures |r| == |ls|
    ensures forall i :: 0 <= i < |ls| ==> r[i] == Group(Atoms(ls[i]))
  {
    seq(|ls|, i requires 0 <= i < |ls| => Group(Atoms(ls[i])))
  }

  /** The inner lists one after the other. */
  function Concat<T>(ls: seq<seq<T>>): seq<T>
    decreases |ls|
  {
    if |ls| == 0 then [] else ls[0] + Concat(ls[1..])
  }

  function SumLengths<T>(ls: seq<seq<T>>): nat
    decreases |ls|
  {
    if |ls| == 0 then 0 else |ls[0]| + SumLengths(ls[1..])
  }

  /** Flattening distributes over list concatenation. */
  lemma {:induction false} FlattenAppend<T>(a: seq<Nested<T>>, b: seq<Nested<T>>)
    ensures Flatten(a + b) == Flatten(a) + Flatten(b)
    decreases |a|
  {
    if |a| > 0 {
      assert (a + b)[0] == a[0];
      assert (a + b)[1..] == a[1..] + b;
      FlattenAppend(a[1..], b);
    } else {
      assert a + b == b;
    }
  }

  /** A nested list in a one-element list flattens to what the nested list flattens to, at any depth. */
  lemma FlattenGroup<T>(items: seq<Nested<T>>)
    ensures Flatten([Group(items)]) == Flatten(items)
  {
    assert [Group(items)][1..] == [];
  }

  /** A list that holds no nested list is returned unchanged. */
  lemma {:induction false} FlattenAtoms<T>(xs: seq<T>)
    ensures Flatten(Atoms(xs)) == xs
    decreases |xs|
  {
    if |xs| > 0 {
      assert Atoms(xs)[1..] == Atoms(xs[1..]);
      FlattenAtoms(xs[1..]);
      assert [xs[0]] + xs[1..] == xs;
    }
  }

  /** A list of flat lists flattens to their concatenation, in order. */
  lemma {:induction false} FlattenGroups<T>(ls: seq<seq<T>>)
    ensures Flatten(Groups(ls)) == Concat(ls)
    decreases |ls|
  {
    if |ls| > 0 {
      assert Groups(ls)[1..] == Groups(ls[1..]);
      FlattenAtoms(ls[0]);
      FlattenGroups(ls[1..]);
    }
  }

  /** The flattened list of a list of flat lists is as long as all inner lists together. */
  lemma {:induction false} FlattenGroupsLength<T>(ls: seq<seq<T>>)
    ensures |Flatten(Groups(ls))| == SumLengths(ls)
  {
    FlattenGroups(ls);
    ConcatLength(ls);
  }

  lemma {:induction false} ConcatLength<T>(ls: seq<seq<T>>)
    ensures |Concat(ls)| == SumLengths(ls)
    decreases |ls|
  {
    if |ls| > 0 {
      ConcatLength(ls[1..]);
    }
  }
}
