/** Records shared by several core files: the `Terminal` row of the main
    database (src/shared/interfaces/terminal.interface.ts). */
module Entities {
  import opened Wrappers

  /** A POS terminal or store server.  Optional booleans are kept as their
      truthiness; `id` and `branch_id` are absent or present numbers. */
  datatype Terminal = Terminal(
    id: Option<int>,
    name: string,
    ipAddress: string,
    dbUser: string,
    dbPass: string,
    branchId: Option<int>,
    isActive: bool,
    isServer: bool)

  /** A sequence without repeated elements (the key order of a JS `Map`, a
      set of ids). */
  predicate Distinct<T(==)>(s: seq<T>) {
    forall i, j :: 0 <= i < j < |s| ==> s[i] != s[j]
  }

  /** The elements of `s` that lie in `keep`, in their original order. */
  function KeepIn(s: seq<int>, keep: set<int>): (r: seq<int>)
    ensures forall x :: x in r <==> x in s && x in keep
    ensures Distinct(s) ==> Distinct(r)
    ensures |r| <= |s|
  {
    if s == [] then []
    else if s[0] in keep then [s[0]] + KeepIn(s[1..], keep)
    else KeepIn(s[1..], keep)
  }

  function SetOf<T(!new)>(s: seq<T>): (r: set<T>)
    ensures forall x :: x in r <==> x in s
  {
    set x | x in s
  }

  /** A sequence without repetitions has as many elements as its set. */
  lemma {:induction false} DistinctCardinality<T(!new)>(s: seq<T>)
    requires Distinct(s)
    ensures |SetOf(s)| == |s|
  {
    if s != [] {
      var tail := s[1..];
      DistinctCardinality(tail);
      assert SetOf(s) == {s[0]} + SetOf(tail);
      assert s[0] !in SetOf(tail);
    }
  }

  lemma SetOfSnoc(s: seq<int>, x: int)
    ensures SetOf(s + [x]) == SetOf(s) + {x}
  {
  }
}
