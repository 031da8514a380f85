/** Sequences without repetition, and sequences with one element taken out. */
module Sequences {
  ghost predicate DuplicateFree<T>(s: seq<T>) {
    forall i, j :: 0 <= i < j < |s| ==> s[i] != s[j]
  }

  /** s without its i-th element. */
  function RemoveAt<T>(s: seq<T>, i: nat): (r: seq<T>)
    requires i < |s|
    ensures |r| == |s| - 1
    ensures forall j :: 0 <= j < |r| ==> r[j] == s[if j < i then j else j + 1]
    ensures forall x :: x in r ==> x in s
  {
    s[..i] + s[i + 1..]
  }
}
