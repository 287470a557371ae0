/** Sequences without repetition, and sequences with a part overwritten. */
module Sequences {

  ghost predicate Distinct<T>(s: seq<T>) {
    forall i, j :: 0 <= i < j < |s| ==> s[i] != s[j]
  }

  // data put over s from position pos on.
  function Splice<T>(s: seq<T>, pos: nat, data: seq<T>): (r: seq<T>)
    requires pos + |data| <= |s|
    ensures |r| == |s|
  {
    s[..pos] + data + s[pos + |data|..]
  }
}
