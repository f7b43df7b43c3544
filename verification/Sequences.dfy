/** Concatenation of sequences of sequences. */
module Sequences {
  function Flat<T>(groups: seq<seq<T>>): seq<T> {
    if groups == [] then [] else Flat(groups[..|groups| - 1]) + groups[|groups| - 1]
  }

  lemma FlatAppend<T>(groups: seq<seq<T>>, g: seq<T>)
    ensures Flat(groups + [g]) == Flat(groups) + g
  {
    assert (groups + [g])[..|groups|] == groups;
  }

  lemma {:induction false} FlatLength<T>(groups: seq<seq<T>>, w: nat)
    requires forall i :: 0 <= i < |groups| ==> |groups[i]| == w
    ensures |Flat(groups)| == |groups| * w
  {
    if groups == [] {
    } else {
      var n := |groups| - 1;
      FlatLength(groups[..n], w);
      NextMultiple(n, w);
    }
  }

  lemma NextMultiple(n: int, w: int)
    ensures (n + 1) * w == n * w + w
  {
  }
}
