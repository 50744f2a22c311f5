/** Sequences of sequences, laid end to end. */
module Flattening {
  function Flatten<T>(waves: seq<seq<T>>): seq<T> {
    if waves == [] then [] else Flatten(waves[..|waves| - 1]) + waves[|waves| - 1]
  }

  lemma FlattenAppend<T>(waves: seq<seq<T>>, w: seq<T>)
    ensures Flatten(waves + [w]) == Flatten(waves) + w
  {
    assert (waves + [w])[..|waves|] == waves;
  }
}
