/** Shared datatypes. */
module Common {
  /** A JavaScript or C++ value that may be null, empty or undefined. */
  datatype Option<+T> = None | Some(value: T)

  /** Concatenation of a list of lists, in order. */
  function Flatten<T>(xs: seq<seq<T>>): seq<T> {
    if xs == [] then [] else Flatten(xs[..|xs| - 1]) + xs[|xs| - 1]
  }

  lemma FlattenAppend<T>(xs: seq<seq<T>>, x: seq<T>)
    ensures Flatten(xs + [x]) == Flatten(xs) + x
  {
    assert (xs + [x])[..|xs|] == xs;
  }
}
