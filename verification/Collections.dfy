/** Small things that every part needs. */
module Collections {
  datatype Option<+T> = None | Some(value: T)

  /** The last element takes the place of element `i`. */
  function SwapRemove<T>(s: seq<T>, i: nat): seq<T>
    requires i < |s|
  {
    s[i := s[|s| - 1]][..|s| - 1]
  }
}
