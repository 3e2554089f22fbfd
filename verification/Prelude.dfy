/** Option values and the maxima that every component of the hub model uses. */
module Prelude {

  datatype Option<+T> = None | Some(value: T)

  function Max(a: int, b: int): int {
    if a >= b then a else b
  }

  /** The largest element of `xs`, or `floor` when every element is smaller. */
  function Largest(xs: seq<int>, floor: int): int {
    if xs == [] then floor else Max(xs[|xs| - 1], Largest(xs[..|xs| - 1], floor))
  }
}
