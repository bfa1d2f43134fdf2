/** Option, the one failure-carrying wrapper the model needs. */
module Wrappers {

  datatype Option<+T> = None | Some(value: T)

  /** Prepends one element to an optional sequence, keeping a failure. */
  function Cons<T>(x: T, rest: Option<seq<T>>): Option<seq<T>>
  {
    match rest
    case None => None
    case Some(xs) => Some([x] + xs)
  }
}
