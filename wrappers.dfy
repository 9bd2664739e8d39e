/** Optional values: `None` stands for a JavaScript `undefined` (an absent field). */
module Wrappers {

  datatype Option<+T> = None | Some(value: T)

  /** `xs ?? []`: an absent list behaves like the empty list. */
  function OrEmpty<T>(xs: Option<seq<T>>): seq<T>
  {
    match xs
    case Some(s) => s
    case None => []
  }
}
