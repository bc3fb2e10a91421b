/** Small definitions shared by the models. */
module Prelude {
  datatype Option<+T> = None | Some(value: T)

  function Min(a: int, b: int): int {
    if a <= b then a else b
  }

  function Last<T>(s: seq<T>): T
    requires s != []
  {
    s[|s| - 1]
  }

  function Init<T>(s: seq<T>): seq<T>
    requires s != []
  {
    s[..|s| - 1]
  }

  /** Names the first element, for facts stated about every element. */
  lemma HeadOf<T>(s: seq<T>)
    ensures s == [] || s[0] in s
  {
  }
}
