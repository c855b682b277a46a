/** What several modules share. */
module Basics {

  datatype Option<T> = None | Some(value: T)

  function Pow2(n: nat): (p: int)
    ensures p >= 1
  {
    if n == 0 then 1 else 2 * Pow2(n - 1)
  }
}
