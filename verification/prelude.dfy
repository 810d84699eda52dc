/** What several components share. */
module Prelude {

  datatype Option<+T> = None | Some(value: T)

  ghost predicate NoDup<T>(s: seq<T>) {
    forall i, j :: 0 <= i < j < |s| ==> s[i] != s[j]
  }

  function Pow2(n: nat): (r: nat)
    ensures r > 0
    decreases n
  {
    if n == 0 then 1 else 2 * Pow2(n - 1)
  }
}
