/** Small vocabulary shared by all modules. */
module Basics {

  datatype Option<+T> = None | Some(value: T)

  // Milliseconds.
  type Time = int

  function Min(a: nat, b: nat): nat {
    if a < b then a else b
  }

  function Init<T>(s: seq<T>): seq<T>
    requires s != []
  {
    s[..|s| - 1]
  }

  function Last<T>(s: seq<T>): T
    requires s != []
  {
    s[|s| - 1]
  }

  predicate Distinct<T(==)>(s: seq<T>) {
    forall i, j :: 0 <= i < j < |s| ==> s[i] != s[j]
  }
}
