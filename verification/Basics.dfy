/** What several components share. */
module Basics {

  datatype Option<+T> = None | Some(value: T)

  function Max(a: nat, b: nat): nat { if a < b then b else a }

  /** Appending is associative. */
  lemma {:induction false} Regroup<T>(a: seq<T>, b: seq<T>, c: seq<T>)
    ensures a + b + c == a + (b + c)
  {
  }
}
