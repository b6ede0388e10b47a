// What several modules use and none of them is about.
module Prelude {

  datatype Option<+T> = None | Some(value: T)

  ghost predicate NoRepeats<T>(list: seq<T>) {
    forall i, j | 0 <= i < j < |list| :: list[i] != list[j]
  }

  lemma Regroup<T>(a: seq<T>, b: seq<T>, c: seq<T>)
    ensures a + b + c == a + (b + c)
  {
  }
}
