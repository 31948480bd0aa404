/** Types shared by the whole model. */
module Prelude {

  datatype Option<+T> = None | Some(value: T)

  datatype Result<+T, +E> = Ok(value: T) | Err(error: E)

  type byte = x: int | 0 <= x < 256

  /** A set of values that all occur in a sequence is no larger than it. */
  lemma {:induction false} FewValues<T>(values: seq<T>, chosen: set<T>)
    requires forall x :: x in chosen ==> x in values
    ensures |chosen| <= |values|
  {
    if values == [] {
      assert forall x :: x !in chosen;
      assert chosen == {};
    } else {
      var n := |values| - 1;
      var rest := chosen - {values[n]};
      FewValues(values[..n], rest);
      assert values[n] !in chosen ==> rest == chosen;
    }
  }

  predicate AllTrue(flags: seq<bool>) {
    forall i :: 0 <= i < |flags| ==> flags[i]
  }
}
