/** Datatypes and one predicate on sequences shared by the component models. */
module Prelude {
  datatype Option<+T> = None | Some(value: T)

  datatype Result<+T, +E> = Ok(value: T) | Err(error: E)

  /** `part` holds the elements of `whole` at these positions, in their order. */
  ghost predicate TakenAt<T>(part: seq<T>, whole: seq<T>, at: seq<nat>) {
    && |part| == |at|
    && (forall k | 0 <= k < |at| :: at[k] < |whole| && part[k] == whole[at[k]])
    && (forall j, k | 0 <= j < k < |at| :: at[j] < at[k])
  }

  /** One element more, left out or taken. */
  lemma TakenNext<T>(part: seq<T>, whole: seq<T>, at: seq<nat>, x: T)
    requires TakenAt(part, whole, at)
    ensures TakenAt(part, whole + [x], at) && TakenAt(part + [x], whole + [x], at + [|whole|])
    ensures |whole| !in at && forall i :: i in at + [|whole|] <==> i in at || i == |whole|
  {
  }
}
