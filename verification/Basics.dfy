/** What every part of the model may use. */
module Basics {
  datatype Option<T> = None | Some(value: T)

  // Counts down before a sealed definition opens: proofs about values that hold it do
  // not unwind it, and so do not look inside.
  const SEALS: seq<bool> := [true, true, true, true]
}
