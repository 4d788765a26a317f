/** Failure-compatible result types and a law of sequences, shared by the whole model. */
module Wrappers {

  datatype Option<+T> = None | Some(value: T)

  /** What a decoder can report. The Go errors carry text; the model keeps which error it is and
      the numbers the text is built from. */
  datatype Error =
    | IntOverflow
    | UnexpectedEOF
    | InvalidLength
    | UnexpectedEndOfGroup
    | EndGroupForNonGroup
    | IllegalTag(fieldNum: int, wire: nat)
    | WrongWireType(wireType: nat, field: int)
    | IllegalWireType(wireType: nat)

  datatype Result<+T> = Ok(value: T) | Err(error: Error) {
    predicate IsFailure() { Err? }

    function PropagateFailure<U>(): Result<U>
      requires Err?
    {
      Err(error)
    }

    function Extract(): T
      requires Ok?
    {
      value
    }
  }

  /** Both fail, or both succeed with the same value. */
  predicate SameOutcome<T(==)>(a: Result<T>, b: Result<T>) {
    (a.Err? && b.Err?) || a == b
  }

  lemma Regroup<T>(a: seq<T>, b: seq<T>, c: seq<T>)
    ensures (a + b) + c == a + (b + c)
  {
  }
}
