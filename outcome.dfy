/// Results of operations whose C# counterpart ends by throwing an exception.
module Outcome {
  /** `Err` stands for a thrown exception and carries its message. */
  datatype Result<+T> = Ok(value: T) | Err(error: string)
  {
    predicate IsFailure() { Err? }

    function PropagateFailure<U>(): Result<U>
      requires Err?
    {
      Err(error)
    }

    function Extract(): T
      requires Ok?
    {
      value
    }
  }

  datatype Option<+T> = None | Some(value: T)

  /** The exception a BinaryReader throws when a read runs past the end of its stream. */
  const EndOfStream := "end of stream"
  /** The exception a List or array indexer throws for an index outside the collection. */
  const IndexOutOfRange := "index out of range"
  /** The exception a Dictionary indexer throws for a missing key. */
  const KeyNotFound := "key not found"
  /** The exception Dictionary.Add throws for a key that is already present. */
  const DuplicateKey := "an item with the same key has already been added"
  /** ArgumentOutOfRangeException, thrown by argument checks. */
  const ArgumentOutOfRange := "specified argument was out of the range of valid values"
  /** The exception a member access on a null reference throws (a foreach over a null list, say). */
  const NullReference := "object reference not set to an instance of an object"
  /** The OverflowException `new T[n]` throws for a negative n. */
  const Overflow := "arithmetic operation resulted in an overflow"
  /** InvalidOperationException thrown without a message. */
  const InvalidOperation := "operation is not valid due to the current state of the object"
}
