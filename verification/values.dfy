/** The values both query languages compute with, and the usual failure types. */
module Values {
  datatype Option<+T> = None | Some(value: T) {
    predicate IsFailure() {
      None?
    }

    function PropagateFailure<U>(): Option<U>
      requires None?
    {
      None
    }

    function Extract(): T
      requires Some?
    {
      value
    }
  }

  datatype Result<+T, +E> = Success(value: T) | Failure(error: E) {
    predicate IsFailure() {
      Failure?
    }

    function PropagateFailure<U>(): Result<U, E>
      requires Failure?
    {
      Failure(error)
    }

    function Extract(): T
      requires Success?
    {
      value
    }
  }

  /**
   * A document value. `Absent` is SurrealQL's `NONE` and MongoDB's missing field.
   * Whole and fractional numbers are kept apart because SurrealQL's `/` treats
   * two whole operands differently. `RecordOf` is the record id SurrealDB keeps an
   * identity in, its table aside.
   */
  datatype Value =
    | Absent
    | Null
    | Bool(flag: bool)
    | Int(whole: int)
    | Float(number: real)
    | Str(text: string)
    | Arr(items: seq<Value>)
    | Obj(fields: map<string, Value>)
    | RecordOf(id: Value)
  {
    predicate Nullish() {
      Absent? || Null?
    }

    predicate IsNumber() {
      Int? || Float?
    }

    /** The quantity a number denotes, however it is stored. */
    function Quantity(): real
      requires IsNumber()
    {
      if Int? then whole as real else number
    }
  }
}
