/** Steps of procedures that may raise, lose a race or die. */
module Steps {
  /** What a step gives its caller: a value, an exception, the reservation collision, or no caller any more. */
  datatype Reply<+T> = Ok(value: T) | Raised | Collided | Died {
    predicate IsFailure() {
      !Ok?
    }

    function PropagateFailure<U>(): Reply<U>
      requires !Ok?
    {
      match this
      case Raised => Raised
      case Collided => Collided
      case Died => Died
    }

    function Extract(): T
      requires Ok?
    {
      value
    }
  }
}
