/** Failure-compatible wrappers shared by the class registry and the emitter.
    Every exception the emitter throws becomes one `Error` value. */
module Base {

  /** C's `uint32_t` range; its arithmetic wraps modulo 2^32. */
  const U32_LIMIT: int := 0x1_0000_0000
  type u32 = x: int | 0 <= x < U32_LIMIT

  /** The value an unsigned 32-bit variable holds after storing `x`. */
  function Wrap32(x: int): u32 {
    x % U32_LIMIT
  }

  datatype Option<+T> = None | Some(value: T)

  /** One variant per distinct `runtime_error` the emitter can throw. */
  datatype Error =
    | TooManyClasses        // derive with serial >= 2^20
    | ClassFrozen           // class-typed addfield on a finished class
    | ArrayTooDeep          // arraydepth >= 4096
    | IllegalPrimitive      // primitive code > 3
    | ObjectTooLarge        // finish with size >= 2048
    | FieldIndexOutOfRange  // `fields.at(i)` with i out of range
    | FrameTooLarge         // more than 255 frame slots
    | TooManyParams         // more than 8 parameters
    | IllegalRegister       // register number >= 32
    | BannedRegister        // x1..x4 used as an integer operand
    | ExpectedInteger       // class or array typed operand
    | ClassNotFinished      // field access through an unfinished class
    | PointerWrongType      // pointer register does not hold exactly the class
    | FieldTypeMismatch     // reference field stored from a register of another type

  datatype Result<+T> = Ok(value: T) | Err(error: Error) {

    predicate IsFailure() {
      Err?
    }

    function PropagateFailure<U>(): Result<U>
      requires Err?
    {
      Err(error)
    }

    function Extract(): T
      requires Ok?
    {
      value
    }
  }

  /** A check that either passes or fails with an error, carrying no value. */
  datatype Outcome = Pass | Fail(error: Error) {

    predicate IsFailure() {
      Fail?
    }

    function PropagateFailure<U>(): Result<U>
      requires Fail?
    {
      Err(error)
    }
  }
}
