/** Small value types shared by the server and the client models. */
module Common {

  datatype Option<+T> = None | Some(value: T)

  /** A field of a parsed JSON request body or query string, as JavaScript sees it:
      missing (`undefined`), an explicit `null`, or a string. */
  datatype Input = Undefined | Null | Str(s: string)
  {
    /** JavaScript truthiness: only a non-empty string is truthy. */
    predicate Truthy() {
      Str? && s != ""
    }

    /** `x || fallback` */
    function Or(fallback: string): (r: string)
      ensures Truthy() ==> r == s
      ensures !Truthy() ==> r == fallback
    {
      if Truthy() then s else fallback
    }
  }

  /** A handler's answer: a success status with a body, or an error status with its message. */
  datatype Outcome<+T> = Success(status: int, value: T) | Failure(status: int, message: string)
}
