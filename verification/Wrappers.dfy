// Optional values and results with an error, for the source's (value, error) pairs.
module Wrappers {

  datatype Option<+T> = None | Some(value: T) {
    function GetOr(default: T): T {
      match this
      case Some(v) => v
      case None => default
    }
  }

  // The ways a store operation can fail.
  //   Invalid    an argument the operation refuses before touching a table
  //   NotFound   a row the operation needs is absent
  //   Constraint a statement violates a foreign key
  //   Overflow   a decimal counter would leave its width
  //   Driver     the database driver fails a statement or a commit
  datatype Error = Invalid | NotFound | Constraint | Overflow | Driver

  datatype Result<+T> = Ok(value: T) | Err(error: Error)
}
