/** Result and option types shared by the modules. */
module Common {
  datatype Option<+T> = None | Some(value: T) {
    function GetOr(default: T): T {
      if Some? then value else default
    }
  }

  /** A computation of the agent that may raise; the exception class is not distinguished. */
  datatype Result<+T> = Ok(value: T) | Raised
}
