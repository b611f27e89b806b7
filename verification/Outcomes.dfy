/** The two result shapes the connectors answer with. */
module Outcomes {

  datatype Option<+T> = None | Some(value: T) {
    function GetOr(default: T): T {
      if Some? then value else default
    }
  }

  /** A call that answered, or the exception it threw instead. */
  datatype Result<+T> = Ok(value: T) | Err
}
