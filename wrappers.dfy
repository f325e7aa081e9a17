/** A value that may be absent: a request field that was not sent (or was sent
    empty), or a nullable column holding NULL. */
module Wrappers {
  datatype Option<T> = None | Some(value: T)
  {
    function GetOr(default: T): T
    {
      if Some? then value else default
    }
  }
}
