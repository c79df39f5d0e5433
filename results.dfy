/** Optional values and fallible results, used wherever the Python code
    returns None or lets an exception escape. */
module Results {

  datatype Option<T> = None | Some(value: T) {
    function GetOr(default: T): T {
      match this
      case Some(v) => v
      case None => default
    }
  }

  /** `Err` stands for a Python exception; `why` names it. */
  datatype Result<T> = Ok(value: T) | Err(why: string)
}
