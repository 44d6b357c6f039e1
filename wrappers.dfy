/** The optional value used for the gradebook's optional fields (`contact?`, `description?`,
    `feedback?`), for `Array.prototype.find` results and for the storage slot. */
module Wrappers {

  datatype Option<+T> = None | Some(value: T) {

    /** The wrapped value, or `default` when there is none (JavaScript's `x || default`
        for a value that is either missing or present). */
    function GetOr(default: T): T {
      match this
      case Some(v) => v
      case None => default
    }
  }
}
