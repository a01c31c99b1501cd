/** Optional values: Swift's `T?`, used for every lookup and cast that can fail. */
module Wrappers {

  datatype Option<+T> = None | Some(value: T) {

    /** The wrapped value, or `default` when there is none (Swift's `??`). */
    function GetOr(default: T): T {
      if Some? then value else default
    }
  }
}
