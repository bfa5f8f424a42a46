/** Java's nullable references, as an explicit optional value. */
module Wrappers {

  /** `None` stands for Java's `null`. */
  datatype Option<+T> = None | Some(value: T) {

    /** The wrapped value, or `default` when this is `None` (ObjectSupport.orElse). */
    function OrElse(default: T): T {
      match this
      case Some(v) => v
      case None => default
    }
  }
}
