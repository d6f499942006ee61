/** Optional values: TypeScript's `Maybe<T>` (`T | null | undefined`) and the
    nullable columns of the users table. Null and undefined are not told apart
    except where the source treats them differently, and there it is said. */
module Wrappers {

  datatype Option<+T> = None | Some(value: T) {

    /** `x ?? d` */
    function GetOr(default: T): T {
      match this
      case Some(v) => v
      case None => default
    }
  }
}
