/** Optional values, standing for TypeScript's `T | undefined`. */
module Base {

  datatype Option<+T> = None | Some(value: T)

}
