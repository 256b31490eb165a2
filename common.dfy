/** Small shared vocabulary for the game engines. */
module Common {

  /** A value that may be absent: the engines' `null`. */
  datatype Option<T> = None | Some(value: T)
}
