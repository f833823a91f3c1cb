/** Small shared vocabulary: the optional value that stands in for a nullable pointer. */
module Common {

  /** `None` plays the part of a null pointer or an absent result. */
  datatype Option<+T> = None | Some(value: T)
}
