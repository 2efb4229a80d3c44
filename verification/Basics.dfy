/** Types that many modules use. */
module Basics {
  datatype Option<T> = None | Some(value: T)
  type Bytes = seq<int>
}

/** The result of a search whose arguments may be refused. */
module Results {
  datatype Result<T> = Ok(value: T) | Err(reason: string)
}
