/** Datatypes shared by every component. */
module Common {

  datatype Option<+T> = None | Some(value: T)

  /** What an elaboration routine that returns a pointer can do: yield an object, yield NULL,
      or stop at a failed assertion (or an equivalent NULL dereference). */
  datatype Res<+T> = Ok(value: T) | Null | Abort
}
