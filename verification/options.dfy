/** The optional value of a `useState<T | null>` hook: `None` is `null`. */
module Options {

  datatype Option<+T> = None | Some(value: T)
}
