/** The absent value of JavaScript (`undefined` from `Map.get`, `null` from
    `update`) as an Option. */
module Optional {
  datatype Option<+T> = None | Some(value: T)
}
