/** An absent value: TypeScript's `undefined`, `null` or `NaN`, or a thrown error. */
module Options {
  datatype Option<+T> = None | Some(value: T)
}
