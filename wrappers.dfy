/** Values at the boundary of the modelled code: optional values and loosely typed arguments. */
module Wrappers {
  /** A value that may be null, undefined or None. */
  datatype Option<T> = None | Some(value: T)

  /** A JavaScript argument: null/undefined, a string, or a value of another type. */
  datatype JsArg = Absent | JsStr(s: string) | NonString

  /** `!x || typeof x !== 'string'`: a missing, empty or non-string argument. */
  predicate JsMissing(v: JsArg) { !v.JsStr? || v.s == [] }
}
