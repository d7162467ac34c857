/** A value that may be missing: JavaScript's `null` / `undefined`. */
module Wrappers {

  datatype Option<T> = None | Some(value: T) {

    /** The value, or `default` when it is missing. */
    function GetOr(default: T): T {
      match this
      case Some(v) => v
      case None => default
    }
  }

  /** JavaScript truthiness of a number that may be missing: present and not 0. */
  predicate Truthy(n: Option<int>) { n.Some? && n.value != 0 }

  /** JavaScript truthiness of a string that may be missing: present and not empty. */
  predicate TruthyText(s: Option<string>) { s.Some? && s.value != "" }
}
