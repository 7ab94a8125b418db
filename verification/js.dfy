/** Values as the request handlers receive them from a parsed JSON body,
    a query string or a route parameter. */
module Js {

  /** A value that may be missing: a SQL NULL, an unparseable date (NaN),
      or a row count that the driver left null. */
  datatype Option<+T> = None | Some(value: T) {
    function GetOr(default: T): (v: T) {
      match this
      case Some(v) => v
      case None => default
    }
  }

  /** One field of a request: absent (`undefined`), JSON `null`, or a value. */
  datatype Field<+T> = Undefined | Null | Given(value: T)

  /** JavaScript truthiness of a text field: `undefined`, `null` and "" are falsy. */
  predicate TruthyText(f: Field<string>) {
    f.Given? && f.value != ""
  }

  /** JavaScript truthiness of a numeric field: `undefined`, `null` and 0 are falsy. */
  predicate TruthyNumber(f: Field<int>) {
    f.Given? && f.value != 0
  }
}
