/** JavaScript values the extension reads out of its stored records. */
module Js {

  /** A record field that may be absent (`undefined`). */
  datatype Option<T> = None | Some(value: T)

  /** JavaScript truthiness of a string field: `undefined` and `""` are falsy. */
  predicate Truthy(v: Option<string>) {
    v.Some? && v.value != ""
  }

  /** `v || 0` for a count field: an absent count reads as 0. */
  function OrZero(v: Option<nat>): nat {
    if v.Some? then v.value else 0
  }
}
