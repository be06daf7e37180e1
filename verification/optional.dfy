/** A JavaScript value that may be absent: `undefined` for a missing request
    field, `NaN` for a failed parseInt, no match for a link search. */
module Optional {

  datatype Option<+T> = None | Some(value: T)

  /** JavaScript truthiness of a string-valued field: `undefined` and the
      empty string are falsy, every other string is truthy. */
  predicate Truthy(field: Option<string>) {
    field.Some? && field.value != []
  }
}
