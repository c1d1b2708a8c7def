/** Request-body fields as the handlers see them after JSON parsing. */
module Fields {

  /** A field that may be absent from the parsed body. */
  datatype Option<+T> = None | Some(value: T)

  /** JavaScript's `!x` on a body field: an absent field and the empty
      string are both falsy, every other string is truthy. */
  predicate Missing(field: Option<string>) {
    field.None? || field.value == ""
  }

  /** The value of a field the handler has already found truthy. */
  function Given(field: Option<string>): (v: string)
    requires !Missing(field)
    ensures field == Some(v) && v != ""
  {
    field.value
  }
}
