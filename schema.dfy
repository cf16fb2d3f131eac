/** What a mongoose schema checks: `required` string paths and their error. */
module Schema {

  /** The validation error mongoose raises for a missing required path. */
  datatype SchemaError = Required(path: string)

  /** A `required: true` String path accepts a value only when it is a non-empty string.
      In this model an absent string and the empty string are the same value, "". */
  predicate Present(s: string) {
    s != ""
  }

  /** JavaScript `s || d` on strings: the empty string is falsy. */
  function OrElse(s: string, d: string): (r: string)
    ensures Present(s) ==> r == s
    ensures !Present(s) ==> r == d
  {
    if s == "" then d else s
  }
}
