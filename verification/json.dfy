/** The request-body values the handler inspects, with Python truthiness. */
module Json {

  /** A JSON value as far as the handler looks at it: `null`, a string, or
      any other value (number, boolean, array, object) of which only its
      truthiness matters. */
  datatype JsonValue = JNull | JString(s: string) | JOther(truthy: bool)

  predicate Truthy(v: JsonValue) {
    match v
    case JNull => false
    case JString(s) => s != ""
    case JOther(t) => t
  }
}
