/**
 * The JSON values the handlers read from request bodies and emit as
 * serialised rows. Only what the handlers inspect is modelled: objects whose
 * values are null, integers or strings.
 */
module Json {
  import opened Wrappers

  datatype Value = Null | Int(i: int) | Str(s: string)

  /** A JSON object; a serialised row and a request body are both of this shape. */
  type Object = map<string, Value>

  /**
   * The parsed body of a request: `None` when the JSON body is the literal
   * `null`. A request with no JSON, or with JSON that does not parse, is
   * refused by the framework before any handler runs, so it never reaches
   * a handler.
   */
  type Body = Option<Object>
}
