/**
 * What one HTTP exchange with the train-search service can yield, as the tools
 * see it after `requests.get/post`, `raise_for_status()` and `response.json()`.
 */
module Remote {

  /** A JSON value of a decoded reply body, with the text Python's `str()` gives it. */
  datatype Value = Str(s: string) | Other(text: string)

  /** Python's `str(v)` (what an f-string embeds): a string is itself, anything else its rendering. */
  function Render(v: Value): string {
    match v
    case Str(s) => s
    case Other(text) => text
  }

  /**
   * The outcome of one request: either an exception raised before the body is a
   * dictionary (a transport failure, an HTTP error status, a body that is not JSON
   * or not a JSON object), carrying `str(e)`, or the decoded JSON object.
   */
  datatype Exchange = Raised(message: string) | Json(body: map<string, Value>)

  /** Python's `str(KeyError(key))`: the key between single quotes. */
  function KeyErrorText(key: string): string {
    "'" + key + "'"
  }
}
