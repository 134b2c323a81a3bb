/** Values of the JavaScript runtime that the updater's control flow depends on:
    `undefined`-able results, thrown values, and the outcome of an awaited call. */
module JsValues {

  /** A value that may be `undefined` (or `null`). */
  datatype Option<T> = None | Some(value: T)

  /** A value thrown by the updater or by something it awaits. Only the Node.js
      network errors and, possibly, the public-address lookup carry a `code`
      property; the strings and objects the updater throws itself do not. */
  datatype Exc =
    | RequestError(code: string)               // a failed request, e.g. code "ETIMEDOUT"
    | LookupError(lookupCode: Option<string>)  // a failed public-address lookup
    | ThrownString(text: string)               // `throw '...'`
    | ErrorObject(message: string)             // `throw new Error(...)`
    | TypeError                                // a property read on `undefined` or `null`

  /** The `code` property of a thrown value, `None` when reading it gives `undefined`. */
  function CodeOf(e: Exc): (c: Option<string>)
    ensures c.Some? ==> e.RequestError? || e.LookupError?
    ensures e.RequestError? ==> c == Some(e.code)
    ensures e.LookupError? ==> c == e.lookupCode
  {
    match e
    case RequestError(code) => Some(code)
    case LookupError(code) => code
    case _ => None
  }

  /** The settled outcome of an awaited call: its value, or the value it threw. */
  datatype Res<T> = Ok(value: T) | Throw(exc: Exc)
}
