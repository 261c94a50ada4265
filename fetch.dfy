/**
 * The outcome of an HTTP request whose JSON body was decoded, taken as an
 * input by every normaliser: the request itself is not modelled.
 */
module Fetch {

  /**
   * `Failed` is any exception before a body is in hand (network error,
   * a body that is not JSON or lacks the expected structure); `Received`
   * carries the response's `ok` flag and its decoded body.
   */
  datatype Response<T> = Failed | Received(ok: bool, body: T)
}
