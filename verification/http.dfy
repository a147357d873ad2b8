/**
 * The values a service worker sees on the wire: requests, responses and the
 * outcome of a network fetch. URL parsing is not modelled: a request carries
 * the origin of its URL as a field.
 */
module Http {
  import opened Wrappers

  /** The request mode; only `navigate` changes what the worker does. */
  datatype Mode = Navigate | SameOrigin | NoCors | Cors

  /** A request: its HTTP method, its URL, the origin of that URL and its mode. */
  datatype Request = Request(verb: string, url: string, origin: string, mode: Mode)

  /** A response as an immutable value, so that `response.clone()` is a plain copy. */
  datatype Response = Response(status: int, body: string)

  /**
   * What a call to `fetch` gives: a rejected promise (`Fail`), or a fulfilled
   * one whose value may still be missing (`Answer(None)`, the `!response` test).
   */
  datatype NetResult = Fail | Answer(response: Option<Response>)

  /** The worker intercepts only retrieval requests. */
  predicate IsGet(req: Request) {
    req.verb == "GET"
  }

  /** Same-origin test, made on the REQUEST's URL against the worker's own origin. */
  predicate FromOrigin(req: Request, origin: string) {
    req.origin == origin
  }

  /** `Cache.addAll` accepts a fetched response only when it exists and has an ok status (200-299). */
  predicate Fetchable(n: NetResult) {
    n.Answer? && n.response.Some? && 200 <= n.response.value.status <= 299
  }

  /** The fetch handler persists a network response only when its status is exactly 200. */
  predicate Storable(n: NetResult) {
    n.Answer? && n.response.Some? && n.response.value.status == 200
  }

  /** The response a fetchable outcome delivers. */
  function Delivered(n: NetResult): Response
    requires Fetchable(n)
  {
    n.response.value
  }

}
