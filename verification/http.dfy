/** Requests, responses and the network as the worker sees them. */
module Http {

  /** The conventional optional value; `None` stands for "absent" (an unmatched
      cache lookup, a rejected fetch). */
  datatype Option<+T> = None | Some(value: T)

  /** A cache key: the absolute URL of a request. */
  type Key = string

  /** The request mode of the Fetch standard. `CrossOrigin` is the mode spelled "cors". */
  datatype Mode = Navigate | SameOrigin | CrossOrigin | NoCors

  datatype Request = Request(url: Key, mode: Mode)

  /** The response type of the Fetch standard; `OpaqueRedirect` is what a
      navigation fetch yields for a redirect, `Default` the type of a response
      built by the script itself. */
  datatype Kind = Basic | Cors | Opaque | OpaqueRedirect | Error | Default

  datatype Response = Response(status: int, kind: Kind, contentType: string, body: string)

  /** A response whose body is null in the Fetch standard: an opaque redirect,
      or a null body status (101, 103, 204, 205, 304). Such a body is never
      locked by a reader, so such a response can always be cloned. */
  predicate HasNullBody(r: Response) {
    r.kind == OpaqueRedirect || r.status in {101, 103, 204, 205, 304}
  }

  /** The network as an oracle: what `fetch` settles with for a request,
      `None` when the fetch promise rejects. */
  type Network = Request -> Option<Response>
}
