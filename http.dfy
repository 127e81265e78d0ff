/** What the route handlers decide about a request, independent of the HTTP server. */
module Http {

  /** The handler a route's method dispatch picks. */
  datatype Handler = ServeForm | HandlePost | MethodNotAllowed

  /** The response a handler has sent itself, if any. */
  datatype Response = Unsent | Sent(status: nat, body: string)
}
