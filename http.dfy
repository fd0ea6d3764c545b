/** Requests and responses as the handlers see them, independent of the HTTP framework. */
module Http {
  import opened Wrappers
  import opened JsValues

  datatype Method = GET | POST | PUT | DELETE | OPTIONS | OtherMethod(name: string)

  datatype Body = NoBody | JsonBody(value: Json)

  /**
   * A request to a serverless function: the method, the query string's parameters and the parsed
   * body, which is `undefined` when the request has none.
   */
  datatype Request = Request(verb: Method, query: map<string, string>, body: Value)

  datatype Response = Response(status: int, headers: map<string, string>, body: Body)

  /** `{error: message}` */
  function ErrorJson(message: string): Json {
    JObj(map["error" := JStr(message)])
  }

  /** `{success: true}` */
  const SuccessJson := JObj(map["success" := JBool(true)])

  /** The CORS headers both serverless functions set before anything else. */
  const ApiHeaders: map<string, string> := map[
    "Access-Control-Allow-Origin" := "*",
    "Access-Control-Allow-Methods" := "GET, POST, PUT, DELETE, OPTIONS",
    "Access-Control-Allow-Headers" := "Content-Type, Authorization"]

  /** `res.status(status).json(value)` */
  function Send(status: int, value: Json): Response {
    Response(status, ApiHeaders, JsonBody(value))
  }

  /** `res.status(200).end()`, the answer to a preflight request. */
  const Preflight := Response(200, ApiHeaders, NoBody)

  /** A query parameter that is present and truthy, that is, not empty. */
  function QueryString(req: Request, name: string): (r: Option<string>)
    ensures r.Some? <==> name in req.query && req.query[name] != ""
    ensures r.Some? ==> r.value == req.query[name]
  {
    if name in req.query && req.query[name] != "" then Some(req.query[name]) else None
  }
}
