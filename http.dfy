/** The response shape and the fixed messages the three request handlers share. */
module Http {
  import opened Basics
  import opened Json

  /** A response: status, whether it carries `Allow: POST`, and its JSON body (None for the empty
      preflight body). CORS headers, present on every response, are not modelled. */
  datatype Response = Response(status: int, allowPost: bool, body: Option<Json>)

  function Error(status: int, msg: string): Response {
    Response(status, false, Some(ErrorBody(msg)))
  }

  const MissingKey: string := "Server configuration error: API key missing."
  const InvalidBody: string := "Bad Request: Invalid JSON in request body."
  const TopicRequired: string := "Bad Request: 'topic' is required in the request body."
  const NodeNameRequired: string := "Bad Request: 'nodeName' is required."
  const NoResponseMsg: string := "No response received from AI model."

  /** What the SDK call and `response.text()` give the Netlify functions: no `response`, the
      reply text, or an exception with its message. */
  datatype SdkReply = Empty | Replied(text: string) | Raised(message: string)

  /** An absent or empty body reads as an empty object. */
  function BodyOrEmpty(body: string): (r: string)
    ensures r != ""
    ensures body != "" ==> r == body
  {
    if body == "" then "{}" else body
  }

  /** A required string field: a missing or non-string value, or a blank string, is rejected. */
  function StringArg(body: Json, key: string): (r: Option<string>)
    ensures r.Some? <==> exists s :: Get(body, key) == Some(JStr(s)) && Trim(s) != ""
    ensures r.Some? ==> Get(body, key) == Some(JStr(r.value))
  {
    match Get(body, key)
    case Some(JStr(s)) => if Trim(s) != "" then Some(s) else None
    case _ => None
  }

  /** An optional context field: its value when truthy, else the empty string. */
  function OrEmpty(v: Option<Json>): (r: Json)
    ensures Truthy(r) || r == JStr("")
    ensures v.Some? && Truthy(v.value) ==> r == v.value
  {
    match v
    case Some(x) => if Truthy(x) then x else JStr("")
    case None => JStr("")
  }

  /** The request fields of an expand request: a non-blank string `nodeName` and the two
      contexts, each "" when absent or falsy. */
  function ExpandArgs(body: Json): (r: Option<(string, Json, Json)>)
    ensures r.Some? <==> exists s :: Get(body, "nodeName") == Some(JStr(s)) && Trim(s) != ""
    ensures r.Some? ==> Get(body, "nodeName") == Some(JStr(r.value.0))
    ensures r.Some? && Get(body, "parentContext").None? ==> r.value.1 == JStr("")
    ensures r.Some? && Get(body, "rootContext").None? ==> r.value.2 == JStr("")
  {
    match StringArg(body, "nodeName")
    case Some(name) => Some((name, OrEmpty(Get(body, "parentContext")), OrEmpty(Get(body, "rootContext"))))
    case None => None
  }
}
