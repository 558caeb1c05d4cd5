/** The Netlify function behind `/expand` (netlify/functions/expand.js). It validates the request
    like the worker and answers with the bare array of new children, without the worker's
    `{ nodes, _modelUsed }` wrapper. */
module NetlifyExpand {
  import opened Basics
  import opened Json
  import opened Recovery
  import opened Http
  import Worker

  const FailurePrefix: string := "Failed to expand node: "

  /** The handler. `body` is the raw request body ("" when absent); `ask` gives the SDK's reply
      to the prompt built from the node name and the two contexts. */
  function Handler(verb: string, body: string, apiKey: string, parse: Parser,
                   ask: (string, Json, Json) -> SdkReply): (r: Response)
    ensures r.status in {200, 400, 405, 500}
    ensures r.allowPost <==> r.status == 405
    ensures r.body.None? <==> verb == "OPTIONS"
    ensures r.status == 400 <==> verb == "POST" && apiKey != "" && ArgsOf(body, parse).Err?
  {
    if verb == "OPTIONS" then Response(200, false, None)
    else if verb != "POST" then Response(405, true, Some(ErrorBody("Method " + verb + " Not Allowed")))
    else if apiKey == "" then Error(500, MissingKey)
    else match ArgsOf(body, parse)
      case Err(m) => Error(400, m)
      case Ok((name, parent, root)) => Answer(ask(name, parent, root), parse)
  }

  /** The node name and contexts, or the message of the 400 response. */
  function ArgsOf(body: string, parse: Parser): (r: Result<(string, Json, Json)>)
    ensures r.Err? ==> r.msg == InvalidBody || r.msg == NodeNameRequired
    ensures r.Err? && r.msg == InvalidBody <==> parse(BodyOrEmpty(body)) in {None, Some(JNull)}
    ensures r.Ok? ==> exists j :: parse(BodyOrEmpty(body)) == Some(j) && ExpandArgs(j) == Some(r.value)
  {
    match parse(BodyOrEmpty(body))
    case None => Err(InvalidBody)
    case Some(JNull) => Err(InvalidBody)
    case Some(j) =>
      match ExpandArgs(j)
      case Some(args) => Ok(args)
      case None => Err(NodeNameRequired)
  }

  /** The first attempt: the fence-stripped, trimmed reply is parsed only when it starts with '['
      and ends with ']'. */
  function FirstAttempt(text: string, parse: Parser): (r: Option<seq<Json>>)
    ensures r.Some? ==> forall x :: x in r.value ==> HasName(x)
    ensures r.Some? ==> var cleaned := Trim(StripFences(text));
                        StartsWith(cleaned, "[") && EndsWith(cleaned, "]") && NamedArray(parse(cleaned)) == r
  {
    var cleaned := Trim(StripFences(text));
    if StartsWith(cleaned, "[") && EndsWith(cleaned, "]") then NamedArray(parse(cleaned)) else None
  }

  /** The array recovery: the first attempt, then the retry on the raw reply. */
  function RecoverArray(text: string, parse: Parser): (r: Result<seq<Json>>)
    ensures r.Ok? ==> forall x :: x in r.value ==> HasName(x)
    ensures r.Err? ==> r.msg == NotValidArray
  {
    match FirstAttempt(text, parse)
    case Some(items) => Ok(items)
    case None => ArrayRetry(text, parse)
  }

  /** Here too the first attempt never changes the outcome: a bracketed cleaned text is its own
      block, and that block is the raw reply's. */
  lemma RecoverArrayIsRetry(text: string, parse: Parser)
    ensures RecoverArray(text, parse) == ArrayRetry(text, parse)
  {
    var cleaned := Trim(StripFences(text));
    if StartsWith(cleaned, "[") && EndsWith(cleaned, "]") {
      BracketedIsBlock(cleaned, '[', ']');
      BracketsAreNotFiller();
      CleanKeepsBlock(text, '[', ']');
    }
  }

  /** So the Netlify function and the worker recover the same children from every reply, even
      though their first attempts differ. */
  lemma AgreesWithWorker(text: string, parse: Parser)
    ensures RecoverArray(text, parse) == Worker.RecoverArray(text, parse)
  {
    RecoverArrayIsRetry(text, parse);
    Worker.RecoverArrayIsRetry(text, parse);
  }

  /** What the model call yields: the recovered children, or the message of the error thrown. */
  function Outcome(reply: SdkReply, parse: Parser): (r: Result<seq<Json>>)
    ensures reply.Empty? ==> r == Err(NoResponseMsg)
    ensures reply.Raised? ==> r == Err(reply.message)
    ensures reply.Replied? ==> r == RecoverArray(reply.text, parse)
  {
    match reply
    case Empty => Err(NoResponseMsg)
    case Raised(m) => Err(m)
    case Replied(text) => RecoverArray(text, parse)
  }

  /** The response to a validated request: 200 with the bare array of named items, or 500 with
      the prefixed error message. */
  function Answer(reply: SdkReply, parse: Parser): (r: Response)
    ensures r.status in {200, 500} && !r.allowPost && r.body.Some?
    ensures r.status == 200 <==> Outcome(reply, parse).Ok?
    ensures r.status == 200 ==> r.body == Some(JArr(Outcome(reply, parse).value))
                                && forall x :: x in r.body.value.items ==> HasName(x)
    ensures r.status == 500 ==> r.body == Some(ErrorBody(FailurePrefix + Outcome(reply, parse).msg))
  {
    match Outcome(reply, parse)
    case Ok(items) => Response(200, false, Some(JArr(items)))
    case Err(m) => Error(500, FailurePrefix + m)
  }

  /** A reply with no '[' ... ']' block at all is answered with an empty list, not an error. */
  lemma NoBlockGivesEmptyList(text: string, parse: Parser)
    requires Block(text, '[', ']').None?
    ensures Answer(Replied(text), parse) == Response(200, false, Some(JArr([])))
  {
    RecoverArrayIsRetry(text, parse);
  }
}
