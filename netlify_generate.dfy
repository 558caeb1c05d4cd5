/** The Netlify function behind `/generate` (netlify/functions/generate.js). It validates the
    request like the worker, asks the model for a mind map of the topic, and recovers the reply
    with the same two-stage object recovery, but returns the recovered value as it is. */
module NetlifyGenerate {
  import opened Basics
  import opened Json
  import opened Recovery
  import opened Http
  import Worker

  const FailurePrefix: string := "Failed to generate mind map: "

  /** The handler. `body` is the raw request body ("" when absent); `ask` gives the SDK's reply
      to the prompt built from the topic. */
  function Handler(verb: string, body: string, apiKey: string, parse: Parser, ask: string -> SdkReply): (r: Response)
    ensures r.status in {200, 400, 405, 500}
    ensures r.allowPost <==> r.status == 405
    ensures r.body.None? <==> verb == "OPTIONS"
    ensures r.status == 400 <==> verb == "POST" && apiKey != "" && TopicOf(body, parse).Err?
  {
    if verb == "OPTIONS" then Response(200, false, None)
    else if verb != "POST" then Response(405, true, Some(ErrorBody("Method " + verb + " Not Allowed")))
    else if apiKey == "" then Error(500, MissingKey)
    else match TopicOf(body, parse)
      case Err(m) => Error(400, m)
      case Ok(topic) => Answer(ask(topic), parse)
  }

  /** The topic, or the message of the 400 response: a body that does not parse, and a `null`
      body whose `topic` read throws inside the same `try`, are invalid JSON; anything else
      without a non-blank string topic lacks the topic. */
  function TopicOf(body: string, parse: Parser): (r: Result<string>)
    ensures r.Err? ==> r.msg == InvalidBody || r.msg == TopicRequired
    ensures r.Err? && r.msg == InvalidBody <==> parse(BodyOrEmpty(body)) in {None, Some(JNull)}
    ensures r.Ok? ==> exists j :: parse(BodyOrEmpty(body)) == Some(j) && Get(j, "topic") == Some(JStr(r.value))
                                  && Trim(r.value) != ""
  {
    match parse(BodyOrEmpty(body))
    case None => Err(InvalidBody)
    case Some(JNull) => Err(InvalidBody)
    case Some(j) =>
      match StringArg(j, "topic")
      case Some(topic) => Ok(topic)
      case None => Err(TopicRequired)
  }

  /** What the model call yields: the recovered value, or the message of the error thrown. */
  function Outcome(reply: SdkReply, parse: Parser): (r: Result<Json>)
    ensures reply.Empty? ==> r == Err(NoResponseMsg)
    ensures reply.Raised? ==> r == Err(reply.message)
    ensures reply.Replied? ==> r == RecoverObject(reply.text, parse)
  {
    match reply
    case Empty => Err(NoResponseMsg)
    case Raised(m) => Err(m)
    case Replied(text) => RecoverObject(text, parse)
  }

  /** The response to a validated request: 200 with the recovered value, or 500 with the
      prefixed error message. */
  function Answer(reply: SdkReply, parse: Parser): (r: Response)
    ensures r.status in {200, 500} && !r.allowPost && r.body.Some?
    ensures r.status == 200 <==> Outcome(reply, parse).Ok?
    ensures r.status == 200 ==> r.body == Some(Outcome(reply, parse).value)
    ensures r.status == 500 ==> r.body == Some(ErrorBody(FailurePrefix + Outcome(reply, parse).msg))
  {
    match Outcome(reply, parse)
    case Ok(j) => Response(200, false, Some(j))
    case Err(m) => Error(500, FailurePrefix + m)
  }

  /** The two generate handlers recover the same value from the same reply text; the worker
      alone tags an object with the model's name. */
  lemma AgreesWithWorkerOnObjects(text: string, parse: Parser, fs: seq<Field>)
    requires RecoverObject(text, parse) == Ok(JObj(fs))
    ensures Answer(Replied(text), parse).body == Some(JObj(fs))
    ensures Worker.GenerateOutcome(Worker.Text(text), parse) == Ok(JObj(Put(fs, "_modelUsed", JStr(Worker.ModelName))))
  {
    ServesRecovered(text, parse);
    Worker.TagsRecoveredObject(text, parse, fs);
  }

  lemma ServesRecovered(text: string, parse: Parser)
    requires RecoverObject(text, parse).Ok?
    ensures Answer(Replied(text), parse) == Response(200, false, Some(RecoverObject(text, parse).value))
  {
  }

  /** A reply that parses to a bare string, number, boolean or `null` is served here, while the
      worker's strict-mode property assignment turns it into a failure. */
  lemma PrimitiveReplyDiverges(text: string, parse: Parser)
    requires RecoverObject(text, parse).Ok?
    requires !RecoverObject(text, parse).value.JObj? && !RecoverObject(text, parse).value.JArr?
    ensures Answer(Replied(text), parse).status == 200
    ensures Worker.GenerateOutcome(Worker.Text(text), parse) == Err(Worker.PrimitiveAssign)
  {
    ServesRecovered(text, parse);
    Worker.OutcomeOfText(text, parse);
  }

  /** Neither the key, the body nor the model is consulted before the method gate. */
  lemma MethodGateFirst(verb: string, b1: string, b2: string, k1: string, k2: string,
                        p1: Parser, p2: Parser, a1: string -> SdkReply, a2: string -> SdkReply)
    requires verb != "POST"
    ensures Handler(verb, b1, k1, p1, a1) == Handler(verb, b2, k2, p2, a2)
  {
  }

  /** An absent body is an empty object, which has no topic. */
  lemma AbsentBodyLacksTopic(apiKey: string, parse: Parser, ask: string -> SdkReply)
    requires apiKey != "" && parse("{}") == Some(JObj([]))
    ensures Handler("POST", "", apiKey, parse, ask) == Error(400, TopicRequired)
  {
    assert BodyOrEmpty("") == "{}";
  }
}
