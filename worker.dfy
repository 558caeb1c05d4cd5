/** The Cloudflare worker that the front end calls for both `/generate` and `/expand`
    (gemini-mindmap-worker/src/index.ts). The language model is a parameter: `askGenerate` and
    `askExpand` give the reply the SDK produces for the request the handler would send. */
module Worker {
  import opened Basics
  import opened Json
  import opened Recovery
  import opened Http

  const ModelName: string := "gemini-2.0-flash"

  datatype Request = Request(verb: string, path: string, body: string)

  /** What `model.generateContent(...)` and `result.response.text()` yield: no `response`, a
      response without candidates (with its block reason, "" when absent), the reply text, or an
      exception with its message. */
  datatype Reply = NoResponse | NoCandidates(blockReason: string) | Text(text: string) | Threw(message: string)

  /** What V8 reports for `jsonData._modelUsed = ...` on a primitive in strict mode (wording abridged). */
  const PrimitiveAssign: string := "Cannot create property '_modelUsed' on a primitive value"

  /** The worker's `fetch`: the method gate, the key check and the body parse come before any
      routing; a JSON `null` body makes the handlers' first property read throw a TypeError, which
      the router turns into 500. */
  function Fetch(req: Request, apiKey: string, parse: Parser,
                 askGenerate: (string, bool) -> Reply, askExpand: (string, Json, Json) -> Reply): (r: Response)
    ensures r.status in {200, 400, 404, 405, 500}
    ensures r.allowPost <==> r.status == 405
    ensures r.body.None? <==> req.verb == "OPTIONS"
  {
    if req.verb == "OPTIONS" then Response(200, false, None)
    else if req.verb != "POST" then
      Response(405, true, Some(ErrorBody("Method " + req.verb + " Not Allowed")))
    else if apiKey == "" then Error(500, MissingKey)
    else match parse(req.body)
      case None => Error(400, InvalidBody)
      case Some(body) =>
        if req.path == "/generate" then
          (if body == JNull then Error(500, "Internal Server Error") else HandleGenerate(body, parse, askGenerate))
        else if req.path == "/expand" then
          (if body == JNull then Error(500, "Internal Server Error") else HandleExpand(body, parse, askExpand))
        else Error(404, "Not Found")
  }

  /** `error.message?.includes(modelName) ? error.message : prefix + (error.message || error)`;
      an Error whose message is empty stringifies as "Error". */
  function ModelError(prefix: string, msg: string): (r: string)
    ensures Contains(r, ModelName)
    ensures Contains(msg, ModelName) ==> r == msg
    ensures !Contains(msg, ModelName) ==> Contains(r, prefix)
  {
    if Contains(msg, ModelName) then msg
    else
      var r := prefix + ModelName + ": " + (if msg == "" then "Error" else msg);
      assert r[..|prefix|] == prefix && OccursAt(r, prefix, 0);
      assert r[|prefix|..|prefix| + |ModelName|] == ModelName && OccursAt(r, ModelName, |prefix|);
      r
  }

  /** The message of the error the SDK call or the reply checks throw, or the reply text. */
  function ReplyText(reply: Reply): Result<string> {
    match reply
    case NoResponse => Err(NoResponseMsg)
    case NoCandidates(reason) => Err("AI request blocked. Reason: " + (if reason == "" then "Unknown" else reason))
    case Threw(m) => Err(m)
    case Text(t) => Ok(t)
  }

  /** The request fields of `/generate`: the topic, and `includeDetails`, which is true unless the
      body carries a boolean. */
  function GenerateArgs(body: Json): (r: Option<(string, bool)>)
    ensures r.Some? <==> exists s :: Get(body, "topic") == Some(JStr(s)) && Trim(s) != ""
    ensures r.Some? ==> Get(body, "topic") == Some(JStr(r.value.0))
    ensures r.Some? ==> (!r.value.1 <==> Get(body, "includeDetails") == Some(JBool(false)))
  {
    var details := match Get(body, "includeDetails") case Some(JBool(b)) => b case _ => true;
    match StringArg(body, "topic")
    case Some(topic) => Some((topic, details))
    case None => None
  }

  /** `handleGenerate`. The recovered value gets `_modelUsed`; on an array the new property is
      dropped by JSON.stringify, and on any other non-object the assignment throws. */
  function HandleGenerate(body: Json, parse: Parser, ask: (string, bool) -> Reply): (r: Response)
    ensures r.status in {200, 400, 500} && !r.allowPost && r.body.Some?
    ensures r.status == 400 <==> GenerateArgs(body).None?
  {
    match GenerateArgs(body)
    case None => Error(400, TopicRequired)
    case Some((topic, details)) =>
      match GenerateOutcome(ask(topic, details), parse)
      case Ok(j) => Response(200, false, Some(j))
      case Err(m) => Error(500, ModelError("Failed to generate mind map using model ", m))
  }

  /** The body `/generate` returns for a reply, or the message of the error it throws. */
  function GenerateOutcome(reply: Reply, parse: Parser): (r: Result<Json>)
    ensures r.Ok? ==> r.value.JObj? || r.value.JArr?
    ensures r.Ok? && r.value.JObj? ==> GetString(r.value, "_modelUsed") == Some(ModelName)
  {
    match ReplyText(reply)
    case Err(m) => Err(m)
    case Ok(text) => Tagged(RecoverObject(text, parse))
  }

  /** `jsonData._modelUsed = modelName` on the recovered value. */
  function Tagged(o: Result<Json>): (r: Result<Json>)
    ensures r.Ok? ==> r.value.JObj? || r.value.JArr?
    ensures r.Ok? && r.value.JObj? ==> GetString(r.value, "_modelUsed") == Some(ModelName)
  {
    match o
    case Err(m) => Err(m)
    case Ok(JObj(fs)) => Ok(JObj(Put(fs, "_modelUsed", JStr(ModelName))))
    case Ok(JArr(items)) => Ok(JArr(items))
    case Ok(_) => Err(PrimitiveAssign)
  }

  /** A recovered object is sent with the `_modelUsed` member set and every other member kept. */
  lemma TagsRecoveredObject(text: string, parse: Parser, fs: seq<Field>)
    requires RecoverObject(text, parse) == Ok(JObj(fs))
    ensures GenerateOutcome(Text(text), parse) == Ok(JObj(Put(fs, "_modelUsed", JStr(ModelName))))
  {
    OutcomeOfText(text, parse);
    TagsObject(fs);
  }

  lemma OutcomeOfText(text: string, parse: Parser)
    ensures GenerateOutcome(Text(text), parse) == Tagged(RecoverObject(text, parse))
  {
    assert ReplyText(Text(text)) == Ok(text);
  }

  lemma TagsObject(fs: seq<Field>)
    ensures Tagged(Ok(JObj(fs))) == Ok(JObj(Put(fs, "_modelUsed", JStr(ModelName))))
  {
  }

  /** `handleExpand`: on success the body is `{ nodes, _modelUsed }`. */
  function HandleExpand(body: Json, parse: Parser, ask: (string, Json, Json) -> Reply): (r: Response)
    ensures r.status in {200, 400, 500} && !r.allowPost && r.body.Some?
    ensures r.status == 400 <==> ExpandArgs(body).None?
    ensures r.status == 200 ==> GetString(r.body.value, "_modelUsed") == Some(ModelName)
    ensures r.status == 200 ==> exists items :: Get(r.body.value, "nodes") == Some(JArr(items))
                                             && forall x :: x in items ==> HasName(x)
  {
    match ExpandArgs(body)
    case None => Error(400, NodeNameRequired)
    case Some((name, parent, root)) =>
      match ReplyText(ask(name, parent, root))
      case Err(m) => Error(500, ModelError("Failed to expand node using model ", m))
      case Ok(text) =>
        match RecoverArray(text, parse)
        case Err(m) => Error(500, ModelError("Failed to expand node using model ", m))
        case Ok(items) => Response(200, false, Some(ExpandBody(items)))
  }

  /** `{ nodes: jsonArray, _modelUsed: modelName }`. */
  function ExpandBody(items: seq<Json>): (r: Json)
    ensures Get(r, "nodes") == Some(JArr(items))
    ensures GetString(r, "_modelUsed") == Some(ModelName)
  {
    var fs := [Field("nodes", JArr(items)), Field("_modelUsed", JStr(ModelName))];
    assert "_modelUsed"[0] != "nodes"[0];
    assert fs[..1] == [Field("nodes", JArr(items))];
    assert FieldIndex(fs, "nodes") == Some(0);
    JObj(fs)
  }

  /** The first attempt of `/expand`: the fence-stripped, trimmed text is parsed whole when it is
      bracketed, and otherwise narrowed to its own first-'['-to-last-']' block. */
  function FirstAttempt(text: string, parse: Parser): Option<seq<Json>> {
    var cleaned := Trim(StripFences(text));
    if !(StartsWith(cleaned, "[") && EndsWith(cleaned, "]")) then
      match Block(cleaned, '[', ']')
      case Some(b) => NamedArray(parse(b))
      case None => None
    else NamedArray(parse(cleaned))
  }

  /** The array recovery of `/expand`: the first attempt, then the retry on the raw reply. */
  function RecoverArray(text: string, parse: Parser): (r: Result<seq<Json>>)
    ensures r.Ok? ==> forall x :: x in r.value ==> HasName(x)
    ensures r.Err? ==> r.msg == NotValidArray
  {
    match FirstAttempt(text, parse)
    case Some(items) => Ok(items)
    case None => ArrayRetry(text, parse)
  }

  /** The first attempt never changes the outcome: the cleaned text has the same block as the raw
      reply, so whatever it recovers the retry would recover too, and when it fails the retry
      parses that same block again. */
  lemma RecoverArrayIsRetry(text: string, parse: Parser)
    ensures RecoverArray(text, parse) == ArrayRetry(text, parse)
  {
    BracketsAreNotFiller();
    FirstAttemptIsBlockParse(text, parse);
    CleanKeepsBlock(text, '[', ']');
    RetrySubsumes(text, parse, FirstAttempt(text, parse));
  }

  /** A first attempt that parses the raw reply's block adds nothing to the retry. */
  lemma RetrySubsumes(text: string, parse: Parser, first: Option<seq<Json>>)
    requires first == match Block(text, '[', ']') case Some(b) => NamedArray(parse(b)) case None => None
    ensures (match first case Some(items) => Ok(items) case None => ArrayRetry(text, parse)) == ArrayRetry(text, parse)
  {
  }

  /** Whether or not the cleaned text is bracketed, the first attempt is the parse of the cleaned
      text's block: the bracket test only saves the search. */
  lemma FirstAttemptIsBlockParse(text: string, parse: Parser)
    ensures FirstAttempt(text, parse) ==
            match Block(Trim(StripFences(text)), '[', ']')
            case Some(b) => NamedArray(parse(b))
            case None => None
  {
    var cleaned := Trim(StripFences(text));
    if StartsWith(cleaned, "[") && EndsWith(cleaned, "]") {
      BracketedIsBlock(cleaned, '[', ']');
    }
  }

  /** The method gate answers before the key, the body or the model are consulted. */
  lemma MethodGateFirst(req: Request, k1: string, k2: string, p1: Parser, p2: Parser, body2: string,
                        g1: (string, bool) -> Reply, g2: (string, bool) -> Reply,
                        e1: (string, Json, Json) -> Reply, e2: (string, Json, Json) -> Reply)
    requires req.verb != "POST"
    ensures Fetch(req, k1, p1, g1, e1) == Fetch(req.(body := body2), k2, p2, g2, e2)
    ensures Fetch(req, k1, p1, g1, e1).status == (if req.verb == "OPTIONS" then 200 else 405)
  {
  }

  /** A missing key gives 500 for every path and body. */
  lemma MissingKeyFirst(req: Request, p: Parser, g: (string, bool) -> Reply, e: (string, Json, Json) -> Reply)
    requires req.verb == "POST"
    ensures Fetch(req, "", p, g, e) == Error(500, MissingKey)
  {
  }

  /** Malformed JSON is 400 on any path; well-formed JSON on an unknown path is 404. */
  lemma BodyBeforeRoute(req: Request, key: string, p: Parser, g: (string, bool) -> Reply, e: (string, Json, Json) -> Reply)
    requires req.verb == "POST" && key != ""
    ensures p(req.body).None? ==> Fetch(req, key, p, g, e) == Error(400, InvalidBody)
    ensures p(req.body).Some? && req.path != "/generate" && req.path != "/expand" ==>
              Fetch(req, key, p, g, e) == Error(404, "Not Found")
  {
  }

  /** Every failure of `/generate` and `/expand` after validation names the model. */
  lemma FailuresNameModel(req: Request, key: string, p: Parser, g: (string, bool) -> Reply, e: (string, Json, Json) -> Reply)
    requires req.verb == "POST" && key != "" && p(req.body).Some? && p(req.body).value != JNull
    requires req.path == "/generate" || req.path == "/expand"
    ensures var r := Fetch(req, key, p, g, e);
            r.status == 500 ==> exists m :: r.body == Some(ErrorBody(m)) && Contains(m, ModelName)
  {
    var body := p(req.body).value;
    if req.path == "/generate" {
      assert Fetch(req, key, p, g, e) == HandleGenerate(body, p, g);
      GenerateFailureNamesModel(body, p, g);
    } else {
      assert Fetch(req, key, p, g, e) == HandleExpand(body, p, e);
      ExpandFailureNamesModel(body, p, e);
    }
  }

  lemma GenerateFailureNamesModel(body: Json, p: Parser, g: (string, bool) -> Reply)
    ensures var r := HandleGenerate(body, p, g);
            r.status == 500 ==> exists m :: r.body == Some(ErrorBody(m)) && Contains(m, ModelName)
  {
    match GenerateArgs(body)
    case None =>
    case Some((topic, details)) =>
      match GenerateOutcome(g(topic, details), p)
      case Ok(_) =>
      case Err(m) =>
        var msg := ModelError("Failed to generate mind map using model ", m);
        assert HandleGenerate(body, p, g).body == Some(ErrorBody(msg));
  }

  lemma ExpandFailureNamesModel(body: Json, p: Parser, e: (string, Json, Json) -> Reply)
    ensures var r := HandleExpand(body, p, e);
            r.status == 500 ==> exists m :: r.body == Some(ErrorBody(m)) && Contains(m, ModelName)
  {
    match ExpandArgs(body)
    case None =>
    case Some((name, parent, root)) =>
      var m := match ReplyText(e(name, parent, root))
               case Err(m) => m
               case Ok(text) => (match RecoverArray(text, p) case Err(m) => m case Ok(_) => "");
      if HandleExpand(body, p, e).status == 500 {
        var msg := ModelError("Failed to expand node using model ", m);
        assert HandleExpand(body, p, e).body == Some(ErrorBody(msg));
      }
  }
}
