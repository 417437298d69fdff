/** The browser-side request client, `generateDateIdea` in
    `src/utils/api.js`: the required-field check, the message chosen for a
    non-OK response, the shape check on a successful body and the
    classification of whatever was thrown. The network call is a parameter:
    `fetch` maps the posted form to what the request yields. */
module ApiClient {

  import opened Text
  import opened Wrappers
  import opened IdeaTypes

  /** A thrown JavaScript error: its `name` and its `message` (empty when
      absent). */
  datatype JsError = JsError(name: string, message: string)

  /** A response body as `response.json()` and the first property read see
      it: a JSON object, or the error thrown on the way (malformed JSON, or a
      `null` body whose property read throws). */
  datatype Body = Unparsable(error: JsError) | Parsed(json: ResponseJson)

  datatype HttpReply = HttpReply(status: int, statusText: string, body: Body)

  /** `response.ok`. */
  predicate Ok(reply: HttpReply) {
    200 <= reply.status <= 299
  }

  /** What the request yields: an error thrown by `fetch` itself (an
      `AbortError` once the 30-second timer fires, a `TypeError` when the
      server cannot be reached), or a response. */
  datatype FetchOutcome = Threw(error: JsError) | Responded(reply: HttpReply)

  /** The promise `generateDateIdea` returns: resolved with the parsed body,
      or rejected with an `Error` carrying a message. */
  datatype ClientResult = Resolved(data: ResponseJson) | Rejected(message: string)

  /** The result together with the form that was posted, if a request was
      made at all. */
  datatype ClientCall = ClientCall(result: ClientResult, posted: Option<IdeaRequest>)

  const ParamsRequired := "Mood and budget are required parameters"
  const InvalidRequest := "Invalid request. " + "Please check your inputs."
  const KeyInvalid := "API key is invalid or missing. " + "Please configure your API key."
  const TooManyRequests := "Too many requests. " + "Please try again in a moment."
  const ServerError := "Server error. " + "Please try again later."
  const InvalidResponse := "Invalid response from server. " + "Please try again."
  const TimedOut := "Request timed out. " + "The AI is taking too long to respond. " + "Please try again."
  const NetworkFailure := "Network error: " + "Could not connect to the server. "
                          + "Please check your internet connection."
  const Unexpected := "An unexpected error occurred. " + "Please try again."

  /** The message a non-OK response starts from. */
  function HttpErrorText(status: int): (r: string)
    ensures |r| > 20 && r[..20] == "HTTP error! status: "
    ensures r[20..] == IntToString(status)
  {
    "HTTP error! status: " + IntToString(status)
  }

  /** The message of the error thrown for a non-OK response. A parsed body
      first gives `error || message || HTTP error text`, which statuses 400,
      401, 429 and 500 then override; when the body cannot be read, the
      status text or the HTTP error text is used instead. */
  function StatusMessage(reply: HttpReply): (r: string)
    ensures r != []
    ensures reply.body.Unparsable? ==>
              r == if reply.statusText != [] then reply.statusText else HttpErrorText(reply.status)
    ensures reply.body.Parsed? && reply.status == 401 ==> r == KeyInvalid
    ensures reply.body.Parsed? && reply.status == 429 ==> r == TooManyRequests
    ensures reply.body.Parsed? && reply.body.json.error != [] && reply.status != 401 && reply.status != 429 ==>
              r == reply.body.json.error
    ensures reply.body.Parsed? && reply.body.json.error == [] && reply.status == 400 ==> r == InvalidRequest
    ensures reply.body.Parsed? && reply.body.json.error == [] && reply.status == 500 ==> r == ServerError
    ensures reply.body.Parsed? && reply.body.json.error == [] && reply.status !in {400, 401, 429, 500} ==>
              r == if reply.body.json.message != [] then reply.body.json.message else HttpErrorText(reply.status)
  {
    var fallback := HttpErrorText(reply.status);
    match reply.body
    case Unparsable(_) => if reply.statusText != [] then reply.statusText else fallback
    case Parsed(data) =>
      var general := if data.error != [] then data.error else if data.message != [] then data.message else fallback;
      if reply.status == 400 then (if data.error != [] then data.error else InvalidRequest)
      else if reply.status == 401 then KeyInvalid
      else if reply.status == 429 then TooManyRequests
      else if reply.status == 500 then (if data.error != [] then data.error else ServerError)
      else general
  }

  /** The `catch` block: an abort and a `TypeError` about `fetch` get fixed
      messages, any other error with a message is rethrown as it is, and only
      a message-less error gets the generic one. */
  function Caught(e: JsError): (r: string)
    ensures r != []
    ensures e.name == "AbortError" ==> r == TimedOut
    ensures e.name == "TypeError" && Contains(e.message, "fetch") ==> r == NetworkFailure
    ensures e.name != "AbortError" && !(e.name == "TypeError" && Contains(e.message, "fetch")) ==>
              r == if e.message != [] then e.message else Unexpected
  {
    if e.name == "AbortError" then TimedOut
    else if e.name == "TypeError" && Contains(e.message, "fetch") then NetworkFailure
    else if e.message != [] then e.message
    else Unexpected
  }

  /** A message already formatted by the client comes back from the `catch`
      block unchanged when thrown again as a plain `Error`. */
  lemma CaughtKeepsFormattedErrors(e: JsError)
    ensures Caught(JsError("Error", Caught(e))) == Caught(e)
  {
  }

  /** The `try` block once the request has been sent, with every error it
      throws passed through the `catch` block. */
  function Attempt(outcome: FetchOutcome): (r: ClientResult)
    ensures r.Rejected? ==> r.message != []
  {
    match outcome
    case Threw(e) => Rejected(Caught(e))
    case Responded(reply) =>
      if !Ok(reply) then Rejected(Caught(JsError("Error", StatusMessage(reply))))
      else
        match reply.body
        case Unparsable(e) => Rejected(Caught(e))
        case Parsed(data) =>
          if data.title == [] || data.description == [] then Rejected(Caught(JsError("Error", InvalidResponse)))
          else Resolved(data)
  }

  /** `generateDateIdea(params)`. */
  function GenerateDateIdea(params: IdeaRequest, fetch: IdeaRequest -> FetchOutcome): (c: ClientCall)
    ensures c.posted.None? <==> params.mood == [] || params.budget == []
    ensures c.posted.None? ==> c.result == Rejected(ParamsRequired)
    ensures c.posted.Some? ==> c.posted.value == params && c.result == Attempt(fetch(params))
    ensures c.result.Rejected? ==> c.result.message != []
  {
    if params.mood == [] || params.budget == [] then
      ClientCall(Rejected(ParamsRequired), None)
    else
      ClientCall(Attempt(fetch(params)), Some(params))
  }

  /** The client resolves exactly when a 2xx response carries a body with a
      non-empty title and description, and then with that body unchanged. */
  lemma ResolvesExactlyOnCompleteIdea(outcome: FetchOutcome)
    ensures Attempt(outcome).Resolved? <==>
              && outcome.Responded? && Ok(outcome.reply) && outcome.reply.body.Parsed?
              && outcome.reply.body.json.title != [] && outcome.reply.body.json.description != []
    ensures Attempt(outcome).Resolved? ==> Attempt(outcome).data == outcome.reply.body.json
  {
  }

  /** The error thrown for a non-OK status reaches the caller with the
      message chosen from the status and body, untouched by the `catch`
      block. */
  lemma StatusErrorsReachCaller(reply: HttpReply)
    requires !Ok(reply)
    ensures Attempt(Responded(reply)) == Rejected(StatusMessage(reply))
  {
  }

  /** A 2xx response without the two fields is rejected with the fixed
      message, and a body that cannot be read is rejected with the error it
      threw, classified. */
  lemma IncompleteSuccessIsRejected(reply: HttpReply)
    requires Ok(reply)
    ensures reply.body.Parsed? && (reply.body.json.title == [] || reply.body.json.description == []) ==>
              Attempt(Responded(reply)) == Rejected(InvalidResponse)
    ensures reply.body.Unparsable? ==> Attempt(Responded(reply)) == Rejected(Caught(reply.body.error))
  {
  }

  /** Thrown by `fetch`: the abort and the network failure get their fixed
      messages. */
  lemma FetchFailuresAreClassified(message: string)
    ensures Attempt(Threw(JsError("AbortError", message))) == Rejected(TimedOut)
    ensures Contains(message, "fetch") ==>
              Attempt(Threw(JsError("TypeError", message))) == Rejected(NetworkFailure)
  {
  }

  /** Chrome's message for an unreachable server mentions `fetch`. */
  lemma FailedToFetchIsNetworkFailure()
    ensures Attempt(Threw(JsError("TypeError", "Failed to fetch"))) == Rejected(NetworkFailure)
  {
    ContainsInside("Failed to ", "fetch", [], "fetch");
    assert "Failed to " + "fetch" + [] == "Failed to fetch";
  }
}
