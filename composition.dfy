/** The three layers put together: the idea form, the request client and
    the idea endpoint. The endpoint's response reaches the client as the
    status and JSON body it wrote; which of the endpoint's and the client's
    messages the form rewrites follows from the texts themselves. */
module Composition {

  import opened Wrappers
  import opened Text
  import opened IdeaTypes
  import opened GenerateIdea
  import opened ApiClient
  import opened DateIdeaGenerator

  /** The client's view of an endpoint response. `res.end()` sends no body,
      on which `response.json()` throws. */
  function Received(r: HttpResponse, statusText: string): (reply: HttpReply)
    ensures reply.status == r.status
    ensures r.body.Some? ==> reply.body == Parsed(r.body.value)
    ensures r.body.None? ==> reply.body.Unparsable?
  {
    HttpReply(r.status, statusText,
      match r.body
      case None => Unparsable(JsError("SyntaxError", "Unexpected end of JSON input"))
      case Some(json) => Parsed(json))
  }

  /** The request the client makes, answered by the endpoint: a `POST` of
      the form to `handler`, with the server's key, model and provider. */
  function Served(apiKey: Option<string>, model: string, provider: ProviderRequest -> ProviderReply,
                  statusText: string): IdeaRequest -> FetchOutcome
  {
    params => Responded(Received(Handle(HttpRequest("POST", params), apiKey, model, provider).response, statusText))
  }

  /** Whatever the client sends passes the endpoint's method and field
      checks: the client checks the same two fields first. */
  lemma ClientRequestsPassFieldCheck(params: IdeaRequest, apiKey: Option<string>, model: string,
                                     provider: ProviderRequest -> ProviderReply,
                                     fetch: IdeaRequest -> FetchOutcome)
    requires GenerateDateIdea(params, fetch).posted.Some?
    ensures Handle(HttpRequest("POST", params), apiKey, model, provider).response.status !in {400, 405}
  {
  }

  lemma KeyNotConfiguredIsMarked()
    ensures Contains(KeyNotConfigured, "API key")
  {
    ContainsInSecond("Hugging Face ", "API key not configured", "API key");
  }

  /** A server without a key: the endpoint's 500 error reaches the client
      as the message of its `error` field, and the form replaces it with
      its key notice. */
  lemma MissingKeyReachesUser(params: IdeaRequest, model: string,
                              provider: ProviderRequest -> ProviderReply, statusText: string)
    requires params.mood != [] && params.budget != []
    ensures GenerateDateIdea(params, Served(None, model, provider, statusText)).result == Rejected(KeyNotConfigured)
    ensures Friendly(KeyNotConfigured) == KeyNotice
  {
    var reply := Received(Handle(HttpRequest("POST", params), None, model, provider).response, statusText);
    assert reply.status == 500 && reply.body == Parsed(ErrorJson(KeyNotConfigured).(hint := KeyHint));
    assert StatusMessage(reply) == KeyNotConfigured;
    KeyNotConfiguredIsMarked();
  }

  lemma GenerationFailedIsUnmarked()
    ensures Unmarked(GenerationFailed)
  {
    var a, b, c := "Failed to generate ", "date idea", [];
    NotContainsByMissing3(a, b, c, "API key", 0);
    NotContainsByMissing3(a, b, c, "timeout", 2);
    NotContainsByMissing3(a, b, c, "Network error", 0);
    assert a + b + c == GenerationFailed;
  }

  /** A provider failure: the client reports the endpoint's `error` field,
      not the wrapped provider message, and the form shows it unchanged. */
  lemma ProviderFailureReachesUser(params: IdeaRequest, apiKey: string, model: string,
                                   provider: ProviderRequest -> ProviderReply, statusText: string)
    requires params.mood != [] && params.budget != [] && apiKey != []
    requires provider(ProviderRequest(apiKey, model, Prompt(params))).ProviderError?
    ensures GenerateDateIdea(params, Served(Some(apiKey), model, provider, statusText)).result
         == Rejected(GenerationFailed)
    ensures Friendly(GenerationFailed) == GenerationFailed
  {
    var reply := Received(Handle(HttpRequest("POST", params), Some(apiKey), model, provider).response, statusText);
    assert reply.status == 500 && reply.body.Parsed? && reply.body.json.error == GenerationFailed;
    assert StatusMessage(reply) == GenerationFailed;
    GenerationFailedIsUnmarked();
  }

  /** A provider completion: the form receives the parsed idea exactly when
      its title is not blank; a blank title is refused by the client's shape
      check. */
  lemma CompletionReachesUser(params: IdeaRequest, apiKey: string, model: string,
                              provider: ProviderRequest -> ProviderReply, statusText: string,
                              content: string)
    requires params.mood != [] && params.budget != [] && apiKey != []
    requires provider(ProviderRequest(apiKey, model, Prompt(params))) == Completion(content)
    ensures var result := GenerateDateIdea(params, Served(Some(apiKey), model, provider, statusText)).result;
      var idea := ParseReply(content);
      && (idea.title != [] ==>
            result == Resolved(ResponseJson([], [], [], idea.idea, idea.title, idea.description)))
      && (idea.title == [] ==> result == Rejected(InvalidResponse))
  {
    var idea := ParseReply(content);
    CompletionIsServed(params, apiKey, model, provider, statusText, content);
    ParsedIdeaAttempt(idea, statusText);
  }

  /** The client on a 200 response carrying a parsed idea, whose
      description is never blank: it resolves with the idea exactly when
      the title is not blank. */
  lemma ParsedIdeaAttempt(idea: ParsedIdea, statusText: string)
    requires idea.description != []
    ensures var result := Attempt(Responded(HttpReply(200, statusText,
                            Parsed(ResponseJson([], [], [], idea.idea, idea.title, idea.description)))));
      && (idea.title != [] ==> result == Resolved(ResponseJson([], [], [], idea.idea, idea.title, idea.description)))
      && (idea.title == [] ==> result == Rejected(InvalidResponse))
  {
  }

  /** What the client receives for a provider completion: a 200 response
      whose body is the parsed idea. */
  lemma CompletionIsServed(params: IdeaRequest, apiKey: string, model: string,
                           provider: ProviderRequest -> ProviderReply, statusText: string,
                           content: string)
    requires params.mood != [] && params.budget != [] && apiKey != []
    requires provider(ProviderRequest(apiKey, model, Prompt(params))) == Completion(content)
    ensures var idea := ParseReply(content);
      Served(Some(apiKey), model, provider, statusText)(params)
        == Responded(HttpReply(200, statusText, Parsed(ResponseJson([], [], [], idea.idea, idea.title, idea.description))))
  {
    HandleProviderOutcome(HttpRequest("POST", params), Some(apiKey), model, provider);
  }

  /** A 401 with a readable body: the client's fixed message mentions the
      key, so the form shows its key notice. */
  lemma UnauthorizedIsRewritten(reply: HttpReply)
    requires reply.status == 401 && reply.body.Parsed?
    ensures Attempt(Responded(reply)) == Rejected(KeyInvalid)
    ensures Friendly(KeyInvalid) == KeyNotice
  {
    ContainsPrefix(KeyInvalid, "API key");
  }

  /** The client's timeout message never mentions `timeout`: its `e`s are
      never followed by `o`, so an abort is shown as the client words it,
      not as the form's slow-request notice. */
  lemma TimedOutIsUnmarked()
    ensures Unmarked(TimedOut)
  {
    var a, b, c := "Request timed out. ", "The AI is taking too long to respond. ", "Please try again.";
    NotContainsByMissing3(a, b, c, "Network error", 0);
    TimedOutAvoidsKey();
    TimedOutAvoidsTimeout();
  }

  lemma TimedOutAvoidsKey()
    ensures !Contains(TimedOut, "API key")
  {
    var a, b, c := "Request timed out. ", "The AI is taking too long to respond. ", "Please try again.";
    NotContainsByPair3(a, b, c, "API key", 0);
  }

  lemma TimedOutAvoidsTimeout()
    ensures !Contains(TimedOut, "timeout")
  {
    var a, b, c := "Request timed out. ", "The AI is taking too long to respond. ", "Please try again.";
    NotContainsByPair3(a, b, c, "timeout", 3);
  }

  lemma AbortIsNotRewritten(message: string)
    ensures Attempt(Threw(JsError("AbortError", message))) == Rejected(TimedOut)
    ensures Friendly(TimedOut) == TimedOut
  {
    TimedOutIsUnmarked();
  }

  /** The client's network message starts with `Network error` and names
      neither the key nor a timeout, so the form shows its own connection
      notice instead. */
  lemma NetworkFailureIsRewritten()
    ensures Attempt(Threw(JsError("TypeError", "Failed to fetch"))) == Rejected(NetworkFailure)
    ensures Friendly(NetworkFailure) == ConnectionNotice
  {
    FailedToFetchIsNetworkFailure();
    NetworkFailureAvoidsKey();
    NetworkFailureAvoidsTimeout();
    ContainsPrefix(NetworkFailure, "Network error");
  }

  lemma NetworkFailureAvoidsKey()
    ensures !Contains(NetworkFailure, "API key")
  {
    var a, b, c := "Network error: ", "Could not connect to the server. ", "Please check your internet connection.";
    NotContainsByMissing3(a, b, c, "API key", 0);
  }

  lemma NetworkFailureAvoidsTimeout()
    ensures !Contains(NetworkFailure, "timeout")
  {
    var a, b, c := "Network error: ", "Could not connect to the server. ", "Please check your internet connection.";
    NotContainsByMissing3(a, b, c, "timeout", 2);
  }

  /** Submitting and then pressing "Use This Idea" hands the same idea to
      `onIdeaGenerated` twice. */
  method SubmitThenUse(g: Generator, fetch: IdeaRequest -> FetchOutcome)
    requires g.Valid() && g.notifies
    modifies g
    ensures g.Valid()
    ensures var c := GenerateDateIdea(old(g.form), fetch);
      c.result.Resolved? ==> g.delivered == old(g.delivered) + [c.result.data, c.result.data]
  {
    var _ := g.Submit(fetch);
    g.UseIdea();
  }
}
