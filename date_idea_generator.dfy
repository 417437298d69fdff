/** The idea form of `src/components/DateIdeaGenerator.jsx`: the default
    form, the rewrite of client error messages into user-facing notices, and
    the `loading` / `error` / `generatedIdea` state that a submit, "Generate
    Another" and "Use This Idea" change. The callbacks `onIdeaGenerated` and
    `onClose` are observed by what they were called with. */
module DateIdeaGenerator {

  import opened Wrappers
  import opened Text
  import opened IdeaTypes
  import opened ApiClient

  /** The initial `formData`. */
  const DefaultForm := IdeaRequest("romantic", "medium", [], [], [])

  const FailedDefault := "Failed to generate " + "date idea. " + "Please try again."
  const KeyNotice := "API key not configured. " + "Please set up your API key in the environment variables."
  const SlowNotice := "The request took too long. " + "Please try again " + "with different parameters."
  const ConnectionNotice := "Unable to connect to the server. "
                            + "Please check your internet " + "connection and try again."

  /** The `catch` block of `handleSubmit`: an empty message becomes the
      generic failure; then the first of `'API key'`, `'timeout'` and
      `'Network error'` that the message contains picks a fixed notice, and
      a message with none of them is shown as it is. */
  function Friendly(message: string): (r: string)
    ensures r != []
    ensures var m := if message != [] then message else FailedDefault;
      && (Contains(m, "API key") ==> r == KeyNotice)
      && (!Contains(m, "API key") && Contains(m, "timeout") ==> r == SlowNotice)
      && (!Contains(m, "API key") && !Contains(m, "timeout") && Contains(m, "Network error") ==>
            r == ConnectionNotice)
      && (!Contains(m, "API key") && !Contains(m, "timeout") && !Contains(m, "Network error") ==> r == m)
  {
    var m := if message != [] then message else FailedDefault;
    if Contains(m, "API key") then KeyNotice
    else if Contains(m, "timeout") then SlowNotice
    else if Contains(m, "Network error") then ConnectionNotice
    else m
  }

  /** None of the three trigger phrases occurs in `s`. */
  predicate Unmarked(s: string) {
    !Contains(s, "API key") && !Contains(s, "timeout") && !Contains(s, "Network error")
  }

  lemma FailedDefaultIsUnmarked()
    ensures Unmarked(FailedDefault)
  {
    var a, b, c := "Failed to generate ", "date idea. ", "Please try again.";
    NotContainsByMissing3(a, b, c, "API key", 0);
    NotContainsByMissing3(a, b, c, "timeout", 2);
    NotContainsByMissing3(a, b, c, "Network error", 0);
  }

  lemma ConnectionNoticeIsUnmarked()
    ensures Unmarked(ConnectionNotice)
  {
    var a, b, c := "Unable to connect to the server. ", "Please check your internet ", "connection and try again.";
    NotContainsByMissing3(a, b, c, "API key", 0);
    NotContainsByMissing3(a, b, c, "timeout", 2);
    NotContainsByMissing3(a, b, c, "Network error", 0);
  }

  /** The one `m` of the notice is in "parameters"; its `i`s are never
      followed by `m`. */
  lemma SlowNoticeIsUnmarked()
    ensures Unmarked(SlowNotice)
  {
    var a, b, c := "The request took too long. ", "Please try again ", "with different parameters.";
    NotContainsByMissing3(a, b, c, "API key", 0);
    NotContainsByMissing3(a, b, c, "Network error", 0);
    SlowNoticeAvoidsTimeout();
  }

  lemma SlowNoticeAvoidsTimeout()
    ensures !Contains(SlowNotice, "timeout")
  {
    var a, b, c := "The request took too long. ", "Please try again ", "with different parameters.";
    NotContainsByPair3(a, b, c, "timeout", 1);
  }

  lemma KeyNoticeIsMarked()
    ensures Contains(KeyNotice, "API key")
  {
    ContainsPrefix(KeyNotice, "API key");
  }

  /** A message with no trigger phrase is shown unchanged, and the empty
      message shows the generic failure. */
  lemma FriendlyPassesThrough(message: string)
    ensures message != [] && Unmarked(message) ==> Friendly(message) == message
    ensures Friendly([]) == FailedDefault
  {
    FailedDefaultIsUnmarked();
  }

  /** Rewriting is idempotent: every notice rewrites to itself, so a shown
      message is stable under another pass. */
  lemma {:induction false} FriendlyIdempotent(message: string)
    ensures Friendly(Friendly(message)) == Friendly(message)
  {
    KeyNoticeIsMarked();
    SlowNoticeIsUnmarked();
    ConnectionNoticeIsUnmarked();
    FailedDefaultIsUnmarked();
  }

  /** What can be shown: one of the three notices, the generic failure, or
      the message itself. */
  lemma FriendlyRange(message: string)
    ensures Friendly(message) in {KeyNotice, SlowNotice, ConnectionNotice, FailedDefault, message}
  {
  }

  /** The default form carries the two fields the client requires, so
      submitting it unchanged always sends the request. */
  lemma DefaultFormIsSent(fetch: IdeaRequest -> FetchOutcome)
    ensures GenerateDateIdea(DefaultForm, fetch).posted == Some(DefaultForm)
  {
  }

  class Generator {
    var form: IdeaRequest
    var loading: bool
    var error: Option<string>
    var generatedIdea: Option<ResponseJson>
    /** The arguments `onIdeaGenerated` was called with, in order. */
    var delivered: seq<ResponseJson>
    /** How many times `onClose` was called. */
    var closeCalls: nat
    /** Whether the `onIdeaGenerated` and `onClose` props were given. */
    const notifies: bool
    const closes: bool

    /** The screen shows at most one of an error and an idea, and nothing
        while a request is pending; a shown error is never empty. */
    predicate Valid()
      reads this
    {
      && (error.None? || generatedIdea.None?)
      && (loading ==> error.None? && generatedIdea.None?)
      && (error.Some? ==> error.value != [])
    }

    constructor (notifies: bool, closes: bool)
      ensures Valid()
      ensures form == DefaultForm && !loading && error.None? && generatedIdea.None?
      ensures delivered == [] && closeCalls == 0
      ensures this.notifies == notifies && this.closes == closes
    {
      form := DefaultForm;
      loading := false;
      error := None;
      generatedIdea := None;
      delivered := [];
      closeCalls := 0;
      this.notifies := notifies;
      this.closes := closes;
    }

    /** An `onChange` handler of the form. */
    method EditForm(f: IdeaRequest)
      modifies this
      ensures form == f
      ensures loading == old(loading) && error == old(error) && generatedIdea == old(generatedIdea)
      ensures delivered == old(delivered) && closeCalls == old(closeCalls)
    {
      form := f;
    }

    /** `handleSubmit` up to the `await`: pending, with the error and the
        idea cleared. */
    method BeginSubmit()
      modifies this
      ensures Valid()
      ensures loading && error.None? && generatedIdea.None?
      ensures form == old(form) && delivered == old(delivered) && closeCalls == old(closeCalls)
    {
      loading := true;
      error := None;
      generatedIdea := None;
    }

    /** `handleSubmit` after the `await`: an idea is shown and handed to
        `onIdeaGenerated`, or the rejection's message is shown rewritten;
        then the request is no longer pending. */
    method FinishSubmit(result: ClientResult)
      requires Valid() && loading
      modifies this
      ensures Valid() && !loading
      ensures result.Resolved? ==>
                && generatedIdea == Some(result.data) && error.None?
                && delivered == old(delivered) + (if notifies then [result.data] else [])
      ensures result.Rejected? ==>
                && error == Some(Friendly(result.message)) && generatedIdea.None?
                && delivered == old(delivered)
      ensures form == old(form) && closeCalls == old(closeCalls)
    {
      loading := false;
      match result
      case Resolved(data) =>
        generatedIdea := Some(data);
        if notifies {
          delivered := delivered + [data];
        }
      case Rejected(message) =>
        error := Some(Friendly(message));
    }

    /** The whole of `handleSubmit`: the current form goes to the client,
        whose request is the parameter `fetch`. */
    method Submit(fetch: IdeaRequest -> FetchOutcome) returns (posted: Option<IdeaRequest>)
      requires Valid()
      modifies this
      ensures Valid() && !loading
      ensures var c := GenerateDateIdea(old(form), fetch);
        && posted == c.posted
        && (c.result.Resolved? ==>
              && generatedIdea == Some(c.result.data) && error.None?
              && delivered == old(delivered) + (if notifies then [c.result.data] else []))
        && (c.result.Rejected? ==>
              && error == Some(Friendly(c.result.message)) && generatedIdea.None?
              && delivered == old(delivered))
      ensures generatedIdea.Some? ==> generatedIdea.value.title != [] && generatedIdea.value.description != []
      ensures form == old(form) && closeCalls == old(closeCalls)
    {
      BeginSubmit();
      var c := GenerateDateIdea(form, fetch);
      if c.posted.Some? {
        ResolvesExactlyOnCompleteIdea(fetch(form));
      }
      FinishSubmit(c.result);
      posted := c.posted;
    }

    /** "Generate Another": back to the form, with no error and no idea. */
    method GenerateAnother()
      requires Valid()
      modifies this
      ensures Valid()
      ensures error.None? && generatedIdea.None?
      ensures loading == old(loading) && form == old(form)
      ensures delivered == old(delivered) && closeCalls == old(closeCalls)
    {
      generatedIdea := None;
      error := None;
    }

    /** The "Cancel" and "Close" buttons: `onClose` directly. */
    method Close()
      modifies this
      ensures closeCalls == old(closeCalls) + (if closes then 1 else 0)
      ensures form == old(form) && loading == old(loading) && error == old(error)
      ensures generatedIdea == old(generatedIdea) && delivered == old(delivered)
    {
      if closes {
        closeCalls := closeCalls + 1;
      }
    }

    /** "Use This Idea": the shown idea is handed to `onIdeaGenerated` once
        more, and the dialog asks to be closed. */
    method UseIdea()
      requires Valid()
      modifies this
      ensures Valid()
      ensures delivered == old(delivered) + (if notifies && generatedIdea.Some? then [generatedIdea.value] else [])
      ensures closeCalls == old(closeCalls) + (if closes then 1 else 0)
      ensures form == old(form) && loading == old(loading)
      ensures error == old(error) && generatedIdea == old(generatedIdea)
    {
      if notifies && generatedIdea.Some? {
        delivered := delivered + [generatedIdea.value];
      }
      if closes {
        closeCalls := closeCalls + 1;
      }
    }
  }
}
