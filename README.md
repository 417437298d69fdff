# date-night, modelled in Dafny

date-night is a small React app with a serverless endpoint. It plans date
nights and asks a text-generation model for date ideas. This project models
the four parts of it that carry logic:

- **The idea endpoint** (`api/generate-idea.js`), module `GenerateIdea`.
  `handler` classifies the request (OPTIONS, method, required fields,
  credential). `buildPrompt` builds the prompt. `callHuggingFace` wraps
  provider errors. `parseLLMResponse` reads a title and a description out of
  the free-text completion. The two regular expressions of the parser are
  scanners that follow JavaScript's backtracking order: a leftmost start,
  ASCII case folding of the marker, a greedy `\s*` that gives whitespace
  back, and a lazy capture. The scanners are proved sound and complete
  against an independent description of what a match is (`IsMatch`).
- **The request client** (`generateDateIdea` in `src/utils/api.js`), module
  `ApiClient`. It covers the required-field check, the message chosen from
  a non-OK status and its body, the shape check on a successful body, and
  the `catch` block that classifies what was thrown.
- **The plan list** (`src/components/DatePlanner.jsx`), module
  `DatePlanner`. `formatTime12Hour` is modelled with JavaScript's truncating
  `%` and `parseInt`; a missing minutes part prints `undefined`. The display
  comparator is proved a consistent total preorder, and the sort is proved a
  stable, sorted permutation. Submitting, deleting and loading are methods
  and a constructor of the class `Planner`.
- **The idea form** (`src/components/DateIdeaGenerator.jsx`), module
  `DateIdeaGenerator`. It covers the first-match-wins rewrite of error
  messages and the `loading` / `error` / `generatedIdea` state of class
  `Generator`. The `onIdeaGenerated` and `onClose` callbacks are recorded as
  the list of ideas handed over and the number of close requests.

Module `Composition` connects the three layers. It proves which of the
endpoint's and the client's messages the form rewrites:
- the missing-key error and the 401 message are rewritten to the key notice;
- the network message is rewritten to the connection notice;
- the client's timeout message is shown unchanged, because it does not
  contain the word `timeout`;
- the endpoint's provider failure reaches the user as
  `Failed to generate date idea`, and the provider's detailed message never
  does.

It also proves a corner case: a completion whose title capture is blank
(for example `Title: \nab\rcd`) is served with status 200, and the client
then rejects it as an invalid response.

`Text` holds the string helpers the four parts share: JavaScript's `trim`
and `\s` whitespace set, `includes`, `split`, `join`, decimal printing and
`parseInt`. `IdeaTypes` holds the request and response records. `Wrappers`
holds `Option`.

The provider, the endpoint's credential and model name, `Date.now()`,
`localStorage` and `JSON.parse` are parameters. JavaScript's string
truthiness is "non-empty".

## Model

| member | source | states |
|---|---|---|
| GenerateIdea.OptionalClause | api/generate-idea.js:106-116 | an optional clause is empty exactly when its field is empty, and otherwise is `Label: value. ` |
| GenerateIdea.BuildPrompt | api/generate-idea.js:98-121 | the prompt grown one sentence at a time is the prompt of the request |
| GenerateIdea.PromptShape | api/generate-idea.js:101-118 | every prompt is the fixed introduction, then the mood and budget sentences, then exactly the clauses of the non-empty optional fields in the order location, time of day, occasion, then the fixed format instructions |
| GenerateIdea.PromptWithoutOptionalFields | api/generate-idea.js:101-118 | a request with no optional field gets only the introduction, mood, budget and instructions |
| GenerateIdea.FormatInstructionsAskForMarkers | api/generate-idea.js:118 | the instructions contain a `Title:` line and a `Description:` line |
| GenerateIdea.WhitespaceRun | api/generate-idea.js:131 | the greedy `\s*` takes the maximal whitespace run |
| GenerateIdea.FirstMatchIndex | api/generate-idea.js:131 | the first index holding a match, with none before it |
| GenerateIdea.FirstMatchIndexSkip | api/generate-idea.js:131 | the search may skip indexes holding no match |
| GenerateIdea.ExtendCaptureSound | api/generate-idea.js:131 | the lazy capture ends at the first index where the alternation succeeds, having taken only allowed characters |
| GenerateIdea.ExtendCaptureReaches | api/generate-idea.js:131 | the lazy capture runs to the first index where the alternation succeeds |
| GenerateIdea.BacktrackSound | api/generate-idea.js:131 | giving whitespace back yields only matches that start after whitespace and end where the alternation first succeeds |
| GenerateIdea.MatchAtSound | api/generate-idea.js:131-135 | a match found at an index is a match of the regex |
| GenerateIdea.TitleMatchAtSound | api/generate-idea.js:131 | a title match found at an index is a match of the title regex |
| GenerateIdea.DescriptionMatchAtSound | api/generate-idea.js:135 | a description match found at an index is a match of the description regex |
| GenerateIdea.FindMatchLeftmost | api/generate-idea.js:131-135 | `match` returns the match at the leftmost index where the regex matches |
| GenerateIdea.FindMatchSound | api/generate-idea.js:131-135 | what `match` returns is a match of the regex, with no match at an earlier index |
| GenerateIdea.FindMatchNone | api/generate-idea.js:131-135 | `match` fails exactly when the scanner succeeds at no index, and exactly when the regex has no match starting from the search index on |
| GenerateIdea.FindMatchFirst | api/generate-idea.js:131-135 | `match` succeeds whenever the regex has a match, and what it returns starts no later than any match |
| GenerateIdea.MatchAtComplete | api/generate-idea.js:131-135 | wherever the regex matches, the anchored scanner succeeds there, with a capture starting no earlier than that match's (greedy `\s*`) |
| GenerateIdea.BacktrackComplete | api/generate-idea.js:131 | giving whitespace back finds a capture whenever one exists at a start it may give back to, and stops at the latest such start |
| GenerateIdea.FindMatchSkip | api/generate-idea.js:131-135 | indexes where the regex cannot match do not change the result |
| GenerateIdea.DescriptionMatchIff | api/generate-idea.js:135 | the description regex matches exactly when the text holds the marker (any case) with at least one character after it |
| GenerateIdea.DescriptionMatchesAtMarker | api/generate-idea.js:135 | the description regex matches at every marker that has a character after it |
| GenerateIdea.ExtendCaptureReachesEnd | api/generate-idea.js:135 | with the `s` flag the description capture always reaches an end |
| GenerateIdea.TitleMatchesAfterMarker | api/generate-idea.js:131 | a title marker followed by a non-whitespace character, with no line terminator but `\n` after it, makes the title regex match |
| GenerateIdea.FirstEnd | api/generate-idea.js:131 | the first index where the title's alternation succeeds |
| GenerateIdea.NonBlank | api/generate-idea.js:140 | a line is kept exactly when it is one of the lines and is not blank |
| GenerateIdea.NonBlankConcat | api/generate-idea.js:140 | the filter works line by line, so the kept lines keep their order |
| GenerateIdea.ParseReply | api/generate-idea.js:123-153 | `idea` is the trimmed text, the description is never empty, and without a title match the title is not empty |
| GenerateIdea.MarkedFieldsNonEmpty | api/generate-idea.js:135-136 | when a marker matches the text is not empty, and a matched description is never blank after trimming |
| GenerateIdea.DescriptionCaptureStartsSolid | api/generate-idea.js:135 | on trimmed text the description capture starts on a non-whitespace character |
| GenerateIdea.UnmarkedFallbackNonEmpty | api/generate-idea.js:139-146 | the line-split fallback yields a non-empty title and description, and has no non-blank line only for the empty text |
| GenerateIdea.EdgeReplaceFindsNothing | api/generate-idea.js:128 | on trimmed text neither alternative of the edge-whitespace pattern has anything to remove |
| GenerateIdea.ParseIdeaIsTrimmedText | api/generate-idea.js:125-151 | `idea` is the trimmed completion in both return paths, and the second cleaning step is a no-op |
| GenerateIdea.ParseMarkedFields | api/generate-idea.js:130-152 | when a marker matches, each field is its trimmed capture, or `Romantic Date Night` / the whole cleaned text when only the other marker matched |
| GenerateIdea.ParseUnmarked | api/generate-idea.js:139-146 | with no marker: the title is the first line and is not blank; the description is the other non-blank lines joined by spaces, else the whole text; the empty completion gives both fixed defaults |
| GenerateIdea.ParseWellFormedReply | api/generate-idea.js:123-153 | a reply in the requested format, padded with any whitespace, parses back into its title (trimmed) and description, with the reply itself as `idea` |
| GenerateIdea.WellFormedReplyFields | api/generate-idea.js:118 | the requested format places the title and the description at fixed offsets, and the reply is trimmed |
| GenerateIdea.WellFormedReplyShape | api/generate-idea.js:118 | the layout of a reply in the requested format, piece by piece |
| GenerateIdea.WellFormedTitle | api/generate-idea.js:131 | on a well-formed reply the title regex matches at 0 and captures exactly the title |
| GenerateIdea.WellFormedDescription | api/generate-idea.js:135 | on a well-formed reply the description regex captures exactly the description |
| GenerateIdea.WellFormedDescriptionAt | api/generate-idea.js:135 | the description regex matches right after the title line and runs to the end of the reply |
| GenerateIdea.DescriptionMarkerPlace | api/generate-idea.js:135 | in a well-formed reply the description marker starts the second line and nowhere earlier |
| GenerateIdea.DescriptionRunsToEnd | api/generate-idea.js:135 | a description with no blank line is captured up to the end of the reply |
| GenerateIdea.NoMarkerBeforeNewline | api/generate-idea.js:135 | no description marker starts inside a plain title |
| GenerateIdea.CallHuggingFace | api/generate-idea.js:80-95 | a completion is parsed; a provider error yields a message that is the `Hugging Face API error: ` prefix followed by the error's message, or by its serialized form when it has none |
| GenerateIdea.Handle | api/generate-idea.js:16-70 | OPTIONS gives 200 with no body; any other non-POST gives 405; a missing mood or budget gives 400; a missing key gives 500 with the hint; the provider is called exactly when all of these pass, with the key, the model and the prompt |
| GenerateIdea.HandleProviderOutcome | api/generate-idea.js:56-69 | a completion gives 200 with the parsed idea, title and description; a provider error gives 500 `Failed to generate date idea` with the prefixed message |
| GenerateIdea.HandleStatuses | api/generate-idea.js:23-69 | the handler answers only 200, 400, 405 or 500; every non-200 carries an `error`; a POST answered 200 means the provider completed |
| GenerateIdea.SunsetPicnicScenario | api/generate-idea.js:56-62 | the default request with a well-formed provider reply is answered 200 with that title and description |
| GenerateIdea.SunsetReplyParses | api/generate-idea.js:123-153 | the scenario reply parses into its two fields |
| GenerateIdea.SunsetTitleIsPlain | api/generate-idea.js:131 | the scenario title contains no line terminator and no description marker |
| GenerateIdea.EmptyMoodScenario | api/generate-idea.js:36-38 | an empty mood gives 400 `Mood and budget are required`, whatever the key, and the provider is not called |
| Text.Trim | api/generate-idea.js:125 | `trim` yields a text with no whitespace at either end |
| Text.TrimOfPadded | api/generate-idea.js:125 | `trim` removes exactly the surrounding whitespace |
| Text.TrimIdempotent | api/generate-idea.js:128 | trimming twice is trimming once |
| Text.JoinSplit | api/generate-idea.js:140 | splitting on a separator and joining with it gives the text back |
| Text.TrimEmptyIff | api/generate-idea.js:140 | a line trims to empty exactly when it is all whitespace |
| Text.ParseIntRoundTrip | src/components/DatePlanner.jsx:11 | `parseInt` reads back every printed integer |
| Text.NatToStringRoundTrip | src/components/DatePlanner.jsx:15 | the decimal digits of a number denote that number |
| ApiClient.HttpErrorText | src/utils/api.js:55 | the fallback message is `HTTP error! status: ` followed by the printed status |
| ApiClient.StatusMessage | src/utils/api.js:54-76 | a readable body: 401 and 429 give their fixed messages; otherwise `error` wins; without `error`, 400 and 500 give their generic messages and other statuses give `message` or the HTTP error text. An unreadable body gives the status text or the HTTP error text |
| ApiClient.Caught | src/utils/api.js:87-105 | an abort gives the timeout message; a `TypeError` mentioning `fetch` gives the network message; any other error keeps its message; only a message-less error gets the generic one |
| ApiClient.CaughtKeepsFormattedErrors | src/utils/api.js:99-102 | a message the client already formatted comes back unchanged when rethrown |
| ApiClient.Attempt | src/utils/api.js:42-105 | every rejection carries a non-empty message |
| ApiClient.GenerateDateIdea | src/utils/api.js:32-106 | no request is made exactly when mood or budget is empty, and then the rejection is `Mood and budget are required parameters`; otherwise the posted body is the form and the result is the attempt on it |
| ApiClient.ResolvesExactlyOnCompleteIdea | src/utils/api.js:79-86 | the client resolves exactly on a 2xx response whose readable body has a non-empty title and description, and then with that body unchanged |
| ApiClient.StatusErrorsReachCaller | src/utils/api.js:54-102 | the error thrown for a non-OK status reaches the caller with its message untouched |
| ApiClient.IncompleteSuccessIsRejected | src/utils/api.js:79-84 | a 2xx body lacking a title or a description is rejected with `Invalid response from server. Please try again.`; an unreadable 2xx body is rejected with its parse error, classified |
| ApiClient.FetchFailuresAreClassified | src/utils/api.js:91-97 | an abort, whatever its message, gives the timeout message; a `TypeError` mentioning `fetch` gives the network message |
| ApiClient.FailedToFetchIsNetworkFailure | src/utils/api.js:95-97 | the browser's `Failed to fetch` is classified as a network error |
| DatePlanner.PlanOf | src/components/DatePlanner.jsx:51 | the new plan is the form's five fields plus the id |
| DatePlanner.JsQuot | src/components/DatePlanner.jsx:13 | the quotient rounded toward zero has the sign of the dividend |
| DatePlanner.JsRem | src/components/DatePlanner.jsx:13 | the dividend is the quotient rounded toward zero times the divisor plus the remainder; the remainder takes the sign of the dividend and is smaller than the divisor in magnitude |
| DatePlanner.FormatTime12Hour | src/components/DatePlanner.jsx:7-16 | the display is empty exactly when the time is empty |
| DatePlanner.Display | src/components/DatePlanner.jsx:15 | the template never gives an empty text |
| DatePlanner.Hour12Table | src/components/DatePlanner.jsx:11-13 | the shown hour is 1 to 12: 0 is 12 AM, 1 to 11 stay AM, 12 is 12 PM, 13 to 23 lose 12 and are PM |
| DatePlanner.FormatHourMinute | src/components/DatePlanner.jsx:10-15 | for digits, a colon and minutes, the display is the 12-hour form of the digits' value, the minutes verbatim and the half of the day |
| DatePlanner.FormatWithoutColon | src/components/DatePlanner.jsx:10-15 | a time without a colon shows `undefined` as its minutes |
| DatePlanner.FormatOfRenderedHour | src/components/DatePlanner.jsx:10-15 | a printed hour `h` followed by `:mm` displays as the 12-hour form of `h` |
| DatePlanner.StrCompare | src/components/DatePlanner.jsx:65 | the comparison is -1, 0 or 1, and 0 exactly for equal texts |
| DatePlanner.StrCompareFirstDifference | src/components/DatePlanner.jsx:65 | at the first differing position the string with the smaller character compares as smaller |
| DatePlanner.StrComparePrefix | src/components/DatePlanner.jsx:65 | a proper prefix compares as smaller |
| DatePlanner.StrCompareAntisymmetric | src/components/DatePlanner.jsx:65 | swapping the operands negates the comparison |
| DatePlanner.StrCompareTransitive | src/components/DatePlanner.jsx:65 | the comparison is transitive |
| DatePlanner.Compare | src/components/DatePlanner.jsx:62-75 | the comparator answers -1, 0 or 1 |
| DatePlanner.CompareZeroIff | src/components/DatePlanner.jsx:64-74 | the comparator ties exactly plans with the same date and time, so two untimed plans on one date tie |
| DatePlanner.CompareAntisymmetric | src/components/DatePlanner.jsx:62-75 | swapping two plans negates the comparator |
| DatePlanner.CompareTransitive | src/components/DatePlanner.jsx:62-75 | the comparator is transitive |
| DatePlanner.CompareStrictAfterTie | src/components/DatePlanner.jsx:62-75 | a strict step followed by a tie or a step is strict |
| DatePlanner.Insert | src/components/DatePlanner.jsx:62 | inserting adds exactly the one plan |
| DatePlanner.SortPlans | src/components/DatePlanner.jsx:62 | the sorted copy is a permutation of the plans |
| DatePlanner.InsertSorted | src/components/DatePlanner.jsx:62-75 | inserting into a sorted list keeps it sorted |
| DatePlanner.SortPlansSorted | src/components/DatePlanner.jsx:62-75 | the sorted copy is ordered by the comparator |
| DatePlanner.Slot | src/components/DatePlanner.jsx:62 | the plans of one date-and-time slot, in order |
| DatePlanner.SlotConcat | src/components/DatePlanner.jsx:62 | a slot of a concatenation is the concatenation of the slots |
| DatePlanner.SlotNone | src/components/DatePlanner.jsx:62 | a list without plans of a slot has an empty slot |
| DatePlanner.InsertSlot | src/components/DatePlanner.jsx:62 | inserting a plan puts it after the plans of its slot |
| DatePlanner.SortPlansStable | src/components/DatePlanner.jsx:62 | the sort is stable: plans that tie keep their order |
| DatePlanner.SortedPlansOrder | src/components/DatePlanner.jsx:62-75 | in the shown list a later date comes first; on one date a later time comes first, and a timed plan comes before an untimed one |
| DatePlanner.RemoveId | src/components/DatePlanner.jsx:58 | no plan with the id remains, every other plan remains, and nothing is added |
| DatePlanner.RemoveIdConcat | src/components/DatePlanner.jsx:58 | deleting works piece by piece, so the remaining plans keep their order |
| DatePlanner.RemoveIdAbsent | src/components/DatePlanner.jsx:58 | a list without the id comes back unchanged |
| DatePlanner.RemoveIdIdempotent | src/components/DatePlanner.jsx:58 | deleting twice is deleting once |
| DatePlanner.DeleteUndoesSubmit | src/components/DatePlanner.jsx:48-59 | deleting a fresh id right after submitting a plan under it restores the list |
| DatePlanner.RemoveIdComplete | src/components/DatePlanner.jsx:58 | deleting keeps every remaining plan complete |
| DatePlanner.LoadPlans | src/components/DatePlanner.jsx:20-28 | nothing saved, an empty entry or an unparsable entry gives no plans; otherwise the parsed list |
| DatePlanner.Planner.Load | src/components/DatePlanner.jsx:20-37 | mounting loads the plans and starts with an empty, hidden form |
| DatePlanner.Planner.Submit | src/components/DatePlanner.jsx:48-55 | with a title and a date, exactly one plan is appended after the unchanged earlier plans, and the form is emptied and hidden; otherwise nothing changes; completeness of all plans is kept |
| DatePlanner.Planner.Delete | src/components/DatePlanner.jsx:57-59 | the plans become the list without the id; the form is untouched |
| DatePlanner.Planner.Edit | src/components/DatePlanner.jsx:120 | a form edit changes the form only |
| DatePlanner.Planner.SetShowForm | src/components/DatePlanner.jsx:92 | the add and close buttons change only the form's visibility |
| DatePlanner.Planner.Sorted | src/components/DatePlanner.jsx:62-75 | the shown list is a sorted permutation of the plans, and is the stable sort of them (SortPlans) |
| DateIdeaGenerator.Friendly | src/components/DateIdeaGenerator.jsx:66-75 | an empty message becomes the generic failure; then `API key`, `timeout` and `Network error` pick their notices, first match winning; any other message is shown as it is |
| DateIdeaGenerator.FailedDefaultIsUnmarked | src/components/DateIdeaGenerator.jsx:66 | the generic failure contains no trigger phrase |
| DateIdeaGenerator.ConnectionNoticeIsUnmarked | src/components/DateIdeaGenerator.jsx:74 | the connection notice contains no trigger phrase |
| DateIdeaGenerator.SlowNoticeIsUnmarked | src/components/DateIdeaGenerator.jsx:72 | the slow-request notice contains no trigger phrase |
| DateIdeaGenerator.SlowNoticeAvoidsTimeout | src/components/DateIdeaGenerator.jsx:72 | the slow-request notice does not contain `timeout` |
| DateIdeaGenerator.KeyNoticeIsMarked | src/components/DateIdeaGenerator.jsx:69-70 | the key notice contains `API key` |
| DateIdeaGenerator.FriendlyPassesThrough | src/components/DateIdeaGenerator.jsx:66-75 | a non-empty message with no trigger phrase is shown unchanged, and an empty one shows the generic failure |
| DateIdeaGenerator.FriendlyIdempotent | src/components/DateIdeaGenerator.jsx:66-75 | rewriting a shown message again changes nothing |
| DateIdeaGenerator.FriendlyRange | src/components/DateIdeaGenerator.jsx:66-75 | the shown message is one of the three notices, the generic failure or the message itself |
| DateIdeaGenerator.DefaultFormIsSent | src/components/DateIdeaGenerator.jsx:6-12 | the default form passes the client's required-field check and is posted unchanged |
| DateIdeaGenerator.Generator.constructor | src/components/DateIdeaGenerator.jsx:5-16 | the form starts as the default, not loading, with no error and no idea |
| DateIdeaGenerator.Generator.EditForm | src/components/DateIdeaGenerator.jsx:120 | a form edit changes the form only |
| DateIdeaGenerator.Generator.BeginSubmit | src/components/DateIdeaGenerator.jsx:50-54 | a submit starts loading and clears the error and the idea |
| DateIdeaGenerator.Generator.FinishSubmit | src/components/DateIdeaGenerator.jsx:56-81 | success shows the idea and hands that same value to `onIdeaGenerated` when it is given; failure shows the rewritten message; loading ends either way |
| DateIdeaGenerator.Generator.Submit | src/components/DateIdeaGenerator.jsx:50-82 | the whole submit: the current form goes to the client, and the state afterwards follows its result; a shown idea always has a title and a description |
| DateIdeaGenerator.Generator.GenerateAnother | src/components/DateIdeaGenerator.jsx:253-256 | "Generate Another" clears the idea and the error and changes nothing else |
| DateIdeaGenerator.Generator.Close | src/components/DateIdeaGenerator.jsx:262 | "Close" and "Cancel" request closing once when `onClose` is given |
| DateIdeaGenerator.Generator.UseIdea | src/components/DateIdeaGenerator.jsx:84-91 | "Use This Idea" hands the shown idea to `onIdeaGenerated` when both exist, and requests closing when `onClose` is given |
| Composition.Received | src/utils/api.js:57-58 | the client reads the status and the JSON body the endpoint wrote; a response with no body cannot be read |
| Composition.ClientRequestsPassFieldCheck | api/generate-idea.js:28-38 | a request the client sends is never answered 400 or 405 |
| Composition.KeyNotConfiguredIsMarked | api/generate-idea.js:51 | the endpoint's missing-key error contains `API key` |
| Composition.MissingKeyReachesUser | api/generate-idea.js:49-54 | without a key, the client rejects with the endpoint's error and the form shows its key notice |
| Composition.GenerationFailedIsUnmarked | api/generate-idea.js:66 | the endpoint's failure message contains no trigger phrase |
| Composition.ProviderFailureReachesUser | api/generate-idea.js:63-69 | a provider failure reaches the user as `Failed to generate date idea`, not as the provider's message |
| Composition.CompletionReachesUser | api/generate-idea.js:56-62 | a completion reaches the form as the parsed idea exactly when its title is not blank; a blank title is rejected as an invalid response |
| Composition.CompletionIsServed | api/generate-idea.js:56-62 | a provider completion reaches the client as a 200 response whose body is the parsed idea |
| Composition.ParsedIdeaAttempt | src/utils/api.js:79-86 | a 200 response carrying a parsed idea resolves with it exactly when its title is not blank, and is rejected as an invalid response otherwise |
| Composition.UnauthorizedIsRewritten | src/utils/api.js:64-65 | a 401 with a readable body becomes the key notice |
| Composition.TimedOutIsUnmarked | src/utils/api.js:92 | the client's timeout message contains no trigger phrase |
| Composition.TimedOutAvoidsKey | src/utils/api.js:92 | the timeout message does not contain `API key` |
| Composition.TimedOutAvoidsTimeout | src/utils/api.js:92 | the timeout message does not contain `timeout` |
| Composition.AbortIsNotRewritten | src/components/DateIdeaGenerator.jsx:71-72 | an abort is shown as the client words it, not as the slow-request notice |
| Composition.NetworkFailureIsRewritten | src/components/DateIdeaGenerator.jsx:73-74 | an unreachable server is shown as the form's connection notice |
| Composition.NetworkFailureAvoidsKey | src/utils/api.js:96 | the network message does not contain `API key` |
| Composition.NetworkFailureAvoidsTimeout | src/utils/api.js:96 | the network message does not contain `timeout` |
| Composition.SubmitThenUse | src/components/DateIdeaGenerator.jsx:57-91 | a successful submit followed by "Use This Idea" hands the same idea to `onIdeaGenerated` twice |

## Left out

- Network, timers and the provider client: `fetch`, `AbortController`, the 30-second timer and `InferenceClient.chatCompletion` are not modelled. Their results are parameters.
- Environment and logging: `dotenv` loading, `process.env` and `import.meta.env` reads (the key and model name are parameters), the base-URL choice, the CORS headers and all `console` output.
- `localStorage` and `JSON.stringify`: the save effect of the plan list writes the plans and decides nothing. The load takes what was saved and `JSON.parse` as parameters.
- `checkAPIHealth` always returns true.
- `toLocaleDateString` and all JSX rendering.
- Request bodies that are not JSON objects with string fields. A missing body, `null`, numbers or arrays in the request are not modelled; absent string fields are empty strings.
- The provider reply is a completion string or an error. `response.choices[0].message.content` can also throw, when there is no choice or the content is `null`; that case is the error outcome, since `callHuggingFace` wraps it the same way.
- The saved plans: `JSON.parse` may yield valid JSON that is not a list of plans (`null`, an object, plans with fields missing), and then copying the plans for the sort throws while rendering. The `parse` parameter yields a list of complete plans or nothing, so the model cannot express that case.
- The `replace` of edge whitespace after `trim` is modelled as a second `trim`: both remove the leading and the trailing whitespace run. EdgeReplaceFindsNothing states only that on trimmed text neither alternative of the pattern finds anything.
- `parseInt` on huge hours: JavaScript parses into a double, and the model reads digits exactly.
- A thrown `TypeError` with no `message` property makes the client's `includes` call throw. The model treats an absent message as empty.
- Strings are sequences of Unicode scalar values (Dafny's `char`), while JavaScript strings are sequences of UTF-16 code units. The model therefore has no lone surrogates, counts a character outside the Basic Multilingual Plane as one position where JavaScript counts two, and orders such characters by code point where JavaScript orders by code unit (the two disagree between U+E000–U+FFFF and supplementary characters). No modelled result depends on this: no surrogate is whitespace, a line terminator or an ASCII letter, so `trim`, `\s`, `.`, the markers and the `includes` checks treat a surrogate pair as JavaScript does, and the dates and times compared are ASCII.
- Marker folding covers ASCII letters only, as the `i` flag does outside unicode mode.
- DatePlanner.StrCompare: `localeCompare` is modelled as lexicographic order on characters. That agrees with collation only on the ISO dates and `HH:MM` times the form inputs produce.
- DatePlanner.Display: its own contract says only that the text is non-empty. The hour and minute content is stated by Hour12Table and FormatHourMinute.

Where the code is more particular than one might expect, the model follows the code:
- The title's `.` refuses `\r`, U+2028 and U+2029 as well as `\n`, as in JavaScript. A title line ended by `\r` therefore does not match at that marker.
- The fixed 401 and 429 messages apply only when the error body can be read. An unreadable 401 or 429 body gives the status text, because that assignment sits inside the `try` around `response.json()`.
- A `Title:` whose capture trims to empty gives an empty title with status 200, which the client then rejects (Composition.CompletionReachesUser).
