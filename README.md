# MultiGuard text verification, modelled in Dafny

MultiGuard checks a claim typed into a chat page. The page sends the claim to a back
end. The back end asks a language model for a verdict and returns it as a JSON record.
The page then shows that record as an assistant entry in the chat transcript. A small
web-search helper collects factual snippets from DuckDuckGo's instant-answer API.

This project models three pieces of that flow and proves properties about them:

- `verify_text.dfy` (module `VerifyText`) models the chat page's controller as the class
  `Chat`. Its fields are the draft, the transcript, the pending flag and the
  "Analyzing..." dots. Two bookkeeping fields are added: `sent`, the request
  bodies in order, and `outstanding`, the number of requests not yet answered. Every
  event is a method:
  - `Edit` is an edit of the draft.
  - `Submit` is `handleVerify` up to its `await`. `ClickSubmit` is the send button and
    `KeyDown` is the Enter key.
  - `ResolveOk` is a parsed response and `ResolveErr` is a failed request.
  - `Tick` is one period of the dots timer.
- `reply_cleanup.dfy` (module `ReplyCleanup`) models `verify_claim_with_gemini` after the
  model call. It covers the whitespace strip, the removal of a markdown code fence and of
  a `json` tag, and the three records the function can return.
- `search_snippets.dfy` (module `SearchSnippets`) models `search_web` after the HTTP
  request. It covers the abstract, the related topics' texts in order, truncation to the
  requested count, the fixed "nothing found" item and the error item.
- `strings.dfy` (module `Strings`) defines end-trimming over a character set. Three sets
  are used: Python's `str.strip()` whitespace, ECMAScript's `trim()` whitespace, and the
  backtick of `strip("`")`.
- `json.dfy` (module `Json`) defines decoded JSON values and Python truthiness.

The model replaces each piece of the outside world with a parameter:

- The model call's outcome is `Reply`.
- `json.loads` is a function parameter returning `Decoded`.
- The clock's timestamp string is a parameter.
- The HTTP outcome of the search is `Fetched`.
- The text of a caught exception is `errorText`.
- The arrival of a response at the page is a call to `ResolveOk` or `ResolveErr`.

The code behaves as follows, which a reader might not expect; the model follows the code:

- The page is not single-in-flight. Only the button is disabled while loading. Enter
  without Shift still calls `handleVerify`, which has no loading check of its own. So a
  second request can start while one is pending, and the first answer then clears
  `loading` under the second; `ScenarioOverlap` shows this. `Submit` and `KeyDown` can
  break `OneInFlight`; every other event preserves it, and the constructor sets it up.
- A response missing `verdict`, `confidence` or `explanation` does not pass `null`
  through. The missing property reads as `undefined`. A literal `null` body throws
  inside the `try` and gives the error entry.
- A decoded JSON value that is not an object does not give a partial record. The key
  assignment raises `TypeError`, and the outer handler returns the "System Unavailable"
  record.

## Model

| member | source | states |
|---|---|---|
| Strings.Trim | Text/backend/app/utils/verifier.py:39 | The result is no longer than the input and starts and ends with no character of the set. |
| Strings.TrimWindow | Text/backend/app/utils/verifier.py:39 | The result is the piece of the input after the skipped prefix, and every character outside that piece is in the set. |
| Strings.TrimEmptyIff | frontend/src/pages/VerifyText.jsx:30 | The trimmed string is empty exactly when every character is in the set. |
| Strings.TrimAround | Text/backend/app/utils/verifier.py:43 | Trimming a trimmed middle with padding from the set on both sides gives the middle back. |
| Strings.TrimOfTrimmed | Text/backend/app/utils/verifier.py:43 | Trimming text with no set characters at its ends changes nothing. |
| Strings.TrimIdempotent | Text/backend/app/utils/verifier.py:43 | Trimming twice is trimming once. |
| Strings.TrimIsWindow | Text/backend/app/utils/verifier.py:43 | The trimmed text is a contiguous piece of the input. |
| VerifyText.BlankIffAllSpace | frontend/src/pages/VerifyText.jsx:30 | A draft is rejected exactly when every character is ECMAScript whitespace or a line terminator. |
| VerifyText.IsBlank | frontend/src/pages/VerifyText.jsx:30 | `!input.trim()` over the ECMAScript whitespace set; characterised by `BlankIffAllSpace`. |
| VerifyText.ReplyMessage | frontend/src/pages/VerifyText.jsx:46-61 | The entry a parsed body yields, or the error entry when reading a property of `null` throws; characterised by `ReplyMessageCases`, `ReplyCopiesFields` and `ReplyIgnoresOtherFields`. |
| VerifyText.ReplyMessageCases | frontend/src/pages/VerifyText.jsx:46-61 | A `null` body gives the error entry. Any other body gives an assistant verdict entry, each field `undefined` when the body lacks that key and that key's value when it has it, whatever the other keys; all three `undefined` when the body is not an object. |
| VerifyText.ReplyCopiesFields | frontend/src/pages/VerifyText.jsx:46-55 | A body with the three fields gives an assistant entry holding exactly those three values. |
| VerifyText.ReplyIgnoresOtherFields | frontend/src/pages/VerifyText.jsx:47-54 | Bodies that agree on the three fields give the same entry, whatever other keys they have. |
| VerifyText.NextDots | frontend/src/pages/VerifyText.jsx:16 | The next indicator has at most three characters and either is empty or extends the previous one by one character; `NextOfDots` gives the exact step. |
| VerifyText.NextOfDots | frontend/src/pages/VerifyText.jsx:16 | From n dots the next indicator has n+1 dots, or none after three. |
| VerifyText.DotsCycle | frontend/src/pages/VerifyText.jsx:13-22 | After k ticks of a loading interval the indicator shows k mod 4 dots. |
| VerifyText.Chat.constructor | frontend/src/pages/VerifyText.jsx:6-9 | Starts with an empty draft, an empty transcript, not loading, no dots and no requests. |
| VerifyText.Chat.Edit | frontend/src/pages/VerifyText.jsx:154 | The draft becomes the edited text. |
| VerifyText.Chat.Submit | frontend/src/pages/VerifyText.jsx:29-35 | A blank draft changes nothing. Otherwise one user entry with the draft is appended, the draft is sent, loading is set and the draft is cleared, even if a request is already pending. |
| VerifyText.Chat.ClickSubmit | frontend/src/pages/VerifyText.jsx:159-161 | Nothing happens while loading; otherwise it acts as `Submit`. It keeps at most one request in flight. |
| VerifyText.Chat.KeyDown | frontend/src/pages/VerifyText.jsx:155 | Enter without Shift acts as `Submit` whether or not a request is pending; any other key changes nothing. |
| VerifyText.Chat.ResolveOk | frontend/src/pages/VerifyText.jsx:46-64 | Appends the entry the body yields, clears loading and the dots, leaves the draft, and settles one request. |
| VerifyText.Chat.ResolveErr | frontend/src/pages/VerifyText.jsx:56-64 | Appends the fixed error entry, clears loading and the dots, leaves the draft, and settles one request. |
| VerifyText.Chat.Tick | frontend/src/pages/VerifyText.jsx:13-22 | While loading, the dots advance one step of the cycle; otherwise nothing changes. |
| ReplyCleanup.PyStrip | Text/backend/app/utils/verifier.py:39 | Python's `str.strip()`, trimming the `str.isspace` set; characterised by `Strings.Trim` and `Strings.TrimWindow`. |
| ReplyCleanup.HasJsonTag | Text/backend/app/utils/verifier.py:45 | `content.lower().startswith("json")`; characterised by `TagLineRecovered` and `FencedPlainRecovered`. |
| ReplyCleanup.StripFence | Text/backend/app/utils/verifier.py:42-46 | The fence cleanup; characterised by `UnfencedUnchanged`, `FenceKeepsWindow`, `TagDropsFourAndSpace` and `FenceAround`. |
| ReplyCleanup.ReplyContent | Text/backend/app/utils/verifier.py:39-46 | The text handed to the decoder, with `""` when the response has no `text`; characterised by `ContentStripped` and the fence round-trip lemmas. |
| ReplyCleanup.UnfencedUnchanged | Text/backend/app/utils/verifier.py:39-42 | A reply that does not open with three backticks reaches the decoder exactly as stripped. |
| ReplyCleanup.ContentStripped | Text/backend/app/utils/verifier.py:39-46 | On every path the text handed to the decoder has no whitespace at either end. |
| ReplyCleanup.FenceKeepsWindow | Text/backend/app/utils/verifier.py:42-46 | The fence cleanup only removes characters at the ends, so its result is a contiguous piece of its input. |
| ReplyCleanup.TagDropsFourAndSpace | Text/backend/app/utils/verifier.py:45-46 | Dropping the tag removes the four tag letters and the whitespace after them, and nothing else. |
| ReplyCleanup.UnwrapTicks | Text/backend/app/utils/verifier.py:43 | Three backticks on each side of a middle that has none at its ends are removed, and nothing more. |
| ReplyCleanup.StripNewlines | Text/backend/app/utils/verifier.py:43 | One newline on each side of stripped text is removed. |
| ReplyCleanup.StripTaggedLine | Text/backend/app/utils/verifier.py:43 | A `json` line over a stripped body strips to the tag and the body, or to the tag alone. |
| ReplyCleanup.StripLeadingNewline | Text/backend/app/utils/verifier.py:46 | One leading newline before stripped text is removed. |
| ReplyCleanup.StrippedReply | Text/backend/app/utils/verifier.py:39 | Reply text with no whitespace at its ends goes straight to the fence cleanup. |
| ReplyCleanup.FencedReply | Text/backend/app/utils/verifier.py:39-43 | A reply that opens and closes with backticks takes the fence branch unchanged by the first strip. |
| ReplyCleanup.FenceAround | Text/backend/app/utils/verifier.py:42-46 | A middle between two triple backticks reaches the decoder stripped, less a leading `json` tag. |
| ReplyCleanup.TagLineRecovered | Text/backend/app/utils/verifier.py:43-46 | A `json` line over a stripped body is recognised as tagged and gives the body back. |
| ReplyCleanup.FencedJsonRecovered | Text/backend/app/utils/verifier.py:39-46 | A stripped body fenced as a `json` code block reaches the decoder exactly. |
| ReplyCleanup.FencedPlainRecovered | Text/backend/app/utils/verifier.py:39-46 | A body fenced with no tag reaches the decoder exactly, unless it begins with the letters j, s, o, n in any case, which are then taken for a tag. |
| ReplyCleanup.VerifyClaim | Text/backend/app/utils/verifier.py:18-77 | The claim and timestamp are always present. A raise gives the unavailable record. A decode error gives the three fallback keys with their values. A decoded object keeps its other keys and values. A decoded non-object gives the unavailable record. |
| ReplyCleanup.AddClaimAndTime | Text/backend/app/utils/verifier.py:58-60 | The two keys are added or overwritten and every other entry is kept. |
| ReplyCleanup.Fallback | Text/backend/app/utils/verifier.py:52-56 | The decode-error record; characterised by `FallbackShape`. |
| ReplyCleanup.Unavailable | Text/backend/app/utils/verifier.py:65-77 | The exception record; characterised by `UnavailableShape`. |
| ReplyCleanup.FallbackShape | Text/backend/app/utils/verifier.py:51-56 | The fallback has exactly verdict "Uncertain", confidence 0.5, and the content or the fixed text when the content is empty. |
| ReplyCleanup.UnavailableShape | Text/backend/app/utils/verifier.py:64-77 | The unavailable record has exactly five keys, with the claim, "System Unavailable", confidence 0, the fixed explanation and the timestamp as values. |
| SearchSnippets.Contains | app/utils/search_utils.py:18 | Python's `in` on a dict, list or str, and `None` where it raises; characterised by `ContainsRaisesOnScalars`. |
| SearchSnippets.ContainsRaisesOnScalars | app/utils/search_utils.py:18 | `in` raises exactly on numbers, booleans and `None`. |
| SearchSnippets.TopicTexts | app/utils/search_utils.py:22-24 | The texts of the qualifying topics of a list; characterised by `TopicTextsMembers`, `TopicTextsAppend` and `SkippedTopics`. |
| SearchSnippets.TopicsAdded | app/utils/search_utils.py:22 | What iterating the related topics adds: a list's texts, nothing for a dict or str, a raise otherwise. |
| SearchSnippets.Collected | app/utils/search_utils.py:15-24 | The list built before truncation, or `None` when building it raises; characterised by `AbstractFirst` and `NonObjectFindsNothing`. |
| SearchSnippets.NonObjectFindsNothing | app/utils/search_utils.py:15-26 | A response that is not a dict never yields a snippet: the answer is the error item or the fixed item. |
| SearchSnippets.SearchResult | app/utils/search_utils.py:26-28 | The answer after the request; characterised by `NothingFound`, `FirstResults`, `DefaultFirstThree`, `ResultsFromResponse` and `ErrorAnswer`. |
| SearchSnippets.DefaultFirstThree | app/utils/search_utils.py:5 | With the default count of 3, a found answer is the first three collected items, or all when there are fewer. |
| SearchSnippets.Take | app/utils/search_utils.py:26 | A Python slice `[:n]` is a prefix of length n, capped at the length, counted from the end when n is negative. |
| SearchSnippets.AppendTopicTexts | app/utils/search_utils.py:22-24 | The loop appends exactly the texts of the topics that are dicts with a `Text`, in order. |
| SearchSnippets.SearchWeb | app/utils/search_utils.py:10-28 | The step-by-step collection returns what the reference definition of the answer gives. |
| SearchSnippets.TopicTextsAppend | app/utils/search_utils.py:22-24 | The texts of two topic lists, concatenated, are the concatenation of their texts. |
| SearchSnippets.TextSource | app/utils/search_utils.py:22-24 | Every collected text comes from some topic that is a dict with that `Text`. |
| SearchSnippets.TextCollected | app/utils/search_utils.py:22-24 | Every topic that is a dict with a `Text` has that text collected. |
| SearchSnippets.TopicTextsMembers | app/utils/search_utils.py:21-24 | A value is collected from the topics exactly when some topic is a dict whose `Text` is that value. |
| SearchSnippets.SkippedTopics | app/utils/search_utils.py:23 | A topic that is not a dict with a `Text` contributes nothing. |
| SearchSnippets.AbstractFirst | app/utils/search_utils.py:15-24 | The abstract comes first, exactly when it is present and truthy, followed by what the related topics give. |
| SearchSnippets.NothingFound | app/utils/search_utils.py:26 | When nothing is collected the answer is the single fixed item. |
| SearchSnippets.FirstResults | app/utils/search_utils.py:26 | For a count of zero or more the answer is the longest prefix of the collected list of at most that length, and empty for zero. |
| SearchSnippets.ResultsFromResponse | app/utils/search_utils.py:15-26 | Every item of a found answer is the abstract or the `Text` of some related topic. |
| SearchSnippets.ErrorAnswer | app/utils/search_utils.py:27-28 | An exception from the request or from collecting gives one item that starts with "Search error: ". |

## Left out

- Rendering: the JSX markup, the animations and the layout component are presentation only.
- The auto-scroll effect (frontend/src/pages/VerifyText.jsx:25-27) only moves the view.
- The timer's 400 ms period: time is not modelled, and a tick is a discrete event.
- `fetch`, the URL, the HTTP status code and `console.error` are represented only by the choice between `ResolveOk` and `ResolveErr`.
- React's batching and scheduling of state updates: each handler's updates are applied in order, at once.
- A textarea's own newline insertion on Enter: the default action is not part of the controller.
- The model client, the prompt text, the environment file and the API key check in verifier.py run before or around the modelled code and have no logic of their own to prove.
- `json.loads` is a parameter. Its parsing rules, and exceptions it raises other than `JSONDecodeError` (such as `RecursionError`, which the outer handler catches), are not modelled.
- `datetime.utcnow().isoformat() + "Z"` is an opaque timestamp parameter.
- `requests.get` and the query URL in search_utils.py are replaced by their outcome, `Fetched`.
- Exception messages are an `errorText` parameter and are not derived from the exception.
- Dict key order is not modelled: records are maps.
- JSON numbers are integers and reals. There is no NaN or infinity, and JavaScript's single number type is not distinguished from these two.
- ReplyCleanup.Lower: `str.lower()` is modelled on ASCII letters only. No non-ASCII character lowercases to one of the letters j, s, o, n, so the tag test is unaffected.
- app/routes/text_verify.py and app/main.py, which only route requests to the modelled function, are not part of this model.
