# Rule-based chat agent: responder and submit handler

This project models the two pieces of logic in a minimal single-page chat
application and proves properties about them.

- **The responder** is the `POST` handler of the chat route. It checks that
  the parsed request body has a `messages` array. It reads the last message's
  `content` and lowercases it. It then tests the text against a fixed,
  ordered chain of substring predicates. The first predicate that holds
  picks a canned reply. When none holds, a generic reply is given, and its
  wording depends only on whether the text contains `"how"`. A body that is
  not `null` and has no `messages` array gets 400 `Invalid messages format`.
  A `null` or unparsable body throws, and anything that throws gets 500
  `Internal server error`.
- **The submit handler** of the chat page is a state machine over
  `(messages, input, isLoading)`. A submit is ignored while loading or when
  the input is blank. An accepted submit appends the trimmed input as a
  `user` message, clears the input, sets loading, and sends the whole
  conversation. The request then ends in success or failure. Success appends
  an `assistant` message carrying the reply. Failure appends a `system`
  message with a fixed apology. Loading ends either way.

Modules, one per concept:

| file | module | contents |
|---|---|---|
| `strings.dfy` | `Strings` | ASCII `Lower`, the substring predicate `Contains` and a scanning `Includes`, JavaScript `Trim` |
| `json.dfy` | `Json` | the JavaScript values a parsed body holds, property reads, truthiness |
| `messages.dfy` | `Messages` | `Role`, `Message`, and the `{ messages: [...] }` request body |
| `responder.dfy` | `Responder` | the dispatch chain `Dispatch`/`Classify`, a rule-table reference `ByRules`, the canned replies |
| `route.dfy` | `Route` | the `POST` handler `Handle` with its 400 and 500 paths |
| `client.dfy` | `Client` | the submit handler as `Submit`, `Succeed`, `Fail`, `Settle`, and runs of the page |
| `exchange.dfy` | `Exchange` | the page and the route composed: what a submit ends with |

The if-chain `Dispatch` is written as the route writes it. It is proved equal
to `ByRules`, an independent first-match-wins evaluation over a table of
`(keywords, category)` rules. The priority, fallback and capabilities
properties are then stated against that table.

Matching is on substrings, not words. So `"they"` is a greeting because it
holds `"hey"`, and `"show me"` gets the "how" wording of the fallback
(`Responder.TheyIsGreeting`, `Responder.ShowMeAsksHow`).

Behaviour worth knowing:

- The story reply fires on `"story"` **or** `"write"` (`app/api/chat/route.ts:47`).
- A last message that is `null`, or whose `content` is missing or not a
  string, makes `toLowerCase` throw. That gives 500, not a request-format
  error (`app/api/chat/route.ts:31`, `118-123`).
- An empty `messages` array passes validation. Then `messages[-1]` is
  undefined and reading `.content` throws, so the answer is 500
  (`app/api/chat/route.ts:30-31`).

Each canned reply is represented by an excerpt: its opening words. The
fallback is represented by its text up to and including the clause that
varies; the list of offers after that clause is left out.

## Model

| member | source | states |
|---|---|---|
| Strings.LowerChar | app/api/chat/route.ts:31 | an upper-case ASCII letter becomes its lower-case partner, and every other character is left alone |
| Strings.Lower | app/api/chat/route.ts:31 | the lowercased text has the same length, has no upper-case ASCII letter, and leaves already-lower text unchanged |
| Strings.LowerIdempotent | app/api/chat/route.ts:31 | lowercasing twice is lowercasing once |
| Strings.LowerIgnoresCase | app/api/chat/route.ts:31 | upper-casing before lowercasing changes nothing: only the letters' case is forgotten |
| Strings.Contains | app/api/chat/route.ts:36 | `includes` holds when some position starts an occurrence; it always holds for the empty keyword and never for a keyword longer than the text (its scanning partner is `Includes`) |
| Strings.Includes | app/api/chat/route.ts:36 | the left-to-right scan behind `includes` answers true exactly when some position starts an occurrence of the keyword |
| Strings.SkipWhitespace | app/page.tsx:26 | the index returned is the first non-whitespace position at or after the start, and everything skipped is whitespace |
| Strings.BackOverWhitespace | app/page.tsx:26 | the index returned starts a run of trailing whitespace that cannot be extended leftward without passing the lower bound |
| Strings.Trim | app/page.tsx:28 | `trim` keeps one slice between a whitespace prefix and a whitespace suffix, and that slice neither starts nor ends with whitespace |
| Strings.BlankIffAllWhitespace | app/page.tsx:26 | `!input.trim()` holds exactly when the input is made only of whitespace |
| Strings.TrimIdempotent | app/page.tsx:28 | trimming twice is trimming once |
| Messages.Encode | app/page.tsx:40 | an encoded message is an object whose `content` reads back as the message text and whose `role` reads back as its role name |
| Messages.RequestBody | app/page.tsx:39-41 | the body's `messages` is an array holding the encoded conversation, element for element |
| Messages.RoleNameInjective | app/api/chat/route.ts:3-6 | distinct roles have distinct wire names |
| Messages.EncodeInjective | app/page.tsx:40 | distinct messages have distinct encodings, so the route receives exactly the conversation the page holds |
| Responder.Dispatch | app/api/chat/route.ts:36-115 | the route's `if`/`else if` chain; the fallback's flag is exactly whether the text contains "how", and `DispatchFollowsRules` and `ChosenIffFirstToFire` prove the chain is first-match-wins over the rule table |
| Responder.Classify | app/api/chat/route.ts:31-36 | a message text gets the category of the first table rule that fires on its lowercased form |
| Responder.FirstFiring | app/api/chat/route.ts:36-101 | the index chosen is the first rule that fires: it fires and no earlier rule does, or no rule fires at all |
| Responder.DispatchFollowsRules | app/api/chat/route.ts:36-115 | the route's `if`/`else if` chain gives exactly the first-match-wins answer of the rule table, and the fallback otherwise |
| Responder.FiresUnfolded | app/api/chat/route.ts:36-99 | each table rule fires exactly when the input contains one of the keywords the route tests in that branch |
| Responder.RuleCategoriesDistinct | app/api/chat/route.ts:36-100 | every branch leads to its own reply and none of them is the fallback |
| Responder.ChosenIffFirstToFire | app/api/chat/route.ts:36-100 | a branch's reply is chosen if and only if its predicate holds and every earlier predicate fails |
| Responder.FallbackIffNothingFires | app/api/chat/route.ts:101-105 | the fallback is given exactly when no predicate holds, and its only variation is whether the text contains "how" |
| Responder.CapabilitiesWin | app/api/chat/route.ts:36 | text containing "what can you", "capabilities" or "help me with" gets the capabilities reply whatever else it contains |
| Responder.ClassifyIgnoresCase | app/api/chat/route.ts:31 | texts equal up to ASCII case get the same reply, and so do a text and its lowercased or upper-cased form |
| Responder.TheyIsGreeting | app/api/chat/route.ts:95 | keywords match inside words: "they" holds "hey" and is a greeting |
| Responder.ShowMeAsksHow | app/api/chat/route.ts:101-105 | "show me" holds "how" and gets the "how" wording of the fallback |
| Responder.TrailingHiIsNoGreeting | app/api/chat/route.ts:95 | "hi" needs a following space: appending "hi" at the end of a text creates no "hi " |
| Responder.TrailingHiFallsBack | app/api/chat/route.ts:95-105 | "oh hi" is not a greeting and gets the fallback without the "how" wording |
| Responder.StoryBeforeQuantum | app/api/chat/route.ts:47-57 | "write about quantum" gets the story reply, not the quantum one, because the story branch comes first |
| Responder.HelloThere | app/api/chat/route.ts:95-96 | "Hello there!" gets the greeting |
| Responder.BrainstormAppIdeas | app/api/chat/route.ts:76-77 | "Can you brainstorm app ideas?" gets the app-ideas reply, since "brainstorm" holds "stor" but no "story" |
| Responder.Reply | app/api/chat/route.ts:37-114 | every reply is non-empty, and both fallback wordings open with the same sentence |
| Responder.ReplyInjective | app/api/chat/route.ts:37-114 | different branches give different reply texts, so a reply tells which branch answered |
| Route.Handle | app/api/chat/route.ts:18-125 | status 400 with `Invalid messages format` exactly when a non-null body has no `messages` array; a reply exactly when the last message has a string `content`, and then the reply is the classification of that text |
| Route.LastText | app/api/chat/route.ts:30-31 | `messages[messages.length - 1].content.toLowerCase()` has a text to work on exactly when the array is non-empty, its last element is not `null` or undefined, and that element's `content` is a string; the text is that `content` |
| Route.MissingOrNonArrayRejected | app/api/chat/route.ts:22-27 | a missing or non-array `messages` gets 400 with `Invalid messages format` and no reply |
| Route.EmptyConversationIsServerError | app/api/chat/route.ts:30-31 | an empty `messages` array passes validation and then fails with 500 `Internal server error`, not 400 |
| Route.BadContentIsServerError | app/api/chat/route.ts:118-123 | a null last message, or a `content` that is missing or not a string, throws and gets 500 |
| Route.LastMessageDecides | app/api/chat/route.ts:30-31 | two bodies whose `messages` arrays end in the same element get the same answer |
| Route.EarlierMessagesIgnored | app/api/chat/route.ts:30 | putting earlier messages before the last one never changes the answer |
| Route.EncodedConversationAnswered | app/api/chat/route.ts:22-31 | a non-empty conversation encoded as the page encodes it always gets a reply, and that reply classifies its last message |
| Client.Submit | app/page.tsx:26-41 | a submit is ignored, with the whole state unchanged, exactly when loading or the input is blank; otherwise it appends one user message with the trimmed input, clears the input, sets loading, and sends the prior messages followed by that user message |
| Client.Succeed | app/page.tsx:48-49 | success appends exactly one assistant message carrying the reply and ends loading |
| Client.Fail | app/page.tsx:50-57 | failure appends exactly the apology as a system message and ends loading |
| Client.Settle | app/page.tsx:44-60 | completing a request appends exactly one non-user message and ends loading on both paths |
| Client.Answer | app/page.tsx:49-57 | the message an outcome appends is never a user message; it is an assistant message exactly on success, and then carries the received text |
| Client.Turn | app/page.tsx:24-61 | a whole submit keeps the earlier messages as a prefix, adds nothing or exactly two messages, and leaves loading as it found it |
| Client.TurnAppendsTwo | app/page.tsx:24-61 | an accepted turn grows the conversation by two: the user's trimmed text, then the answer |
| Client.FailureKeepsUserMessage | app/page.tsx:44-57 | a failed turn keeps the user's message and follows it with the apology |
| Client.RejectedTurnIsNoOp | app/page.tsx:26 | a submit while loading or with blank input leaves the state as it was |
| Client.Step | app/page.tsx:24-61 | an edit (the `onChange` of line 123) replaces the input and leaves the conversation alone; every step adds nothing or one exchange and leaves loading as it was |
| Client.Run | app/page.tsx:24-61 | any run of edits and submits grows the conversation by whole exchanges only (an even number of messages) and leaves loading as it was |
| Client.StepAppendOnly | app/page.tsx:30 | no step of the page removes or changes an existing message |
| Client.RunAppendOnly | app/page.tsx:30-57 | over any run of edits and submits, every earlier conversation is a prefix of every later one |
| Client.AppendExchange | app/page.tsx:30-57 | a user message followed by an answer keeps a conversation alternating |
| Client.StepKeepsSettled | app/page.tsx:24-61 | from an idle, alternating state every step leads to an idle, alternating state |
| Client.RunKeepsSettled | app/page.tsx:24-61 | over any run the page is idle between turns and its conversation alternates trimmed non-blank user messages with answers |
| Exchange.Receive | app/page.tsx:44-49 | only a 200 response counts as success, and then its `message` is what the page appends |
| Exchange.LiveTurn | app/page.tsx:24-61 | a submit against the route is the page's turn whose outcome is the route's answer to the conversation plus the new user message |
| Exchange.LiveTurnAnswersInput | app/page.tsx:40 | against the route, an accepted turn appends the trimmed input and the reply that classifies exactly that input |
| Exchange.LiveTurnNeverFails | app/page.tsx:44-46 | against the route, a turn never ends in the apology, because the route answers whatever the page sends |
| Exchange.HistoryIgnored | app/api/chat/route.ts:30-31 | the reply a turn appends does not depend on the earlier conversation |
| Exchange.ReplyRevealsCategory | app/api/chat/route.ts:36-115 | two turns that append the same reply had inputs of the same category: the reply text tells which branch answered |

## Left out

- Strings.Lower: lowercases ASCII letters only. JavaScript's `toLowerCase` maps all of Unicode, and a few non-ASCII letters lower to ASCII ones (the Kelvin sign lowers to `k`). So text that relies on those letters matches differently in the model.
- Strings are sequences of Unicode scalar values. JavaScript strings are sequences of UTF-16 code units, and a JSON body can carry a lone surrogate (`"\ud800"`), which the model cannot represent. Matching and trimming of text the model can represent are unaffected.
- The network, `fetch`, `NextRequest`/`NextResponse` and JSON (de)serialisation are not modelled. The route starts from an already-parsed body (`Route.Body`). The page receives an abstract outcome (`Client.Outcome`). `Exchange` assumes the transport delivers the body and the response unchanged.
- Json numbers are whole numbers. Floating point and `NaN` truthiness are not modelled, and neither are properties inherited from prototypes; neither `messages` nor `content` is one.
- `console.error` in the route's error path is output only and is not modelled.
- React's asynchronous state batching and the stale `messages` closure are not modelled. The steps are sequential transitions. The request body is built from the state before the submit, as the closure sees it.
- The canned replies keep only their opening words. The unused system prompt constant is not modelled.
- Rendering, the suggestion panel, scrolling, `useRef`/`useEffect` and form event plumbing are UI and are not modelled. Typing in the input field appears only as the `Edit` event of a run.
- The page layout file holds only static metadata and markup and is not modelled.
