# NEUROSME agent console — a verified model

This project models the logic of a small Vue chat front-end. The front-end shows a roster of
administrative AI agents grouped in five categories. Each agent has a system prompt, a list of
uploaded files and a message history. The model covers these parts:

- **Reply pipeline** (`services/geminiService.js`).
  - It builds the knowledge-base text from an agent's files.
  - It assembles the role-tagged turns.
  - It sends one request, or answers from a keyword-driven mock when there is no API key.
  - It turns a failure into a fixed apology.
  - It splits the raw answer into narrative text plus an optional chart. The chart comes from the
    first fenced `json` block that holds `"chart":`. This is the regular expression
    ``/```json\s*(\{[\s\S]*?"chart":[\s\S]*?\})\s*```/``, written as an explicit left-to-right scan
    with the same backtracking outcome.
- **Roster store** (`App.js`). It covers the initial roster and the active-agent lookup with its
  fallback. It also covers `setActiveAgent` and the copy-on-write replace-by-id
  `handleUpdateAgent`, as a class with the two refs as fields.
- **Configuration panel** (`components/ConfigPanel.js`). It covers the three record updates the panel
  emits: file upload, file removal and prompt edit.
- **Chat pane** (`components/ChatInterface.js`). `handleSend` is a class with the `input` and
  `isLoading` refs as fields. The handler is split at its one suspension point, so that an agent
  switch can happen during the await.
- **Sidebar** (`components/Sidebar.js`). It covers the open/close toggle of a category and the two
  icon mappings.

Files:

| file | module | content |
|---|---|---|
| `wrappers.dfy` | `Wrappers` | `Option` |
| `strings.dfy` | `Strings` | the JavaScript string primitives used by the core: `indexOf`, `includes`, `substring`, `trim`, `replace` of a string, `Number.prototype.toString` |
| `lists.dfy` | `Lists` | `Array.prototype.filter` |
| `json.dfy` | `Json` | parsed JSON values, property access and truthiness |
| `types.dfy` | `Types` | the records (agent, category, message, file, reply) and the default prompt |
| `chart_parser.dfy` | `ChartParser` | `parseResponseForChart` and the scan for its pattern |
| `gemini_service.dfy` | `GeminiService` | `sendMessageToGemini`, the file context, the turns and the mock |
| `app.dfy` | `App` | the root component's roster and store |
| `config_panel.dfy` | `ConfigPanel` | the panel's handlers |
| `chat_interface.dfy` | `ChatInterface` | `handleSend` |
| `sidebar.dfy` | `Sidebar` | the sidebar's toggle and icons |

Things outside the program are parameters:
- the network call to the model is `complete: GenerateRequest -> CallOutcome`;
- `JSON.parse` is `parse: string -> Option<JsonValue>`, where `None` means it throws;
- the presence of an API key is `hasApiKey`;
- the clock is `now` and `later`.

The reply of a send still in flight should reach the agent the send started on, identified by
the id captured before the await, and the sending flag should belong to that agent. The code does
neither:
- the second emission spreads whatever agent is shown when the reply arrives;
- `isLoading` is one flag of the chat component. That component is not keyed by agent in the root
  template, so it is shared by all agents.

The model follows the code: `ChatInterface.Chat.FinishSend` is the second emission as written, and
`ChatInterface.SwitchMisroutesReply` proves where its reply lands after a switch. The intended
behaviour is modelled beside it: `ChatInterface.Chat.FinishSendToOrigin`, with
`ChatInterface.ReplyReachesOrigin` proving that the reply reaches the agent of origin. The two
lemmas form the row under Findings.

## Model

| member | source | states |
|---|---|---|
| `Strings.IndexOfSpec` | services/geminiService.js:106 | `indexOf` finds the first occurrence at or after `from`, and no earlier one exists |
| `Strings.IncludesSpec` | services/geminiService.js:106 | `includes` holds iff the pattern occurs at some index |
| `Strings.MissingCharExcludes` | services/geminiService.js:106 | a string lacking one character of the pattern does not include it |
| `Strings.SubstringPrefix` | services/geminiService.js:36 | `substring(0, n)` is a prefix of length `min(n, length)` |
| `Strings.Substring` | services/geminiService.js:36 | within bounds, `substring` is the slice |
| `Strings.SkippedAreSpaces` | services/geminiService.js:85 | `\s*` consumes only white space and stops at a non-space |
| `Strings.TrimSpec` | components/ChatInterface.js:30 | `trim()` leaves no outer white space; it is empty iff the input is all white space |
| `Strings.TrimOfTrimmed` | services/geminiService.js:92 | trimming a trimmed string changes nothing |
| `Strings.TrimmedPlusSpaces` | services/geminiService.js:92 | trimming a trimmed text followed by white space gives the text back |
| `Strings.DecimalString` | components/ConfigPanel.js:17 | `toString()` of a non-negative integer is a non-empty digit string with no leading zero |
| `Strings.DecimalRoundTrip` | services/geminiService.js:39 | the decimal digits of a size read back as that size |
| `Lists.Filter` | components/ConfigPanel.js:32 | `filter` keeps exactly the elements that pass the test |
| `Lists.FilterAppend` | components/Sidebar.js:18 | filtering a concatenation filters each part |
| `Lists.FilterAround` | components/ConfigPanel.js:32 | an element between two parts stays between their filtered versions iff it passes |
| `Json.LastBindingSpec` | services/geminiService.js:91 | property access finds nothing iff no member has the key; otherwise it finds the last duplicate |
| `ChartParser.FirstCloseSpec` | services/geminiService.js:85 | the lazy `[\s\S]*?\}\s*` stops at the first `}` followed by white space and the closing fence |
| `ChartParser.FirstCloseIff` | services/geminiService.js:85 | the scan for the closing brace finds exactly the first closing position |
| `ChartParser.OpenAtIff` | services/geminiService.js:85 | the opening fence, white space and `{` are found iff they are present |
| `ChartParser.KeyIff` | services/geminiService.js:85 | the lazy `[\s\S]*?"chart":` stops at the first key after the `{` |
| `ChartParser.MatchAtSound` | services/geminiService.js:85 | what the scan finds at an index is a match of the pattern there |
| `ChartParser.MatchAtComplete` | services/geminiService.js:85 | a match of the pattern at an index is what the scan finds there |
| `ChartParser.FindMatchSpec` | services/geminiService.js:85-86 | the left-to-right scan returns the first index where the pattern matches |
| `ChartParser.FindMatchIsFirst` | services/geminiService.js:85-86 | `match` returns the leftmost match; without one, no index matches |
| `ChartParser.MatchMoves` | services/geminiService.js:85 | a match depends only on the text it spans |
| `ChartParser.MatchInOrder` | services/geminiService.js:85 | a match's fence, brace, key, closing brace and end come in that order, inside the text |
| `ChartParser.FirstMatchRemoved` | services/geminiService.js:92 | `replace(match[0], '')` removes the leftmost match itself, not an earlier copy of its text |
| `ChartParser.ParseResponseForChart` | services/geminiService.js:84-101 | a reply without a chart keeps the text unchanged; a reply with a chart has a truthy chart |
| `ChartParser.ParseWithoutMatch` | services/geminiService.js:88-100 | with no match the text comes back unchanged with no chart |
| `ChartParser.ParseFirstMatch` | services/geminiService.js:86-100 | with a match, its group is parsed. A truthy `chart` gives the rest of the text, trimmed, with that chart; otherwise the text is unchanged |
| `ChartParser.NoFenceNoChart` | services/geminiService.js:84-101 | a text without a backquote is returned unchanged with no chart |
| `ChartParser.ChartBlockRoundTrip` | services/geminiService.js:84-101 | a trimmed narrative followed by a chart block comes back apart: the narrative with the parsed chart, or the whole text when the chart is falsy or the block does not parse |
| `GeminiService.BuildFileContext` | services/geminiService.js:29-44 | the loop builds the header, one section per file in order, the footer and the instructions |
| `GeminiService.FileSectionsAppend` | services/geminiService.js:32-41 | the sections of two file lists follow each other |
| `GeminiService.FileSectionAt` | services/geminiService.js:32-41 | each file's section sits between those of the files before and after it |
| `GeminiService.FileContextShape` | services/geminiService.js:29-44 | the context is empty iff there are no files; otherwise it starts with the header and ends with the footer and the instructions |
| `GeminiService.ContentSection` | services/geminiService.js:33-37 | a file with content contributes its name and the first 50000 characters of its content |
| `GeminiService.StubSection` | services/geminiService.js:38-40 | a file without content contributes its name and its size, which reads back from the digits |
| `GeminiService.StubIgnoresContent` | services/geminiService.js:38-40 | a stub shows nothing but the name and the size |
| `GeminiService.ContentsFor` | services/geminiService.js:47-55 | the turns are the history's role and text in order, then one user turn with the new message |
| `GeminiService.BuildContents` | services/geminiService.js:47-55 | the map-then-push loop builds exactly those turns |
| `GeminiService.MockResponse` | services/geminiService.js:103-124 | the mock gives a chart iff the message asks for sales |
| `GeminiService.MockKeywords` | services/geminiService.js:106-123 | the chart reply comes iff `最好`, `sku` or `sales` occurs, case-sensitively; otherwise it is the fixed greeting |
| `GeminiService.MockGreets` | services/geminiService.js:106-123 | a message without `s` and without `最` gets the greeting |
| `GeminiService.MockChartShape` | services/geminiService.js:109-117 | the canned chart is a truthy pie titled "Top 3 Best Selling SKUs" with three slices |
| `GeminiService.RequestFor` | services/geminiService.js:59-68 | the request has the model and temperature 0.4 and the turns; without files the instruction is exactly the caller's; with files it extends it |
| `GeminiService.ReplyFromOutcome` | services/geminiService.js:70-81 | a failure gives the fixed apology; an answer without a chart keeps `response.text \|\| ""` |
| `GeminiService.SendMessageToGemini` | services/geminiService.js:14-82 | without a key the mock answers and no request goes out; with one, exactly the built request goes out and its outcome is turned into the reply |
| `GeminiService.AnsweredWithChart` | services/geminiService.js:70-74 | an answer ending in a chart block gives the narrative and the chart |
| `GeminiService.AnsweredPlain` | services/geminiService.js:70-74 | an answer without a backquote is passed on, and a missing answer becomes the empty text |
| `App.FindById` | App.js:59 | `find` returns an agent with the id |
| `App.FindByIdSpec` | App.js:59 | `find` returns nothing iff no agent has the id; otherwise it returns the first one |
| `App.FindByIdAppend` | App.js:58-61 | searching a concatenation searches the first part and then the second |
| `App.FindInCategories` | App.js:58-61 | the search over the categories returns an agent with the id |
| `App.FindInCategoriesFlat` | App.js:58-61 | searching category by category is searching the flattened roster |
| `App.ActiveAgentSpec` | App.js:57-63 | `activeAgent` is the first agent with the active id, in category then agent order; without one it is the first agent of the first category |
| `App.ReplaceInAgents` | App.js:72 | the `map` puts the update at every position holding its id and keeps the rest |
| `App.ReplaceAgent` | App.js:70-73 | categories keep their number, order, ids and names; each category's agents are replaced by id |
| `App.ReplaceFlat` | App.js:70-73 | replacing per category is replacing in the flattened roster |
| `App.ReplaceAgentSpec` | App.js:69-74 | the update keeps the agent count and ids, replaces every agent with its id and leaves every other agent identical |
| `App.ReplaceKeepsIds` | App.js:72 | replacing by id keeps the ids |
| `App.ReplaceAbsent` | App.js:72 | an update whose id is nowhere leaves the roster unchanged |
| `App.ReplaceIdempotent` | App.js:69-74 | applying the same update twice is applying it once |
| `App.ReplacedIsFound` | App.js:57-74 | after an update of an existing id, that id's active agent is the update |
| `App.FirstOfReplaced` | App.js:72 | after a replacement the first agent with the id is the update |
| `App.FindAfterReplace` | App.js:57-74 | after an update, lookups of other ids are unchanged, and a lookup of its id finds the update when the id existed |
| `App.FindInReplaced` | App.js:72 | the same for one category's agents |
| `App.IdsAppend` | App.js:58 | the ids of a concatenation are the ids of each part |
| `App.IdsOfFive` | App.js:19-53 | the ids of a five-category roster are its categories' ids in order |
| `App.ChanRoster` | App.js:20-29 | the first category has four fresh agents with their ids in order |
| `App.XiaoRoster` | App.js:30-37 | the second category has two fresh agents with their ids |
| `App.RenRoster` | App.js:38-42 | the third category has one fresh agent |
| `App.FaRoster` | App.js:43-47 | the fourth category has one fresh agent |
| `App.CaiRoster` | App.js:48-52 | the fifth category has one fresh agent |
| `App.InitialRoster` | App.js:19-53 | there are five categories holding the nine agents with these ids, in order |
| `App.InitialIdsDistinct` | App.js:19-53 | the nine initial ids are distinct |
| `App.InitialIdsUnique` | App.js:19-53 | a roster with the initial ids holds nine agents with pairwise distinct ids |
| `App.InitialValid` | App.js:19-63 | the initial roster has the fallback agent of `activeAgent` and the nine initial ids in order |
| `App.EveryAgent` | App.js:58-59 | a property of every agent of every category holds for every agent of the flattened roster |
| `App.InitialAgentsFresh` | App.js:10-53 | every initial agent has the default prompt and no files or messages |
| `App.InitialActive` | App.js:55-63 | the initial active agent is `agent-order`, the first agent of the first category |
| `App.Store.constructor` | App.js:19-55 | the store starts with the initial roster and `agent-order` active, holding the nine initial ids and the fallback agent |
| `App.Store.SetActiveAgent` | App.js:65-67 | only the active id changes; the roster, and with it the store invariant, is kept |
| `App.Store.HandleUpdateAgent` | App.js:69-74 | the roster becomes the replaced roster and the active id is kept; the fallback agent and the nine ids, in order, survive |
| `App.Store.ActiveAgent` | App.js:57-63 | the nested search returns the active agent, and never nothing while the fallback exists |
| `ConfigPanel.HandleFileUpload` | components/ConfigPanel.js:13-27 | nothing is emitted iff no file is picked. Otherwise one record for the first file is appended, with its name, type and size and no content, and every other field is unchanged |
| `ConfigPanel.UploadFirstOnly` | components/ConfigPanel.js:14-15 | files picked after the first are ignored |
| `ConfigPanel.UploadTwice` | components/ConfigPanel.js:22-25 | two uploads append two records in order |
| `ConfigPanel.RemoveFile` | components/ConfigPanel.js:29-34 | no file with the id remains, every other file remains, and no other field changes |
| `ConfigPanel.RemoveUndoesUpload` | components/ConfigPanel.js:13-34 | removing the file just uploaded gives the agent back |
| `ConfigPanel.RemoveKeepsOrder` | components/ConfigPanel.js:32 | the files that stay keep their order |
| `ConfigPanel.RemoveAbsent` | components/ConfigPanel.js:32 | an id no file has leaves the agent unchanged |
| `ConfigPanel.RemoveIdempotent` | components/ConfigPanel.js:29-34 | removing twice is removing once |
| `ConfigPanel.UpdatePrompt` | components/ConfigPanel.js:36-41 | only the system prompt changes, to the edited value |
| `ConfigPanel.UpdatePromptLastWins` | components/ConfigPanel.js:36-41 | of two edits, the last one counts |
| `ConfigPanel.EmittedIsFound` | components/ConfigPanel.js:22-40 | every record the panel emits keeps the agent's id, so once the root puts it in the roster it is the agent shown |
| `ChatInterface.Pending` | components/ChatInterface.js:32-45 | the send keeps the agent's id and the history with the user message, as typed, at the end |
| `ChatInterface.SendAddsTwoMessages` | components/ChatInterface.js:29-70 | without a switch the agent gains exactly the user message and the reply, and no other agent changes |
| `ChatInterface.UserTextSentTwice` | components/ChatInterface.js:40-57 | the request's last two turns are the same user text |
| `ChatInterface.SwitchMisroutesReply` | components/ChatInterface.js:67 | after a switch, the shown agent gets the first agent's history and the reply, and the first agent keeps only the user message |
| `ChatInterface.ReplyReachesOrigin` | components/ChatInterface.js:59-67 | sent to the agent of origin, the reply lands there after the user message whatever is shown, and no other agent changes |
| `ChatInterface.OriginAgreesWithoutSwitch` | components/ChatInterface.js:67 | without a switch the corrected second emission is the written one |
| `ChatInterface.Chat.constructor` | components/ChatInterface.js:13-14 | the input starts empty and nothing is loading |
| `ChatInterface.Chat.BeginSend` | components/ChatInterface.js:29-47 | a blank input or a send under way changes nothing. Otherwise the shown agent gets the user message, the input is cleared and the loading flag is set |
| `ChatInterface.Chat.FinishSend` | components/ChatInterface.js:59-68 | the agent shown at resolution gets the pending history and the reply, and the loading flag is cleared |
| `ChatInterface.Chat.FinishSendToOrigin` | components/ChatInterface.js:59-68 | the agent of origin gets them instead, if it still exists |
| `ChatInterface.Chat.HandleSend` | components/ChatInterface.js:29-70 | the whole handler: a request goes out iff there is a key; it carries the pending history, the text, the prompt and the files; the roster ends with both emissions and the flag is cleared |
| `Sidebar.Toggled` | components/Sidebar.js:16-22 | the id is open afterwards iff it was not; other ids keep their state; an absent id is appended at the end |
| `Sidebar.Nav.constructor` | components/Sidebar.js:14 | only `chan` starts open |
| `Sidebar.Nav.ToggleCategory` | components/Sidebar.js:16-22 | the push or the filter gives the toggled list |
| `Sidebar.ToggleAbsentTwice` | components/Sidebar.js:16-21 | toggling an absent id twice restores the list |
| `Sidebar.TogglePresentTwice` | components/Sidebar.js:16-21 | toggling a present id twice removes its other copies and puts it last |
| `Sidebar.ToggleKeepsOrder` | components/Sidebar.js:17-18 | closing keeps the other categories in order |
| `Sidebar.CategoryIcons` | components/Sidebar.js:24-33 | chan, xiao, ren, fa and cai map to their icons, anything else to Box |
| `Sidebar.AgentIconSpec` | components/Sidebar.js:35-41 | the first keyword found, in priority order, picks the icon, and FileText is used when none is found |

## Left out

- The network call (`generateContent`) and the `GoogleGenAI` client are the `complete` parameter. A thrown error is the `Failed` outcome. A timeout or a hung call is not modelled.
- `getApiKey` and `process.env` are the `hasApiKey` parameter.
- `JSON.parse` is the `parse` parameter; the JSON grammar is not modelled.
- `console.warn` and `console.error` are not modelled.
- The 1500 ms `setTimeout` in `mockResponse` is not modelled. The model has no time beyond the clock readings.
- `Date.now()` is a parameter: one reading before the await and one after it. The source reads the clock twice for the user message and twice for the reply; the model uses one reading for both of each pair.
- Promises and `async`/`await`: `handleSend` is split at the awaited call into two methods. The `await scrollToBottom()` calls are left out because they only scroll.
- Vue rendering, the watchers, `nextTick`, `scrollToBottom`, `triggerFileInput`, `handleKeyPress` and all template markup are not modelled. The props are read from the store the methods are given.
- `components/SimplePieChart.js` is not part of this model: it is floating-point SVG geometry.
- `types.js` appears only as the prompt constant, split into named lines.
- Icons are a datatype rather than the component-name strings.
- `Strings.Substring`: positions count characters, not UTF-16 code units, and negative or non-integer arguments are not modelled; the core passes only `0` and a constant.
- `Strings.DecimalString`: only non-negative integers are formatted; sizes and clock readings are never negative.
- `App.Store.ActiveAgent`: returns an option. The source would fail on an empty roster, which the roster it builds never is. The callers in the chat pane require `App.Store.Valid`, which holds from the constructor on.
- `ChatInterface.Chat.HandleSend`: composes the send with the written `FinishSend` and no switch during the await. A switch is stated with `BeginSend`, `SetActiveAgent` and `FinishSend` through the roster functions.
- `GeminiService.ReplyFromOutcome`: a reply with a chart is stated through `ChartParser.ParseFirstMatch`, not in its own contract.

## Findings

| source | as written | input that shows it | evidently intended | confidence | as-written member | corrected member |
|---|---|---|---|---|---|---|
| components/ChatInterface.js:67 | the second `update-agent` spreads `props.agent`, the agent shown when the reply arrives | send on `agent-order`, select `agent-sales` before the reply arrives: `agent-sales` loses its messages and gets `agent-order`'s history, the user message and the reply; `agent-order` keeps the user message without a reply | the reply is added to the agent the send started on, identified by the id captured before the await | not executed | `ChatInterface.SwitchMisroutesReply` | `ChatInterface.ReplyReachesOrigin` |
