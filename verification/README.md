# Outreach and chat assistant: a Dafny model

The system is a small writing assistant. A React front end keeps a list of chats. Each message
the user sends goes to a backend that turns it into a prompt for a hosted language model. The
backend comes in two variants that share most of their code: an Express server
(`backend/index.js`) and an AWS Lambda handler (`backend/lambda.js`). The tools are:

- an outreach **email** writer;
- a **summary** with fixed sections;
- a **plan** with fixed sections;
- a **general** chat that carries up to ten turns of history.

This project models:

- the backend's request shaping:
  - input validation;
  - clamping of the tool settings;
  - extraction of `Label: value` lines from the message (`extractInlineContext`);
  - the greeting test;
  - the prompt;
  - history normalisation;
  - the request sent to the model;
- its response handling:
  - text extraction from the model's reply envelope;
  - the empty-reply fallback;
  - the email and general-chat cleanups;
- the origin check and the Lambda's CORS headers;
- the front end's pure chat-list transitions:
  - titles;
  - the "meaningful chat" test;
  - the request payload and history;
  - message append, replace and meta update;
  - like and dislike;
  - deletion with active-chat fallback;
  - load normalisation;
  - save compaction;
  - pruning after load.

Where the two variants differ, the model takes a `Variant` (`Server` or `Lambda`) and proves
the differences as lemmas. The differences are:

- the label pattern;
- the label's key handling;
- the word ranges;
- the greeting test;
- the general-chat cleanup;
- the origin check.

JavaScript values from request bodies and model replies are the `JsValue.Value` datatype, with
`undefined` for a missing key. Regular expressions are modelled as explicit backtracking
searches in the order a JavaScript engine tries them. Declarative readings of each pattern are
proved sound and complete against them: `LabelLine.MatchSound`/`MatchComplete` and
`HeadingPattern.MatchAtSound`/`MatchAtComplete`. The heading patterns' `gim` replace is modelled
exactly, including `\s*` runs that cross line breaks. It is not approximated line by line.

Modules, in dependency order:

- `Wrappers`, `Text`: options; ECMAScript white space; `trim`; ASCII lower-casing; `split`, `join` and `split(/\r?\n/)`.
- `JsValue`: JSON-like values, truthiness, `||`, optional property access.
- `Settings`: mode, tone and length; clamps, token budgets, word ranges, temperatures, system texts.
- `LabelLine`, `InlineContext`, `ExtractTwice`: the label-line pattern of each variant; the extractor; running it twice.
- `Greeting`, `History`, `Envelope`: `isGreeting`, `normalizeHistory`, `extractOutputText`.
- `HeadingPattern`, `HeadingFree`, `Cleanup`: the heading patterns and global `replace`; why nothing the cleanup leaves matches again; the output cleanups.
- `Prompt`: `buildPrompt`.
- `Origin`: `isAllowedOrigin` and `corsHeaders`.
- `Generate`: the `/api/generate` handler of both variants.
- `Chats`: the front end's chat state.

Helpers that are identical in the two variants are defined once and cited at `backend/index.js`:

- the clamps;
- `lengthToMaxTokens`;
- `normalizeHistory`;
- `extractOutputText`;
- the email cleanup;
- the system texts.

## Model

| member | source | states |
|---|---|---|
| Settings.ClampMode | backend/index.js:56-58 | a value that is exactly a mode name selects that mode; any other value, including a non-string, selects general |
| Settings.ClampTone | backend/index.js:60-62 | a tone name selects that tone; anything else selects professional |
| Settings.ClampLength | backend/index.js:64-66 | a length name selects that length; anything else selects medium |
| Settings.MaxTokens | backend/index.js:68-72 | 420 exactly for short, 1100 exactly for long, 750 exactly for medium |
| Settings.MaxTokensMonotone | backend/index.js:68-72 | a longer length never gets a smaller token budget, and the other way round |
| Settings.WordRange | backend/index.js:116-120 | the server's word ranges start with the number; the lambda's are hedged with "roughly " |
| Settings.WordRangeDistinct | backend/lambda.js:29-33 | within a variant, different lengths ask for different word ranges |
| Settings.WordRangesDiffer | backend/lambda.js:29-33 | the two variants never ask for the same word range for a length |
| Settings.TemperatureFor | backend/index.js:323 | the email temperature is used exactly in email mode |
| Settings.SystemText | backend/index.js:298-303 | email, general chat and the two structured modes each get their own system text, and only they get it |
| Settings.NamesDistinct | backend/index.js:56-66 | distinct settings have distinct names, so a clamp reads a name back as the setting it names |
| Envelope.FirstWithText | backend/index.js:50 | the block found is the first whose `text` is truthy; none is found only when no block has one |
| Envelope.Fallback | backend/index.js:53 | `results[0].outputText` when truthy, else `completion` when truthy, else the empty string |
| Envelope.ExtractOutputText | backend/index.js:47-54 | the first content block's truthy text when the content is a list holding one, otherwise the older shapes; the result is truthy or `""` |
| Envelope.FirstBlockWins | backend/index.js:49-51 | with two text blocks, the first one's text is returned |
| Envelope.EmptyBlocksSkipped | backend/index.js:49-51 | blocks with no text or an empty text are skipped |
| Envelope.OlderShapes | backend/index.js:53 | the `results[0].outputText` and `completion` reply shapes are read |
| Envelope.NoTextAnywhere | backend/lambda.js:10-17 | a content list without text and no older shape gives the empty string |
| History.NormalizeHistory | backend/index.js:263-275 | a non-array gives no turns; an array gives the last ten kept turns in order, none blank |
| History.CleanedMembers | backend/index.js:265-272 | a turn is kept exactly when some history item produces it |
| History.CleanedAppend | backend/index.js:265-272 | the filter distributes over concatenation |
| History.TrailingJunkIgnored | backend/index.js:263-275 | unusable items after a history change nothing that is sent; ten usable turns followed by them are all sent |
| InlineContext.ExtractLines | backend/index.js:93-112 | the task is the kept lines joined and trimmed; each field holds the value of the last line that stored into it |
| InlineContext.ExtractReference | backend/index.js:93-112 | the extractor's loop meets its reference: kept lines in order, and the last stored value per field |
| InlineContext.LastStoreIsLast | backend/index.js:87-109 | a field's value comes from the last line storing into it; a field is unset exactly when no line stores into it |
| InlineContext.ContextShape | backend/index.js:87-100 | every server value is trimmed and non-empty; every lambda value is non-empty with no line terminator |
| InlineContext.ServerLineEffect | backend/index.js:93-110 | a server line is consumed exactly when its trimmed, lower-cased label before the first colon is one of the nine names (with `to` for recipient) and a value can follow; the value is stored trimmed, or not at all when blank |
| InlineContext.LambdaLineEffect | backend/lambda.js:54-66 | a lambda line is consumed exactly when the label before the first colon, lower-cased and untrimmed, is one of the eight names and a value can follow; the lazy value is stored |
| InlineContext.ServerToAlias | backend/index.js:99-105 | the server reads `To: Y` as the recipient |
| InlineContext.LambdaNoToAlias | backend/lambda.js:41-52 | the lambda keeps `To: Y` in the task |
| InlineContext.ServerSpacedLabel | backend/index.js:94-100 | the server trims a spaced label, so `Role : X` stores the role |
| InlineContext.LambdaSpacedLabel | backend/lambda.js:55-63 | the lambda's greedy label takes the space, so `Role : X` stays in the task |
| InlineContext.LambdaBlankValue | backend/lambda.js:55-65 | the lambda stores `Role: ` followed by a space as a single space |
| LabelLine.MatchSound | backend/index.js:94 | a reported match splits the line around its first colon into padded label and value, the engine's first such split |
| LabelLine.MatchComplete | backend/lambda.js:55 | every split of the line that the pattern describes makes the line match |
| ExtractTwice.ExtractTaskAgain | backend/index.js:74-113 | re-running the extractor on its own task stores nothing, and gives the same task back when it has no carriage return |
| ExtractTwice.CarriageReturnTwice | backend/lambda.js:35-69 | with a carriage return left in the task, the second run's task differs |
| Greeting.FirstOpening | backend/lambda.js:75 | the alternation finds the first alternative opening the text as a whole word, and finds none exactly when no alternative does |
| Greeting.GreetingIgnoresPadding | backend/index.js:122-124 | white space around a message never changes whether it greets |
| Greeting.GreetingIgnoresCase | backend/lambda.js:71-73 | letter case never changes whether a message greets |
| Greeting.ServerHelloOpening | backend/index.js:130 | every message starting with "hello " greets the server, whatever its length |
| Greeting.LambdaHelloOpening | backend/lambda.js:74-75 | a message of at most sixty characters opening with the whole word "hello" greets the lambda |
| Greeting.YoGreetsLambdaOnly | backend/lambda.js:75 | "yo" greets the lambda and not the server |
| Greeting.IntroductionGreetsServerOnly | backend/index.js:133 | "i'm sam" greets the server and not the lambda |
| Greeting.ServerIsGreeting | backend/index.js:122-140 | a message greets the server only when its trimmed, lower-cased form has at least two characters |
| Greeting.LambdaIsGreeting | backend/lambda.js:71-76 | a message greets the lambda exactly when its trimmed, lower-cased form is not empty, has at most sixty characters and opens with one of the seven alternatives as a whole word |
| Greeting.ShortGreetingsAgree | backend/index.js:127-129 | "hi", "hello" and "hey" on their own greet both variants |
| Greeting.EmptyNotGreeting | backend/index.js:124 | the empty message greets neither variant |
| Greeting.HiGreets | backend/lambda.js:75 | "hi" greets both variants |
| Greeting.HelloThereGreets | backend/index.js:130 | "hello there" greets both variants |
| Greeting.GoodMorningGreets | backend/lambda.js:75 | "good morning!" greets both variants; the lambda sees a word boundary before the `!` |
| Greeting.HiringNotGreeting | backend/index.js:122-140 | "history of hiring practices" greets neither variant, although it starts with "hi" |
| HeadingPattern.MatchAtSound | backend/index.js:155 | the engine's match at a position is a reading of the heading pattern |
| HeadingPattern.MatchAtComplete | backend/lambda.js:84 | wherever the heading pattern can be read, the engine reports a match |
| HeadingPattern.MatchSpans | backend/index.js:154-156 | a global replace's matches are ordered, disjoint and non-empty, each a match, and no position outside them starts one |
| HeadingPattern.HeadingLinesRemoved | backend/lambda.js:84 | every line that is a heading on its own is removed in full, even when an earlier match swallowed its start |
| HeadingPattern.NoWordNoChange | backend/lambda.js:81 | a text holding no heading word in any letter case is left unchanged |
| Cleanup.EmailClean | backend/index.js:351-353 | the cleaned email is trimmed and has no three line feeds in a row |
| Cleanup.NoRuleNoChange | backend/lambda.js:372-374 | a text without a `\n---\n` rule passes the rule replacement unchanged |
| Cleanup.ReplaceRules | backend/index.js:352 | the replacement never lengthens a text, and each replaced rule shortens it by three characters |
| Cleanup.RulesShorten | backend/index.js:352 | the length changes exactly when the text holds a rule |
| Cleanup.EmailCleanKeepsTidy | backend/index.js:351-353 | an email that is trimmed, has no rule and no three line feeds in a row is left exactly as it is |
| Cleanup.AdjacentRules | backend/index.js:352 | two adjacent rules leave one rule behind, which a second cleanup removes, so the cleanup is not idempotent |
| Cleanup.ServerClean | backend/index.js:142-160 | a non-string passes unchanged; a string comes out trimmed, with no three line feeds in a row and no section heading left for another removal to find |
| Cleanup.LambdaClean | backend/lambda.js:78-88 | any output comes out as a trimmed string with no three line feeds in a row and no section heading left; a falsy output gives the empty string |
| Cleanup.FalsyAsEmpty | backend/lambda.js:79 | a falsy output is read as the empty text |
| Cleanup.Tidy | backend/index.js:153-157 | the result is trimmed, has no three line feeds in a row, and the section-heading pattern matches nowhere in it, so a second removal changes nothing |
| Cleanup.FreeKeepsFirstLine | backend/index.js:147-151 | where no section heading matches, the server keeps the first line |
| Cleanup.TidyOfFree | backend/index.js:153-157 | a trimmed text without section headings or three line feeds in a row is left as it is |
| Cleanup.ServerCleanTwice | backend/index.js:142-160 | cleaning a general-chat reply twice on the server gives what cleaning it once gives |
| Cleanup.LambdaCleanTwice | backend/lambda.js:78-88 | cleaning the lambda's cleaned reply again gives it back |
| HeadingFree.MatchOnLine | backend/index.js:155 | a match that spans several lines implies a match covering exactly the line its word is on |
| HeadingFree.RemovedFree | backend/index.js:154-155 | after the global replace, the section-heading pattern matches nowhere in the text |
| HeadingFree.CollapseFree | backend/index.js:156 | collapsing runs of line feeds brings no section heading back |
| HeadingFree.TrimFree | backend/index.js:157 | trimming brings no section heading back |
| HeadingFree.FreeUnchanged | backend/lambda.js:84 | a global replace leaves a text in which its pattern matches nowhere as it is |
| HeadingFree.GreetingFree | backend/lambda.js:81 | where no section heading matches, no greeting label matches either |
| Cleanup.ServerWithoutHeadings | backend/index.js:142-160 | on a text without heading words, the server's cleanup only trims and collapses line-feed runs |
| Cleanup.LambdaWithoutHeadings | backend/lambda.js:78-88 | the lambda's cleanup does the same, so the two variants agree on such texts |
| Prompt.TaskText | backend/index.js:164 | the task is the extracted task, or the whole message trimmed when that is empty; it is trimmed, and not empty for a message that is not blank |
| Prompt.ShownField | backend/index.js:166-185 | a field shows the last label line's value, or its placeholder when none stored one |
| Prompt.BuildPrompt | backend/index.js:162-261 | structured prompts open with the task and length request; general chat opens with "User said: " exactly for a greeting and quotes the message; email lists tone, context and signature; summary and plan carry their outlines |
| Prompt.PromptNotBlank | backend/lambda.js:90-189 | a message that is not blank gives a prompt that is not blank |
| Origin.Cors | backend/lambda.js:211-219 | a refused origin gets `null`; with a configured origin only that origin is named; with none configured an admitted origin is echoed back, and no origin gives `*`; the fixed methods, headers and max age |
| Origin.CorsEchoesAdmitted | backend/lambda.js:204-212 | for a request origin other than `null`, the header names that origin exactly when the lambda admits it |
| Origin.LoopbackOnlyLambda | backend/lambda.js:204-209 | without a configured origin, `http://127.0.0.1:5173` is allowed by the lambda and refused by the server in development |
| Origin.ConfiguredOriginOnly | backend/index.js:16-24 | with a configured origin, the lambda and the production server both allow exactly that origin and origin-less requests |
| Origin.ProductionIsStricter | backend/index.js:16-24 | the production server allows nothing the development server refuses |
| Origin.UnconfiguredProduction | backend/index.js:18-20 | a production server with no configured origin serves only requests without one |
| Origin.ServerAllowedOrigin | backend/index.js:16-24 | a request without an origin passes; a configured origin passes, and in development so does any origin mentioning localhost; nothing else passes |
| Origin.LambdaAllowedOrigin | backend/lambda.js:204-209 | a request without an origin passes; with an origin configured only it passes; without one, only origins mentioning localhost or 127.0.0.1 pass |
| Generate.CheckInput | backend/index.js:286-292 | input passes exactly when it is a string that is not blank and has at most 10000 characters; "too long" only for such longer strings |
| Generate.BlankBeforeLength | backend/lambda.js:321-326 | a blank input is "required" however long it is |
| Generate.Prepare | backend/index.js:284-327 | rejected exactly when validation fails; otherwise clamped settings, the mode's system text, budget and temperature, and history only in general chat, at most ten turns |
| Generate.Messages | backend/index.js:312-315 | the history turns unchanged, then the prompt as the last user turn |
| Generate.SentTurns | backend/lambda.js:340-353 | general chat sends the normalised history then the prompt; other modes send the prompt alone; at most eleven turns, none blank |
| Generate.RawOutput | backend/index.js:341-348 | the model's text when truthy, else the fallback text, which is truthy when not empty |
| Generate.FallbackText | backend/lambda.js:369-370 | the lambda and the production server report "The model returned an empty response."; only the development server reports something else, the reply dumped as JSON |
| Generate.EmptyReplyAnswer | backend/lambda.js:369-375 | with a falsy model text a valid request gets 200; outside general chat the lambda and the production server answer the empty-response text, and the development server answers the dump in summaries and plans |
| Generate.Finish | backend/lambda.js:372-375 | summaries and plans unchanged; an email string cleaned; general chat cleaned by the variant's cleanup, the server passing non-strings through |
| Generate.Handle | backend/index.js:281-364 | 400 with the rejection's message exactly when validation fails; otherwise 200 with the cleaned output, built from the variant's fallback text, and the clamped settings |
| Generate.BlankReplyEmptiesEmail | backend/index.js:341-353 | a reply text of a lone line feed escapes the fallback and then cleans to an empty email |
| Generate.NumberReplyDiffers | backend/lambda.js:369-375 | a numeric reply text stays a number on the server and becomes the string "7" on the lambda |
| Chats.Defaulted | frontend/src/App.jsx:25-29 | every setting present is kept and every missing one takes its default, so none is empty |
| Chats.DefaultChat | frontend/src/App.jsx:21-31 | a new chat is titled "New chat", has no messages and has defaulted settings |
| Chats.FirstUser | frontend/src/App.jsx:34 | the index found is the first user message, or none exists |
| Chats.DeriveTitle | frontend/src/App.jsx:33-38 | "New chat" for a blank or missing first user message, else that message trimmed, cut to 32 characters plus "..."; never empty, at most 35 characters |
| Chats.TitleSettles | frontend/src/App.jsx:33-38 | once a chat has a user message, adding messages never changes its title |
| Chats.AnyMeaningful | frontend/src/App.jsx:42-51 | true exactly when some message is from the user or assistant, not thinking, and not blank |
| Chats.HasMeaningfulMessages | frontend/src/App.jsx:42-51 | a chat is meaningful exactly when one of its messages is |
| Chats.BuildPayload | frontend/src/App.jsx:216-220 | mode, input and length always; a tone exactly in email mode |
| Chats.PayloadSettings | frontend/src/App.jsx:216-220 | the backend reads the payload's settings back; outside email it reads the default tone |
| Chats.Sent | frontend/src/App.jsx:223-226 | the filtered turns are no more than the messages, and none is blank |
| Chats.SentAppend | frontend/src/App.jsx:223-226 | the filter distributes over concatenation, so the turns keep the messages' order |
| Chats.SentMembers | frontend/src/App.jsx:223-226 | a turn is sent exactly when some message produces it |
| Chats.BuildHistory | frontend/src/App.jsx:222-228 | all the sendable turns when there are ten or fewer, else exactly ten; they are the last ones, in order |
| Chats.HistoryReachesModel | frontend/src/App.jsx:222-228 | the backend's history normalisation keeps every turn the app sends, unchanged and in order |
| Chats.AppendMessage | frontend/src/App.jsx:230-238 | the message goes last in the target chat, whose title is derived again; other chats are unchanged |
| Chats.AppendKeepsTitle | frontend/src/App.jsx:230-238 | appending to a chat whose title came from a user message keeps the title |
| Chats.ReplaceMessage | frontend/src/App.jsx:240-248 | the messages with that id are replaced in the target chat and its title derived again; other chats are unchanged |
| Chats.PlaceholderReplaced | frontend/src/App.jsx:230-248 | appending a placeholder under a new id and replacing it with the answer equals appending the answer |
| Chats.UpdateMessageMeta | frontend/src/App.jsx:250-262 | only the meta of the targeted messages changes; titles and all other messages are unchanged |
| Chats.Like | frontend/src/App.jsx:320-325 | the like flips, a like clears the dislike, never both set, nothing else changes |
| Chats.Dislike | frontend/src/App.jsx:327-332 | the dislike flips, a dislike clears the like, never both set, nothing else changes |
| Chats.LikeTwice | frontend/src/App.jsx:320-325 | liking twice undoes the like when there was no dislike |
| Chats.VoteExclusive | frontend/src/App.jsx:320-332 | after a vote the targeted message is never both liked and disliked, and every other message is unchanged |
| Chats.Without | frontend/src/App.jsx:298 | exactly the chats without that id remain |
| Chats.WithoutAppend | frontend/src/App.jsx:298 | the deletion filter keeps the chats' order |
| Chats.ConfirmDelete | frontend/src/App.jsx:293-309 | no chosen chat changes nothing; otherwise the chat goes and the list is never empty; an emptied list becomes one new, active chat; a deleted active chat passes to the first remaining one; otherwise the active chat stays |
| Chats.DeleteKeepsActive | frontend/src/App.jsx:293-309 | if the active id named a chat before a deletion, it names one after |
| Chats.Restrict | frontend/src/App.jsx:139-146 | a saved payload has exactly the keys mode, length, tone and input, with their old values |
| Chats.CompactMessage | frontend/src/App.jsx:137-152 | a truthy payload is restricted and a model name dropped; everything else is kept |
| Chats.CompactChat | frontend/src/App.jsx:130-153 | settings defaulted; at most the last sixty messages, each compacted, in order |
| Chats.Compact | frontend/src/App.jsx:130-153 | every chat compacted, in order |
| Chats.CompactTwice | frontend/src/App.jsx:130-153 | saving what was saved changes nothing |
| Chats.LoadChat | frontend/src/App.jsx:94-102 | a loaded chat keeps its fields, gets defaulted settings, and has no messages when none were stored as a list |
| Chats.LoadChats | frontend/src/App.jsx:91-102 | chats are loaded exactly when the stored value is, or wraps, a non-empty list |
| Chats.LoadActive | frontend/src/App.jsx:102-115 | after loading chats the active id names one of them: the saved interface's id when it names a loaded chat, otherwise the current id when it does, otherwise the first chat's; with nothing loaded the saved id wins when there is one |
| Chats.SaveThenLoad | frontend/src/App.jsx:91-153 | loading what was saved gives the saved chats back exactly |
| Chats.KeepMeaningful | frontend/src/App.jsx:177-182 | exactly the chats with a meaningful message remain |
| Chats.KeepMeaningfulAppend | frontend/src/App.jsx:178 | the prune filter keeps the chats' order |
| Chats.Prune | frontend/src/App.jsx:177-182 | the meaningful chats, or one new chat when there are none; never empty |
| Chats.ActiveAfter | frontend/src/App.jsx:186-190 | an active id naming a chat is kept; otherwise the first remaining chat's id is taken |
| Chats.PrunedAndActive | frontend/src/App.jsx:177-192 | after loading, every chat is meaningful or the new one, and the active id names a chat |

## Left out

- The model call is left out: the AWS Bedrock client, the request serialisation, retries and network I/O. The decoded reply is a parameter of `Generate.Handle`, and the 500 path for a failing call is not modelled.
- The request's fixed fields, `schemaVersion` and `topP`, are left out.
- Temperatures are the tags of `Settings.Temperature`, not floating-point numbers.
- Express, the `cors` middleware, `app.listen` and the health route are HTTP plumbing and are not modelled.
- The Lambda's routing is not modelled: the OPTIONS preflight, the 403 for a refused origin, the health route and the 404.
- The Lambda's wrapping of every reply with `Origin.Cors` headers is not modelled.
- `parseJsonBody` and the Lambda's "Invalid JSON body." reply are not modelled: that code depends on `JSON.parse`, URL-encoded forms and base64 decoding. The parsed body is a parameter.
- The server's development fallback `JSON.stringify(decoded)` is a parameter (`dump` in `Generate.FallbackText`).
- Latency, timestamps, the model id, `uid()` and `Date.now()` are left out or are parameters. They are not deterministic.
- Numbers in JavaScript values are integers (`JsValue.Value`'s `Num` holds an `int`): fractions, NaN and infinities are not modelled. The core only tests them for truthiness and passes them through.
- Lower-casing covers ASCII letters only. JavaScript's `toLowerCase` also maps other letters.
- A Dafny `char` stands for one UTF-16 code unit. Characters outside the Basic Multilingual Plane are not modelled.
- React effect scheduling is not modelled:
  - the state transitions are functions from state to state;
  - `localStorage` reads and writes, axios calls and the sidebar-settings sync are left out.
- Stored front-end data is assumed to have the app's own shape: string content and ids, boolean flags, and an object or absent `meta`. Foreign shapes in storage are not modelled.
- Speech, PDF export, clipboard and the presentation components are user-interface code and are not modelled.
- Chats.AnyMeaningful: it does not model a message that is not an object or whose content is not a string, because the app only stores its own messages.
- Origin.CorsEchoesAdmitted: leaves out a request whose origin is the opaque `null`, because the header for a refused origin is that same string.
- Chats.ActiveAfter: an empty list gives the empty id where the app gives `undefined`, which cannot happen after pruning.
