# Chat component core, modelled in Dafny

This project models the logic of the single chat component of a small web client for a
locally hosted language model (`src/ChatBot.tsx`). It covers three parts.

- **Reasoning-span removal** (`removeThinkTags`). A reply has every `<think>…</think>`
  span removed and is then trimmed. `ThinkTags.Strip` is the scan that a global regular-expression
  `replace` performs. At each index it either matches and skips to the end of the match, or keeps
  one character. A match ends at the nearest closing tag, because the `*?` is lazy. `ThinkTags.Matches`
  lists the spans removed. `ThinkTags.IsMatchList` states declaratively which list that must be.
- **Fenced-code segmentation** (`processMessageContent`, without the rendering). The message is
  split on the pattern ```` ```(\w+)?\n([\s\S]+?)``` ````. `CodeFences.FenceAt` is the pattern
  matched at one index, with the regex's backtracking order worked out. `CodeFences.SplitFrom` is
  the split algorithm of ECMAScript. The result is the flat list
  `[prose, lang, body, prose, lang, body, …, prose]`, where `None` stands for an `undefined` tag.
  `CodeFences.ProcessMessageContent` turns the elements at positions 2 mod 3 into code blocks with
  the trimmed body. It turns all other elements into markdown sources, the language tag included,
  as the source does.
- **The conversation controller** (`sendMessage`, `handleKeyDown`, the change handlers and the
  send button). `ChatSession.ChatBot` is a class with the fields `messages`, `input`, `loading`,
  `isCodingMode` and `hasAddedSystemMessage`. The network call is split at its `await`.
  `SendMessage` returns the request body it would post. `ReceiveOutcome` takes the answer as an
  abstract `Success(content)` or `Failure`. `Send` runs one whole exchange atomically.

`JsText` holds the ECMAScript string behaviour these parts rely on. That is the white space
`trim` removes, the `\w` class, `trim` itself and a forward search.

Behaviour of `src/ChatBot.tsx` that a reader may not expect:

- Nested tags are not all removed. See `ThinkTags.ExampleNested`: for
  `<think>a<think>b</think>c</think>` the first span ends at the inner closing tag, so `c</think>` remains.
- `sendMessage` itself does not look at `loading`. Only the disabled send button and the guard in
  `handleKeyDown` stop a second send. The model puts the checks in `ClickSend` and `KeyDown`.
- One fence splits the message into four elements: the prose before, the captured language tag,
  the body and the prose after. The tag is its own element, and it is rendered as markdown text.
- Enter without Shift while a request is in flight is not prevented, so the browser's default
  action (a newline typed into the text area) goes ahead. `KeyDown` reports `prevented == false`
  for it.

## Model

| member | source | states |
|---|---|---|
| `JsText.Trim` | src/ChatBot.tsx:24 | the result has no white space at either end and is the input with only white space removed on either side |
| `JsText.TrimUnique` | src/ChatBot.tsx:24 | any text padded only by white space and itself trimmed is the trim of the padded text |
| `JsText.TrimIdempotent` | src/ChatBot.tsx:33 | trimming a trimmed text changes nothing |
| `JsText.TrimEmptyIff` | src/ChatBot.tsx:62 | `trim()` gives the empty string exactly when every character is white space |
| `JsText.FindFrom` | src/ChatBot.tsx:24 | the result is the first index at or after the start where the pattern occurs; none means it occurs nowhere from there |
| `ThinkTags.SpanEnd` | src/ChatBot.tsx:24 | a match at an index ends after the nearest `</think>` that follows its `<think>`; there is none exactly when no such pair starts there |
| `ThinkTags.Strip` | src/ChatBot.tsx:24 | the global replacement never lengthens the text |
| `ThinkTags.RemoveThinkTags` | src/ChatBot.tsx:23-25 | the cleaned reply has no white space at either end and is no longer than the reply |
| `ThinkTags.MatchesAreMatchList` | src/ChatBot.tsx:24 | the spans the scan removes are the leftmost non-overlapping lazy matches, and no match starts in the text kept between them |
| `ThinkTags.MatchListUnique` | src/ChatBot.tsx:24 | only one list of spans satisfies that description |
| `ThinkTags.StripIsWithout` | src/ChatBot.tsx:24 | the scan's output is the text with exactly those spans cut out |
| `ThinkTags.MatchListSpans` | src/ChatBot.tsx:24 | each removed span runs from a `<think>` to the nearest `</think>` after it, and the spans are in order and disjoint |
| `ThinkTags.RemoveThinkTagsSpec` | src/ChatBot.tsx:23-25 | the cleaned reply is the trim of the text outside the ordered, disjoint, lazy, leftmost spans |
| `ThinkTags.StripUnchangedIff` | src/ChatBot.tsx:24 | the replacement leaves the text unchanged exactly when no match starts anywhere in it |
| `ThinkTags.NoThinkPairOnlyTrims` | src/ChatBot.tsx:23-25 | with no `<think>` followed later by `</think>` the reply is only trimmed, and such a pair always changes the text |
| `ThinkTags.UnterminatedKept` | src/ChatBot.tsx:24 | the scan restarted at an index after which no `</think>` starts keeps the rest verbatim |
| `ThinkTags.TailKept` | src/ChatBot.tsx:24 | when no `</think>` ends after an index, the output of the whole scan ends with the text from that index on, unchanged |
| `ThinkTags.UnterminatedOpenKept` | src/ChatBot.tsx:23-25 | a `<think>` with no `</think>` after it stays in the reply: the scan's output ends with the text from that tag on, and the cleaned reply ends with that text trimmed, which still starts with `<think>` |
| `ThinkTags.NoOpenKept` | src/ChatBot.tsx:24 | the scan restarted at an index from which no `<think>` starts keeps the rest verbatim |
| `ThinkTags.ExampleSingleSpan` | src/ChatBot.tsx:23-25 | `a<think>x</think>b` becomes `ab` |
| `ThinkTags.ExampleUnterminated` | src/ChatBot.tsx:23-25 | `a<think>b` is returned unchanged |
| `ThinkTags.ExampleNested` | src/ChatBot.tsx:23-25 | `<think>a<think>b</think>c</think>` becomes `c</think>` |
| `ThinkTags.ExampleSinglePass` | src/ChatBot.tsx:23-25 | one pass only: `<thi<think></think>nk></think>` becomes `<think></think>`, which would itself become empty, so the function is not idempotent |
| `CodeFences.WordRun` | src/ChatBot.tsx:28 | the run of `\w` characters from an index is maximal |
| `CodeFences.FenceAt` | src/ChatBot.tsx:28 | a match at an index captures the whole word run before the newline as the tag (`undefined` when empty) and the shortest non-empty body before a closing fence; no match exactly when no candidate exists |
| `CodeFences.MatchText` | src/ChatBot.tsx:28 | the matched text is opening fence, tag, newline, body, closing fence, and a tag is one or more word characters |
| `CodeFences.MatchBody` | src/ChatBot.tsx:28 | a captured body is non-empty and no closing fence begins inside it after its first character |
| `CodeFences.SplitFrom` | src/ChatBot.tsx:29 | the split list has length 1 mod 3, its prose and bodies are strings, its tags and bodies have their shapes, and it rebuilds the text |
| `CodeFences.SplitFences` | src/ChatBot.tsx:28-29 | prose, then for each fence its opening fence, tag (absent read as empty), newline, body, closing fence and the prose after it, rebuild the message |
| `CodeFences.FenceMatchesAreMatchList` | src/ChatBot.tsx:28-29 | the search reports the leftmost non-overlapping matches, with no match starting between them |
| `CodeFences.FenceMatchListUnique` | src/ChatBot.tsx:28 | only one list of matches satisfies that description |
| `CodeFences.SplitIsInterleave` | src/ChatBot.tsx:29 | the split list is the text between consecutive matches with each match's two captures in between |
| `CodeFences.InterleaveLength` | src/ChatBot.tsx:29 | k matches give 1 + 3k elements |
| `CodeFences.InterleaveAt` | src/ChatBot.tsx:29 | elements 3k+1 and 3k+2 are the tag and body of the k-th match |
| `CodeFences.SplitLength` | src/ChatBot.tsx:28-29 | the split list has 1 + 3k elements for k matches, and it is the single element equal to the whole message exactly when nothing matches |
| `CodeFences.ProcessMessageContent` | src/ChatBot.tsx:31-56 | one block per element; positions 2 mod 3 are code blocks whose shown and copied text are both the trimmed body; every other element goes to markdown as it is |
| `CodeFences.CodeBlocksAreFences` | src/ChatBot.tsx:31-41 | the code blocks are the fence matches in order, each showing and copying the same trimmed text; everything else is markdown |
| `CodeFences.ExampleOneFence` | src/ChatBot.tsx:28-41 | ``pre ```js\ncode();\n``` post`` splits into `pre `, `js`, `code();\n`, ` post`, and its code block shows and copies `code();` |
| `ChatSession.ToWire` | src/ChatBot.tsx:72-81 | a transcript entry is sent with its content and the role string `user` or `bot` |
| `ChatSession.BuildRequest` | src/ChatBot.tsx:72-88 | the request opens with the system preamble exactly when it has not been added, holds no other system message, then the prior transcript, then the new user message; the model is `qwen2.5:14b` in coding mode and `phi4:14b` otherwise; `stream` is false |
| `ChatSession.ReplyFor` | src/ChatBot.tsx:91-102 | the bot entry is the cleaned reply (trimmed) on success and the fixed error text on failure |
| `ChatSession.OnKey` | src/ChatBot.tsx:116-121 | Enter sends exactly when Shift is up and nothing is loading; Shift+Enter inserts a newline; anything else is left to the browser |
| `ChatSession.ChatBot.constructor` | src/ChatBot.tsx:16-21 | a new session has no messages, empty input, nothing loading, general mode, no preamble added |
| `ChatSession.ChatBot.SetInput` | src/ChatBot.tsx:161 | typing replaces the input and nothing else |
| `ChatSession.ChatBot.SetCodingMode` | src/ChatBot.tsx:173 | the check box sets the mode and touches no message |
| `ChatSession.ChatBot.SendMessage` | src/ChatBot.tsx:61-89 | blank input changes nothing; otherwise the user entry is appended, loading set, input cleared, the preamble marked added and the request built from the transcript before the append |
| `ChatSession.ChatBot.ReceiveOutcome` | src/ChatBot.tsx:91-105 | exactly one bot entry is appended and loading is reset on success and failure alike |
| `ChatSession.ChatBot.Send` | src/ChatBot.tsx:61-106 | blank input changes nothing; otherwise exactly the user entry and one bot entry are appended, loading ends false and the preamble flag is set even after a failure |
| `ChatSession.ChatBot.ClickSend` | src/ChatBot.tsx:180-182 | the button does nothing while loading and otherwise sends |
| `ChatSession.ChatBot.KeyDown` | src/ChatBot.tsx:115-123 | Enter sends unless Shift is held or a request is in flight; Shift+Enter appends a newline to the input; any other key leaves the state alone and the default action unprevented |
| `ChatSession.TwoSends` | src/ChatBot.tsx:72-83 | in a fresh session the first request is preamble plus user message and the second has no system message, only the two earlier entries and the new user message |

## Left out

- JSX rendering, ReactMarkdown with its GFM and math plugins, and KaTeX: these are opaque rendering
  libraries. A markdown element is only the source text handed to the renderer. An `undefined` tag
  is handed over as `None`.
- The HTTP call to the local endpoint, its URL and JSON parsing. They are replaced by an
  `Outcome` parameter. Every rejection, whatever its cause, is `Failure`.
- The `console.error` diagnostic on failure. It is developer output only.
- The clipboard write. Only the text the copy button would write is modelled, as `copyText`.
- The auto-scroll effect. It is a browser side effect.
- The `setTimeout` that clears the input. `SendMessage` clears the input at once.
- React state batching, the closure over `messages` and async interleaving. Each event is atomic.
  A request started by `SendMessage` is completed by the next `ReceiveOutcome`.
- UTF-16 code units. Strings are sequences of Unicode characters. A regular expression without the
  `u` flag works on code units, but every literal in both patterns is ASCII and every `trim` white
  space character lies in the Basic Multilingual Plane, so the matches and the trim are the same.
- src/main.tsx, src/App.tsx and tailwind.config.js are not part of this model. They mount the
  component or configure styling.
