# Streaming transcript accumulator of the chat page

The chat client's page keeps two pieces of state: the text of the input box
and the transcript, a list of `{sender, content}` entries. Its submit handler
does the following:
- ignores a blank input;
- appends the user's entry (`'You'`) and clears the box;
- posts the input and reads the streamed reply chunk by chunk;
- splits each chunk on line feeds;
- keeps the `data: ` lines that do not contain `[DONE]`;
- trims each kept line's payload, parses it, and reads `choices[0].delta.content`.

Each non-empty content delta is appended to a running `result` text. The
transcript is then updated:
- if the last entry is the model's (`'Bot'`), its content is overwritten with `result`;
- otherwise a model entry holding `result` is pushed.

Any failure appends one `'Bot'` entry reading `Error occurred`. That covers a
transport error, a non-ok status, a missing body, or a read that throws.

The project has four modules:
- `JsString` (`js_string.dfy`) models the JavaScript string operations the
  handler uses:
  - `trim` with the ECMAScript whitespace set;
  - `startsWith` and `includes`;
  - `split` on one character;
  - repeated `+=`.

  It proves what each of them computes.
- `Accumulator` (`accumulator.dfy`) holds the functions that specify one turn:
  - `Lines`: every chunk split on its own;
  - `DeltaOf`: the delta a line carries;
  - `Update`: the transcript updater;
  - `Step` and `Fold`: handling the lines in order;
  - `Turn`: the transcript a whole submission leaves.

  It also holds the lemmas about them.
- `ChatPage` (`chat_page.dfy`) is the page as a class. Its fields are `input` and
  `messages`. `HandleSubmit` keeps the handler's nested read loop and line
  loop and its in-place updates. It is proved to leave exactly the
  transcript `Turn` describes.
- `Scenarios` (`scenarios.dfy`) works through concrete turns:
  - the "Hel" / "lo" / `[DONE]` stream;
  - a content line cut in two by a chunk boundary.

Chunks are split independently, as the handler does. A reader of the
event-stream format would carry a partial line over to the next chunk; this
handler does not, so the delta of a cut line can be lost. The model follows
the code and proves two things about it:
- boundaries that fall at line ends are harmless (`Accumulator.LineAlignedChunks`);
- for one content line cut inside its payload, the head is a data line
  whose payload does not parse and the tail lacks the prefix, so that
  line's content is dropped, while the same line in one chunk gives its
  model entry (`Scenarios.LineAcrossChunksIsLost`). Not every cut loses the
  delta: a cut just before trailing whitespace or before a `\r` keeps it.

## Model

| member | source | states |
|---|---|---|
| ChatPage.Home.constructor | src/app/page.tsx:8-9 | a fresh page has an empty input box and an empty transcript |
| ChatPage.Home.HandleSubmit | src/app/page.tsx:11-70 | a blank input posts nothing and changes nothing; otherwise the input is posted untrimmed, the box is cleared, and the transcript becomes exactly `Turn` of the old transcript, input and reply (read loop and line loop proved by invariants against `Fold`) |
| ChatPage.Home.HandleLine | src/app/page.tsx:39-63 | one pass of the line loop, with its prefix test, sentinel test, trim, empty-payload `continue`, parse and truthiness test, then the in-place overwrite or push; it leaves the state `Step` gives for the line's delta |
| Accumulator.TurnShape | src/app/page.tsx:11-70 | a blank input leaves the transcript as it was; otherwise the result is: the earlier entries unchanged, one user entry with the untrimmed input, one model entry holding the in-order concatenation of all deltas (only if there is one), and one error entry exactly when the request or a read failed |
| Accumulator.EarlierTurnsSealed | src/app/page.tsx:15 | a second turn keeps the whole transcript of the first as a prefix: a finished model entry is never overwritten by a later turn |
| Accumulator.ReadErrorKeepsPartialReply | src/app/page.tsx:32-33 | a read that throws part-way keeps the partial model entry and appends exactly one separate error entry after it |
| Accumulator.PayloadSpec | src/app/page.tsx:40-42 | a line has a payload exactly when it starts with `data: `, holds `[DONE]` at no position, and has some non-whitespace after the prefix; the payload is then the rest of the line after 6 characters, trimmed, and is non-empty |
| Accumulator.SentinelAnywhereSkips | src/app/page.tsx:40 | a line holding `[DONE]` at any position carries no delta, whatever its payload would parse to |
| Accumulator.StepCases | src/app/page.tsx:39-63 | the bridge from the handler's branches to `Step`: a line without the prefix, with the sentinel, with a blank payload, or whose payload gives no non-empty content changes neither the text nor the transcript; otherwise the text grows by the content and the transcript is updated with it |
| Accumulator.StepEffect | src/app/page.tsx:44-58 | a line changes the state exactly when it carries a delta, and then the running text grows by exactly that delta |
| Accumulator.Update | src/app/page.tsx:49-57 | when the last entry is the model's the length is unchanged, otherwise it grows by one; all entries before the last are kept (and the last too when it is not the model's); the new last entry is the model's, holding the running text |
| Accumulator.UpdateTwice | src/app/page.tsx:49-57 | a second update overrides the first: after the first delta further deltas only rewrite the same model entry |
| Accumulator.Fold | src/app/page.tsx:39-64 | handling lines never shortens the transcript and never touches the entries before the starting last entry |
| Accumulator.FoldShape | src/app/page.tsx:30-65 | after any run of lines the running text is the starting text plus the in-order concatenation of the deltas; the transcript is untouched when there were none and updated once with the final text otherwise |
| Accumulator.FoldAfterUser | src/app/page.tsx:30-58 | from an empty text after the user's entry, the deltas leave one model entry holding all of them, or nothing when there are none |
| Accumulator.StreamedLines | src/app/page.tsx:30-65 | the lines of a streamed reply, handled after the user's entry, leave one model entry holding the reply text, or nothing when it is empty |
| Accumulator.PresentNonEmpty | src/app/page.tsx:47 | when every delta is non-empty there is reply text exactly when there is some delta |
| Accumulator.LineDeltasNonEmpty | src/app/page.tsx:47 | a delta that a line carries is never the empty text |
| Accumulator.DeltasAppend | src/app/page.tsx:32-39 | the deltas of two runs of lines, one after the other, are the deltas of the first followed by those of the second |
| Accumulator.DeltasOfOneLine | src/app/page.tsx:39-48 | a single line contributes its own delta and nothing else |
| Accumulator.EmptyLineNoDelta | src/app/page.tsx:37-40 | the empty line that a trailing line feed leaves carries nothing |
| Accumulator.LineAlignedChunks | src/app/page.tsx:32-37 | when every chunk boundary falls at a line end, the turn leaves the same transcript as when the whole body arrives in one chunk |
| Accumulator.LinesOfAlignedChunks | src/app/page.tsx:36-37 | with boundaries at line ends, splitting each chunk on its own yields the same deltas as splitting the whole body |
| JsString.TrimStartSpec | src/app/page.tsx:41 | the leading-trim keeps a suffix that does not start with whitespace, and everything it drops is whitespace |
| JsString.TrimEndSpec | src/app/page.tsx:41 | the trailing-trim keeps a prefix that does not end with whitespace, and everything it drops is whitespace |
| JsString.TrimSpec | src/app/page.tsx:41 | `trim` returns a slice of the string with only whitespace around it, and the slice neither starts nor ends with whitespace |
| JsString.TrimBlank | src/app/page.tsx:13 | `trim` gives the empty string exactly when the string is all whitespace, so the guard rejects exactly the blank inputs |
| JsString.ContainsSpec | src/app/page.tsx:40 | `includes` holds exactly when the substring occurs at some position |
| JsString.MissingCharNotContained | src/app/page.tsx:40 | a string lacking one of the substring's characters does not include it |
| JsString.Split | src/app/page.tsx:37 | `split` always yields at least one piece |
| JsString.SplitPieces | src/app/page.tsx:37 | no piece holds the separator |
| JsString.JoinSplit | src/app/page.tsx:37 | joining the pieces with the separator gives the string back |
| JsString.SplitJoin | src/app/page.tsx:37 | splitting a join of separator-free pieces gives the pieces back |
| JsString.SplitWithoutSeparator | src/app/page.tsx:37 | a string without the separator is one piece |
| JsString.SplitAround | src/app/page.tsx:37 | splitting at one separator gives the pieces of the part before it followed by those of the part after it |
| JsString.ConcatSnoc | src/app/page.tsx:48 | one more `+=` appends that text at the end |
| JsString.ConcatAppend | src/app/page.tsx:48 | gluing two runs of texts is gluing the first, then the second |
| Scenarios.HelloExample | src/app/page.tsx:39-58 | the lines for "Hel", "lo" and `[DONE]` in one chunk leave the earlier transcript, the user's entry and exactly one model entry "Hello" |
| Scenarios.ThreeLineTurn | src/app/page.tsx:36-58 | a chunk of three lines with deltas `a`, `b` and none leaves one model entry `a + b` after the user's entry |
| Scenarios.DataLineDelta | src/app/page.tsx:40-47 | a data line whose payload has no `D` and no whitespace at its ends yields the payload's parsed content when that is non-empty, and nothing otherwise |
| Scenarios.LineAcrossChunksIsLost | src/app/page.tsx:36-41 | a content line cut by a chunk boundary after its payload head yields no model entry, while the same line in one chunk yields the entry "Hi" |
| Scenarios.NoDeltaTwoChunks | src/app/page.tsx:36-47 | two one-line chunks that carry no delta leave only the user's entry |
| Scenarios.OneLineTurn | src/app/page.tsx:36-58 | one chunk of one line carrying `t` leaves exactly one model entry `t` |

## Left out

- `src/app/api/chat/route.ts` and `src/app/layout.tsx` are not part of this model: the first only relays the request to the provider, the second is static layout.
- The page's JSX rendering, markdown rendering and the `useState` hooks are left out. They are UI and library code.
- `JSON.parse` and the optional-chaining read of `choices[0].delta.content` are the parameter `parse: string -> Delta`. A non-string truthy content (a number, say) is taken to arrive as its text, when that text is not empty (see the next line). A payload parsing to `null` counts as `Malformed`: the field read throws into the same catch as a parse error.
- `DeltaOf`: a truthy content whose text is empty (`[]` or `[""]`, say) is not modelled. The handler lets it through the truthiness test, leaves `result` unchanged, and still runs the updater, so a first such delta of a turn pushes a model entry with empty content. The model has only `Content(text)`, and `Content("")` stands for the falsy empty string, which carries nothing, so the model pushes no entry there.
- `fetch`, `reader.read()` and the `await` points are left out. The reply is a `Reply` value: an error before the body, a non-ok status, a missing body, or a finite list of chunks followed by a normal end or a throwing read.
- `TextDecoder` is left out. Chunks arrive already decoded. The decoder's final flush, which the handler never calls, is not modelled.
- React's deferred, batched application of `setMessages` updaters is left out. The updaters are applied at once, in order. So the closure's late read of `result`, and the mutation of the shared last entry object, are not visible in the model.
- Overlapping submissions while a stream is in flight are left out. One turn runs at a time.
- `console.warn` and `console.error` are left out.
- Strings are sequences of Unicode scalar values, not UTF-16 code units. `trim`'s whitespace set is written out, and the model has no surrogate pairs.
- Re-assembly of lines split across chunks is left out because the code does not do it. See the note above.
