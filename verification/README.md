# Chat widget conversation state, in Dafny

This project models the conversation state of a browser chat widget that
forwards the user's messages and images to a generative-language completion
provider. The widget keeps two pieces of mutable state:

- `chatHistory`: the turns sent to the provider with every request. Index 0 is
  an instruction turn with role `user` that is never evicted. After every push
  the history is cut back to that turn plus the last `2 * MAX_TURNS` = 24 turns.
- `selectedImages`: the images the user has picked and not yet sent.

The handlers that change this state are modelled in four modules:

- `Attachments` (`attachments.dfy`): which picked files become pending
  attachments. A file is accepted when its type starts with `image/` and it is
  at most `MAX_SIZE_MB` = 8 MiB. Accepted files keep their order.
- `History` (`history.dfy`): turns and parts, and the window (`Trimmed`). It also
  holds the backward scan for the most recent user turn (`LastUserIndex`,
  `FindLastUser`) and the merge that prepends pending images to that turn
  (`Merged`).
- `Text` (`text.dfy`): JavaScript's `String.prototype.trim`, used by the send
  guard, and the splice that inserts an emoji at the cursor (`InsertAtCursor`).
- `Widget` (`widget.dfy`): class `ChatSession`, whose fields `history` and
  `selectedImages` are the two globals. Its methods are the handlers:
  `TrimHistory`, `AddFiles`, `MergePendingImages`, `GenerateBotResponse` and
  `HandleOutgoingMessage`. `Run` drives a session through any sequence of picks
  and submissions.

The provider's answer is a parameter, `Outcome = Reply(raw) | Failed`. The
markdown clean-up applied to a reply (`cleanBotText`) is the parameter `clean`,
and the browser's base64 reader (`fileToBase64`) is the parameter `encode`.
Both are arbitrary functions, so every property holds whatever they compute.
The instruction text is a constructor parameter.

What the code does, and how the model captures it:

- A send always pushes a text part, even `""` for an image-only message
  (script.js:225). The images are prepended to that turn later, by the merge in
  `generateBotResponse` (script.js:152-157). `PushThenMerge` proves that the
  result equals pushing one user turn whose parts are the images followed by
  the text.
- The pinned instruction turn at index 0 has role `user` (script.js:41), and the
  window always keeps index 0 (script.js:45). So in a running session the
  backward scan always finds a user turn (`MergePendingImages` ensures
  `lastUser >= 0` on a well-formed history). `Merged` still models the case
  without a user turn, where the images are not attached anywhere.
- A failed request pushes no model turn (script.js:177-179). The user turn pushed
  before the request stays in the history, with its merged images.
- A successful response whose body has no candidate text yields an empty reply
  (script.js:171), and an empty model turn is pushed (script.js:175). In the
  model that is `Reply("")`.

## Model

| member | source | states |
|---|---|---|
| `Attachments.ImageFiles` | script.js:84 | the type filter keeps at most the input's files, and every file it keeps has an `image/` type |
| `Attachments.ImageFilesAppend` | script.js:84 | the type filter keeps the order and the repetitions of the list: filtering `a + b` gives the filtered `a` followed by the filtered `b` |
| `Attachments.ImageFilesSingle` | script.js:84 | on one file the type filter keeps it exactly when its type starts with `image/`; with `ImageFilesAppend` this fixes the filter on every list |
| `Attachments.AcceptedLimits` | script.js:84-86 | the acceptance test `Accepted` in numbers: an accepted file's type begins with `image/`; a file over 8388608 bytes is refused; an image of at most 8388608 bytes (the limit inclusive) is accepted |
| `Attachments.Intake` | script.js:85-88 | the accumulated effect of the intake loop: each picked file contributes at most one attachment |
| `Attachments.ImageFilesMembers` | script.js:84 | a file survives the type filter exactly when it is in the list and its type starts with `image/` |
| `Attachments.IntakeMembers` | script.js:84-87 | the attachments added are exactly the accepted files of the list (image type, at most 8 MiB), each paired with its own encoding |
| `Attachments.IntakeAppend` | script.js:85-88 | intake works file by file in input order: picking `a` then `b` adds what picking `a + b` adds |
| `Attachments.IntakeSnoc` | script.js:85-88 | one more loop iteration appends the file's attachment when it is accepted, and nothing otherwise |
| `Attachments.IntakeOfImageFiles` | script.js:84-86 | filtering by type and then skipping oversize files accepts the same files, in the same order, as the single acceptance test |
| `Attachments.IntakeAllOrNothing` | script.js:84-87 | a list with no acceptable file adds nothing; a list of acceptable files adds every file, at its own position |
| `History.SliceFrom` | script.js:45 | JavaScript's one-argument `slice`: the result is always a suffix of the input; a negative start `-n` keeps the last `min(n, length)` elements; a non-negative start keeps everything from that index, or nothing past the end |
| `History.Trimmed` | script.js:42-46 | the result has at most 25 turns; a non-empty history keeps index 0 and exactly its last `min(n-1, 24)` turns in order; a history of at most 25 turns is unchanged |
| `History.TrimIdempotent` | script.js:43-46 | trimming twice equals trimming once |
| `History.TrimAppend` | script.js:43-46 | trimming after every push gives the same history as trimming the whole log once: index 0 plus the last 24 turns ever pushed |
| `History.LastUserIndex` | script.js:148-151 | the result is -1 or the index of a user turn, no later turn is a user turn, and a history whose index 0 is a user turn always yields an index |
| `History.FindLastUser` | script.js:148-151 | the backward scan returns the index of the most recent user turn, or -1 when there is none |
| `History.ImageParts` | script.js:153-155 | one inline-data part per pending image, in the images' order, carrying the file type (or the wildcard image type when it is empty) and the base64 data |
| `History.ImagePartsAppend` | script.js:153-155 | the image parts of two batches are the parts of the first followed by the parts of the second |
| `History.Merged` | script.js:152-158 | the merge keeps the length and every entry but the most recent user turn; that turn's parts become the image parts followed by its old parts; without images or without a user turn nothing changes |
| `History.MergedKeepsLastUser` | script.js:148-158 | after the merge the most recent user turn is still at the same index |
| `History.MergedWellFormed` | script.js:148-158 | the merge keeps a user-role turn at index 0 and the length bound |
| `History.MergeTwice` | script.js:152-157 | merging batch `a` and then batch `b` prepends `b`'s parts before `a`'s, as a single merge of `b + a` would |
| `History.PushThenMerge` | script.js:225-226 | pushing the text turn, trimming and then merging the pending images gives the history one would get by pushing a user turn whose parts are the images followed by the text |
| `Text.TrimStart` | script.js:191 | the result is a suffix of the input, everything removed is ECMAScript white space, and the result does not start with white space |
| `Text.TrimEnd` | script.js:191 | the result is a prefix of the input, everything removed is ECMAScript white space, and the result does not end with white space |
| `Text.Trim` | script.js:191 | the trimmed message is one contiguous slice `s[i..j]` of the input with only ECMAScript white space before `i` and after `j`; it is empty exactly when the input is all white space, and otherwise starts and ends with a non-white-space character |
| `Text.TrimIdempotent` | script.js:191 | trimming a trimmed message changes nothing |
| `Text.InsertAtCursor` | script.js:94-98 | the new value is the text before the selection, then the inserted text, then the text after the selection; its length is `old - (end - start) + len(text)`; the cursor is collapsed at `start + len(text)` |
| `Text.InsertWithoutSelection` | script.js:94-96 | with no selection, both ends default to the end of the value and the text is appended |
| `Text.InsertTwice` | script.js:94-98 | inserting `a` and then `b` at the resulting cursor is inserting `a + b` |
| `Text.InsertNothing` | script.js:96-98 | inserting the empty text at a collapsed cursor leaves the field unchanged |
| `Widget.AfterResponse` | script.js:171-179 | the history after the provider answered: a failure leaves the sent history; a reply appends exactly one model turn with the cleaned text (and only that, while the window has room), the result ends with that turn, keeps index 0 and the bound of 25, and stays well formed |
| `Widget.ChatSession.constructor` | script.js:33-41 | a session starts with the instruction pinned as a user turn and no pending images |
| `Widget.ChatSession.TrimHistory` | script.js:43-46 | the history becomes its trimmed form, the pending images are untouched, and a well-formed history stays well formed with the same pinned turn |
| `Widget.ChatSession.AddFiles` | script.js:83-90 | the pending images become the old ones followed by the intake of the picked list; the history is untouched |
| `Widget.ChatSession.MergePendingImages` | script.js:147-158 | the scan finds the most recent user turn, the history becomes the merge of the old history with the pending images, and a well-formed history always has a user turn to merge into |
| `Widget.ChatSession.GenerateBotResponse` | script.js:144-186 | the history sent is the merged history; a reply appends exactly one model turn with the cleaned text and trims; a failure leaves the sent history; the pending images end empty |
| `Widget.ChatSession.HandleOutgoingMessage` | script.js:189-245 | a blank message with no pending image changes nothing; otherwise one user turn with the trimmed text is pushed and trimmed before the response step, the sent history carries the images on that turn, and the pinned turn survives |
| `Widget.Run` | script.js:124-127 | driving the listeners for file picks (script.js:124-127) and submissions (script.js:248-253) over any sequence of events, the history keeps the pinned instruction turn at index 0 and at most 25 turns |

## Left out

- Page wiring: opening and closing the widget, message bubbles, image previews, scrolling, class toggles and event listeners. `Run` stands for the listeners that call the handlers.
- The request itself: `fetch`, the API key and URL, and reading the reply out of the JSON body. The outcome is a parameter. A thrown error (network, non-success HTTP status, a body that is not JSON) is `Failed`. A successful body without candidate text is not a failure: it is `Reply("")`, and an empty model turn is pushed and trimmed like any other reply.
- `cleanBotText`: a chain of regular-expression replacements. It is the parameter `clean`, so nothing here depends on what it computes.
- `fileToBase64`: the asynchronous file reader. It is the parameter `encode`. The model does not capture a read error, which in the page would abort `addFiles` after the files already added.
- The alert shown for an oversize file. Only its effect, skipping the file, is modelled.
- The typing animation and the emoji picker library. Only the splice the picker triggers (`InsertAtCursor`) is modelled, not the synthetic `input` event dispatched afterwards.
- Clearing the message box after a send, and the `userData` record. The trimmed message is a local of `HandleOutgoingMessage`, because nothing else reads it.
- Interleaving of the asynchronous handlers. Handlers run one after another. In the page, images picked while a request is outstanding are cleared by that request's `finally` without being sent, and two overlapping sends race on the most recent user turn. Neither is modelled.
- A missing file list (`fileList || []`) is modelled as the empty sequence, and a turn without parts (`parts || []`) cannot occur.
- Strings are sequences of Unicode characters, not UTF-16 code units, so selection offsets count characters.
- Text.InsertAtCursor: requires what the page guarantees of an input's selection (start ≤ end ≤ length). The clamping that JavaScript's `slice` and `setSelectionRange` apply to out-of-range offsets is not modelled. A missing selection start or end (`None`) occurs only on input types that do not support selection. There, under the HTML standard, `setSelectionRange` (script.js:98) throws after the value has been set, so the page leaves the new value without a cursor and dispatches no `input` event. The model instead reports the cursor collapsed after the text; for those fields only its value (as `InsertWithoutSelection` states) matches the page. The widget calls it on the `.message-input` element (script.js:17, script.js:134); the page markup that fixes that element's type is not part of this model.
