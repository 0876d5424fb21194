# Prompt-chain runtime of the SpaghettiChain editor, in Dafny

SpaghettiChain edits a "chain": an ordered list of LLM prompt nodes. A node's
user text may contain `[RESPONSE k]` markers, which stand for the response of
node `k-1`. The `Editor` component in `components/editor.tsx` holds the runtime
of such a chain:

- the list `prompts` and its operations: append, delete by index, update one field;
- two slots, `selectedPrompt` and `loadingPrompt`, with the click handlers that set and clear them;
- the placeholder resolver `replaceResponsePlaceholders`;
- the marker normaliser `updateResponseNumbers`, run whenever the list length changes;
- `generate(index, run)`, which posts one node to the completion route, streams the
  answer into the node's response, and, for a chain run, goes on to the next node.

This project models that runtime and proves its properties.

- `wrappers.dfy`: `Option`, for the nullable slots.
- `prompts.dfy`: the `Prompt` record, and access to a field by key (`Get`, `Set`).
- `node_store.dfy`: the list operations as pure functions. The source builds a new
  array with spread, `filter` or `map`, then replaces the state with it.
- `placeholders.dfy`: the marker grammar. A global replace with
  `/\[RESPONSE (\d+)\]/g` is a left-to-right scan. At each position it either
  matches a whole marker or copies one character. `Scan` cuts a text into those
  pieces and `Render` glues them back. `Resolve` and `Normalize` are defined on
  the pieces.
- `chain_executor.dfy`: `Generation`, the effect of `generate` as a function of
  the list it starts from, with lemmas about requests, continuation, outcome and
  writes. `HasKey` defines the `!apiKey` test (`components/editor.tsx:274`):
  null and the empty string are missing keys. `RequestFor` defines the posted body
  (`components/editor.tsx:295`): the node's fields, with `user` resolved against
  the list, `model` replaced by the model's name, and the key added.
  `GenerationRefused` and `GenerationRequests` state what these mean for a run.
- `editor.dfy`: class `Editor`, whose fields are the React state. Its methods are
  the handlers. `GenerateIn` is a recursion and is proved equal to `Generation`.
  `Generate` starts it on the current list and key. `ReadStream` is the
  `while (!done)` accumulator loop and is proved equal to `Streamed`.

The completion service is given as one `Reply` per request. The fetch may reject,
answer non-ok, answer without a body, or stream already-decoded chunks. The
stream then ends either with the final `done` read or with a read that throws.

The model follows the code as written, including where one might expect otherwise:

- `generate` has no busy check.
- Delete never clears `loadingPrompt` and never shifts `selectedPrompt`.
- A non-ok answer, a missing body, a thrown error and an index outside the list
  all leave `loadingPrompt` set.
- A marker resolves to any existing node, not only to earlier ones.
- The normaliser only rewrites marker digits to canonical decimal. It does not
  renumber after a delete.
- A chain run builds every request, and makes its length check, from the list
  as it was when the run started. Streamed text goes to the live list. So a
  later node's `[RESPONSE k]` gets the response from before the run
  (`ChainReadsStartSnapshot`).
- Resolving twice is proved to change nothing only for text without markers
  (`ResolveMarkerFree`). Concatenating a response with the text around it can
  form a new marker.

## Model

| member | source | states |
|---|---|---|
| `Prompts.Get` | components/editor.tsx:34-45 | `prompt[key]` reads the field under the key, a value of the kind the `Prompt` type declares for it |
| `Prompts.Set` | components/editor.tsx:226 | `{ ...prompt, [key]: value }` gives the key the new value and leaves every other key unchanged |
| `Prompts.FieldsDetermine` | components/editor.tsx:34-45 | a node is fully given by its ten fields: nodes that agree on every key are equal |
| `NodeStore.Without` | components/editor.tsx:213 | the filter shortens the list by one exactly when the index is inside it |
| `NodeStore.WithoutRemovesOne` | components/editor.tsx:212-214 | deleting removes exactly position `index` and keeps the survivors in order; an index outside the list changes nothing |
| `NodeStore.Updated` | components/editor.tsx:225-227 | the map keeps the list length |
| `NodeStore.UpdatedChangesOneField` | components/editor.tsx:223-233 | every other node is identical; node `index` becomes `{ ...prompt, [key]: value }` (through `Prompts.FieldsDetermine`); an index outside the list changes nothing |
| `Placeholders.Show` | components/editor.tsx:256 | `${Number(d)}` is a non-empty digit string that reads back as the number and has no leading zero |
| `Placeholders.DigitRun` | components/editor.tsx:236 | `\d+` takes the longest run of ASCII digits |
| `Placeholders.MarkerAt` | components/editor.tsx:236 | a match at a position is the prefix, non-empty digits and `]` |
| `Placeholders.MarkerAtIff` | components/editor.tsx:236 | the pattern matches digits `d` at the start of a text exactly when the text begins with `[RESPONSE d]` and `d` is non-empty digits |
| `Placeholders.Scan` | components/editor.tsx:238 | every marker piece of the scan carries non-empty digits |
| `Placeholders.RenderScan` | components/editor.tsx:238 | the scan loses nothing: its pieces glued back give the original text |
| `Placeholders.Resolve` | components/editor.tsx:235-248 | `replaceResponsePlaceholders` as a replacement over the scan's pieces; against an empty list every marker is out of range and the text comes back unchanged |
| `Placeholders.ResolveAtMarker` | components/editor.tsx:238-245 | a marker with value k becomes node k-1's response when 1 <= k <= the list length; otherwise it stays as written, original digits kept; scanning resumes after the marker, so the inserted response is never rescanned |
| `Placeholders.ResolveFirstMarker` | components/editor.tsx:238-245 | `[RESPONSE 1]` on its own resolves to the first node's response whenever the list has a node |
| `Placeholders.ResolveAtChar` | components/editor.tsx:238 | a character that does not start a marker is copied and the scan moves one character on |
| `Placeholders.ResolveMarkerFree` | components/editor.tsx:235-248 | text in which no marker starts is returned unchanged, so resolving it again changes nothing |
| `Placeholders.Normalize` | components/editor.tsx:254-257 | the normalised text scans into the same pieces, with each marker's digits replaced by the canonical decimal of its value (`[RESPONSE 007]` becomes `[RESPONSE 7]`) |
| `Placeholders.CanonicalAllSameChars` | components/editor.tsx:254-257 | canonicalising touches markers only: every copied character stays the same at the same position |
| `Placeholders.CanonicalAllIdempotent` | components/editor.tsx:256 | canonical digits are their own canonical form |
| `Placeholders.NormalizeIdempotent` | components/editor.tsx:254-257 | normalising twice is the same as normalising once |
| `Placeholders.UpdateResponseNumbers` | components/editor.tsx:250-262 | the list keeps its length, and every node keeps every field but `user`. Inside `user` only marker digits change, to canonical decimal |
| `Placeholders.UpdateResponseNumbersIdempotent` | components/editor.tsx:250-267 | a second renumbering pass changes nothing |
| `ChainExecutor.Concat` | components/editor.tsx:316-323 | the accumulator `responseValue`: empty before any read, and every chunk fits inside it (order: `ConcatPrefix`, `ConcatSplit`) |
| `ChainExecutor.Streamed` | components/editor.tsx:318-330 | a stream changes only the node's `response`; once any chunk arrived, or when the stream finished, the response is the concatenation of the chunks |
| `ChainExecutor.Verdict` | components/editor.tsx:300-346 | a reply ends the node's attempt as done exactly when it is a body streamed to the end, as abandoned exactly when the body is missing, and as a failure otherwise, always at that node |
| `ChainExecutor.Generation` | components/editor.tsx:269-347 | a run keeps the list length, and its requests stay inside the list they were built from |
| `ChainExecutor.GenerationStep` | components/editor.tsx:316-337 | a node that streamed to the end, in a chain run with a next node, hands over to that node: the live list with this node's stream written, the loading slot cleared, one request sent before the rest, and the rest's outcome |
| `ChainExecutor.GenerationStop` | components/editor.tsx:289-346 | a run that does not go on past its node sends one request, writes that node's stream into the live list, ends with the verdict of the reply and keeps the loading slot unless the stream finished |
| `ChainExecutor.GenerationRefused` | components/editor.tsx:274-281 | without an API key nothing changes and nothing is sent. With a key, an index outside the list sets the loading slot, sends nothing and fails (`prompts[index].user` throws at line 295) |
| `ChainExecutor.GenerationRequests` | components/editor.tsx:290-296 | request k goes to node `index + k`. It is built from the starting list, its user text resolved against that list, and it carries the model name and the key |
| `ChainExecutor.GenerationContinues` | components/editor.tsx:335-337 | the run moves to the next node only after the node before it streamed to the end; a single-node run sends at most one request |
| `ChainExecutor.GenerationOutcome` | components/editor.tsx:300-346 | (`Ended`) the run ends with the last reply's verdict. Only a finished stream clears the loading slot. A failure, a missing body or a thrown read leaves it on the node that stopped the run, and no later node is tried. A chain run that succeeds ends at the last node of the starting list |
| `ChainExecutor.GenerationWrites` | components/editor.tsx:316-330 | each node the run reached holds what its stream wrote. That is the concatenation of its chunks, replacing the old response, unless the first read threw. Every other node is unchanged, and no field but `response` changes |
| `ChainExecutor.ChainReadsStartSnapshot` | components/editor.tsx:295-336 | node 0 streams "new", yet the chained request for node 1 (`[RESPONSE 1]`) carries node 0's response from before the run |
| `ChainExecutor.ConcatPrefix` | components/editor.tsx:318-330 | every intermediate write is a prefix of the final response |
| `ChainExecutor.ConcatSplit` | components/editor.tsx:322 | chunks accumulate in arrival order, however the stream is split into reads |
| `EditorState.Editor.constructor` | components/editor.tsx:57-70 | a loaded editor has the stored list, no selection, nothing loading and no API key |
| `EditorState.Editor.SetApiKey` | components/editor.tsx:369 | the key input replaces the key |
| `EditorState.Editor.AddPrompt` | components/editor.tsx:79-94 | the list grows by one, existing nodes stay at their positions, and the new last node has empty texts, temperature 0.7, top_p 0.9, both penalties 0, max_tokens 100 and model `models[0]` |
| `EditorState.Editor.DeletePrompt` | components/editor.tsx:212-221 | the node is filtered out. The selection becomes null exactly when it was this index and is otherwise kept, not shifted. The loading slot is untouched |
| `EditorState.Editor.UpdatePrompt` | components/editor.tsx:223-233 | the list becomes the mapped list with one field of one node replaced |
| `EditorState.Editor.ClickPrompt` | components/editor.tsx:394-397 | a click on the loading node is ignored; any other click selects that node |
| `EditorState.Editor.ClickOutside` | components/editor.tsx:105-114 | a click outside every prompt item clears the selection |
| `EditorState.Editor.RenumberOnResize` | components/editor.tsx:264-267 | when the length differs from the one last seen, every user text is renumbered; otherwise nothing changes |
| `EditorState.Editor.Generate` | components/editor.tsx:269-347 | the new list, loading slot, requests and outcome are those of `Generation` started on the current list |
| `EditorState.Editor.GenerateIn` | components/editor.tsx:269-347 | the recursive body of `generate`, proved equal to `Generation` for the closure's list and key |
| `EditorState.Editor.Answer` | components/editor.tsx:289-333 | the answer to one request: the node gets `AfterReply`, the outcome is the reply's `Verdict`, and only a stream read to the end clears the loading slot |
| `EditorState.Editor.ReadStream` | components/editor.tsx:313-332 | the loop ends normally exactly when the stream finishes. Node `index`'s response then holds the accumulated chunks, and nothing else changes |

## Left out

- Loading and saving a chain (`fetchPrompts`, `parsePostContent`, `onSubmit`) are left out: fetch/PATCH calls, toasts and a schema whose source is not part of this model.
- `app/api/ai/route.ts` is left out: a session check, schema parsing and a streaming call to the provider. It is the source of the `Reply` values. What it sends on is a system message followed by a user message.
- `app/auth/callback/route.ts` is left out: OAuth redirect plumbing.
- `config/models.ts` is not part of this model beyond `models[0]`. `Model` keeps only `id` and `name`.
- Byte decoding (`TextDecoder`) is left out. A reply is given as already-decoded chunk strings.
- Numbers are `real`, because the runtime only copies the sampling parameters and `max_tokens` and never computes on them. Float rounding is not modelled.
- The model runs `generate` to completion, without interleaving other handlers. The source suspends at every `await` (the fetch at line 290, each read at line 319), and handlers run in between. The model therefore does not capture:
  - a delete of an earlier node during a stream, after which the write at lines 325-327 lands on whichever node has shifted into `index` (or, when the node is gone, a sparse-array write past the end);
  - a click on the node being generated while its stream runs: the guard at line 395 ignores it there, but in the model `loading == Some(i)` holds after a run only when the run failed or was abandoned;
  - a second `generate` started while a stream is running, which the source allows because it has no busy check. Two streams would then interleave their writes.
- `EditorState.Editor.UpdatePrompt`: keys are the ten fields of `Prompt`, with values of the declared kind (`Fits`). An unknown key, or a value of another type, cannot be expressed.
- `Placeholders.Show`: marker values are unbounded naturals. `Number(match)` loses precision above 2^53 and switches to exponent notation from 10^21.
- `Placeholders.UpdateResponseNumbers`: drops the unused `newLength` parameter.
- `EditorState.Editor.GenerateIn`: the recursive `generate(index + 1, run)` is not awaited, so the outer call's promise settles first. The model runs the next node at once, and its state after the run does not depend on that ordering.
- Rendering is left out: JSX, CSS, toasts, `console.log`, and the display-only default user text (it is never sent).
