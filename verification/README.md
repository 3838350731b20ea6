# DevMind chat app: verified model of its message logic

The DevMind chatbot is a single Streamlit page (`app.py`) that keeps a
message log in the session, rebuilds a LangChain prompt from that log on
every submitted question, sends it to a Groq-hosted reasoning model, and
renders each message, splitting off the model's `<think>` ... `</think>`
thought process into a collapsible panel. This project models the parts of
that script that are plain data manipulation, as pure Dafny functions:

- `PyStr` — the Python `str` operations the script relies on: `find`, `in`,
  slicing, `strip()` (with Python's exact `isspace` character set) and
  `", ".join`.
- `ThinkSegment` — the split of a message into thought and answer
  (`app.py` lines 64-73), including the off-by-one answer offset.
- `SystemPrompt` — `build_system_prompt` and the hard-coded capability list.
- `PromptChain` — `build_prompt_chain`: the log becomes a system message
  followed by one human/AI message per "user"/"ai" entry.
- `ChatTurn` — the turn cycle on the message log, with the model call as a
  parameter.
- `Wrappers` — the `Option` type.

The log's assistant role is the string `"ai"`, and the system prompt is
always built from the full hard-coded capability list; the sidebar
multiselect's result is discarded by the code.

## Model

| member | source | states |
|---|---|---|
| `ThinkSegment.Segment` | app.py:64-73 | The marker test is `PyStr.Contains` for each marker. Without both markers the message is returned whole, untrimmed, with no thought; with both, there is a thought, thought and answer have no whitespace at either end, and the answer begins with `>` |
| `ThinkSegment.SplitAt` | app.py:65-68 | Once both markers are located, the thought is present and neither it nor the answer has whitespace at either end |
| `ThinkSegment.SplitThought` | app.py:65-67 | The thought slice is empty when `</think>` comes before `<think>`, and otherwise is the stripped text between the markers |
| `ThinkSegment.SegmentSlices` | app.py:65-68 | With `i`, `j` the first indices of `<think>` and `</think>`: the thought is the stripped text between them, or empty when `</think>` comes first; the answer is `>` plus the right-trimmed text after `</think>` |
| `ThinkSegment.AnswerKeepsBracket` | app.py:68 | Starting the answer at `j + len("<think>")` keeps the closing marker's final `>`, so `strip()` only trims the answer's right end |
| `ThinkSegment.MarkersDisjoint` | app.py:65-66 | The two markers never overlap, so the thought slice is either empty or lies wholly between them |
| `ThinkSegment.ThoughtEmptyIff` | app.py:65-67 | The thought is empty exactly when `</think>` precedes `<think>` or only whitespace lies between them |
| `ThinkSegment.SegmentWellFormed` | app.py:64-68 | For a reply `<think>t</think>a` with no closing marker in `t`, the thought is `strip(t)` and the answer is `>` followed by `a.rstrip()` |
| `ThinkSegment.PlainTextUnchanged` | app.py:72-73 | The marker-free reply `"  plain text  "` is displayed untrimmed, surrounding spaces included |
| `ThinkSegment.SegmentExample` | app.py:64-68 | `<think> reasoning here </think> final answer` splits into thought `reasoning here` and answer `> final answer` |
| `ThinkSegment.SegmentIntended` | app.py:68 | The split with the answer starting after the full closing marker; its thought is the app's thought and its answer has no edge whitespace |
| `ThinkSegment.IntendedRoundTrip` | app.py:64-68 | The corrected split recovers `strip(t)` and `strip(a)` from `<think>t</think>a` |
| `ThinkSegment.QuirkAlwaysVisible` | app.py:68 | Whenever both markers are present the app's answer differs from the intended one |
| `PyStr.Find` | app.py:65-66 | `find` returns -1 exactly when the pattern does not occur, and otherwise the index of its first occurrence |
| `PyStr.Contains` | app.py:64 | `pat in s` holds exactly when the pattern occurs somewhere in the text |
| `PyStr.FindIsFirst` | app.py:65-66 | Any index that is a first occurrence is what `find` returns |
| `PyStr.Slice` | app.py:67 | A slice with start at or past its end is empty; otherwise it holds the characters between the bounds |
| `PyStr.Strip` | app.py:67-68 | `strip()` yields a piece of its input with no whitespace at either end, cut out between whitespace-only margins |
| `PyStr.StripUnique` | app.py:67-68 | Any such whitespace-margin cut is exactly `strip()`'s result |
| `PyStr.StripEmptyIff` | app.py:67 | `strip()` yields the empty string exactly when its input is all whitespace |
| `PyStr.TrimEnd` | app.py:68 | Right-trimming removes a whitespace-only tail and leaves a prefix that does not end in whitespace |
| `PyStr.Join` | app.py:49 | Joining no items gives the empty string; otherwise the result's length is the last item's offset plus its length, so items and separators fill it exactly |
| `PyStr.JoinPlaces` | app.py:49 | In `sep.join(items)` each item stands at its offset, followed by the separator unless it is last |
| `SystemPrompt.BuildSystemPrompt` | app.py:48-50 | The directive starts with the fixed opening, ends with the fixed closing, and between them holds every label in order with `", "` between neighbours, and nothing else |
| `SystemPrompt.SystemTextListsCapabilities` | app.py:25-33 | Built from the hard-coded list, the directive is 274 characters long and holds all six labels in list order at their computed positions |
| `PromptChain.CompileChain` | app.py:81-88 | The prompt starts with the system message; each later message is the translation of the carried "user"/"ai" entry at the same place in log order, one for one |
| `PromptChain.ToMessage` | app.py:84-87 | A "user" entry becomes a human message and an "ai" entry an AI message, never a system message, with the text kept |
| `PromptChain.BuildPromptChain` | app.py:81-88 | The loop over the log builds exactly the compiled prompt |
| `PromptChain.ChainRoundTrip` | app.py:82-88 | Reading the prompt's messages back as log entries gives exactly the log's "user"/"ai" entries |
| `PromptChain.KeptMembers` | app.py:83-87 | The carried entries are exactly the log entries whose role is "user" or "ai" |
| `PromptChain.Kept` | app.py:83-87 | Filtering never lengthens the log and keeps only "user"/"ai" entries |
| `PromptChain.KeptAppend` | app.py:83-87 | Filtering a concatenated log filters each part in turn |
| `PromptChain.KeptAll` | app.py:83-87 | A log of only "user"/"ai" entries is carried over whole |
| `PromptChain.DroppedRole` | app.py:84-87 | An entry with any other role, including "system", leaves the compiled prompt unchanged |
| `PromptChain.CarriedEntryAppends` | app.py:84-87 | Appending a "user"/"ai" entry appends its message to the compiled prompt |
| `PromptChain.EntryRoundTrip` | app.py:84-87 | A "user"/"ai" entry turned into a message and back is unchanged |
| `PromptChain.MessageRoundTrip` | app.py:84-87 | A human/AI message turned into an entry and back is unchanged |
| `ChatTurn.RunTurn` | app.py:90-95 | The query test is `ChatTurn.Submitted`, Python truthiness of the input. No query or an empty one leaves the log unchanged and sends nothing; otherwise the user turn is appended before the model call, the prompt sent ends with it, and the reply is appended as an "ai" turn, earlier entries untouched |
| `ChatTurn.FailureKeepsUserTurn` | app.py:91-94 | When the model call raises, the user turn stays in the log with no answer after it |
| `ChatTurn.TurnKeepsAnswerable` | app.py:90-95 | Every cycle keeps the log made of "user"/"ai" entries, each "ai" entry right after a "user" one |
| `ChatTurn.TurnKeepsPaired` | app.py:90-95 | A cycle whose model call answers keeps a log of complete pairs paired, adding two entries |
| `ChatTurn.PairedChainLength` | app.py:82-88 | A log of `n` question/answer pairs compiles to a prompt of `1 + 2n` messages |

## Findings

| source | as written | input that shows it | evidently intended | confidence | as-written member | corrected member |
|---|---|---|---|---|---|---|
| app.py:68 | the answer starts at `end_idx + len("<think>")`, one character before the end of `</think>` | `<think>a</think>b` renders the answer `>b` | start at `end_idx + len("</think>")`, rendering `b` | not executed; high | `ThinkSegment.QuirkAlwaysVisible` | `ThinkSegment.IntendedRoundTrip` |

`ThinkSegment.Segment` keeps the behaviour as written, because the display
shows exactly that; `ThinkSegment.SegmentIntended` is the corrected split.
Nothing else in the model consumes the split, so no other member depends on
the choice.

## Left out

- Streamlit rendering (title, sidebar, model selector, multiselect, tips, chat containers, spinner, `st.rerun`): display only; the split of each message is modelled, its drawing is not.
- Session-state plumbing: the message log is an explicit value passed in and returned.
- `load_dotenv` and the `GROQ_API_KEY` lookup: environment input with no logic.
- The `ChatGroq` client, the `prompt | llm | StrOutputParser` pipeline and its network call: `RunTurn` takes the model call as a parameter returning a reply or an exception.
- `RunTurn` takes the system directive as a parameter; the app always passes `SystemPrompt.SystemText`, whose content `SystemPrompt.SystemTextListsCapabilities` pins down.
- LangChain template semantics: `from_template` would treat `{...}` in log text as template variables; the model keeps each entry's text verbatim, and the `{"input": ...}` binding is passed to the model parameter unused.
- The temperature 0.3 and model name: configuration values with no logic.
- Python strings may hold lone surrogate code points; Dafny characters cannot, so such strings are not modelled.
