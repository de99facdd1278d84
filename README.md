# Escape-time renderer, keyword responder and chat-history discipline

A Dafny model of the self-contained logic in four demo scripts of a
PhysicsNeMo / NVIDIA-API playground repository:

- **fractal_generator_app.py** (module `Fractal`): the Julia-set renderer. An
  `n`-by-`m` grid of iterates `z` is updated in place where a boolean mask
  `m_matrix` is still set; each iteration applies the step to the active
  points, tests every point for escape, writes the iteration index into the
  count grid `n_matrix` for points that were active and escaped, and clears
  their mask bits. The complex arithmetic is abstract: the function parameter
  `step` stands for `z := z*z + c` with the frame's fixed `c`, and `escaped`
  for `|z| > 2`. The grids are `array2`s, the loop is a `for` loop, and each
  numpy masked assignment is a small method built on a `forall` statement. The
  loop is proved against a per-point reference (`Advance`, `After`) and the
  closed form "least iteration whose iterate escapes" (`FirstEscape`).
  Normalisation `1 - n/(max+1)` is modelled over the reals.
- **teste.py** (module `Responder`, with `Text`): `responder_pergunta`, an
  ordered keyword rule over the lower-cased question with a fixed fallback,
  the exit-word test, and the answers the loop prints.
- **streamlit_chat_app.py** (module `StreamlitChat`, with `Chat`): the session
  state as a class whose `messages` field is the history; its creation with a
  single greeting, the per-prompt append of the user message, the append of
  the reply or the pop after a failure, and the 404-before-401 choice of the
  error message.
- **nvidia_chat_client.py** (module `TerminalChat`, with `Chat`): the
  terminal loop as a method with a `while` loop over the lines typed, proved
  against a recursive session function `Converse`; exit words, the append of
  the user line before the call and of the reply after it, the session ending
  on an exception with the user line left in place, and the 401-before-404
  classification.

The chat-completion API is an oracle `Api = seq<Message> -> Outcome`: given the
history it is sent, it yields `Reply(text)` or `Failure(error)`, where `error`
is the exception's text `str(e)`.

A count of 0 means either "escaped at iteration 0" or "never escaped", exactly
as in the script; `Fractal.CountBounds` states this, and `Fractal.FirstEscape`
is what tells the two apart.

## Model

| member | source | states |
|---|---|---|
| `Fractal.NewMaskAndCounts` | fractal_generator_app.py:61-62 | fresh `n`-by-`m` grids, every mask entry true and every count 0 |
| `Fractal.MaskedStep` | fractal_generator_app.py:66 | `z` advances by one step exactly where the mask is set; inactive points keep their value |
| `Fractal.EscapeTest` | fractal_generator_app.py:69 | a fresh grid holding the escape test of every point, active or not |
| `Fractal.And` | fractal_generator_app.py:72 | a fresh grid that is the elementwise conjunction of mask and escape test |
| `Fractal.AssignWhere` | fractal_generator_app.py:75 | the count becomes the iteration index where the selector is set, and is unchanged elsewhere |
| `Fractal.ClearWhere` | fractal_generator_app.py:78 | a mask bit is cleared where the point escaped and is never set |
| `Fractal.Iteration` | fractal_generator_app.py:65-78 | one pass of the loop body moves every point of the grid by exactly `Advance` |
| `Fractal.Advance` | fractal_generator_app.py:66-78 | per point: an inactive point is frozen, the mask bit never goes from false to true, an active point is stepped and stays active iff it did not escape, an active point that escapes gets the iteration index as its count, and the count changes only then |
| `Fractal.Render` | fractal_generator_app.py:61-78 | after `iterations` passes each point is in state `After`; its mask bit is set iff it never escaped, and its count is its first escape iteration or 0 |
| `Fractal.FirstEscape` | fractal_generator_app.py:64-78 | reference definition: the least iteration `i < budget` whose iterate after `i+1` steps escapes, or none when no iteration below the budget escapes |
| `Fractal.EscapeCount` | fractal_generator_app.py:62-78 | the expected final count lies below the budget, and a non-zero count is the first escape iteration |
| `Fractal.FirstEscapeExtend` | fractal_generator_app.py:64-78 | one more iteration keeps a first escape already found, or finds one at the new iteration |
| `Fractal.AfterIsFirstEscape` | fractal_generator_app.py:64-78 | the loop's per-point state equals the closed form: never escaped means active, stepped `k` times, count 0; first escape at `i` means inactive, frozen at step `i+1`, count `i` |
| `Fractal.MaskShrinks` | fractal_generator_app.py:78 | a point active after `k2` iterations was active after every `k1 <= k2` |
| `Fractal.InactiveFrozen` | fractal_generator_app.py:66-78 | once a point is inactive its iterate and its count never change again, so the count is written at most once |
| `Fractal.FirstEscapeStable` | fractal_generator_app.py:64-78 | a larger iteration budget leaves an escape already found unchanged |
| `Fractal.CountBounds` | fractal_generator_app.py:62-75 | every final count is in `[0, iterations-1]`, and it is 0 exactly when the point escaped at iteration 0 or never escaped |
| `Fractal.GridMax` | fractal_generator_app.py:82 | `n_matrix.max()`: an upper bound of every entry that is itself an entry |
| `Fractal.Brightness` | fractal_generator_app.py:82 | for `0 <= count <= max` the brightness lies in `(0, 1]`; it is 1 exactly for count 0; the denominator `max + 1` is positive |
| `Fractal.BrightnessDarkens` | fractal_generator_app.py:82 | a larger count never gives a brighter point |
| `Fractal.Normalise` | fractal_generator_app.py:80-82 | every entry of the image is the brightness of its count against the grid maximum, which is non-negative, and lies in `(0, 1]` |
| `Fractal.JuliaImage` | fractal_generator_app.py:57-82 | the whole frame: each point's count is its first escape iteration or 0, each pixel is the brightness of that count against the grid maximum and lies in `(0, 1]`, and a point that never escaped is drawn at 1 |
| `Text.Lower` | teste.py:4 | `lower()`: same length, each character folded by `LowerChar` |
| `Text.LowerIdempotent` | teste.py:4 | lower-casing twice is lower-casing once |
| `Text.Contains` | teste.py:5 | Python's `in` on strings: true iff the keyword occurs at some index |
| `Responder.Answer` | teste.py:3-12 | the result is always one of exactly four fixed answers |
| `Responder.AnswerCaseInsensitive` | teste.py:4 | the answer to a question equals the answer to its lower-cased form |
| `Responder.AnswerRule` | teste.py:5-12 | "modelo" wins whatever else is present; "cuda" only without "modelo"; "parâmetro" only without both; the fallback iff none of the three occurs; each as an if-and-only-if |
| `Responder.IsExitCommand` | teste.py:22 | the session ends exactly when the lower-cased input is one of "sair", "exit" or "quit" |
| `Responder.ExitCommandCaseInsensitive` | teste.py:22 | an input and its lower-cased form agree on ending the session |
| `Responder.ExitCommandExamples` | teste.py:22 | "SAIR" and "Quit" end the session, "sair " does not |
| `Responder.Replies` | teste.py:19-26 | one answer per line typed, in order, up to the first exit word; nothing after it is answered |
| `StreamlitChat.ErrorMessage` | streamlit_chat_app.py:154-159 | the model-not-found message iff the error mentions "404"; the invalid-key message iff it mentions "401" and not "404"; otherwise the generic message embedding the error |
| `StreamlitChat.Session.InitHistory` | streamlit_chat_app.py:115-118 | a missing history becomes exactly the one greeting; an existing one is untouched |
| `StreamlitChat.Session.HandlePrompt` | streamlit_chat_app.py:127-163 | no prompt or no client leaves the history unchanged; success appends the user prompt then the reply to the history including the prompt; failure leaves the history exactly as before and shows `ErrorMessage`; the history stays the greeting followed by user/assistant pairs |
| `StreamlitChat.Session.Rerun` | streamlit_chat_app.py:115-163 | one script run: the history is created if needed, then the prompt is handled as by `HandlePrompt`, with the same new history and the same error shown (none with no prompt or after a reply, the missing-client message without a client, `ErrorMessage` after a failure) |
| `TerminalChat.IsExit` | nvidia_chat_client.py:45 | the loop ends exactly when the lower-cased input is "sair" or "exit" |
| `TerminalChat.QuitDoesNotExit` | nvidia_chat_client.py:45 | "quit", unlike in teste.py, does not end this session |
| `TerminalChat.Classify` | nvidia_chat_client.py:66-75 | unauthorised iff the error mentions "401"; model-not-found iff it mentions "404" and not "401"; unexpected, carrying the error, otherwise |
| `TerminalChat.OppositePriorities` | nvidia_chat_client.py:68-75 | an error text with both codes is reported as 404 by the web page and as 401 by the terminal client |
| `TerminalChat.Converse` | nvidia_chat_client.py:40-66 | a session never removes anything: the history it starts from is a prefix of the result, which grows by at most two messages per line |
| `TerminalChat.RunSession` | nvidia_chat_client.py:20-75 | the `while` loop, started from the single greeting, ends in the history and ending that `Converse` gives, and reports `Classify` of the error when it ended on an exception (running out of input ends on the `EOFError` text `eof`) |
| `TerminalChat.ConverseTurns` | nvidia_chat_client.py:40-66 | for some `k`: the first `k` lines were not exit words and each added the user line and the model's reply to the history up to that line (two messages per turn); then an exit word added nothing, or input ran out, or the API failed and the unanswered user line was kept |
| `TerminalChat.ConverseShape` | nvidia_chat_client.py:40-62 | roles keep alternating: an exit leaves greeting plus user/assistant pairs; an even-length result is a failed session that left a trailing user message |

## Left out

- Floating-point complex arithmetic (`z*z + c`, `np.abs(z) > 2`, `np.exp(1j*a)`), the `linspace` grid coordinates and the grid size 960 by 640 with scale 400 (fractal_generator_app.py:36-38, 56-58): the start grid is any `array2` and the step and escape test are function parameters.
- The rolling angle `a_index` and its wrap at `4π`, the sliders and the image, button and rerun calls (fractal_generator_app.py:24-53, 84-97): UI and session plumbing.
- Fractal.Brightness: computed over exact reals, not 64-bit floats, and the count grid holds integers where numpy holds floats.
- Streamlit rendering, CSS and HTML markup, the sidebar, the display loop over the history, the chat bubbles and the spinner (streamlit_chat_app.py:1-96, 120-124, 134, 138-139, 149): UI only.
- Client construction (`get_openai_client`, `OpenAI(...)`) and the `chat.completions.create` calls in both chat clients: network code, replaced by the flag `clientReady` and the `Api` oracle. The reply content is taken to be a string; a `None` content is not modelled.
- StreamlitChat.Session.HandlePrompt: the empty string stands for "no prompt submitted" (both `None` and `""` are falsy for `if prompt := ...`).
- All `print` output of teste.py and nvidia_chat_client.py: only the answers chosen and the error classification are modelled, not the printed text.
- TerminalChat.RunSession: running out of input is modelled as `input()` raising `EOFError`, which the `except Exception` handler classifies like any other error. Its text is the parameter `eof`, because it depends on the runtime: `""` after Ctrl-D at a terminal, "EOF when reading a line" when standard input is not a terminal.
- Ctrl-C at the terminal client's prompt or during the API call raises `KeyboardInterrupt`, which `except Exception` (nvidia_chat_client.py:66) does not catch, so the script ends with a traceback. The model has no such path.
- Responder.Replies: the `KeyboardInterrupt` handler and the uncaught `EOFError` at the end of input (teste.py:27-29) are not modelled; the answers simply stop with the input.
- Text.Lower: folds only ASCII A-Z and the Latin-1 capitals U+00C0-U+00DE (except U+00D7), not the whole of Unicode's case mapping; the keywords, including "parâmetro", are fixed by it.
- The unused `Module()` instance of teste.py (teste.py:1, 15).
- nvidia_chat_client.js, world_peace_index.py, gps_navigator_app.py, app.py and teste2.py are not part of this model: they are API calls with logging, random data and charts, map layers, and single forward passes through an external model.
