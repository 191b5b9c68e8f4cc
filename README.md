# GPT-5 console chat, modelled in Dafny

The program is a console chat client for a single user, Peter. A `GPT5Chat`
session keeps the conversation as a list of strings, oldest first. Each line
Peter types is stripped and lower-cased, then compared with `exit` and
`clear`. Blank lines are skipped. Any other line becomes a prompt: the fixed
system instruction, every transcript entry on its own line, then
`Peter: <line>` and an open `Assistant:` cue. That prompt goes to the
completion service. A reply adds two entries to the transcript, the user
line first, and is printed. A failure adds nothing. Instead it prints one of
two things:

- a fixed remediation text, when the error text contains
  `insufficient_quota` or `429`;
- otherwise, the error text behind `Error: `.

The model has five modules, one per file:

- `Text` (`text.dfy`): substring search, `strip()` and `lower()` on strings.
  Substring search and `strip()` each have a reference definition and a
  lemma linking it to the implementation. `lower()` is specified by its own
  postconditions: the length is kept and each character is mapped on its own.
- `Prompt` (`prompt.dfy`): the rendered prompt and its layout.
- `Diagnostics` (`diagnostics.dfy`): how an error text is classified.
- `Console` (`console.dfy`): the decision taken on each line read.
- `Chat` (`chat.dfy`): the session class `GPT5Chat` and its methods.
  - `RunFrom` specifies the console loop as a function.
  - Lemmas about whole runs sit beside it.

The completion service is not modelled. Each call is given the service's
answer as a `Reply`: `Ok(text)` or `Err(message)`. The console loop is given
its input as a sequence of events. Each event is a line together with the
reply the service would give if that line were forwarded.

On a failure neither `add_message` call at main.py:52-53 is reached, so the
transcript stays as it was. No placeholder entry is stored for an empty
reply.

## Model

| member | source | states |
|---|---|---|
| Chat.GPT5Chat.constructor | main.py:23 | a new session starts with an empty transcript |
| Chat.GPT5Chat.AddMessage | main.py:29-30 | the transcript becomes the old transcript with the one entry added at the end |
| Chat.GPT5Chat.BuildPrompt | main.py:34-37 | the loop builds exactly `FullPrompt`: system instruction, blank line, each entry followed by a line break, then `Peter: <input>` and the `Assistant:` cue; the transcript is not changed |
| Chat.GPT5Chat.GetResponse | main.py:32-67 | the prompt is built from the transcript before the call; a reply appends `Peter: <input>` then `Assistant: <text>` and returns the text; a failure leaves the transcript unchanged and returns `Diagnose(message)` |
| Chat.GPT5Chat.ClearHistory | main.py:69-70 | the transcript is empty afterwards, whatever it held |
| Chat.GPT5Chat.HandleLine | main.py:80-96 | stops exactly on `exit` (case-insensitive, surrounding whitespace ignored) and then changes nothing and prints nothing; otherwise the new transcript and printed answers are one `Step` of the loop |
| Chat.GPT5Chat.Run | main.py:79-96 | the final transcript and all printed answers are those of `RunFrom` on the same events |
| Prompt.RenderHistory | main.py:35-36 | every entry followed by a line break, oldest first; its contract is stated by `RenderHistoryAppend`, `RenderHistoryConcat`, `EntryRendered` and `RenderHistoryLength` |
| Prompt.UserCue | main.py:37 | `Peter: <input>` then a line break and the open `Assistant:` cue; stated by `ExchangeRendering` and `PromptContinues` |
| Prompt.FullPrompt | main.py:34-37 | the system instruction, a blank line, the rendered transcript and the user cue; `BuildPrompt` is proved to build it and `PromptContinues` states how it grows |
| Diagnostics.Diagnose | main.py:56-67 | the remediation text when `insufficient_quota` or `429` occurs in the error text, otherwise `Error: ` and the error text; stated by `DiagnoseSpec`, `DiagnoseIsQuotaMessage`, `DiagnoseRecoversErrorText` and `QuotaMarkerAnywhere` |
| Text.Contains | main.py:60 | Python's `pat in s`; `ContainsSpec` proves it true exactly when the pattern occurs at some position |
| Text.Strip | main.py:81 | Python's `s.strip()` over ASCII whitespace; `StripSpec` with `StrippedUnique` characterise it, and `StripIdempotent` and `StripIgnoresPadding` state its properties |
| Chat.HistoryAfter | main.py:51-53 | the transcript after one call: the exchange appended on a reply, unchanged on a failure; stated by `GetResponse` and `HistoryAfterWellFormed` |
| Chat.Answer | main.py:54-67 | the reply text on a reply, `Diagnose` of the error text on a failure; stated by `GetResponse`, `RunForwardedLines` and `RunAllFailed` |
| Chat.Step | main.py:83-95 | one line the loop does not stop at: clear empties the transcript, a blank line changes nothing, any other line makes one call; stated by `HandleLine` |
| Chat.RunFrom | main.py:79-96 | the console loop over a sequence of lines and replies, stopping at `exit` or when the lines run out; `Run` is proved to compute it and `RunWellFormed`, `RunOnlyAppends`, `RunStopsAtExit`, `RunForwardedLines`, `RunAllAnswered` and `RunAllFailed` state its properties |
| Chat.HistoryAfterWellFormed | main.py:51-53 | one call keeps the transcript alternating between user entries (even positions) and assistant entries (odd positions) |
| Chat.RunWellFormed | main.py:79-96 | a whole run keeps that alternation, including across `clear` |
| Chat.RunOnlyAppends | main.py:52-53 | without a `clear` the transcript before a run is a prefix of the transcript after it |
| Chat.RunStopsAtExit | main.py:83-85 | lines after an `exit` line have no effect on the transcript or the answers |
| Chat.ExchangesAt | main.py:52-53 | when every call gets a reply, exchange `k` sits at positions `2k` and `2k+1`, user line first |
| Chat.RunForwardedLines | main.py:91-95 | when every line is forwarded, the transcript grows by exactly the exchanges that got a reply, in order, and answer `k` is what call `k` returned |
| Chat.RunAllAnswered | main.py:51-54 | every line forwarded and answered: the old transcript is kept as a prefix, the transcript grows by two entries per line, entry `2k` is `Peter: ` plus stripped line `k`, entry `2k+1` is `Assistant: ` plus reply `k`, and answer `k` is reply `k` |
| Chat.RunAllFailed | main.py:56-67 | with no `clear` and every call failing, the transcript is unchanged and every printed answer is the diagnostic of some failure |
| Prompt.RenderHistoryAppend | main.py:35-36 | adding one entry to the transcript appends exactly that entry and a line break to its rendering |
| Prompt.RenderHistoryConcat | main.py:35-36 | rendering a concatenated transcript is concatenating the renderings |
| Prompt.EntryRendered | main.py:35-36 | every entry appears whole at its offset in the rendering, followed by a line break: nothing is skipped or cut |
| Prompt.RenderHistoryLength | main.py:35-36 | the rendering is as long as all entries together plus one line break per entry |
| Prompt.ExchangeRendering | main.py:37 | a rendered exchange reads as the user cue of the prompt that produced it, then a space, the reply and a line break |
| Prompt.PromptContinues | main.py:34-37 | after an exchange, the next prompt is the previous prompt, followed by the reply and a line break, then the next user cue |
| Diagnostics.DiagnoseSpec | main.py:56-67 | an error text containing `insufficient_quota` or `429` anywhere gives the remediation text; any other gives `Error: ` followed by the error text |
| Diagnostics.DiagnoseIsQuotaMessage | main.py:60-65 | the diagnostic is the remediation text if and only if one of the markers occurs |
| Diagnostics.DiagnoseRecoversErrorText | main.py:67 | for non-quota failures the diagnostic determines the error text |
| Diagnostics.QuotaMarkerAnywhere | main.py:60 | either marker, whatever text surrounds it, gives the remediation text |
| Diagnostics.QuotaMessageMentionsBilling | main.py:61-65 | the remediation text contains the word `billing` |
| Text.ContainsSpec | main.py:60 | the left-to-right scan finds a pattern exactly when it occurs at some position |
| Text.StartsWithSpec | main.py:60 | the character-by-character prefix test agrees with comparing the first characters |
| Text.TrimStartSpec | main.py:81 | dropping leading whitespace removes an all-whitespace prefix and stops at the first other character |
| Text.TrimEndSpec | main.py:81 | dropping trailing whitespace removes an all-whitespace suffix and stops at the last other character |
| Text.StripSpec | main.py:81 | `strip()` leaves a middle slice of the line with only whitespace around it and no whitespace at either end |
| Text.StrippedUnique | main.py:81 | at most one string is the line with its surrounding whitespace removed |
| Text.StripKeepsTrimmed | main.py:81 | a string without surrounding whitespace is its own `strip()` |
| Text.StripIdempotent | main.py:81 | stripping twice is stripping once |
| Text.StripIgnoresPadding | main.py:81 | whitespace added around a line does not change its `strip()` |
| Text.Lower | main.py:83 | `lower()` keeps the length and maps each character on its own, letters `A`-`Z` to `a`-`z` |
| Console.Dispatch | main.py:81-92 | the loop exits if and only if the stripped, lower-cased line is `exit`; it clears if and only if that is `clear`; it skips if and only if the stripped line is empty; otherwise it forwards the stripped line |
| Console.ForwardedTextIsStable | main.py:81-95 | a forwarded text is non-empty, has no surrounding whitespace, and would be forwarded unchanged if typed again |
| Console.DispatchIgnoresPadding | main.py:81 | whitespace typed around a line never changes the decision |
| Console.BlankScenario | main.py:91-92 | a line of spaces is skipped |
| Console.ForwardScenario | main.py:81 | ` Hi ` is forwarded as `Hi` |

## Left out

- Reading `.env`, the API-key check and `sys.exit`: these are process environment and termination (main.py:7, 11-14).
- Creating the client and calling the service: the call is a foreign network call. Its outcome is the `Reply` parameter. The shape of the response object is not modelled either, so neither is the path by which `response.choices[0].text` becomes the reply text. An error raised while reading that text would go to the `except` branch; the model covers that branch as an `Err` reply.
- The configuration fields. `model`, `verbosity`, `text_format` and `reasoning_effort` (main.py:17, 20-22) are only passed to the service call (main.py:42-48), which is not modelled; `model` is also printed in the greeting (main.py:74). `max_tokens` and `temperature` (main.py:18-19) are never read.
- Console output and input. The model drops the greeting banner, the `Assistant:` label and the "Conversation history cleared." and "See you later" messages. The answers the loop prints are kept, as the `answers` sequence.
- `KeyboardInterrupt` and the generic `except` in `run`: these are signals and errors raised by console I/O.
- End of input: `input()` raises `EOFError`, which the generic `except` catches, so the source loop would keep spinning. The model stops when the events run out.
- Text.Strip: only ASCII whitespace counts (tab, line feed, vertical tab, form feed, carriage return, 0x1C-0x1F, space). Python's `str.strip()` also removes Unicode spaces.
- Text.Lower: only `A`-`Z` are lower-cased. Python's `str.lower()` applies full Unicode case mapping.
- That the prompt is a function of the transcript and the input alone holds by construction, since Dafny functions are deterministic, so it has no lemma of its own.
