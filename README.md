# gpt4all-ts-plus adapters in Dafny

`gpt4all-ts-plus` wraps the gpt4all chat executable in a prompt/answer API.
The executable is a line-oriented program on a child process. There are two
adapter classes:

- `Gpt4AllPlus` (src/gpt4allplus.ts), the "plus" variant.
- `GPT4All` (src/gpt4all.ts), the "basic" variant.

Each adapter spawns the executable with an argument vector, waits for the
ready marker `>`, and then writes each prompt to the child's stdin. The answer
is framed out of the unframed stdout. The plus variant waits for a 4000 ms
quiet period. The basic variant waits for a chunk containing `>` or for a
16000 ms quiet period. A sanitizer then cleans the text. Both variants share
one model, parametrised by `Variant = Plus | Basic` wherever they differ.

The model has six modules:

- `Common`: option, variant and answer values.
- `JsText`: the JavaScript string operations the code relies on.
  - `indexOf` and `includes`, `endsWith` and `slice(0, -1)`.
  - `split` with a string separator: at least one piece.
  - `join`: `[].join` is `""`.
  - `trim`, with ECMAScript's white-space and line-terminator set.
  - `replace` with a string pattern: first occurrence only.
- `Sanitizer`: `terminateAndRespond`'s text handling as a pure function
  `Sanitize`.
  - The plus variant's filter threads the `lastIndex` of its one shared
    global regular expression from piece to piece.
  - The basic variant's filter uses a fresh expression for every piece.
- `Framing`: one prompt exchange as a state machine.
  - Events are handled in arrival order: a stdout chunk, the armed timer
    firing, and a stdout error.
  - `Run` is the reference fold over the events.
  - The class `PendingExchange` holds the handler state the source keeps in
    closures, and is proved against `Run`.
- `Launch`: the inputs to starting a session.
  - The constructor's default paths and the platform binary substitution.
  - The `modelName` setter's path rewrite.
  - The template-file decision of the plus `open`.
  - The spawn argument vector, with the decoder `--key value` loop.
- `Sessions`: the adapter classes `Gpt4AllPlus` and `Gpt4All`, and a
  `BotHost` for the `#bot` slot.
  - The child process is abstract: spawns, kills, stdin writes, 'close'
    events and stdout chunks are recorded calls and delivered events.
  - File-existence answers, write success, the home directory and the
    platform are parameters.

## Behaviour as written

The model follows the code in these places.

- **The plus filter can drop lines that hold allowed characters.**
  - The regular expression at src/gpt4allplus.ts:383 is one global object,
    and it is shared by every `filter` call.
  - A match at index `i` leaves `lastIndex = i + 1`, and the next line's
    search starts there.
  - So `["abc", "d"]` keeps only `"abc"` (`SharedLastIndexDropsLine`).
  - And `"a\nb>"` gives `"a"` in the plus variant
    (`SharedLastIndexDropsLastLine`), while the basic variant gives `"a b>"`
    (`MarkerKeptWhenSplit`).
  - The effect never empties the result on its own (`KeepSharedEmptyIff`).
- **A prompt that gets no output never completes.** Neither variant arms a
  timer before the first chunk, so only a stream error can settle that
  exchange (`SilenceNeverSettles`). No timeout covers the silent case.
- **The basic character class admits five more characters.** It is written
  `A-z`, which also takes `[ \ ] ^ _` (`BasicClassTakesPunctuation`).
- **`split(x)[1]` is the piece between the first and second occurrences of
  `x`**, not the whole text after the first one.
  - This applies to the constructor's `"file://"` handling and to the
    `modelName` setter's `"/models/"`.
- **When a path has no `"/models/"`, the setter's old name is `undefined`.**
  - `replace` then searches for the text `"undefined"`.
  - So the path usually keeps its old model file while the name changes
    (`RenameOutsideModelsKeepsPath`).
- **A failed template write in the plus `open`'s `else if` branch
  (src/gpt4allplus.ts:307) is not caught.** It rejects `open` before any spawn.
  A failed write in the first branch is only logged.

## Model

| member | source | states |
|---|---|---|
| JsText.IndexOf | src/gpt4allplus.ts:396 | the result is the first index where the pattern occurs, or none when it occurs nowhere |
| JsText.SplitJoin | src/gpt4allplus.ts:398 | joining `split(s, sep)` with `sep` gives back `s` |
| JsText.SplitPiecesFree | src/gpt4allplus.ts:404 | no piece of a split contains the separator |
| JsText.SplitSingleton | src/gpt4allplus.ts:402 | the split is the one-piece `[s]` exactly when `s` lacks the separator |
| JsText.Trim | src/gpt4allplus.ts:421 | the result is the slice of the input that starts at the first non-space, holds every non-space character, and has no space at either end |
| JsText.TrimUnpadded | src/gpt4allplus.ts:426 | trimming text with no space at either end leaves it unchanged |
| JsText.ReplaceFirst | src/gpt4allplus.ts:77 | `replace` leaves the text unchanged when the pattern does not occur; otherwise the length changes by the replacement's length less the pattern's |
| JsText.ReplaceFirstAt | src/gpt4allplus.ts:77 | `replace` substitutes exactly the first occurrence of the pattern |
| Sanitizer.Delimiter | src/gpt4allplus.ts:396-411 | the separator is `\r` iff the text has one, else `\n` iff it has one, else the garbled character iff the variant is plus and the text has it; none otherwise |
| Sanitizer.GlobalTest | src/gpt4allplus.ts:383 | `test` matches iff a class character lies at or after `lastIndex`. On a match the new `lastIndex` is one past the FIRST such character: none lies between the old `lastIndex` and the match. On failure it is 0 |
| Sanitizer.KeepShared | src/gpt4allplus.ts:396-406 | the plus filter keeps at most as many pieces as it gets, each one of them holding a class character |
| Sanitizer.KeepFresh | src/gpt4all.ts:134-142 | the basic filter keeps at most as many pieces as it gets, each one of them holding a class character |
| Sanitizer.KeepNonEmpty | src/gpt4allplus.ts:408-411 | the garbled-character filter keeps at most as many pieces as it gets, each one of them non-empty |
| Sanitizer.KeepNonEmptyExactly | src/gpt4allplus.ts:408-411 | the garbled-character filter keeps every non-empty piece as often as it occurs and no empty one, in the original order |
| Sanitizer.KeepPieces | src/gpt4allplus.ts:396-411 | whichever filter the separator selects, every kept piece is a non-empty piece of the split |
| Sanitizer.Sanitize | src/gpt4allplus.ts:380-433 | `terminateAndRespond` rejects only after a split, and then with the variant's reason (src/gpt4all.ts:145-165 for the basic one); text with no delimiter resolves to the trimmed text without its trailing `>` |
| Sanitizer.FilterByClass | src/gpt4all.ts:134-142 | reference filter: it keeps each piece holding a class character, and only such pieces |
| Sanitizer.KeepFreshExact | src/gpt4all.ts:134-142 | the basic filter, with a fresh expression per piece, equals the reference filter |
| Sanitizer.KeepSharedWithinReference | src/gpt4allplus.ts:396-406 | the plus filter with the shared `lastIndex` keeps a subsequence of the reference filter's result |
| Sanitizer.KeepSharedAfterReset | src/gpt4allplus.ts:398-400 | a piece tested with `lastIndex` 0 is judged as a fresh expression would judge it |
| Sanitizer.SharedLastIndexDropsLine | src/gpt4allplus.ts:383-400 | `["abc", "d"]` keeps only `"abc"` under the shared `lastIndex`, while the reference keeps both |
| Sanitizer.BasicClassTakesPunctuation | src/gpt4all.ts:135 | the basic class is the plus class without `#` and `-`, plus the five characters `[ \ ] ^ _` |
| Sanitizer.KeepSharedEmptyIff | src/gpt4allplus.ts:404-406 | the plus filter keeps nothing iff no line holds a class character |
| Sanitizer.KeepNonEmptyEmptyIff | src/gpt4allplus.ts:410 | the garbled-character filter keeps nothing iff every piece is empty |
| Sanitizer.KeepPiecesEmptyIff | src/gpt4allplus.ts:396-411 | after a split, nothing is kept iff no piece passes its filter |
| Sanitizer.FilterByClassEmptyIff | src/gpt4all.ts:140-142 | the reference filter is empty iff no piece holds a class character |
| Sanitizer.SanitizeRejects | src/gpt4allplus.ts:413-433 | the promise rejects iff the text was split and no piece survived; the plus variant rejects with the TypeError. The basic variant (src/gpt4all.ts:145-165) rejects with `""` in that case |
| Sanitizer.AnswerChars | src/gpt4allplus.ts:380-427 | a resolved answer uses only characters of the text and spaces, never holds `\r`, and holds `\n` only when the text held `\r` |
| Sanitizer.WholeText | src/gpt4allplus.ts:385-388 | text with no delimiter resolves to the trimmed text with one trailing `>` removed |
| Sanitizer.SplitOnLineEnding | src/gpt4allplus.ts:396-422 | text with a line ending splits the unstripped text on it. Several kept lines join with single spaces, untrimmed. One kept line is trimmed. None kept rejects. The same holds for the basic variant (src/gpt4all.ts:132-155), which has no garbled-character branch |
| Sanitizer.SingleLineExamples | src/gpt4allplus.ts:385-427 | `"only line>"` gives `"only line"`, and `""` gives `""`, in both variants |
| Sanitizer.MarkerKeptWhenSplit | src/gpt4all.ts:125-155 | in the basic variant `"a\nb>"` gives `"a b>"`; the marker stays in the last line |
| Sanitizer.SharedLastIndexDropsLastLine | src/gpt4allplus.ts:383-422 | in the plus variant `"a\nb>"` gives `"a"` |
| Sanitizer.CarriageReturnFirst | src/gpt4allplus.ts:396-407 | with both line endings present only `\r` splits: `"a\nb\rcd"` gives `"a\nb cd"` |
| Sanitizer.GarbledPiecesUnfiltered | src/gpt4allplus.ts:408-418 | garbled-character pieces are filtered only for non-emptiness: `"?!"`, then two garbled characters, then `".."` gives `"?! .."` |
| Sanitizer.HelloWorld | src/gpt4allplus.ts:404-418 | the reply `"hello\nworld\n>"` sanitizes to `"hello world"` in the plus variant, and `"hello\nworld\n"` does in the basic one |
| Framing.Settle | src/gpt4allplus.ts:428-432 | a promise settles once: an existing outcome is kept |
| Framing.Step | src/gpt4allplus.ts:436-454 | one event never shrinks the buffer, never changes a settlement, never re-attaches listeners, and detached listeners take no text in (src/gpt4all.ts:168-193 for the basic handler); an armed timer is the old one or a new one with the variant's delay |
| Framing.Run | src/gpt4allplus.ts:439-446 | after any events, an armed timer has the variant's delay (4000 ms, or 16000 ms at src/gpt4all.ts:183-186) |
| Framing.RunInvariant | src/gpt4allplus.ts:436-454 | while listening the promise is unsettled and the buffer is every chunk received; once detached it has settled |
| Framing.TimerOnlyAfterChunk | src/gpt4allplus.ts:439-446 | no timer and an empty buffer before the first chunk; in the plus variant, while listening, a timer is armed iff a chunk has arrived |
| Framing.SilenceNeverSettles | src/gpt4allplus.ts:372-448 | with no chunk and no error, timer events settle nothing |
| Framing.SettleOnce | src/gpt4allplus.ts:444-454 | once settled, no later events change the outcome |
| Framing.SettlingEvent | src/gpt4allplus.ts:436-454 | an error settles as a rejection with that error; otherwise the outcome is the sanitized text of every chunk before the event. A chunk never settles the plus variant. In the basic variant (src/gpt4all.ts:168-193) the settling chunk contains `>`, and its own text is left out of the answer |
| Framing.ChunkRearms | src/gpt4all.ts:171-186 | a non-completing chunk is appended and arms a timer with the variant's delay (4000 or 16000 ms) |
| Framing.LateChunkIgnored | src/gpt4all.ts:119-120 | after completion or an error, later chunks change nothing |
| Framing.ErrorThenTimer | src/gpt4allplus.ts:444-454 | an error rejects with that error and leaves the timer armed; its later firing keeps the rejection |
| Framing.PlusTranscript | src/gpt4allplus.ts:436-448 | chunks `"hello\n"`, `"world\n"`, `">"` and then the timer firing give `"hello world"` |
| Framing.BasicTranscript | src/gpt4all.ts:168-187 | chunks `"hello\n"`, `"world\n"`, `">"` give `"hello world"` at the marker chunk |
| Framing.PendingExchange.constructor | src/gpt4allplus.ts:372-374 | an exchange starts with an empty buffer, no timer, unsettled and listening |
| Framing.PendingExchange.Terminate | src/gpt4allplus.ts:376-378 | the handlers' shared last step: the listeners are detached, and the promise settles with the sanitized buffer unless it already settled |
| Framing.PendingExchange.OnChunk | src/gpt4allplus.ts:436-448 | the new state is `Run` of the events so far; a listening chunk is appended and re-arms 4000 ms. In the basic variant (src/gpt4all.ts:168-187) a `>` chunk clears the timer and settles with the buffer before it, and any other chunk re-arms 16000 ms |
| Framing.PendingExchange.OnTimerFire | src/gpt4allplus.ts:444-446 | an armed timer firing completes with the buffer at that moment; with no timer armed nothing happens |
| Framing.PendingExchange.OnStreamError | src/gpt4allplus.ts:450-454 | listeners are removed, a listening exchange rejects with the error, and the timer is left as it was |
| Launch.DecoderFlags | src/gpt4allplus.ts:311-314 | one `--key`, `String(value)` pair per decoder entry, in entry order |
| Launch.PushDecoderFlags | src/gpt4all.ts:63-66 | the push loop yields the base vector followed by the decoder pairs |
| Launch.ToSpawnCall | src/gpt4allplus.ts:316-322 | `spawn` gets element 0 as the command and the rest as arguments, together the whole vector |
| Launch.FlagsAfterBase | src/gpt4all.ts:57-74 | the full vector is the base followed by the decoder pairs at their positions, and `spawn` receives `base[0]` and the rest |
| Launch.PlusBaseArgv | src/gpt4allplus.ts:246-275 | the plus base vector has 10 elements, or 12 with the template. The executable comes first. Each option is followed by its value: the model path, then `--no-animation`, the temperature, the template path (present exactly when the template is chosen), the token amount 10000, and the log argument last |
| Launch.BasicBaseArgv | src/gpt4all.ts:57-61 | the basic base vector is the executable, then `--model` and the model path |
| Launch.PlanTemplate | src/gpt4allplus.ts:281-309 | the template pair is used iff the file exists or a non-blank message was written. A write failure rejects `open` iff the file existed. The written text is the system template |
| Launch.BlankMessageOverwritesTemplate | src/gpt4allplus.ts:286-309 | with a blank message, an existing template file is rewritten and used, and an absent one is not created |
| Launch.DefaultBaseOfUrl | src/gpt4allplus.ts:42-44 | the default `file://<dir>` parent yields `<dir>`; a parent without `file://` is used as is |
| Launch.DefaultBase | src/gpt4allplus.ts:42-44 | a parent directory without `file://` is the base unchanged |
| Launch.PlatformExecutable | src/gpt4allplus.ts:48-59 | platforms without a known binary, and paths without `gpt4all`, keep the executable path unchanged |
| Launch.RenamedModelPath | src/gpt4allplus.ts:71-78 | the rewritten model path always ends in `.bin` |
| Launch.DefaultExecutableSubstituted | src/gpt4allplus.ts:43-59 | on win32, darwin and linux the default executable `<dir>/gpt4all` becomes `<dir>/<binary>`; other platforms keep it |
| Launch.FirstGpt4allReplaced | src/gpt4allplus.ts:48-59 | only the first `gpt4all` is replaced: on linux `/gpt4all` + rest becomes `/chat-ubuntu-latest-avx2` + rest, so `/gpt4all/gpt4all` keeps its final component |
| Launch.StemBeforeBin | src/gpt4allplus.ts:74 | cutting `stem + ".bin"` at its first `.bin` gives `stem` when `stem` has none |
| Launch.OldNameAfterModels | src/gpt4allplus.ts:75 | the old name of `dir/models/<old>` is `old` |
| Launch.FirstOccurrenceOfName | src/gpt4allplus.ts:77 | the first occurrence of `old` in `dir/models/<old>` is the last component |
| Launch.RenameDefaultShape | src/gpt4allplus.ts:71-78 | on a default-shaped path the setter swaps only the model name: `dir/models/<old>.bin` becomes `dir/models/<new>.bin` |
| Launch.RenameOutsideModelsKeepsPath | src/gpt4allplus.ts:73-77 | a path without `/models/` keeps its model file: `m.bin` stays `m.bin` |
| Sessions.PlusLaunch | src/gpt4allplus.ts:281-322 | the plus `open` after any close rejects iff the template file exists and its write fails. Otherwise it spawns exe, and argument 5 is `--load_template` iff the template is used |
| Sessions.LogArgument | src/gpt4allplus.ts:244-257 | the `--load_log` value is non-empty exactly when the chat log exists, and then ends in `/<chatLogName>.txt` |
| Sessions.TemplateWrites | src/gpt4allplus.ts:286-309 | an `open` writes the template at most once: exactly when the write succeeds and either the file exists or the message is non-blank, and what it writes is the system template |
| Sessions.QueueTemplateWrites | src/gpt4allplus.ts:277-309 | the waiting opens write the template at most once each |
| Sessions.PlusLaunchesInOrder | src/gpt4allplus.ts:277-322 | waiting `open` calls go on in order: status `k` is the launch of the `k`-th waiting call |
| Sessions.BasicLaunch | src/gpt4all.ts:57-74 | the basic `open` spawns exe with `--model`, the model path and the decoder pairs |
| Sessions.Repeat | src/gpt4all.ts:52-74 | every waiting basic `open` spawns the same call |
| Sessions.BotHost.Close | src/gpt4allplus.ts:339-357 | with no process, `close` resolves at once and changes nothing; otherwise it kills the process and adds a 'close' listener |
| Sessions.BotHost.ProcessClosed | src/gpt4allplus.ts:347-350 | the current process's 'close' with listeners waiting clears `#bot` and resolves them; otherwise `#bot` is kept |
| Sessions.BotHost.Spawn | src/gpt4allplus.ts:316-332 | a spawn is recorded and becomes `#bot`, with no close listener, and its own process number joins the processes whose ready wait is pending |
| Sessions.BotHost.OnStdout | src/gpt4allplus.ts:325-332 | a chunk from process `pid` resolves that process's `open` iff its ready wait is pending and the chunk contains `>`; the wait is then over, and other processes' waits are untouched |
| Sessions.BotHost.Write | src/gpt4allplus.ts:371 | the stdin write is recorded |
| Sessions.Gpt4AllPlus.constructor | src/gpt4allplus.ts:40-64 | default paths come from the `file://<home>/.nomic` parent, then platform substitution; temperature 0.9, `./chats`, empty chat name, no template writes, no waiting opens; the host has no process, no spawn, kill, exit, close listener or stdin write, and no pending ready wait |
| Sessions.Gpt4AllPlus.SetModelName | src/gpt4allplus.ts:71-78 | the name becomes the new one and the path is rewritten by `RenamedModelPath` |
| Sessions.Gpt4AllPlus.Close | src/gpt4allplus.ts:339-357 | `close` as in `BotHost.Close`: with no process it resolves and changes nothing; otherwise it kills `#bot` (still held) and adds one close listener; spawns, exits, stdin writes and the pending ready waits are unchanged |
| Sessions.Gpt4AllPlus.Launch | src/gpt4allplus.ts:281-323 | the spawn is `PlusLaunch`'s and the template writes are `TemplateWrites`. On a spawn, `chatName` is the log name, `#bot` the new process with no close listener, and the new process's ready wait is added to the pending ones. On a rejection `#bot`, its listeners, `chatName` and the pending ready waits are unchanged. Exits, kills, stdin writes, the settings and the waiting opens never change |
| Sessions.Gpt4AllPlus.SpawnChat | src/gpt4allplus.ts:310-321 | the spawned call is the base vector followed by the decoder pairs, and `#bot` becomes the new process with no close listeners and a pending ready wait of its own |
| Sessions.Gpt4AllPlus.Open | src/gpt4allplus.ts:241-333 | with a live process, `open` kills it, adds a close listener and queues the request; `#bot`, spawns, exits, writes, the pending ready waits, template writes and `chatName` are unchanged. Otherwise it launches now, as `Launch` states. The settings never change |
| Sessions.Gpt4AllPlus.OnProcessClose | src/gpt4allplus.ts:277-280 | the exit is recorded. Unless it is `#bot`'s with close listeners, nothing else changes. Otherwise the closes resolve and every waiting `open` launches in order: spawns, template writes and `chatName` are those of the queue, `#bot` is the last spawned, no close listener remains, and each newly spawned process has a pending ready wait of its own, added to those already pending |
| Sessions.Gpt4AllPlus.ResumeOpens | src/gpt4allplus.ts:277-323 | the queue empties and its requests launch in order: one status each, their spawns appended, `#bot` the last spawned, their template writes appended, `chatName` from the last that spawned, a pending ready wait added for each new process; kills, exits and writes unchanged |
| Sessions.Gpt4AllPlus.LaunchAll | src/gpt4allplus.ts:277-323 | after the loop over the waiting requests the state is `ResumedAfter` the whole queue, no close listener remains, and kills, exits, writes and the settings are unchanged |
| Sessions.Gpt4AllPlus.ResumeNext | src/gpt4allplus.ts:281-323 | one more waiting request launching extends `ResumedAfter` by that request, leaving kills, exits, writes and the settings |
| Sessions.ResumedStep | src/gpt4allplus.ts:281-323 | one more waiting `open` launching as `Launch` states extends the resumed state by exactly that request |
| Sessions.Gpt4AllPlus.OnStdout | src/gpt4allplus.ts:325-332 | a chunk from process `pid` resolves that process's `open` iff its ready wait is pending and the chunk contains `>`; that wait is then over, the other pending waits stay, and nothing else changes |
| Sessions.Gpt4AllPlus.Prompt | src/gpt4allplus.ts:364-374 | with no process, "Bot is not initialised" is thrown and nothing changes. Otherwise the line plus `\n` is written, a fresh plus exchange starts, and the process, spawns, exits, kills, close listeners and pending ready waits are unchanged |
| Sessions.Gpt4All.constructor | src/gpt4all.ts:24-34 | defaults are `<home>/.nomic/gpt4all` and `<home>/.nomic/models/<model>.bin`, with no platform substitution; no waiting opens; the host has no process, no spawn, kill, exit, close listener or stdin write, and no pending ready wait |
| Sessions.Gpt4All.Close | src/gpt4all.ts:86-104 | `close` as in `BotHost.Close`: with no process it resolves and changes nothing; otherwise it kills `#bot` (still held) and adds one close listener; spawns, exits, stdin writes and the pending ready waits are unchanged |
| Sessions.Gpt4All.Open | src/gpt4all.ts:50-84 | with a live process, `open` kills it, adds a close listener and waits, leaving `#bot`, spawns, exits, writes and the pending ready waits; otherwise it spawns `BasicLaunch` with no close listener and adds the new process's ready wait. Paths and decoder settings never change |
| Sessions.Gpt4All.OnProcessClose | src/gpt4all.ts:52-55 | the exit is recorded. Unless it is `#bot`'s with close listeners, nothing else changes. Otherwise the closes resolve, every waiting `open` spawns, `#bot` is the last, no close listener remains, and each new process has a pending ready wait of its own; kills and writes unchanged |
| Sessions.Gpt4All.OnStdout | src/gpt4all.ts:76-83 | a chunk from process `pid` resolves that process's `open` iff its ready wait is pending and the chunk contains `>`; that wait is then over, the other pending waits stay, and nothing else changes |
| Sessions.Gpt4All.Prompt | src/gpt4all.ts:106-116 | with no process, "Bot is not initialised" is thrown and nothing changes. Otherwise the line is written, a fresh basic exchange starts, and the process, spawns, exits, kills, close listeners and pending ready waits are unchanged |

## Left out

- **Processes and events**
  - Processes, streams, `kill` and `Buffer.toString` decoding are abstract.
  - Spawns, kills and writes are recorded, and 'close' events and stdout
    chunks arrive as method calls.
  - The caller delivers each stdout chunk both to the exchange and to the
    ready wait of the process that emitted it, as the source's several 'data'
    listeners all receive it.
- **Timers and promises**
  - A timer firing is an event; there is no wall-clock time.
  - Promise and microtask scheduling is reduced to in-order handling with a
    settle-once outcome.
  - Sessions.Gpt4AllPlus.ResumeOpens: waiting plus `open` calls go on one after
    another. In the source, their template-file `await`s can interleave.
  - Sessions.Gpt4AllPlus.Open: a call with no process runs to its spawn in
    one step. In the source it awaits the template `writeFile`
    (src/gpt4allplus.ts:293, 307) while `#bot` is still null. A second `open`
    in that window also finds no process and spawns, so the first process is
    orphaned without a kill. In the model the second call finds the first
    process and closes it instead.
- **Strings and values**
  - Strings are sequences of characters, not of UTF-16 code units.
    Characters outside the Basic Multilingual Plane count as one.
  - `String(value)` of a number and of `modelTemperature` is floating-point
    formatting. It is kept as an opaque rendered string (`"0.9"` by default).
  - Launch.RenamedModelPath: `$` patterns in `replace`'s replacement string
    are not interpreted; no model name contains `$`.
- **Listener behaviour**
  - `terminateAndRespond` and the error handler remove all 'data' listeners,
    and that includes a still-waiting `open`'s ready listener. The model
    keeps each process's ready wait separate.
  - Framing.PendingExchange: each exchange keeps its own listeners. In the
    source, `terminateAndRespond` removes every stdout 'data' and 'error'
    listener (src/gpt4allplus.ts:376-378, src/gpt4all.ts:119-120). So an
    errored prompt's timer, still armed, can fire during the next prompt and
    detach that prompt's listeners, and overlapping prompts detach each
    other's. `ErrorThenTimer` covers the firing only within its own
    exchange.
  - A stdout 'error' after the listeners are gone has no handler, and Node
    would raise it. The model ignores it.
  - If `close` runs while an exchange is pending, a later timer reads
    `this.#bot.stdout` on null and throws. The model does not tie exchanges
    to the session's process.
  - A stdin write to a process that has already exited is recorded like any
    other.
- **Operations not modelled:** they touch only the network or the file
  system, or declare types.
  - `listModels`: network.
  - `init`, `#downloadModel`, `#downloadExecutable` and `#downloadFile`:
    network and file existence.
  - `saveChatContent` and `deleteChats`: file I/O.
  - src/gpt4allplus.d.ts: declarations only.
- The `modelName` getter is the `modelName` field of `Sessions.Gpt4AllPlus`.
