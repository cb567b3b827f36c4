# gitls core, modelled in Dafny

gitls is a language server that shows version-control attribution ("blame") when the
editor hovers over a line. This project models its core and proves properties of it:

- **Message state** (`message_state.dfy`, module `MessageState`): the two-variant value
  `Unhandled(input) | Handled(output)` and its chainable `handle` for notifications and
  for requests. A chain of `handle` calls joined by `?` is modelled as `Dispatch` over a
  sequence of links. Each typed link is erased to a common parameter type (`Erase`), and
  `EraseIsFaithful` shows that the erasure changes nothing.
- **Hover request** (`request.dfy`, module `RequestHandlers`): `get_hunk_for_line` is a
  method with the source's loop and running line counter. It is proved against the
  function `HunkForLine`. `get_blame_text` and the hover handler are functions that use
  `HunkForLine`.
- **Timestamp humaniser** (`date_time.dfy`, module `DateTime`): `format_timestamp`,
  with the clock reading `now` passed in as nanoseconds since the epoch.
- **Commit attribution** (`blame.dfy`, module `BlameFormat`):
  `format_blame_text` with Unicode trimming, the split at the first blank line, the
  short id and the final trim.
- Supporting values: `wrappers.dfy` (Option, Result, the error value), `lsp.dfy`
  (protocol envelopes, `extract`, hover types) and `git.dfy` (object ids, hunks, commits,
  hex rendering, `i64`/`u64`).

Foreign calls are parameters of the operations that make them. These are repository
discovery, blame, commit lookup, the virtual file system, path relativisation, JSON
decoding and encoding, the clock, `humantime` and `chrono`. The model is therefore
verified for every behaviour of those libraries.

Behaviour follows the code where a stricter policy might be expected:
- The hover handler turns every returned error into "no hover". That includes a
  failed prefix strip and a failed commit lookup.
- The hover text is `"{author} {date}: {message}"`, with the commit time shown by
  chrono in the local time zone. `format_blame_text` is modelled separately, as written;
  the server does not call it.
- The uncommitted sentinel is the all-zero object id (`Git.IsZero`), as in the code.

## Model

| member | source | states |
|---|---|---|
| `Lsp.ExtractNotification` | src/message_state.rs:26 | extract succeeds exactly when the method name matches and the params decode, and yields the decoded params |
| `Lsp.ExtractRequest` | src/message_state.rs:49 | as for notifications, and the request's own id is handed back with the params |
| `MessageState.HandleNotification` | src/message_state.rs:16-35 | a handled state, or an unhandled one that does not match, is returned unchanged, with the identical input; on a match, the handler's error is returned, and otherwise the result is `Handled(())` |
| `MessageState.HandleRequest` | src/message_state.rs:39-65 | as for notifications; on a successful match the response carries the request's id, `result` is `Some` of the encoded handler result and `error` is `None` |
| `MessageState.HandleNotificationIgnoresIdleHandler` | src/message_state.rs:24-33 | when the handler does not fire, the result is the same whatever the handler would do: it is never run |
| `MessageState.HandleRequestIgnoresIdleHandler` | src/message_state.rs:47-63 | the same for requests |
| `MessageState.Erase` | src/message_state.rs:18-22 | an erased link has the same method and accepts exactly the params that the typed decoder accepts |
| `MessageState.EraseIsFaithful` | src/main.rs:71-77 | `handle` through an erased link equals the typed `handle`, so one chain can hold handlers of different parameter types |
| `MessageState.Dispatch` | src/main.rs:71-77 | a chain of `handle` calls joined by `?`; a result still unhandled is the very message that entered the chain, so no link rewrites a message it does not handle |
| `MessageState.FirstMatch` | src/main.rs:71-77 | the least index in chain order whose link matches the message, or none when no link matches |
| `MessageState.DispatchHandledPassesThrough` | src/message_state.rs:33 | a handled message passes through a chain of any length unchanged |
| `MessageState.DispatchFirstMatchWins` | src/main.rs:71-77 | a chain returns the unhandled message untouched when nothing matches; otherwise its result is exactly the first matching link's handler outcome, with an error stopping the chain |
| `MessageState.DispatchRunsOnlyFirstMatch` | src/main.rs:71-77 | at most one handler runs: chains that agree on matching and on the first match's handler give the same result, whatever their other handlers do |
| `MessageState.FirstMatchOnlyReadsMatching` | src/main.rs:71-77 | which link fires depends only on the links' methods and decoders, not on handler bodies |
| `RequestHandlers.HunkIndexFrom` | src/handlers/request.rs:79-88 | the least index at or after `k` whose cumulative end exceeds the line; none when no such hunk exists |
| `RequestHandlers.HunkForLine` | src/handlers/request.rs:79-88 | a found hunk is one of the blame's hunks whose end lies past the line, with every earlier hunk ending at or before it; "Line not found" means every hunk ends at or before the line |
| `RequestHandlers.GetHunkForLine` | src/handlers/request.rs:75-89 | the loop with its running counter returns the hunk at `HunkIndex`, or "Line not found" |
| `RequestHandlers.HunkIndexIsLeast` | src/handlers/request.rs:79-85 | hunk `i` is chosen exactly when `i` is the least index with `line < 1 + sum(len[0..i+1])` |
| `RequestHandlers.HunkIndexNone` | src/handlers/request.rs:79-88 | the lookup fails exactly when there are no hunks or `line >= 1 + sum(all lengths)` |
| `RequestHandlers.HunkIndexCovers` | src/handlers/request.rs:79-85 | for `line >= 1` the chosen hunk covers the line: `1 + sum(len[0..i]) <= line < 1 + sum(len[0..i+1])` |
| `RequestHandlers.HunkIndexOfCoveringHunk` | src/handlers/request.rs:79-85 | conversely, the hunk that covers a line is the one chosen |
| `RequestHandlers.EndIsStartPlusLength` | src/handlers/request.rs:81 | each step of the walk advances the counter by the hunk's line count |
| `RequestHandlers.BlameHunks` | src/handlers/request.rs:34-46 | each step's failure is returned with that step's own error, and the first failing step in the order discover, read, relativise against the workdir, blame decides it; the blame succeeds exactly when discovery, reading, relativising against the workdir and blaming all succeed, and then its hunks are the blame of the relative path over the buffer |
| `RequestHandlers.GetBlameText` | src/handlers/request.rs:30-72 | a failure to discover the repository, read the buffer, relativise the path or blame it is returned as the result |
| `RequestHandlers.BlameTextLineNotFound` | src/handlers/request.rs:48-52 | a cursor line (counted from 0) at or past the number of blamed lines fails with "Failed to get line from blame" |
| `RequestHandlers.BlameTextOfCoveringHunk` | src/handlers/request.rs:48-71 | the cursor line plus 1 selects the covering hunk. An all-zero id gives exactly "Uncommitted changes", whatever commit lookup would do. Otherwise the text is `author + " " + date + ": " + message`, or the lookup's error |
| `RequestHandlers.TwoHunkExample` | src/handlers/request.rs:48-71 | with lines 1-3 by a commit and lines 4-6 uncommitted, cursor line 4 gives "Uncommitted changes" and cursor line 1 gives the commit's text |
| `RequestHandlers.BlamedLineHasHunk` | src/handlers/request.rs:79-88 | every cursor line before the end of the blamed lines lies in some hunk |
| `RequestHandlers.HandleHover` | src/handlers/request.rs:9-27 | on success the hover is Markdown equal to the blame text with `range: None`; every returned error becomes `Ok(None)`; the handler never returns an error of its own |
| `RequestHandlers.OutsideWorkdirGivesNoHover` | src/handlers/request.rs:13-15 | a path that cannot be made relative to the working directory gives exactly that error from the blame text and no hover at all |
| `RequestHandlers.HoverRequestIsAnswered` | src/main.rs:58-62 | a hover request whose params decode is answered under its own id with the hover or with no hover, and never with an error |
| `DateTime.DiffSeconds` | src/utils/date_time.rs:10-14 | the distance between the timestamp and now in whole seconds: the floor of the nanosecond distance |
| `DateTime.FormatTimestamp` | src/utils/date_time.rs:7-36 | more than 604800 whole seconds apart gives the absolute date of the timestamp. Otherwise the result is `"in " + fmt(d)` when the timestamp is after now, else `fmt(d) + " ago"` (equal counts as ago), with `d` the whole seconds apart |
| `DateTime.DistanceIsSymmetric` | src/utils/date_time.rs:10-14 | the distance does not depend on the order of the two times |
| `DateTime.AbsoluteBeyondAWeek` | src/utils/date_time.rs:5-16 | with now on a whole second, the whole-second distance is the difference of the seconds, and the date is shown exactly when it exceeds one week; exactly a week stays relative |
| `DateTime.AbsoluteDateIgnoresNow` | src/utils/date_time.rs:16-23 | in the absolute branch the text depends on the timestamp only |
| `DateTime.HumanisedExamples` | src/utils/date_time.rs:16-33 | 30 s before now is "30s ago", 10 s after is "in 10s", 8 days before is the absolute date |
| `Git.IsZero` | src/handlers/request.rs:54 | `Oid::is_zero`: all 20 bytes of the id are zero, the id blame gives to uncommitted lines |
| `Git.Hex` | src/utils/blame.rs:18 | a commit id's text form has two lower-case hex digits per byte |
| `Git.HexAppend` | src/utils/blame.rs:18 | the hex of concatenated bytes is the concatenation of their hex |
| `Git.HexAt` | src/utils/blame.rs:18 | byte `k` shows as its high and low nibble digits at positions `2k` and `2k+1` |
| `BlameFormat.IsWhitespace` | src/utils/blame.rs:10 | the Unicode White_Space set that `str::trim` strips: its 25 code points |
| `BlameFormat.TrimStart` | src/utils/blame.rs:10 | the result is a suffix, everything dropped is whitespace, and it does not start with whitespace |
| `BlameFormat.TrimEnd` | src/utils/blame.rs:20 | the result is a prefix, everything dropped is whitespace, and it does not end with whitespace |
| `BlameFormat.Trim` | src/utils/blame.rs:10 | the result has no leading or trailing whitespace |
| `BlameFormat.TrimPadded` | src/utils/blame.rs:20 | trimming whitespace-padded text that has no outer whitespace gives back exactly that text |
| `BlameFormat.FindSeparator` | src/utils/blame.rs:11 | the first occurrence of "\n\n" at or after the start index, or none when there is none |
| `BlameFormat.SplitMessage` | src/utils/blame.rs:11-14 | with a blank line, message = subject + "\n\n" + body at its first occurrence, and the subject contains no "\n\n"; without one, the subject is the whole message and the body is empty |
| `BlameFormat.ShortId` | src/utils/blame.rs:18 | the displayed id is 8 characters, the hex of the id's first 4 bytes, i.e. the first 8 characters of the full id |
| `BlameFormat.AsU64` | src/utils/blame.rs:17 | the same-width `as u64` cast: the result is the signed time modulo 2^64 |
| `BlameFormat.Header` | src/utils/blame.rs:19 | the bold subject opens the header on its own line and the short id closes the italic line, so the header neither starts nor ends with whitespace and the final trim cannot cut into it |
| `BlameFormat.FormatBlameText` | src/utils/blame.rs:5-23 | a missing message gives exactly "No message". Otherwise the result is the bold subject and the italic author, time and short id line, followed by "\n\n" and the body only when the body is non-empty. The result never has leading or trailing whitespace |
| `BlameFormat.HeaderThenBodyTrims` | src/utils/blame.rs:19-20 | the final trim removes only the trailing "\n\n" when the body is empty, and nothing otherwise |

## Left out

- Transport, initialisation, capability advertisement, shutdown and the receive loop in
  `src/main.rs` are not modelled. Their chains of `handle` calls are modelled as
  `Dispatch` and `HoverRequestIsAnswered`.
- The notification handlers in `src/handlers/notification.rs` write buffers through the
  virtual file system. They are not part of this model. In the dispatch model they are
  arbitrary handlers.
- Staging, unstaging and code actions are not part of this model; the modelled source
  files do not contain them.
- git2, vfs, `Path::strip_prefix`, serde, chrono, humantime and the clock are
  parameters (`Host`, `Repository`, decoders, encoders, renderers, `now`). Their own
  behaviour is not modelled. As in the source, the URI path reaches these host
  functions as `Url::path` returns it, still percent-encoded.
- Several `unwrap`s are not modelled: bare repositories (`workdir().unwrap()`),
  non-UTF-8 paths, `blame_buffer(...).unwrap()`, out-of-range commit times in chrono,
  non-UTF-8 author names and `serde_json::to_value(...).unwrap()`. Each panics in the
  source; the model's host functions return the unwrapped values.
- `RequestHandlers.GetBlameText`: the one panic modelled is `commit.message().unwrap()`,
  as the outcome `Error.Panicked`. The hover handler does not turn it into "no hover".
- `RequestHandlers.GetBlameText`: the cursor line is a natural number. The 32-bit
  overflow of `line + 1` at `u32::MAX` is not modelled.
- `RequestHandlers.GetHunkForLine`: the running counter is an unbounded natural, so
  `usize` overflow is not modelled.
- `DateTime.FormatTimestamp` requires a timestamp of at most `i64::MAX` seconds. Beyond
  that, adding it to the epoch panics in the source. `now` is a natural number of
  nanoseconds, so a clock set before 1970 is not modelled.
  The `unwrap` of chrono's `from_timestamp` for dates outside chrono's range is not
  modelled: `formatDate` is total.
- `BlameFormat.FormatBlameText` requires a commit time of at least 0 when the commit has
  a message. The timestamp formatter is then called, and a negative time becomes a
  value of 2^63 or more after the `as u64` cast, which makes it panic. A commit without
  a message gives "No message" whatever its time.
