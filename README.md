# AI Explore dump player — a Dafny model

The AI Explore dump player replays a recorded chat reply, saved as a JSONL
event log, as if it were streaming live. Its core has three parts, and the
model has one module for each:

- **The event-log decoder** (`Dump`, after `parseJSONL`). It splits the file
  on `\r?\n` and drops empty lines. It parses each line and keeps the records
  whose `event` and `data` members are both truthy. A line that does not parse
  is skipped.
- **The chart-spec extractor** (`VegaExtract`, after `tryExtractVegaSpec`).
  Given all the text streamed so far, it picks one candidate JSON text. The
  candidate is the capture of the last match of ```` /```json\s*([\s\S]*?)\s*```/gi ````,
  or, when nothing matches, the last top-level `{...}` region found by a
  string-aware brace scan. The extractor then trims the candidate, parses it
  and checks the Vega-Lite shape (`mark` present, `encoding` a non-null object).
  It answers `ok` (with source `fenced` or `braces`), `not_found`,
  `invalid_json` or `invalid_schema`.
- **The playback controller** (`DumpPlayer` and `PlayerSession`, after
  `useDumpPlayer`).
  - `play` runs a cooperative pass over the events. Each token delta is
    appended to an accumulator, which is published as the stream text.
  - After every token the pass reruns the extractor. A found spec has the
    fixed revenue table injected as its `data`.
  - An `error` event or a `done` event ends the pass.
  - `stop`, `pause` and `resume` set flags that the pass checks at its loop top
    and after its per-event delay.
  - `continueFromPause` starts a new pass after the last index.

`JSON.parse` is foreign code. Every operation that needs it takes it as an
argument of type `Parser`, so every property holds for any parser.

The controller is modelled twice:
- as pure state transitions on `PlayerState` (module `DumpPlayer`), where the
  lemmas about interleavings live;
- as the class `PlayerSession.Session`, whose fields are the hook's state
  variables and refs and whose methods update them in place. Each method
  except `Accumulate`, `ApplyResult` and `RunPass` is proved to make exactly
  the corresponding `DumpPlayer` transition (`FreeStepOnce` is `Step` on a
  pass with neither flag set). `Accumulate` makes the token case's update
  before the loop top, `ApplyResult` makes the `ApplyExtraction` update of
  the chart and changes nothing else, and `RunPass` ends in `DumpPlayer.Run`
  of one step per remaining event. The control methods (`LoadEvents`, `Stop`,
  `Pause`, `Resume`, `Play`, `ContinueFromPause`), `Step`, its token case
  `AppendToken`, `FreeStepOnce`, `RunPass` and `AfterLoop` also keep the
  accumulation invariant. `Accumulate`, `EnterLoop` and `ApplyResult` run in
  the middle of a step, where the accumulator has already grown and the
  invariant is re-established by their caller.

A suspended pass is part of the state:
- its captured event list, start index, start text, accumulator and loop
  index are held in the `Pass` record;
- `Step` resumes it up to its next suspension point: the pause-wait poll, or
  the delay before an event;
- control requests are applied between steps, so every interleaving the
  browser's event loop allows is one sequence of `Action`s.

Where the code departs from its documented intent, the model follows the code:
- `loadEvents` does not cancel a pass in flight. It clears the stop flag, and
  the old pass goes on over the events it captured (`DumpPlayer.LoadDoesNotCancel`).
- The decoder does not check the `event` discriminator. Any record with
  truthy `event` and `data` is kept (`Dump.DiscriminatorIsNotChecked`). The
  player skips a record of an unknown kind (`StreamEvent.OtherEvent`).
- The fence pattern has no line anchors. An opening ```` ```json ```` anywhere
  in the text counts, not only at the start of a line. The closing fence is
  the first ```` ``` ```` after it, whatever precedes it.

## Model

| member | source | states |
|---|---|---|
| JsText.TrimStart | src/utils/vegaExtract.ts:64 | Removes exactly the leading whitespace run: the result is a suffix, what was cut is all whitespace, and the result does not start with whitespace. |
| JsText.TrimEnd | src/utils/vegaExtract.ts:64 | Removes exactly the trailing whitespace run: the result is a prefix, what was cut is all whitespace, and the result does not end with whitespace. |
| JsText.TrimIsInfix | src/utils/vegaExtract.ts:64 | `trim()` returns an infix of its input with only whitespace outside it, and the result neither starts nor ends with whitespace. |
| JsText.TrimUnchanged | src/utils/vegaExtract.ts:64 | A string with no whitespace at either end is its own trim. |
| JsText.TrimEmpty | src/utils/vegaExtract.ts:64-66 | The trimmed candidate is empty (so `!raw` holds) exactly when the candidate is all whitespace. |
| JsText.IsWs | src/utils/vegaExtract.ts:16 | The whitespace set shared by `\s` and `trim()`: ECMAScript WhiteSpace and LineTerminator. Its use is stated by SkipWs, TrimWsBack and the trim lemmas. |
| JsText.Trim | src/utils/vegaExtract.ts:64 | `trim()` as trim-start then trim-end. TrimIsInfix, TrimUnchanged and TrimEmpty state what it returns. |
| JsonValue.Truthy | ai-explore-dump-player/src/utils/dump.ts:13 | JavaScript truthiness of a parsed value: null, false, 0 and the empty string are falsy. Dump.DecodedMembers and FalsyDataIsDropped state its use. |
| JsonValue.TypeofObject | src/utils/vegaExtract.ts:8-11 | `typeof v === "object"`: true of null, arrays and objects. IsValidVegaLite states its use. |
| JsonValue.MemberTruthy | ai-explore-dump-player/src/utils/dump.ts:13 | `obj?.key` is truthy: the member exists and is truthy. Dump.DecodedMembers and FalsyDataIsDropped state its use. |
| JsText.AsciiLower | src/utils/vegaExtract.ts:16 | ASCII case folding. TagLetterFolding and OpensAtSpellings state that, for the tag letters j, s, o and n, it decides exactly what the non-Unicode `/i` comparison decides. |
| JsText.TagLetterFolding | src/utils/vegaExtract.ts:16 | Under that folding a character folds to `j`, `s`, `o` or `n` exactly when it is that letter or its ASCII capital. |
| VegaExtract.OpensAtSpellings | src/utils/vegaExtract.ts:16 | "```json" opens a block at p exactly when p holds three backquotes followed by one of the sixteen ASCII case spellings of "json". |
| VegaExtract.LongSDoesNotOpen | src/utils/vegaExtract.ts:16 | Long s (U+017F) does not match the `s` of the tag, because the pattern has no `u` flag. |
| VegaExtract.IsValidVegaLite | src/utils/vegaExtract.ts:7-13 | True exactly for an object with a `mark` member and an `encoding` member that is an object or an array (`typeof "object"`, not null). |
| VegaExtract.OpensAt | src/utils/vegaExtract.ts:16 | The opener "```json" at p, tag case-insensitive. OpensAtSpellings states which texts it accepts. |
| VegaExtract.FenceAt | src/utils/vegaExtract.ts:16 | The closing "```" at j. FindFence and FindFenceIsFirst state how the first one is found. |
| VegaExtract.SkipWs | src/utils/vegaExtract.ts:16 | The first `\s*` taken greedily: the run is all whitespace and ends at the text's end or at a non-whitespace character. |
| VegaExtract.FindFence | src/utils/vegaExtract.ts:16 | A returned position holds a closing ```` ``` ```` at or after the search start. |
| VegaExtract.FindFenceIsFirst | src/utils/vegaExtract.ts:16 | No ```` ``` ```` starts before the position FindFence returns, and there is none at all when it returns nothing. |
| VegaExtract.FindFenceReaches | src/utils/vegaExtract.ts:16 | A ```` ``` ```` with no backquote before it is the fence FindFence returns. |
| VegaExtract.TrimWsBack | src/utils/vegaExtract.ts:16 | The second `\s*` before the fence: a whitespace run, as long as it can be without entering the capture's start. |
| VegaExtract.MatchAt | src/utils/vegaExtract.ts:16 | A match at p starts with "```json" (tag case-insensitive); the capture lies after the tag, and the closing fence lies after the capture, within the text. |
| VegaExtract.MatchAtIsFirstWay | src/utils/vegaExtract.ts:16 | MatchAt is what a backtracking ECMAScript matcher returns at p. It is absent exactly when no split of the text into whitespace, capture, whitespace and fence exists. Otherwise it is the first split tried: greedy `\s*` longest first, lazy group shortest first. |
| VegaExtract.Exec | src/utils/vegaExtract.ts:19 | `re.exec` from `lastIndex` returns a real match at or after `lastIndex`. |
| VegaExtract.ExecIsLeftmost | src/utils/vegaExtract.ts:19 | `re.exec` returns the leftmost match. The pattern matches nowhere before it, and nowhere at all when exec returns null. |
| VegaExtract.ExecSkipsTo | src/utils/vegaExtract.ts:19 | A position at or after the search start and before the match exec returns (anywhere, when it returns null) is not a match. |
| VegaExtract.LastMatchFrom | src/utils/vegaExtract.ts:17-19 | The global search's last match is a real match, and a match found earlier is never lost. |
| VegaExtract.ExtractFromFencedJson | src/utils/vegaExtract.ts:15-21 | The exec loop returns group 1 of the last match of the global search, or null. |
| VegaExtract.FencedJson | src/utils/vegaExtract.ts:15-21 | Group 1 of the global search's last match, or null. FencedJsonNone, FencedJsonIsLastMatch and FencedJsonIsTrimmed state what it returns. |
| VegaExtract.LastMatchIsFinal | src/utils/vegaExtract.ts:19-20 | Resuming the search from the last match's end finds nothing. |
| VegaExtract.FencedJsonNone | src/utils/vegaExtract.ts:15-21 | The fenced search returns null exactly when the pattern matches at no position. |
| VegaExtract.FencedJsonIsLastMatch | src/utils/vegaExtract.ts:15-21 | A fenced result is the capture of a real match, and the pattern matches nowhere at or after that match's end. When matches overlap this does not make the match unique; LastMatchFrom and ExtractFromFencedJson fix which one the search returns. |
| VegaExtract.CaptureIsTrimmed | src/utils/vegaExtract.ts:16 | A capture never starts or ends with whitespace, because the two `\s*` take it. |
| VegaExtract.FencedJsonIsTrimmed | src/utils/vegaExtract.ts:20 | The fenced result is its own trim. |
| VegaExtract.FencedBlockRoundTrip | src/utils/vegaExtract.ts:15-21 | A non-empty body without backquotes and without outer whitespace, written as "```json", a newline, the body, a newline and "```", comes back out unchanged. |
| VegaExtract.NoClosingFence | src/utils/vegaExtract.ts:15-21 | Text with no backquote after its first seven characters has no closed block: the result is null. |
| VegaExtract.ExtractLastJsonObjectByBraces | src/utils/vegaExtract.ts:23-60 | The scanning loop keeps its variables equal to the scan fold at every index, and it returns the last candidate's slice, or null. |
| VegaExtract.ScanStep | src/utils/vegaExtract.ts:33-54 | One loop iteration: an escaped character is skipped, a backslash escapes only inside a string, a quote toggles the string flag, and braces outside strings push and pop, recording a candidate when the stack empties. The step lemmas below state each branch. |
| VegaExtract.Scan | src/utils/vegaExtract.ts:30-55 | The loop's variables after the first n characters. ScanBounds, StackEntriesAreOpen and LastCandidateClosedLast state what they hold. |
| VegaExtract.BraceCandidate | src/utils/vegaExtract.ts:57-59 | The last candidate's slice, or null. BraceCandidateIsLastRegion states which region that is. |
| VegaExtract.UnmatchedCloseIgnored | src/utils/vegaExtract.ts:49-53 | A `}` read outside a string with nothing open changes no variable of the scan: it closes nothing and records nothing. |
| VegaExtract.ScanBounds | src/utils/vegaExtract.ts:47-53 | Every stacked offset and every candidate region lies within the characters read so far, and each candidate is non-empty. |
| VegaExtract.EscapeOnlyInString | src/utils/vegaExtract.ts:33-40 | The escape flag is set only while inside a string. |
| VegaExtract.StackEntriesAreOpen | src/utils/vegaExtract.ts:47-53 | Each stack entry is the offset of a structural `{`. Reading it pushed it onto exactly the entries below it. |
| VegaExtract.CandidatesStep | src/utils/vegaExtract.ts:49-53 | A candidate is recorded on reading a character exactly when that character is a structural `}` that empties the stack. The candidate runs from the bottom entry to just after the `}`. |
| VegaExtract.LastCandidateClosedLast | src/utils/vegaExtract.ts:49-59 | Candidates exist exactly when some top-level region has closed. The last candidate is the region that closed last. |
| VegaExtract.NoCandidatesUntil | src/utils/vegaExtract.ts:49-53 | No candidate has been pushed after n characters exactly when no top-level region has closed in them. |
| VegaExtract.LastCandidateIsLast | src/utils/vegaExtract.ts:49-53 | The last candidate pushed is the region whose `}` was the last to empty the stack, and it starts at the bottom stack entry. |
| VegaExtract.TopLevelRegion | src/utils/vegaExtract.ts:47-53 | A top-level region opens with a structural `{` read on an empty stack, and its `}` empties the stack again. |
| VegaExtract.BraceCandidateIsLastRegion | src/utils/vegaExtract.ts:23-60 | The brace scan returns null exactly when no top-level region closes. Otherwise it returns the text of the last top-level region to close. That region opens on an empty stack, its `}` is read on the one-entry stack holding its own `{`, and no top-level region closes after it. |
| VegaExtract.BracesInStringsAreLiteral | src/utils/vegaExtract.ts:41-45 | Inside a string, braces are text: the stack and the candidates do not change. |
| VegaExtract.BackslashOutsideString | src/utils/vegaExtract.ts:37-40 | Outside a string, a backslash is skipped and escapes nothing. |
| VegaExtract.BackslashEscapesNext | src/utils/vegaExtract.ts:33-40 | Inside a string, a backslash makes the scan ignore the next character, a quote included. |
| VegaExtract.NoCloseBraceNoCandidate | src/utils/vegaExtract.ts:49-59 | Text without a `}` has no brace candidate. |
| VegaExtract.QuotedBraceScan | src/utils/vegaExtract.ts:41-53 | In `{"a": "}"}` the quoted `}` closes nothing, and the whole text is the candidate. |
| VegaExtract.QuotedBraceStates | src/utils/vegaExtract.ts:41-53 | The scan of a text spelled `{"a": "}"}` ends with an empty stack and the one candidate covering the text. |
| VegaExtract.AdjacentObjectsScan | src/utils/vegaExtract.ts:47-53 | In `{}{}` each object is recorded when its `}` empties the stack. |
| VegaExtract.AdjacentObjects | src/utils/vegaExtract.ts:23-60 | Of `{}{}` the candidate is the second object. The span of both is not a last region. |
| VegaExtract.TryExtractVegaSpec | src/utils/vegaExtract.ts:62-78 | An `ok` result carries a non-empty raw text whose parse is the spec, and that spec passes the shape check. |
| VegaExtract.Decide | src/utils/vegaExtract.ts:66-77 | Given the candidate, an `ok` result has a non-empty raw text that parses to the spec and passes the shape check. |
| VegaExtract.Candidate | src/utils/vegaExtract.ts:63-64 | `fenced ?? braces`: the fenced result when it is not null, otherwise the brace scan's. FencedBlockWins, BracesWithoutFence and EmptyFenceIsNotFound state the choice. |
| VegaExtract.CandidateIsTrimmed | src/utils/vegaExtract.ts:63-64 | Fenced and brace candidates alike are their own trim, so `raw` is the candidate itself. |
| VegaExtract.BraceCandidateDelimited | src/utils/vegaExtract.ts:57-59 | The brace candidate starts with `{` and ends with `}`. |
| VegaExtract.FencedBlockWins | src/utils/vegaExtract.ts:63-64 | When the fenced search returns a string, the result depends only on that string: any other text with the same fenced result gives the same answer, and the braces are not consulted. |
| VegaExtract.BracesWithoutFence | src/utils/vegaExtract.ts:64 | With a null fenced result the candidate is the brace scan's. |
| VegaExtract.EmptyFenceIsNotFound | src/utils/vegaExtract.ts:63-66 | An empty fenced capture is not null, so `??` does not fall back: the result is `not_found`, whatever braces the text holds. |
| VegaExtract.TryExtractOutcomes | src/utils/vegaExtract.ts:62-78 | Each of the four outcomes, stated both ways. `not_found` exactly without a non-empty candidate. `invalid_json` exactly when the parser throws, carrying its message. `invalid_schema` exactly when the parse fails the shape check, carrying the fixed message. `ok` exactly when it passes, with spec = the parse, raw = the candidate, and source `fenced` exactly when the fenced search returned a string. |
| VegaExtract.QuotedBraceExample | src/utils/vegaExtract.ts:62-78 | `{"a": "}"}` with no fence is parsed whole and reported as `invalid_schema` with the fixed message. |
| Dump.NewlineIndex | ai-explore-dump-player/src/utils/dump.ts:7 | The first line feed, or the end of the text when there is none. |
| Dump.DropCr | ai-explore-dump-player/src/utils/dump.ts:7 | The optional `\r` of a `\r\n` separator is dropped from the piece before the line feed. SplitLinesJoin states the result. |
| Dump.SplitLines | ai-explore-dump-player/src/utils/dump.ts:7 | `split(/\r?\n/)`. SplitLinesCount, SplitLinesHaveNoNewline, SplitLinesJoin and LoneCrIsNotSeparator state what it returns. |
| Dump.NewlinesSplit | ai-explore-dump-player/src/utils/dump.ts:7 | The first line feed accounts for one of the text's line feeds, and the rest lie after it. |
| Dump.NormalizeThroughNewline | ai-explore-dump-player/src/utils/dump.ts:7 | Normalizing text up to its first line feed gives the piece before it (without a final `\r`), a line feed, then the normalized rest. |
| Dump.NormalizeLine | ai-explore-dump-player/src/utils/dump.ts:7 | A piece without a line feed, a line feed, then any rest: normalizing gives the piece minus a final `\r`, a line feed, and the normalized rest. |
| Dump.NormalizeCons | ai-explore-dump-player/src/utils/dump.ts:7 | Text that does not start with `\r\n` keeps its first character, and the rest is normalized. |
| Dump.DropCrCons | ai-explore-dump-player/src/utils/dump.ts:7 | A character in front of a piece survives dropping the `\r`, unless it is that `\r` alone. |
| Dump.SplitLinesCount | ai-explore-dump-player/src/utils/dump.ts:7 | `split(/\r?\n/)` yields one piece more than the text has line feeds. A lone `\r` separates nothing. |
| Dump.SplitLinesHaveNoNewline | ai-explore-dump-player/src/utils/dump.ts:7 | No piece contains a line feed. |
| Dump.SplitLinesJoin | ai-explore-dump-player/src/utils/dump.ts:7 | Joining the pieces with `\n` gives the text back with each `\r\n` turned into `\n` (the split round trip). |
| Dump.LoneCrIsNotSeparator | ai-explore-dump-player/src/utils/dump.ts:7 | Text without a line feed is one piece, carriage returns included. |
| Dump.NonEmpty | ai-explore-dump-player/src/utils/dump.ts:7 | `filter(Boolean)` keeps exactly the non-empty lines, and never more lines than it was given. |
| Dump.NonEmptyAppend | ai-explore-dump-player/src/utils/dump.ts:7 | `filter(Boolean)` distributes over concatenation, so the kept lines keep their order and their repetitions. |
| Dump.NonEmptyOne | ai-explore-dump-player/src/utils/dump.ts:7 | A single line is kept exactly when it is not empty. |
| Dump.Lines | ai-explore-dump-player/src/utils/dump.ts:7 | The lines the loop reads: the non-empty pieces of the split. BlankLineIsParsed gives an example. |
| Dump.Accepted | ai-explore-dump-player/src/utils/dump.ts:11-16 | The per-line test `obj?.event && obj?.data` after a successful `JSON.parse`, giving the parse itself. DecodedMembers, DecodedOne, FailedLineIsDropped, DiscriminatorIsNotChecked and FalsyDataIsDropped state what it keeps and drops. |
| Dump.Decoded | ai-explore-dump-player/src/utils/dump.ts:10-17 | The records the loop has pushed after the given lines. DecodedLength, DecodedAppend, DecodedMembers and FailedLineIsDropped state what it holds. |
| Dump.ParseJsonl | ai-explore-dump-player/src/utils/dump.ts:6-19 | The loop's output is the accepted records of the non-empty lines, in line order. |
| Dump.DecodedLength | ai-explore-dump-player/src/utils/dump.ts:10-18 | The decoder never yields more records than it reads lines. |
| Dump.DecodedAppend | ai-explore-dump-player/src/utils/dump.ts:10-18 | Decoding distributes over concatenation of lines, so records keep the order of their lines. |
| Dump.DecodedOne | ai-explore-dump-player/src/utils/dump.ts:11-16 | One line decodes to its accepted record or to nothing. |
| Dump.FailedLineIsDropped | ai-explore-dump-player/src/utils/dump.ts:11-16 | A line that fails to parse is dropped, and decoding goes on unaffected with the lines after it. |
| Dump.DecodedMembers | ai-explore-dump-player/src/utils/dump.ts:10-18 | A record appears in the output exactly when it is the accepted parse of some line. |
| Dump.DiscriminatorIsNotChecked | ai-explore-dump-player/src/utils/dump.ts:13 | A record with an unknown `event` kind and truthy `data` is kept. |
| Dump.FalsyDataIsDropped | ai-explore-dump-player/src/utils/dump.ts:13 | A record whose `data` is `0` is dropped, even with a known kind. |
| Dump.BlankLineIsParsed | ai-explore-dump-player/src/utils/dump.ts:7 | Whitespace-only lines survive `filter(Boolean)` and reach the parser. Only empty lines go. |
| DumpPlayer.WithHardcodedData | ai-explore-dump-player/src/hooks/useDumpPlayer.ts:14-19 | The spread gives the spec's members plus `data`. `data` is `{ values: HARD_DATA }`, and every other member is unchanged. |
| DumpPlayer.WithHardcodedDataIdempotent | ai-explore-dump-player/src/hooks/useDumpPlayer.ts:14-19 | Injecting twice is injecting once. |
| DumpPlayer.Injected | ai-explore-dump-player/src/hooks/useDumpPlayer.ts:120 | The object `{...spec, data: {values: HARD_DATA}}` passed to `setVegaSpec`. WithHardcodedData, InjectedIsValid and ApplyExtractionConsistent state its properties. |
| DumpPlayer.InjectedIsValid | ai-explore-dump-player/src/hooks/useDumpPlayer.ts:118-120 | Injection keeps a valid Vega-Lite spec valid. |
| DumpPlayer.ApplyExtraction | ai-explore-dump-player/src/hooks/useDumpPlayer.ts:117-126 | `ok` sets the raw text, the injected spec and the source, and clears the hint. `invalid_schema` sets only the hint (its message, else "Invalid Vega schema"). `not_found` and `invalid_json` change nothing. |
| DumpPlayer.ErrorText | ai-explore-dump-player/src/hooks/useDumpPlayer.ts:131 | The error message, or "Unknown error" when it is empty. TerminalEvents states its use. |
| DumpPlayer.AfterLoop | ai-explore-dump-player/src/hooks/useDumpPlayer.ts:143-153 | The code after the loop and `finally`: the pass ends (`running` is cleared). EventsExhausted states the status it leaves. |
| DumpPlayer.Process | ai-explore-dump-player/src/hooks/useDumpPlayer.ts:111-141 | What the pass does with an event after the delay. TokenStep, OtherStep and TerminalEvents state each kind. |
| DumpPlayer.Step | ai-explore-dump-player/src/hooks/useDumpPlayer.ts:99-141 | A suspended pass resumes up to its next suspension point or its end. StepKeepsValid, StepKeepsRest, StopTakesEffect, PauseHolds and PauseTakesEffectAtNextIndex state it. |
| DumpPlayer.LoadEvents | ai-explore-dump-player/src/hooks/useDumpPlayer.ts:45-57 | `loadEvents`. LoadResets and LoadDoesNotCancel state it. |
| DumpPlayer.Stop | ai-explore-dump-player/src/hooks/useDumpPlayer.ts:59-62 | `stop` sets the stop flag and clears the pause flag. StopTakesEffect, StopIsFinal and StopWinsOverPause state its effect. |
| DumpPlayer.Pause | ai-explore-dump-player/src/hooks/useDumpPlayer.ts:64-67 | `pause`. PauseGuards, PauseHolds and PauseTakesEffectAtNextIndex state its effect. |
| DumpPlayer.Resume | ai-explore-dump-player/src/hooks/useDumpPlayer.ts:69-73 | `resume`. ResumeGuards states its effect. |
| DumpPlayer.Play | ai-explore-dump-player/src/hooks/useDumpPlayer.ts:75-97 | `play`. PlayStarts, PlayNoOp, PlayAccumulates and PlayToCompletion state it. |
| DumpPlayer.ContinueFromPause | ai-explore-dump-player/src/hooks/useDumpPlayer.ts:157-172 | `continueFromPause`. ContinueStarts states it. |
| DumpPlayer.CanPlay | ai-explore-dump-player/src/hooks/useDumpPlayer.ts:40 | `canPlay`: events loaded and status idle, done or error. LoadResets and PlayStarts state when it holds. |
| DumpPlayer.CanStop | ai-explore-dump-player/src/hooks/useDumpPlayer.ts:41 | `canStop`: streaming or paused. PlayStarts, PauseGuards and ResumeGuards state when it holds. |
| DumpPlayer.CanPause | ai-explore-dump-player/src/hooks/useDumpPlayer.ts:42 | `canPause`: streaming. PlayStarts, PauseGuards and ResumeGuards state when it holds. |
| DumpPlayer.CanResume | ai-explore-dump-player/src/hooks/useDumpPlayer.ts:43 | `canResume`: paused. PauseGuards and ResumeGuards state when it holds. |
| DumpPlayer.EnterLoop | ai-explore-dump-player/src/hooks/useDumpPlayer.ts:96-102 | The loop top either ends the pass or leaves it suspended at index i, with its accumulator and captured frame untouched. |
| DumpPlayer.Initially | ai-explore-dump-player/src/hooks/useDumpPlayer.ts:22-38 | The first render is idle, runs no pass, and satisfies the accumulation invariant. |
| DumpPlayer.Valid | ai-explore-dump-player/src/hooks/useDumpPlayer.ts:93-127 | The accumulation invariant: a running pass's accumulator is its start text followed by the deltas of the token events it has processed, none of them terminal. ApplyAllKeepsValid states that it holds throughout. |
| DumpPlayer.EnterLoopKeepsValid | ai-explore-dump-player/src/hooks/useDumpPlayer.ts:96-102 | The loop top keeps the accumulation invariant once the accumulator holds the deltas of the events before i. |
| DumpPlayer.TokenStep | ai-explore-dump-player/src/hooks/useDumpPlayer.ts:109-127 | After the delay with no stop, a token event appends its delta to the accumulator and the output, applies the extractor's result to the accumulated text, and goes to the next index. |
| DumpPlayer.OtherStep | ai-explore-dump-player/src/hooks/useDumpPlayer.ts:111-141 | An event of an unknown kind is skipped. |
| DumpPlayer.TokenStepKeepsValid | ai-explore-dump-player/src/hooks/useDumpPlayer.ts:113-127 | Processing a token keeps the accumulation invariant. |
| DumpPlayer.OtherStepKeepsValid | ai-explore-dump-player/src/hooks/useDumpPlayer.ts:111-141 | Skipping an event keeps the accumulation invariant. |
| DumpPlayer.StepKeepsValid | ai-explore-dump-player/src/hooks/useDumpPlayer.ts:96-141 | Every resumption of a pass keeps the accumulation invariant: the accumulator is the start text followed by the deltas of the processed tokens, none of them terminal. |
| DumpPlayer.ApplyKeepsValid | ai-explore-dump-player/src/hooks/useDumpPlayer.ts:45-224 | Every control request and every step keeps the accumulation invariant. |
| DumpPlayer.ApplyAllKeepsValid | ai-explore-dump-player/src/hooks/useDumpPlayer.ts:45-224 | The invariant holds after any interleaving of requests and steps. |
| DumpPlayer.SamePass | ai-explore-dump-player/src/hooks/useDumpPlayer.ts:76-78 | Without a play or a continue, only the pass already running can be running afterwards, with the same captured events, start index and start text. |
| DumpPlayer.PlayAccumulates | ai-explore-dump-player/src/hooks/useDumpPlayer.ts:93-127 | After play and any stop, pause, resume, load and steps, a running pass's accumulator is the concatenated deltas of the token events before its index. None of those events is terminal. |
| DumpPlayer.FinishIgnoresStatus | ai-explore-dump-player/src/hooks/useDumpPlayer.ts:129-147 | The status a replay ends in does not depend on the status it started with. |
| DumpPlayer.Finish | ai-explore-dump-player/src/hooks/useDumpPlayer.ts:111-147 | The reference replay: events fed in order to the accumulator and extractor, stopping at the first terminal event, done when they run out. RunToEnd and PlayToCompletion tie the player to it. |
| DumpPlayer.Rest | ai-explore-dump-player/src/hooks/useDumpPlayer.ts:96-147 | What a suspended pass will produce if nothing interrupts it. StepKeepsRest and PauseResumeTransparent state that steps, pause and resume keep it. |
| DumpPlayer.StepKeepsRest | ai-explore-dump-player/src/hooks/useDumpPlayer.ts:96-147 | A step of a pass not cancelled keeps how the pass will end. It stays suspended with the same future, or it ends with that future's output, error and chart. The status matches too, except when the events run out with the pause flag set. |
| DumpPlayer.EndedKeepsOutput | ai-explore-dump-player/src/hooks/useDumpPlayer.ts:64-73 | Pause, resume and steps restart no ended pass and change none of its output. |
| DumpPlayer.ActionKeepsRest | ai-explore-dump-player/src/hooks/useDumpPlayer.ts:64-73 | A pause, a resume or a step keeps how a pass not cancelled will end. |
| DumpPlayer.PauseResumeTransparent | ai-explore-dump-player/src/hooks/useDumpPlayer.ts:64-141 | Under any interleaving of pause, resume and steps, a pass ends with the output, error and chart of an uninterrupted replay from the same point. |
| DumpPlayer.RunEnded | ai-explore-dump-player/src/hooks/useDumpPlayer.ts:151-153 | Steps of an ended pass change nothing. |
| DumpPlayer.FreeStep | ai-explore-dump-player/src/hooks/useDumpPlayer.ts:96-109 | A step of a pass with neither flag set leaves both clear, and a pass that goes on sits in the delay at the next index of the same events. |
| DumpPlayer.RunSettles | ai-explore-dump-player/src/hooks/useDumpPlayer.ts:151-153 | Once a run has ended within k steps, any longer run ends in the same state. |
| DumpPlayer.PassRanOut | ai-explore-dump-player/src/hooks/useDumpPlayer.ts:96-153 | A free pass that has ended after at most one step per remaining event is in the state of the full run, and that state shows the reference replay of its remaining events. |
| DumpPlayer.RunToEnd | ai-explore-dump-player/src/hooks/useDumpPlayer.ts:96-153 | A pass left alone ends within one step per remaining event, in the reference replay of those events. |
| DumpPlayer.PlayToCompletion | ai-explore-dump-player/src/hooks/useDumpPlayer.ts:75-154 | Playing a log with no request in between ends, after one step per event, in the replay of the whole log from empty text. |
| DumpPlayer.StopTakesEffect | ai-explore-dump-player/src/hooks/useDumpPlayer.ts:99-147 | A pass that observes stop, at either checkpoint, ends idle and processes nothing. |
| DumpPlayer.StopIsFinal | ai-explore-dump-player/src/hooks/useDumpPlayer.ts:59-109 | After stop, no event is processed under any stop, pause, resume and steps. The accumulator, output, error and chart stay as they were, and the first step ends the pass. |
| DumpPlayer.StopIsFinalWhenEnded | ai-explore-dump-player/src/hooks/useDumpPlayer.ts:59-73 | Stop, pause, resume and steps restart no ended pass and change none of its output. |
| DumpPlayer.StopWinsOverPause | ai-explore-dump-player/src/hooks/useDumpPlayer.ts:99-102 | With both stop and pause requested, in either order, the next step ends the pass idle. |
| DumpPlayer.PauseHolds | ai-explore-dump-player/src/hooks/useDumpPlayer.ts:99-101 | In the pause wait, a paused pass that is not stopped stays where it is. |
| DumpPlayer.PauseTakesEffectAtNextIndex | ai-explore-dump-player/src/hooks/useDumpPlayer.ts:96-111 | A pause requested during the delay lets the current event through. A pass that goes on holds in the pause wait at the next index. |
| DumpPlayer.EventsExhausted | ai-explore-dump-player/src/hooks/useDumpPlayer.ts:143-153 | When the events run out, the pass ends: idle after stop, done with no pause, otherwise the status it had. The output is unchanged. |
| DumpPlayer.TerminalEvents | ai-explore-dump-player/src/hooks/useDumpPlayer.ts:129-140 | An error event ends the pass with its message, or "Unknown error" when the message is empty. A done event ends it done. Nothing else changes. |
| DumpPlayer.ApplyExtractionConsistent | ai-explore-dump-player/src/hooks/useDumpPlayer.ts:117-126 | Each extraction keeps the chart consistent: a shown spec is the injected parse of the shown raw text, which passes the shape check; with no spec there is no raw text and no source. |
| DumpPlayer.ApplyKeepsChartConsistent | ai-explore-dump-player/src/hooks/useDumpPlayer.ts:45-224 | Every request and every step keeps the chart consistent. |
| DumpPlayer.PlayStarts | ai-explore-dump-player/src/hooks/useDumpPlayer.ts:75-97 | With events and no pass running, play resets the output, error, chart and flags and streams from index 0 over the current events. Afterwards stop and pause are possible, play and resume are not. |
| DumpPlayer.PlayNoOp | ai-explore-dump-player/src/hooks/useDumpPlayer.ts:76 | play does nothing with no events or while a pass runs. |
| DumpPlayer.ContinueStarts | ai-explore-dump-player/src/hooks/useDumpPlayer.ts:157-172 | continueFromPause does nothing with no events, while a pass runs, or when its render did not see paused. Otherwise it starts at idx + 1 from the text that render saw, clears stop and error, and leaves the pause flag. |
| DumpPlayer.LoadResets | ai-explore-dump-player/src/hooks/useDumpPlayer.ts:40-57 | loadEvents sets the events and returns to idle with the output, error, chart, flags and index cleared. Play is then possible exactly for a non-empty log, and stop, pause and resume are not. |
| DumpPlayer.LoadDoesNotCancel | ai-explore-dump-player/src/hooks/useDumpPlayer.ts:45-57 | loadEvents leaves a running pass running with its captured events, index and accumulator, and it clears the stop flag. |
| DumpPlayer.PauseGuards | ai-explore-dump-player/src/hooks/useDumpPlayer.ts:64-67 | pause sets the flag and shows paused at once. Resume and stop become possible, play and pause do not. |
| DumpPlayer.ResumeGuards | ai-explore-dump-player/src/hooks/useDumpPlayer.ts:69-73 | With events, resume clears the pause flag and shows streaming, making pause and stop possible. With no events it does nothing. |
| DumpPlayer.ScenarioFirstToken | src/utils/vegaExtract.ts:62-66 | A reply cut inside an open ```` ```json ```` block, before any `}`, yields `not_found`. |
| DumpPlayer.ScenarioFence | src/utils/vegaExtract.ts:15-21 | Once the block closes, the fenced search returns its body. |
| DumpPlayer.ScenarioSecondToken | src/utils/vegaExtract.ts:62-74 | The closed block's body, parsed to a valid spec, is found with source `fenced`. |
| DumpPlayer.ScenarioReplay | ai-explore-dump-player/src/hooks/useDumpPlayer.ts:111-140 | The replay of the two-token log ending in done ends done, with both deltas as output and the fenced spec shown. |
| DumpPlayer.ScenarioPlayback | ai-explore-dump-player/src/hooks/useDumpPlayer.ts:75-154 | Playing that log for three steps ends done, with no error, the fenced block as output, and the injected spec, the raw body and source `fenced` as the chart. |
| PlayerSession.Session.constructor | ai-explore-dump-player/src/hooks/useDumpPlayer.ts:22-38 | The first render's state: idle, empty, no pass, and the invariant holds. |
| PlayerSession.Session.LoadEvents | ai-explore-dump-player/src/hooks/useDumpPlayer.ts:45-57 | Updates the fields exactly as `loadEvents` does (as LoadResets and LoadDoesNotCancel describe) and keeps the invariant. |
| PlayerSession.Session.Stop | ai-explore-dump-player/src/hooks/useDumpPlayer.ts:59-62 | Sets the stop flag and clears the pause flag, and nothing else, keeping the invariant. |
| PlayerSession.Session.Pause | ai-explore-dump-player/src/hooks/useDumpPlayer.ts:64-67 | Sets the pause flag and shows paused, keeping the invariant. |
| PlayerSession.Session.Resume | ai-explore-dump-player/src/hooks/useDumpPlayer.ts:69-73 | With events, clears the pause flag and shows streaming, keeping the invariant. |
| PlayerSession.Session.AfterLoop | ai-explore-dump-player/src/hooks/useDumpPlayer.ts:143-153 | Ends the pass with the status EventsExhausted describes. |
| PlayerSession.Session.EnterLoop | ai-explore-dump-player/src/hooks/useDumpPlayer.ts:96-102 | Sets the index, then suspends in the pause wait, ends on stop, or suspends in the delay. |
| PlayerSession.Session.Play | ai-explore-dump-player/src/hooks/useDumpPlayer.ts:75-97 | Makes play's transition (PlayStarts, PlayNoOp) in place, keeping the invariant. |
| PlayerSession.Session.ContinueFromPause | ai-explore-dump-player/src/hooks/useDumpPlayer.ts:157-172 | Makes continueFromPause's transition (ContinueStarts) in place, keeping the invariant. |
| PlayerSession.Session.ApplyResult | ai-explore-dump-player/src/hooks/useDumpPlayer.ts:117-126 | Updates only the four extraction fields, as ApplyExtraction states. |
| PlayerSession.Session.AppendToken | ai-explore-dump-player/src/hooks/useDumpPlayer.ts:111-127 | A token event, in place, as `DumpPlayer.Step` does it: appends the delta, shows the text, applies the extractor, goes on to the next index, keeping the invariant. |
| PlayerSession.Session.Accumulate | ai-explore-dump-player/src/hooks/useDumpPlayer.ts:113-126 | The token case before the loop top: the accumulator grows by the delta, the stream text shows it, the chart takes the ApplyExtraction update for the extractor's answer on it, and nothing else changes. |
| PlayerSession.Session.Step | ai-explore-dump-player/src/hooks/useDumpPlayer.ts:99-141 | Resumes the pass once, in place, as `DumpPlayer.Step` does, keeping the invariant. |
| PlayerSession.Session.FreeStepOnce | ai-explore-dump-player/src/hooks/useDumpPlayer.ts:96-141 | One resumption of a pass with neither flag set, as `DumpPlayer.Step` does it: the events and both flags stay, and a pass that goes on sits in the delay one index further over the same captured events, with the invariant holding. |
| PlayerSession.Session.RunPass | ai-explore-dump-player/src/hooks/useDumpPlayer.ts:96-153 | A pass neither paused nor stopped runs to its end in one step per remaining event: its final state is exactly `Run` of that many `DumpPlayer.Step`s, the loaded events and both flags are unchanged, and by RunToEnd it leaves the status, output, error and chart of the reference replay of its remaining events, with the invariant holding. |

## Left out

- `sleep`, `randInt` and `speed` are left out, because the delay's length has no effect on what is computed. Only the delay's position as a suspension point is modelled (`Pass.waiting` is false).
- The pause-wait poll is modelled as a step that changes nothing while the pause flag is set (`PauseHolds`). The model does not keep time.
- The `catch` branches of `play` and `continueFromPause` (useDumpPlayer.ts:148-150, 218-220) are left out. The model's operations do not throw, and `JSON.parse` errors are caught inside the extractor.
- `copyText`, `copyVega` and the clipboard are left out: browser I/O.
- React rendering is modelled only through the stale closure values that `continueFromPause` reads. The `status` and `streamText` its render saw are the parameters `seenStatus` and `seenText`. `play`, `resume` and `continueFromPause` read the current `events` rather than the render's.
- Concurrency is modelled as interleaving. The page's requests land between a pass's steps, which matches a single-threaded event loop with suspension only at `await`.
- `JSON.parse` is a `Parser` argument and is never defined. Object member order and number formatting are not modelled, since objects are maps.
- `parseJSONL`'s `obj as StreamEvent` cast is unchecked, so the decoder returns the parsed records (`seq<Json>`). The player takes typed `StreamEvent` values. The mapping from a record to an event is not modelled.
- The regular-expression engine is replaced by a scanner (`MatchAt`, `Exec`). `MatchAtIsFirstWay` proves the scanner returns what the backtracking matcher returns. Only ASCII letters fold for the tag under `/i`, which matches ECMAScript's non-Unicode case folding.
- Strings are sequences of code points rather than UTF-16 code units. This changes nothing for the characters the core inspects.
- The four `vega*` state variables are one `Chart` field. A suspended pass's local variables are one `Pass` field.
- DumpPlayer.PauseResumeTransparent: the final status is not stated. A pass that runs out of events with the pause flag set ends paused instead of done, as the code does.
- VegaPreview, StreamingOutput, JsonBox and the page component are left out: presentation only.
