# open-video-splitter: planner, parser and run bookkeeping in Dafny

open-video-splitter is a browser tool that cuts one video into consecutive pieces with
FFmpeg compiled to WebAssembly. This project models the logic in `app.js` that is not
user-interface glue:

- `parseTimestamp` turns one token (`90`, `1.5`, `1:30`, `01:01:30`) into seconds, or
  into nothing.
- `calculateSegmentsByInterval`, `calculateSegmentsByTimestamps` and `PRESETS` turn a
  choice of strategy into a list of `{start, end, duration}` segments for a video of
  duration D.
- `handleSplit` picks the strategy and refuses bad input before any processing starts.
  Its three alerts are the three `PlanError` values.
- `processVideo` writes `input.mp4` into the engine, then handles the segments one by
  one. For each segment it cuts, reads back and deletes `segment_NNN.mp4`, and records
  an artifact with an object URL. It then deletes `input.mp4` and reports progress along
  the way. On any failure it calls `startOver`.
- `startOver` revokes every artifact URL, empties the artifact list and resets the
  video state.
- `formatTime` renders seconds as `m:ss`.

The modules follow the program's structure:

- `Wrappers`: `Option` and `Result`.
- `Text`: JavaScript's `trim`, `split`, the digit strings behind `parseInt` and
  `String(n)`, and `padStart`.
- `Timestamp`: `parseTimestamp` and `formatTime`.
- `Segments`: the `Segment` record and both planners.
- `Strategy`: `PRESETS` and the strategy dispatch of `handleSplit`.
- `Engine`: the FFmpeg instance.
- `Session`: the module-level state of `app.js` as a class, with `processVideo`,
  `startOver`, `handleSplit` and the progress figures.

Times are unbounded reals. The planners only add, subtract, take minima and compare
them. `parseTimestamp` multiplies by 60 and 3600, and `formatTime` divides by 60 and takes
JavaScript's `%`, whose remainder keeps the sign of the dividend. The engine's progress
handler multiplies and rounds. All of these are written out exactly, including
`Math.round`, `Math.floor` and the truncating `%`.

The FFmpeg engine is a class with a `loaded` flag and a file map from names to bytes.
Each of its operations may fail, by a nondeterministic choice. A failing operation
rejects, as the library's promise does. A file operation on an engine that is not
loaded always rejects.

`exec` may leave or change its output file whether FFmpeg succeeds or not. This is
because the library's `exec` resolves with an exit code and never rejects on a failed
run. The program ignores that code, so a failed cut only shows up when the following
`readFile` rejects. When `exec` does reject, that is an `ExecFailed` failure.

Object URLs are allocated as fresh natural numbers. The session keeps the set of
URLs that are still live. The video file's bytes come in as a parameter, where
`fetchFile` would read them.

Progress is recorded in a `reports` log that the run appends to, in the order
`updateProgress` is called:

- 0 when the engine is created;
- 10 once an engine handle exists, even one whose load failed earlier (see the note on
  the handle below);
- 10 + 80·i/n before segment i;
- 100 at the end.

`EngineProgress` states the figure the engine's progress handler reports.

What the model proves, in short:

- The parser matches its three-shape grammar exactly, in both directions. It ignores
  surrounding white space and never yields a negative number.
- Each planner returns exactly what its specification function says.
- Every accepted plan tiles [0, D]: it starts at 0, ends at D, has no gaps, overlaps or
  empty pieces, and its durations are end − start.
- An interval plan has ceil(D/step) pieces of length step, except that the last one
  may be shorter.
- The timestamp plan is refused when any piece of the field is bad. Otherwise it depends
  only on the set of times the field names, together with 0 and D. The order of the
  pieces, repeated times and pieces at 0 or at D, wherever they stand, make no difference.
- Each of `handleSplit`'s refusals leaves the session and the engine untouched.
- A completed run gives exactly one artifact per planned segment, in plan order. The
  artifacts carry the names `segment_001.mp4`, `segment_002.mp4`, … and the segment
  times, and no engine file from the run is left behind.
- An aborted run keeps no artifacts.
- The progress log is only ever appended to. Within one completed run, the figures after
  the engine is ready (10, one per segment, then 100) never decrease and stay within
  [10, 100]. A later run starts again at 10.

## Model

| member | source | states |
|---|---|---|
| Text.Trim | app.js:232 | `trim` leaves neither leading nor trailing white space (the white space of JavaScript, line terminators included) |
| Text.TrimAbsorbsSpaces | app.js:232 | white space added on either side of a token does not change what `trim` returns |
| Text.TrimIdempotent | app.js:204 | trimming a piece that was already trimmed changes nothing (the pieces are trimmed at 204 and again at 232) |
| Text.TrimNotBlank | app.js:201 | a text holding any character that is not white space is not blank after `trim` |
| Text.Split | app.js:204 | `split(',')` always gives at least one piece; `SplitPieces` and `SplitJoin` state which pieces |
| Text.SplitPieces | app.js:204 | no piece of `split(',')` contains the separator, and joining the pieces with it gives back the text |
| Text.SplitJoin | app.js:204 | splitting a join of separator-free pieces gives back exactly those pieces, empty pieces included |
| Text.SplitConcat | app.js:204 | splitting `a + sep + b` gives the pieces of `a` followed by the pieces of `b` |
| Text.Decimal | app.js:279 | `String(n)` is a digit string with no leading zero that denotes n |
| Text.PadStart | app.js:279 | `padStart` gives at least the requested width and only prepends fill characters |
| Text.ZeroPaddedValue | app.js:279 | a zero-padded decimal is still a digit string denoting the same number |
| Timestamp.ParseTimestamp | app.js:231-252 | a parsed timestamp is never negative |
| Timestamp.ParseSound | app.js:231-252 | every value the parser returns is denoted by the trimmed token under the three-shape grammar |
| Timestamp.ParseComplete | app.js:231-252 | every trimmed token that denotes v under the grammar parses to v |
| Timestamp.ParseTimestampGrammar | app.js:231-252 | the parser returns v exactly when the trimmed token is `\d+(\.\d+)?` with value v, `M:S` with one or two digits of S and v = 60M + S, or `H:MM:SS` with v = 3600H + 60MM + SS |
| Timestamp.ParseSeconds | app.js:235-237 | a digit string parses to its value |
| Timestamp.ParseDecimalSeconds | app.js:235-237 | `a.b` with digit strings a and b parses to a plus the fraction b |
| Timestamp.ParseMinSec | app.js:240-243 | `M:S` with one or two digits of S parses to 60M + S |
| Timestamp.ParseHourMinSec | app.js:246-249 | `H:MM:SS` with two digits each for MM and SS parses to 3600H + 60MM + SS |
| Timestamp.ParseIgnoresSpaces | app.js:232 | spaces around the token are ignored |
| Timestamp.ParseExamples | app.js:231-252 | "90" is 90, "1:30" is 90, "01:01:30" is 3690, and "abc", "1:1:1:1" and "" are refused |
| Timestamp.FormatTime | app.js:430-434 | computes the whole minutes floor(seconds / 60), a colon, and floor(seconds % 60) with JavaScript's truncating remainder, padded to two digits; what the text means is stated by `FormatTimeFields` and `FormatTimeRoundTrip` |
| Timestamp.FormatTimeFields | app.js:430-434 | `formatTime` of a non-negative number is a digit string, a colon and exactly two digits |
| Timestamp.FormatTimeRoundTrip | app.js:430-434 | parsing what `formatTime` prints gives back the whole seconds |
| Segments.Ceil | app.js:187-195 | the ceiling c of x is the integer with c − 1 < x ≤ c |
| Segments.IntervalPlan | app.js:183-198 | the interval plan has `IntervalCount` pieces; piece i runs from i·step to min((i+1)·step, D) |
| Segments.IntervalCountBound | app.js:187 | the loop guard `k·step < D` holds exactly for the first `IntervalCount` values of k, so the loop ends |
| Segments.SegmentsByInterval | app.js:183-198 | the while loop returns exactly the interval plan (it requires step > 0) |
| Segments.IntervalSegmentInside | app.js:188-192 | each interval piece starts before it ends, lies within [0, D], and its duration is end − start |
| Segments.IntervalSegmentsMeet | app.js:188-194 | each piece but the last is exactly one step long and ends where the next one starts |
| Segments.IntervalPlanTiles | app.js:183-198 | for D > 0: the first start is 0, the last end is D, pieces meet end to start, there are ceil(D/step) of them, all but the last are step long and the last is at most step |
| Segments.IntervalPlanEmpty | app.js:187 | D ≤ 0 gives no segments |
| Segments.InsertSorted | app.js:217 | inserting a new value into a strictly increasing list keeps it strictly increasing and adds exactly that value |
| Segments.SortedValues | app.js:217 | the reference for `[...new Set(ts)].sort`: strictly increasing, and holding exactly the values of its input |
| Segments.StrictlyIncreasingUnique | app.js:217 | two strictly increasing lists with the same values are equal, so the sorted duplicate-free list is unique |
| Segments.Times | app.js:206-212 | when every piece is accepted, the collected times are the pieces' parsed values in order, each within [0, D] |
| Segments.Dedupe | app.js:217 | `new Set` keeps each value of its input exactly once and adds nothing |
| Segments.SortAscending | app.js:217 | `sort((a, b) => a - b)` gives an ascending permutation of its input |
| Segments.AscendingDistinct | app.js:217 | an ascending list holding each value at most once is strictly increasing |
| Segments.CollectTimes | app.js:206-212 | the token loop returns the parsed times when every piece parses within [0, D], and refuses otherwise |
| Segments.DistinctAscending | app.js:217 | the dedupe and sort give exactly the sorted duplicate-free list of the cuts |
| Segments.PairNeighbours | app.js:219-226 | the pairing loop gives one segment per pair of neighbouring cuts |
| Segments.SegmentsByTimestamps | app.js:200-229 | the whole function returns exactly the timestamp plan: nothing for a blank field or any bad piece, and otherwise the neighbouring pairs of the sorted duplicate-free cuts {0, D} ∪ times |
| Segments.TimestampPlan | app.js:200-229 | the reference for the timestamp planner: nothing for a blank field or one with any bad piece, else the neighbouring pairs of the sorted, duplicate-free cut points 0, the times and D |
| Segments.ConsecutiveContiguous | app.js:219-226 | pairing a strictly increasing list gives segments that meet end to start and each have positive duration end − start |
| Segments.CutsInRange | app.js:203-214 | an accepted field implies D ≥ 0, and every cut lies within [0, D] |
| Segments.TimestampPlanTiles | app.js:200-229 | for D > 0, an accepted timestamp plan tiles [0, D] with positive durations |
| Segments.CutsElems | app.js:203-214 | the cut points of an accepted field are exactly 0, D and the times of its pieces |
| Segments.TimestampPlanOfTimeSet | app.js:203-228 | two accepted fields naming the same times, 0 and D aside, have the same plan: order, repeats and boundary times make no difference |
| Segments.RepeatedCutAddsNothing | app.js:217 | adding a piece whose time is already a cut leaves the plan unchanged |
| Segments.BoundaryCutsAddNothing | app.js:203-217 | adding a piece at 0 or at D leaves the plan unchanged |
| Segments.BadPieceRefusesField | app.js:206-210 | one bad piece anywhere in the field, empty pieces included, refuses the whole field |
| Segments.GoodPiecesPlanField | app.js:201-228 | a non-blank field whose pieces are all accepted gives a plan |
| Segments.PiecesOfJoin | app.js:204 | the pieces of a comma-joined field are its parts, trimmed, in order |
| Segments.TwoCutPlan | app.js:200-229 | two cuts 0 < x < y < D give (0,x), (x,y), (y,D), whichever order they are written in |
| Segments.ExampleThirtySixty | app.js:200-229 | "30,60" with D = 90 gives (0,30), (30,60), (60,90), and "60,30" gives the same |
| Segments.TimestampPlanNonEmpty | app.js:200-229 | an accepted timestamp plan is empty exactly when D ≤ 0 |
| Segments.TimestampPlanZero | app.js:200-229 | with D = 0 every cut is 0 and an accepted field plans no segments |
| Strategy.PresetSeconds | app.js:30-33 | every preset is at least one second (Instagram 15, TikTok 60) |
| Strategy.PlanOf | app.js:151-177 | the reference for the dispatch: a preset is planned at its interval, an interval must be present and at least 1, a timestamp field must be accepted, and an empty plan is refused; each refusal is its own `PlanError` |
| Strategy.PlanSplit | app.js:151-177 | the dispatch returns exactly the plan of the chosen strategy, or the error of the guard that fires |
| Strategy.PlanAccepted | app.js:151-177 | when no guard refuses the input, a plan is produced exactly when D > 0 |
| Strategy.PlanErrors | app.js:155-177 | "valid segment duration" fires exactly for an interval that is missing or below 1, "valid timestamps" exactly for a refused field, and "No segments" exactly for accepted input with D ≤ 0 |
| Strategy.PlanTiles | app.js:151-177 | every plan handed to `processVideo` tiles [0, D] |
| Strategy.PresetPlan | app.js:170-171 | a preset cuts a video with D > 0 into ceil(D/seconds) pieces of the preset's length, and the last one may be shorter |
| Engine.Engine.constructor | app.js:329 | a new FFmpeg instance is not loaded and holds no files |
| Engine.Engine.Load | app.js:337-340 | after `load` the engine is loaded exactly if it was before or the load succeeded; no file changes |
| Engine.Engine.WriteFile | app.js:272 | a successful write stores the bytes under the name; a failed one changes nothing |
| Engine.Engine.Exec | app.js:285-292 | `exec` changes at most its output file |
| Engine.Engine.ReadFile | app.js:295 | a successful read returns the stored bytes of an existing file |
| Engine.Engine.DeleteFile | app.js:307-311 | a successful delete removes an existing file; a failed one changes nothing |
| Session.SegmentName | app.js:279 | the output name of segment k: `segment_`, k zero-padded to three digits, `.mp4`; its properties are the `SegmentName…` lemmas below |
| Session.ZeroPaddedIsPadStart | app.js:279 | the zero padding used in the names is `String(i + 1).padStart(3, '0')` |
| Session.SegmentNameShape | app.js:279 | a name is `segment_`, at least three digits denoting the number (no leading zero beyond the padding), then `.mp4` |
| Session.SegmentNameInjective | app.js:279 | two segment numbers give the same name exactly when they are equal |
| Session.SegmentNameNotInput | app.js:272-279 | no output name is `input.mp4` |
| Session.FirstSegmentName | app.js:279 | the first segment is `segment_001.mp4` |
| Session.SegmentProgress | app.js:281 | the figure reported before segment i of n, 10 + (i / n)·80 |
| Session.SegmentProgressBounds | app.js:281 | the figure reported before segment i of n lies in [10, 90) |
| Session.SegmentProgressIncreasing | app.js:281 | that figure strictly increases with i |
| Session.Round | app.js:332 | `Math.round` on exact reals: floor(x + 1/2), so halves go up |
| Session.EngineProgress | app.js:331-334 | the engine handler's figure 10 + round(100p)·0.8, over the whole bar |
| Session.EngineProgressBounds | app.js:331-334 | an engine progress fraction in [0, 1] is reported as 10 + 0.8·round(100p), within [10, 90] |
| Session.EngineProgressCanFallBack | app.js:331-334 | an engine progress event that follows the segment report can make the bar go back, from 50 to 10 for the second of two segments |
| Session.RunReportsAscending | app.js:267-313 | the figures of a completed run (10, one per segment, then 100) never decrease and stay within [10, 100] |
| Session.SegmentNamesNext | app.js:277-279 | the names of n + 1 segments are those of n plus the next one |
| Session.UrlsOfAppend | app.js:298-304 | adding an artifact adds its URL to the artifact URLs |
| Session.FollowsPlanAppend | app.js:298-304 | appending the artifact for the next segment keeps the list in step with the plan |
| Session.ArtifactsOfTilingPlan | app.js:298-304 | artifacts that follow a tiling plan tile [0, D] in order, and their names are pairwise distinct |
| Session.CleanedFiles | app.js:272-311 | writing the input, deleting every output and then the input leaves exactly the files that were there before, minus those names |
| Session.Session.constructor | app.js:1-5 | a new session has no engine, duration 0, no artifacts, no live URLs and no progress |
| Session.Session.SetDuration | app.js:107 | the video duration is replaced and nothing else changes |
| Session.Session.CreateObjectUrl | app.js:301 | a fresh URL, never handed out before, becomes live |
| Session.Session.RevokeObjectUrl | app.js:418 | the URL stops being live |
| Session.Session.StartOver | app.js:415-427 | every artifact URL is revoked and only those, the artifact list is empty and the duration is 0 |
| Session.Session.EnsureEngine | app.js:327-340 | an existing engine is kept; otherwise progress 0 is reported and a new engine is created and stored before loading, whatever the outcome of the load |
| Session.Session.CutSegment | app.js:278-307 | one pass of the loop: progress 10 + 80·i/n is reported, then on success one artifact with the next name, the segment's times and a fresh URL is appended and its engine file is gone |
| Session.Session.CutAll | app.js:274-308 | the loop starts from an empty list; if no engine call fails it leaves one artifact per segment in plan order, no output files and the per-segment progress figures |
| Session.Session.ProcessVideo | app.js:254-325 | a completed run yields artifacts matching the plan in order, with fresh live URLs; the engine's files are those before the run minus `input.mp4` and the segment names; the progress log gains (0,) 10, the per-segment figures and 100. An aborted run leaves no artifacts and a duration of 0 |
| Session.Session.HandleSplit | app.js:146-181 | a refused strategy returns its error and changes neither the session nor the engine; otherwise `processVideo` runs, a completed run's artifacts tile [0, D], and an aborted one's are empty |
| Session.StartOverTwice | app.js:415-420 | a second `startOver` changes nothing more than the first: both together revoke the artifact URLs once and leave the list empty |

## Left out

- User-interface glue is left out because none of it is planning logic. This covers
  element lookups, drag and drop, radio-button visibility, `showResults`,
  `downloadSegment`, `alert`, the `setTimeout` before the results and the styles and
  text written by `updateProgress`. `updateProgress` survives only as the appended
  `reports` figure.
- The internals of `loadFFmpeg` are left out, because they are foreign code. This
  covers fetching the core from the CDN, the WebAssembly runtime and the meaning of
  `exec`'s FFmpeg arguments. The engine is an abstract file map whose operations may
  fail. Segment start and duration reach `Exec` as numbers; how `toString` prints them
  is not modelled.
- Blobs and object URLs are abstract: a URL is a fresh natural number, live until
  revoked. An artifact holds the bytes read back rather than a `Blob` wrapping them.
- `downloadAllAsZip` and JSZip are left out: they are an external archive service
  plus download I/O.
- `processFile`'s metadata loading is left out. The duration is set with `SetDuration`,
  and `fetchFile(videoFile)` becomes the `input` bytes parameter. The `videoFile`,
  `videoInput` and preview resets in `resetToUpload` are UI state.
- Asynchrony is left out, and the run is a plain sequential loop. Engine progress
  events arrive in the browser while `exec` is pending. Their figure is
  `EngineProgress`, but they are not entries of the `reports` log, so the log does not
  capture when they interleave with the segment reports. `EngineProgressCanFallBack`
  shows the effect.
- IEEE floating point is left out. This covers `parseFloat` rounding, NaN and Infinity
  durations, and `Math.min`, `Math.round` and `Math.floor` on floats; times are exact
  reals.
- Unknown preset keys are left out: a preset is one of the two keys of `PRESETS`. An unknown key,
  which the radio buttons cannot produce, would make `PRESETS[key]` undefined; that
  case is not modelled.
- The text parsing of the interval field is left out: the field is modelled by what `parseInt` returns for it,
  `None` standing for NaN. How `parseInt` reads the field's text is not modelled.
- Session.Session.ProcessVideo: after an aborted run, nothing is promised about the
  engine's files. The program does not clean them up, and a run can stop between
  writing a file and deleting it.
- Segments.Dedupe: does not state that `new Set` keeps the order of first occurrences,
  because the sort that follows discards order.
- Timestamp.FormatTimeRoundTrip: proved only for non-negative durations, which is what
  `formatTime` is given. For negative input, JavaScript's truncating `%` gives a
  negative seconds field; `JsRemainder` models that, but nothing is proved about it.

## Notes on behaviour as written

- The handle is set before loading. `loadFFmpeg` stores the new FFmpeg instance in
  `ffmpeg` before `load` completes (app.js:329). After a failed load, a later run
  therefore skips loading, and every engine call of that run rejects.
  `EnsureEngine` states it as written.
- Old URLs are not revoked before a new run. `processVideo` replaces `splitSegments`
  with `[]` at the start of a run without revoking the previous run's URLs
  (app.js:274). `ProcessVideo` states this: on a completed run the old URLs stay live.
  Only an abort that happens before the loop, a failed load or write, revokes them,
  through `startOver`.
- Engine progress is not scaled per segment. An engine progress event is reported as
  10 + 0.8·round(100p) over the whole bar, not within the current segment's slice.
  The progress figure is therefore not monotone across segments once engine events
  are counted. As `EngineProgressCanFallBack` shows, an event at the start of the
  second of two segments takes the bar from 50 back to 10. The model follows the code.
