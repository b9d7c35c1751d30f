# YouTube downloader: retry controllers, status tracker and client helpers

This project models the logic of a small YouTube downloader web service, and of
its browser script. The service puts a fallback-and-retry controller around a
single extractor library call.

Three entry points drive the extractor:

- `get_video_info` fetches metadata.
- `download_video` downloads into a status-tracked entry.
- The streaming `/api/download` route downloads into a scratch directory.

Each entry point walks a fixed list of extractor client *personas*, in order,
and stops at the first success:

- `get_video_info` walks the personas alone. On a format error it retries
  once with `extract_flat`; on any other error, or when that retry fails, it
  moves to the next persona. When every persona fails it answers an error
  dictionary whose summary depends on the errors collected and on whether
  `cookies.txt` exists.
- `download_video` walks the personas times a list of *format selectors*
  chosen from the requested format type and quality. A format error moves to
  the next selector and any other error to the next persona. After a
  `DownloadError` it first retries in place with a plain `best` format after an
  ffmpeg-merge error, then with the permissive format
  `best[ext=mp4]/best[height<=360]/best` after an images-only or storyboard
  error, before it decides where to go next. When every pair fails the entry
  holds a summary that depends on the errors collected and on whether
  `cookies.txt` exists.
- The streaming route walks the same pairs. A format error moves to the next
  selector; an ffmpeg-merge error gets one retry with a plain `best` format;
  any other error, or a failed retry, moves to the next persona. It has no
  images-only retry, and when every pair fails it answers the fixed text
  `Failed to download video. Please try again.` with status 500.

The model is in Dafny. The extractor is a plain function parameter, an oracle
from the call (persona index, selector index, retry kind and resolved options)
to its outcome. Each controller is an imperative method with `while` loops
that mirror the source's nested `for`/`continue`/`break`. Each method is proved
equal to a specification function: the trace of passes the loops make.
Lemmas about that trace state what the source promises:

- the first success wins;
- every call stays inside its entry point's space and in order;
- in the two download paths a format error continues and any other error
  breaks;
- the summary texts are exactly determined by the errors and the cookie flag;
- the status entry ends `completed` or `error`, with what the progress hooks
  left.

Modules, one per concern of the source:

| module | file | models |
|---|---|---|
| `Text`, `Splitting` | text.dfy | substring search, ASCII lower-casing, decimal digits, `str.split`/`join` |
| `ConfigSpace` | config_space.dfy | persona lists, selector list, option resolution |
| `ErrorText` | errors.dfy | error classifiers, both failure summaries, decoders for them |
| `Status` | status.dfy | `download_status` entries, `progress_hook`, status key, `get_status` |
| `RetryWalk` | walk.dfy | the nested persona × selector loop with `continue`/`break`, as positions |
| `MetadataController` | metadata.dfy | `get_video_info` and `/api/info` |
| `DownloadController` | download.dfy | `download_video` with its override retries |
| `Delivery` | delivery.dfy | content type, `Content-Disposition`, 8192-byte chunking |
| `StreamRoute` | streaming.dfy | the `/api/download` route, its scratch directory and generator |
| `Client` | client.dfy | `formatDuration`, the URL checks, the filename parse |

Behaviour of the code that is easy to miss, and that the model keeps:

- `formatDuration`'s short form `M:SS` does not pad the minutes (static/script.js:22). Only the hours form pads both fields.
- A status entry can be `completed` without progress 100: a download can succeed without a `finished` hook. An entry can also reach progress 100 and state `completed` through a `finished` hook, during an attempt that then fails. `Status.CompletedIffFinished` and `DownloadController.FinalOutcome` state what does hold.
- `/api/info` answers 200 with the error dictionary when every persona failed (app.py:334-335). It answers 400 only for a missing, `null` or empty URL.
- The video id is taken after the *last* `watch?v=` of the URL (app.py:167, `split(...)[-1]`).
- The default format type `best` matches neither `video` nor `audio`, so no selector is tried. `download_video` then ends in `error`, and the streaming route answers 500.
- The streaming route serves the first file `glob` lists in its scratch directory once a call returns. That directory lives for the whole request and each call finds it as the previous call left it, so the file served need not be one the successful call produced: it can be one an earlier, failed call left there and no later call removed (`StreamRoute.RouteOutcome`).
- A JSON `null` in a request body is not a missing field: `data.get(key, default)` returns `None`. A `null` format type, or a `null` quality with the video format type, gives no selector, so the streaming route answers 500 (`StreamRoute.RouteSelectors`).
- A `None` value can make the source raise where a missing key would not. A `formats` of `None` makes `len` raise, so that persona misses (`MetadataController.TryPersonaResult`). A `downloading` progress event makes the hook raise when its total (`total_bytes`, or the estimate when that is missing or 0) is `None`, or when the total is positive and the downloaded count is `None`; a total of 0 skips the division, so a `None` downloaded count then does not raise (`Status.HookFailure`). A raising hook ends that extractor call (`DownloadController.Observed`).

## Model

| member | source | states |
|---|---|---|
| ConfigSpace.Selectors | app.py:217-230 | the selector list is non-empty exactly for audio, or video with quality best/720p/480p/360p; it has at most two entries, always ends with plain `best`, and a two-entry list starts with something other than `best` |
| ConfigSpace.SelectorsByRequest | app.py:217-230 | video with quality `Np` gives `best[height<=N]` then `best`; video/best gives `best` alone; audio gives the same list whatever the quality; any other format type, the default `best` included, gives none |
| ConfigSpace.Resolve | app.py:68-79 | `cookiefile` is set iff cookies exist and the persona is not `no_cookies`; `extractor_args` is absent exactly for `{}`, and otherwise forwards the persona's `player_client` list only |
| ConfigSpace.CookieFileOnlyWithoutNoCookiesPersona | app.py:196-263 | with cookies, the only download persona without the cookie file is the first (android_vr) and the only metadata one is the last; without cookies no persona sends it |
| ConfigSpace.PersonaListsShape | app.py:34-52 | each list holds five distinct personas with exactly one `{}`; with cookies the metadata list is the download list with its first persona moved last; without cookies the two lists are equal |
| ErrorText.AnyIffExists | app.py:140-142 | the `any(...)` flag holds iff some collected error satisfies the predicate |
| ErrorText.MetadataReasonPrecedence | app.py:139-149 | the bot phrase is chosen iff some error is a bot error; the unavailable phrase iff none is and some error is an unavailability error; the private phrase iff neither and some error is private; no phrase otherwise |
| ErrorText.Excerpt | app.py:157-161 | an error of at most 100 characters is kept whole; a longer one keeps its first 100 characters followed by `...` |
| ErrorText.MetadataSummaryDecodes | app.py:136-163 | the metadata summary reads back as the reason chosen, the cookie flag, and the excerpt of the first error, or no excerpt when there is no error |
| ErrorText.DownloadSummaryDecodes | app.py:309-319 | the download summary reads back as whether some error is a bot error, and the cookie flag; nothing else is in it |
| ErrorText.FormatErrorReadsAsUnavailable | app.py:141 | a message containing `format is not available` counts as an unavailability error |
| Status.TotalBytes | app.py:179 | the total is `total_bytes` when it is present and non-zero; otherwise it is the estimate, 0 when the estimate is missing and `None` when the estimate is `None` |
| Status.HookFailure | app.py:177-182 | the hook raises exactly on a `downloading` event whose total reads as `None` (the comparison with 0 fails), or whose total is positive and whose downloaded count is `None` (the division fails) |
| Status.HookEffect | app.py:177-187 | a call that raises leaves the entry unchanged; no call touches the error field; only a `finished` call changes the state or the filename |
| Status.FirstRaising | app.py:177-182 | the first event of a run on which the hook raises, or none when it raises on no event |
| Status.ApplyHooksAppend | app.py:177-187 | applying two runs of hook calls one after the other is applying their concatenation |
| Status.HooksKeepErrorAndOnlyComplete | app.py:177-187 | hook calls never change the error field, and leave the state as it was or `completed` |
| Status.CompletedIffFinished | app.py:170-187 | from the initial entry, the hooks leave `completed` iff one of them reported `finished`, and never `error` |
| Status.FinishedIsLast | app.py:184-187 | after a `finished` call the entry has progress 100, state `completed` and the reported filename |
| Status.ProgressInRange | app.py:178-183 | progress stays within 0..100 while every `downloading` call reports no more bytes than its total |
| Status.VideoIdShape | app.py:167 | the id is `video` without `watch?v=`; otherwise it is the text after the last `watch?v=`, cut before the first `&`, and contains no `&` |
| Status.StatusKeyRoundTrip | app.py:167-168 | the status key reads back as its video id and its timestamp |
| Status.SameKeySameIdAndSecond | app.py:168 | two downloads share a key only when they have the same video id and the same second |
| Status.DownloadStatus.Start | app.py:170-175 | the entry under the key is replaced by `downloading`, progress 0, filename `''`, no error; other keys are untouched |
| Status.DownloadStatus.Hook | app.py:177-187 | one hook call updates the entry under the key as the hook does; other keys are untouched |
| Status.DownloadStatus.Hooks | app.py:177-187 | a run of hook calls updates the entry as the calls do in order |
| Status.DownloadStatus.MarkCompleted | app.py:268 | only the state of the key's entry becomes `completed` |
| Status.DownloadStatus.MarkError | app.py:310-319 | the key's entry becomes `error` carrying the summary, other fields kept |
| Status.DownloadStatus.Lookup | app.py:520-524 | a known key answers 200 with its entry; an unknown key answers 404 with `Status not found` |
| RetryWalk.Dispatch | app.py:234-307 | after a `break` no later pass uses that persona; after a `continue` that is not on the last selector, the next pass is the next selector of the same persona |
| RetryWalk.WalkCoversPersonas | app.py:234-307 | when no pass returns, every later persona is started on its first selector |
| RetryWalk.OnlyLastDone | app.py:265-269 | only the last pass of the walk can be the one that returned |
| DownloadController.FinalOutcome | app.py:165-320 | the final entry is `completed` with no error iff some call succeeded; otherwise `error` with the download summary of the primary messages; its progress and filename are what the hooks left |
| DownloadController.FirstSuccessWins | app.py:265-292 | over the whole walk every call but the last failed, and the download succeeded iff the last call did |
| DownloadController.SucceedsIffSomeCallSucceeds | app.py:265-307 | the download succeeded iff some call of the walk succeeded |
| DownloadController.ErrorsArePrimaryMessages | app.py:270-302 | `errors` is the list of the primary calls' messages, in call order |
| DownloadController.HooksAreCallHooks | app.py:177-187 | the progress-hook calls the entry sees are those of every call in order |
| DownloadController.NoSelectorsNoCalls | app.py:217-232 | with no selector no call is made, and the entry ends `error`, progress 0, with the summary of no errors |
| DownloadController.RunsOrdered | app.py:234-235 | passes visit the persona × selector pairs in strictly increasing order, so no pair is tried twice |
| DownloadController.DispatchRuns | app.py:296-307 | a `break` skips the rest of that persona's selectors; a `continue` moves to the next selector of the same persona |
| DownloadController.EveryPersonaTried | app.py:234-309 | when the download fails and some selector exists, every persona was tried |
| DownloadController.TraceInSpace | app.py:234-263 | every call is inside the persona × selector space and carries the options resolved for its persona, selector and kind |
| DownloadController.Observed | app.py:177-187 | a call as `download_video` sees it keeps the hook events before the first one the hook raises on, none of which raises; that event ends the call with the hook's `TypeError`, not a DownloadError; a call whose hook never raises is seen as it is |
| DownloadController.TrySelectorCalls | app.py:236-294 | a pass makes one to three calls; the first is the primary call and no later one is; all use this persona and selector |
| DownloadController.TrySelectorOutcome | app.py:265-307 | every call of a pass but the last failed; the pass returns iff its last call succeeded; it collects only the primary message; it continues iff that message is a format error, otherwise it breaks |
| DownloadController.OverrideRetries | app.py:270-294 | the `best` retry happens iff the primary DownloadError mentions ffmpeg and merging; the permissive retry happens iff it is an images-only or storyboard DownloadError and the `best` retry did not succeed; each happens at most once |
| DownloadController.TrySelectorErrors | app.py:270-302 | the messages a pass collects are those of its primary calls |
| DownloadController.TrySelectorHooks | app.py:177-187 | the hook calls of a pass are the hook calls its extractor calls made, in order |
| DownloadController.RunOverrides | app.py:270-294 | the override retries against the store: what the specification says, and the entry updated by their hooks |
| DownloadController.AttemptSelector | app.py:236-307 | one pass against the store: the pass of the specification, and the entry updated by its hooks |
| DownloadController.Pass | app.py:236-307 | one pass with its bookkeeping: the collected errors, the entry, and the passes still to make |
| DownloadController.TryPersona | app.py:235-307 | the inner loop over selectors: it returns iff a pass succeeded, and leaves the passes still to make from the next persona |
| DownloadController.RunPersonas | app.py:234-320 | the outer loop leaves the entry that the final-entry specification gives for the walk |
| DownloadController.DownloadVideo | app.py:165-320 | returns the status key of the URL and clock reading, and leaves under it the final entry of the walk over the calls as the progress hook lets them end; other keys are untouched |
| MetadataController.FoundIffSomePersonaFinds | app.py:56-163 | the result is a summary iff some persona finds the video |
| MetadataController.FirstSuccessWins | app.py:88-121 | if persona k is the first to find the video, exactly personas 0..k are tried and the result is persona k's summary |
| MetadataController.AllPersonasFail | app.py:122-163 | when every persona misses, all are tried, `errors` is their messages in order, and the result is the metadata summary of them |
| MetadataController.PersonasInOrder | app.py:56-134 | the personas are tried in list order, at most once each, at least one when the list is non-empty, and every one but the last missed |
| MetadataController.FormatFailureNeverReadsPrivate | app.py:139-149 | when the lookup failed and some collected error contains `format is not available`, the summary names blocking or unavailability, never privacy |
| MetadataController.TryPersonaCalls | app.py:81-111 | a persona gets one call, and a second `extract_flat` call iff the first ended in a DownloadError with a format error |
| MetadataController.TryPersonaResult | app.py:82-134 | a persona finds the video iff the first call extracted a dictionary whose `formats` is not `None`, or the first call raised a format DownloadError and the flat retry extracted; the first call reports `len(formats)`, 0 for a missing key, and a `None` one makes `len` raise and the persona miss with that message; the flat retry reports 0; any other miss carries the first call's message |
| MetadataController.AttemptPersona | app.py:57-134 | one pass of the loop body computes the attempt the specification gives for that persona |
| MetadataController.RunInfo | app.py:54-163 | the loop returns the result the specification gives for the personas' attempts |
| MetadataController.GetVideoInfo | app.py:25-163 | returns the specified result for the metadata persona list of the cookie flag |
| MetadataController.InfoRoute | app.py:326-335 | a missing, `null` or empty URL answers 400 `URL is required`; otherwise 200 with the controller's result, an error dictionary included |
| Delivery.SuffixIsExtension | app.py:446 | the lower-cased suffix is `.mp4` (or `.mp3`) iff the name ends with it in any case after a non-empty stem |
| Delivery.ContentTypeByExtension | app.py:446-447 | `video/mp4` exactly for `.mp4` names, `audio/mpeg` exactly for `.mp3`, `application/octet-stream` for all other names |
| Delivery.ChunksReassemble | app.py:428-434 | the chunks put together give back the file |
| Delivery.ChunkSizes | app.py:430-434 | every chunk holds 1 to 8192 bytes, all but the last exactly 8192, and there are ceil(size / 8192) of them |
| Delivery.ReadChunks | app.py:428-434 | the read loop yields exactly the chunks of the file |
| StreamRoute.RouteOutcome | app.py:388-507 | every call finds the directory as the previous call left it, starting from an empty one; the route streams iff some pass delivered; then only the last pass did, the last call of the request returned, and the file served is the first file of the directory as that call left it; otherwise it answers 500 with the failure text |
| StreamRoute.RunsArePasses | app.py:388-502 | every pass is inside the persona × selector space and is the specified pass for the directory the previous one left; it ends the walk iff it delivered a file |
| StreamRoute.PassesThreadDirectory | app.py:388-421 | the calls of the passes are made one after the other, each against the directory the previous call left, the first against the one the walk is entered with; the passes leave the directory as the last call left it |
| StreamRoute.DispatchStream | app.py:457-498 | a `break` skips the rest of that persona's selectors; a `continue` moves to the next selector of the same persona |
| StreamRoute.NoSelectorsNoCalls | app.py:340-387 | the route makes no call iff the body's values give no selector, as for a missing or `null` format type or a `null` video quality, and then it answers 500 |
| StreamRoute.RouteSelectors | app.py:341-386 | with both values present the list is the selector list; a `null` format type gives none; audio gives the audio list whatever the quality; any other format type with a `null` quality gives none |
| StreamRoute.RouteRequest | app.py:340-386 | the request walks the download persona list, the selectors of the body's values (`best` for a missing field, `None` for a `null` one), and asks for mp3 iff the format type is `audio` |
| StreamRoute.TryStream | app.py:415-502 | a pass stays at its persona and selector, and only ends the walk with something in the directory |
| StreamRoute.TryStreamOutcome | app.py:416-498 | a pass makes a second call iff the first raised a merge error that is not a format error; the first call finds the directory the pass is entered with, the second the one the first left; the pass leaves the directory as its last call left it; it ends the walk iff its last call returned leaving a file; it continues on a format error or a return that left the directory empty |
| StreamRoute.ScratchDir.Receive | app.py:392-419 | the directory becomes the one the extractor call left, which may have gained, lost or renamed files |
| StreamRoute.ScratchDir.Remove | app.py:500-505 | the directory is removed with everything in it |
| StreamRoute.AttemptStream | app.py:415-502 | one pass against the directory computes the specified pass and leaves the directory it describes |
| StreamRoute.Pass | app.py:415-502 | one pass with its bookkeeping: the passes made, the directory they left, and the passes still to make |
| StreamRoute.RunPersona | app.py:389-502 | the inner loop over selectors: it stops iff a pass delivered, and leaves the passes still to make from the next persona |
| StreamRoute.RunPersonas | app.py:388-502 | the outer loop makes exactly the specified passes and reports whether the last one delivered |
| StreamRoute.RunPasses | app.py:388-507 | the answer is the one the passes specify; a stream keeps the directory the passes left; a 500 answer removes it |
| StreamRoute.RunRequest | app.py:348-507 | the same, for the request's own passes |
| StreamRoute.DownloadRoute | app.py:337-507 | a missing, `null` or empty URL answers 400 `URL is required` and makes no directory; otherwise the answer the request's passes specify, in a fresh directory |
| StreamRoute.Generate | app.py:427-441 | the body is the file's chunks, which put together give the file, and afterwards the directory is removed |
| Client.FormatDurationShape | static/script.js:14-23 | for non-negative seconds, hours × 3600 + minutes × 60 + seconds is the input, with minutes and seconds below 60; with hours the text is `H:MM:SS`, otherwise `M:SS` with unpadded minutes |
| Client.PadStartIsPad2 | static/script.js:20 | `padStart(2, '0')` on a number below 60 gives its two-digit form |
| Client.FormatDurationReadsBack | static/script.js:14-23 | the displayed duration reads back as the number of seconds it was made from |
| Client.TrimShape | static/script.js:34 | `trim` returns a slice of its input surrounded only by whitespace on both sides, starts and ends with a non-space character, and is empty iff the input is all whitespace |
| Client.InfoUrlCheck | static/script.js:34-44 | the info check proceeds with the trimmed URL iff it is non-empty and contains `youtube.com` or `youtu.be`; it asks for a URL iff the input is blank, and for a valid one iff it is non-blank without either domain |
| Client.DownloadUrlCheck | static/script.js:84-91 | the download check proceeds with the trimmed URL iff the input is not blank, and otherwise asks for a URL; it proceeds wherever the info check does, with the same URL |
| Client.DownloadCheckIsLaxer | static/script.js:34-91 | every input that is not blank and whose trimmed text mentions neither YouTube domain is sent, trimmed, by the download check and refused as invalid by the info check; `x` is such an input |
| Client.LineEnd | static/script.js:119 | the end of the line is the first line terminator at or after the start, or the end of the text |
| Client.LastQuoteBefore | static/script.js:119 | the greedy `(.+)"` stops at the last quote of the line, after at least one character, or there is none |
| Client.MatchFromFound | static/script.js:119-121 | a match captures the text after the leftmost `filename="` that has a closing quote later on its line, up to that line's last quote |
| Client.MatchFromNone | static/script.js:119-120 | no match means no `filename="` has a closing quote later on its line |
| Client.FilenameDefaults | static/script.js:116-123 | a missing header, an empty one, or one without `filename="` gives `video.mp4` |
| Client.FilenameRoundTrip | static/script.js:116-123 | the browser reads back the name the route put in `Content-Disposition`, for any non-empty name without line terminators |

## Left out

- The extractor library calls (`YoutubeDL`, `extract_info`, `download`) are foreign code. Each call is an oracle parameter from the call and its options to its outcome and its progress-hook events. For the route, the call also carries the scratch directory as it finds it, and the outcome carries the directory as the call leaves it. Error messages are opaque strings.
- Flask plumbing is I/O: routing, `request.json`, `jsonify`, `Response`, `stream_with_context`, `send_file`, `render_template` and `app.run`. So are the `/`, `/api/downloads` and `/api/download-file` routes and the environment variables. Each route's answer is modelled as a status code and a body value. Headers are modelled as the strings the route builds, not as what reaches the browser: the WSGI server sends only Latin-1 code points in header values (PEP 3333), so a `Content-Disposition` with a title outside Latin-1 does not travel as built, and `Client.FilenameRoundTrip` is a statement about the header string.
- A request without a JSON body is not modelled: `data.get` on `None` raises in the source. A body field is missing, `null` or present, and a body value that is not a string is not modelled.
- Failures of the filesystem calls are not modelled, because the model's directory listing never fails. In the source they go to different places. `tempfile.mkdtemp()` runs before the route's `try` (app.py:349), so its exception leaves the route unhandled. `glob` and `stat` run inside the inner `try` blocks (app.py:421 and 454, 466 and 493): after a primary call the `except Exception` at app.py:457 catches them and tests their message like an extractor failure, usually ending in `break`; after the merge retry the bare `except: pass` at app.py:496 swallows them. The outer `except Exception` of `download()` (app.py:509-518), which answers 500 `Download failed: …`, is not modelled either.
- Filesystem effects are reduced to the scratch directory's file list and a removed flag. These are `mkdtemp`, `glob`, `unlink`, `rmtree` and `stat().st_size`. The order `glob` lists the directory in is the order of the list the extractor oracle returns.
- The existence of `cookies.txt` is the parameter `hasCookies`, and `time.time()` is the parameter `now`.
- Client disconnects are not modelled, and neither are the generator being closed before the end or the `except: pass` around cleanup. The generator always reads the whole file, then removes the directory.
- `redirect_stderr`, `quiet`, `no_warnings`, `user_agent`, `referer`, `extractor_retries`, `outtmpl` and the postprocessor settings are pass-through constants. Only `format`, the mp3 post-processor flag, `extract_flat`, `extractor_args` and `cookiefile` are part of the resolved options.
- Status.DownloadStatus.Hook: progress is the exact ratio × 100, not rounded to two decimals by `round(progress, 2)`, because floating point is not modelled.
- Status.ProgressInRange: holds only when every `downloading` call reports no more bytes than its total. The source does not cap the percentage.
- An exception the progress hook raises is taken to end the extractor call with that exception, which `download_video` then catches as a non-`DownloadError` failure. That propagation happens inside the extractor library. An info dictionary that is itself `None` is not modelled.
- `str.lower()` and JavaScript `trim` are modelled on ASCII letters and on the JavaScript whitespace set respectively. Unicode case mapping is not modelled.
- Client.FormatDurationShape: stated for non-negative seconds only. Durations are modelled as integers, so a fractional duration, which `formatDuration` would show with a fractional seconds field, is not represented. A negative duration is defined, via `JsRem`, but nothing is proved about it.
- `formatFileSize` uses floating-point `Math.log`/`Math.pow` and is not modelled.
- The DOM, `fetch`, blobs, timers, the status polling and the `errorData.error || 'Download failed'` fallback of static/script.js are UI and are not modelled.
- Concurrency: `threading` is imported but unused, and `download_status` is modelled as a single store used by one caller at a time.
- DownloadController.AttemptSelector and DownloadController.Pass state their pass as `t((i, j))` for a ghost pass function the caller ties to `TrySelector` through `Implements`. MetadataController.AttemptPersona and MetadataController.RunInfo likewise use a ghost attempt list tied to `TryPersona` through `AttemptsAre`. StreamRoute.Pass, RunPersona, RunPersonas and RunPasses do the same for `TryStream`. The wrappers `DownloadVideo`, `GetVideoInfo` and `RunRequest` supply the real functions, so their contracts are stated directly.
