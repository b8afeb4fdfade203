# Ski coach: segmentation, upload and playback model

A Dafny model of the ski and snowboard coaching app. A rider uploads a clip and the server cuts it into five scenes. Gemini writes one coaching note per scene, and the player page pauses the video at each scene's freeze point to show that note.

The model covers the deterministic core of the three program files:

- **server.js**
  - The key-frame sampler: `createUniformKeyFrames` and the loop inside `detectMotionChanges`.
  - The segmentation engine: `segmentVideoWithMotion`, `segmentVideoUniform` and the legacy `segmentVideo`.
  - The metadata defaults of `/api/upload`.
  - Extraction of the JSON text from a model reply (trim, code fence, braces).
  - The scene list placed in the prompt, and the terrain table lookup.
  - The CSIA/CASI framework choice and the default practice drills.
  - multer's file filter and size limit, and the `/api/upload` route with its outcomes.
  - The in-memory `videoData` map read by `/api/video/:videoId` and `/api/video/:videoId/coaching`.
- **public/analyze.js**
  - `formatTime` and a reader that turns its output back into seconds.
  - The stable `freeze_at` sort of the coaching windows.
  - The page's scheduling state as a class:
    - `checkForNewWindows` and `displayCoachingWindow`;
    - the `play` and `timeupdate` listeners;
    - the play/pause button;
    - clicks on a coaching panel.
- **public/landing.js**
  - `getApiBase`, including its `apiBase` normalisation and local-host rule.
  - The `handleFileSelect` check, related to the server's filter in both directions.
  - The sport / terrain / file selections that gate the upload button, as a class, with the click split at its `await` for the clip's duration.

Modules:

| module | file | contents |
|---|---|---|
| `Wrappers` | wrappers.dfy | `Option` |
| `Numeric` | numeric.dfy | `Math.round`, one-decimal rounding, and floor and order lemmas on reals |
| `Text` | text.dfy | `trim`, `indexOf`, `split(..)[0]`, `split(..)[1]`, `toLowerCase`, `padStart` and number printing and parsing |
| `KeyFrames` | keyframes.dfy | the key-frame sampler |
| `Segmentation` | segmentation.dfy | the five-segment cut and the upload metadata |
| `Coaching` | coaching.dfy | reply extraction, the prompt's scene list, terrain, framework and drills |
| `VideoStore` | videostore.dfy | the upload filter, the `/api/upload` route and the `videoData` map |
| `AnalyzePage` | analyze.dfy | the player page |
| `LandingPage` | landing.dfy | the upload page |

Numbers follow JavaScript:
- Durations, frame rates and timestamps are exact reals.
- `Math.floor` is `.Floor`, and `Math.round(x)` is `floor(x + 0.5)`.
- JavaScript's `%` keeps the sign of the dividend (`JsRem`).
- A JavaScript `||` fallback is modelled on the values that are falsy in the source: `0` and `NaN` for numbers, `""` and `null` for strings.

I/O results enter as parameters:
- The two ffprobe calls are each a `Probe` value.
- The Gemini replies are an `Option<string>` and a `PracticeReply`.
- The URL parser is a function `string -> Option<string>`.
- The clip duration the browser measures is a number.

## Model

| member | source | states |
|---|---|---|
| `Numeric.JsRound` | server.js:282 | `Math.round(x)` lies in `(x - 0.5, x + 0.5]` |
| `Numeric.Round1` | server.js:282-283 | the result is a whole number of tenths, less than 0.05 below its input and at most 0.05 above it, which pins `Math.round(x * 10) / 10` |
| `Numeric.Round1Monotone` | server.js:282-283 | one-decimal rounding keeps the order of its inputs |
| `Text.Trim` | public/landing.js:30 | `trim` returns the stretch between the leading and trailing white space, which is all removed; the result neither starts nor ends with white space |
| `Text.StripTrailingSlashes` | public/landing.js:32 | `replace(/\/+$/, '')` keeps a prefix, removes only `/`, and leaves no `/` at the end |
| `Text.ToLower` | public/landing.js:196 | same length; every character is lower-cased letter by letter |
| `Text.ParseNatToString` | public/analyze.js:105 | the decimal form of a natural number reads back as that number |
| `KeyFrames.DurationOr30` | server.js:143 | `duration || 30` is positive; it is the given duration unless that is missing, NaN or zero, and 30 otherwise; the upload route applies the same rule to the declared duration (server.js:647) |
| `KeyFrames.FrameInterval` | server.js:170 | the grid spacing is the largest non-negative `r` with `r * count <= floor(duration * fps) < (r + 1) * count`, i.e. `Math.floor(duration * fps / count)` |
| `KeyFrames.UniformKeyFramesShape` | server.js:195-208 | the uniform grid has exactly `count` frames, in order, with timestamp = frame / fps, all within `[0, floor(duration * fps)]` |
| `KeyFrames.CreateUniformKeyFrames` | server.js:195-208 | the loop builds exactly the uniform grid, with the properties above |
| `KeyFrames.SampleKeyFrames` | server.js:170-189 | the loop builds exactly the sampler's list: at most 8 frames, each in `[0, floor(duration * fps) - 1]` |
| `KeyFrames.CandidatesOrdered` | server.js:175-178 | the offset candidates never move backwards as `i` grows |
| `KeyFrames.SampledKeyFramesShape` | server.js:170-189 | 8 frames when the clip has a frame and none otherwise; frame `i` is candidate `i`; frames are in order, inside the clip, and timestamps lie in `[0, duration)` |
| `KeyFrames.DetectedKeyFramesShape` | server.js:155-192 | the promise rejects exactly when ffprobe throws; whatever it resolves with is at most 8 key frames, in order, non-negative, with consistent timestamps |
| `KeyFrames.DetectMotionChanges` | server.js:155-192 | a throwing ffprobe call (no ffmpeg loaded, server.js:11-17) rejects; a probe error resolves with the uniform 8-frame grid of a 30 s clip; otherwise the sampler runs on the probed duration; the shape above holds |
| `Segmentation.SegmentVideoUniform` | server.js:276-298 | the loop builds the uniform cut |
| `Segmentation.UniformSegmentOrdered` | server.js:281-294 | a uniform segment freezes at the midpoint of its rounded boundaries, inside it in seconds and in frames; frames are the seconds times fps, floored |
| `Segmentation.UniformSegmentsShape` | server.js:276-298 | the uniform cut is well formed and starts at 0; each segment ends exactly where the next starts, in seconds and in frames; each freeze is the midpoint |
| `Segmentation.UniformSegmentsClose` | server.js:279-283 | each boundary is within 0.05 s of the exact fifth of the duration, and the last end is within 0.05 s of the duration |
| `Segmentation.UniformLastEndCanPassFrameCount` | server.js:283-289 | a 10.06 s clip at 30 fps has 301 frames, yet its last uniform segment ends at frame 303 |
| `Segmentation.UniformThirtySecondClip` | server.js:276-298 | a 30 s clip is cut every 6 s, with freezes at 3, 9, 15, 21 and 27 s |
| `Segmentation.WindowKeyFrames` | server.js:234-237 | the filter keeps exactly the key frames that fall in the ratio window, and no others |
| `Segmentation.WindowIsUnique` | server.js:234-237 | a key frame lies in window `i` exactly when `i = floor(5 * timestamp / duration)` |
| `Segmentation.WindowsDisjoint` | server.js:229-237 | no key frame falls in two windows |
| `Segmentation.WindowsPartition` | server.js:229-237 | the five windows' sizes add up to the number of key frames inside the clip |
| `Segmentation.WindowEdges` | server.js:242-248 | window edges never decrease; the first is frame 0 and the sixth is `floor(duration * fps)` |
| `Segmentation.WindowBetweenEdges` | server.js:234-248 | every key frame of a window lies between that window's edge frames |
| `Segmentation.WindowKeepsOrder` | server.js:234 | filtering an ordered key-frame list keeps it ordered |
| `Segmentation.CutSegmentBounds` | server.js:240-253 | a segment cut from an ordered window stays between the window's edges, with its freeze frame between its start and end |
| `Segmentation.MotionSegmentBounds` | server.js:229-263 | each motion segment lies between its window's edges, with start <= freeze <= end |
| `Segmentation.FramesSegmentAgrees` | server.js:255-263 | seconds are frames / fps, so frame order carries over to seconds and frames read back from seconds |
| `Segmentation.MotionSegmentsOrdered` | server.js:211-273 | with key frames, the motion cut is well formed and ends at `floor(duration * fps)` |
| `Segmentation.CutWindow` | server.js:230-264 | one pass of the loop computes segment `i` of the motion cut: window `i`'s first, last and middle key frames, or its edges and their floored midpoint when it has none |
| `Segmentation.SegmentWithKeyFrames` | server.js:219-267 | no key frames gives exactly the uniform cut; otherwise segment `i` is the cut of window `i` |
| `Segmentation.SegmentVideoWithMotion` | server.js:211-273 | when `detectMotionChanges` rejects, the catch returns the uniform cut; otherwise the cut is the motion cut over the key frames it resolves with |
| `Segmentation.SegmentVideo` | server.js:301-304 | the legacy entry ignores its count and returns the five-segment uniform cut at 30 fps, for any duration |
| `Segmentation.UploadMetadata` | server.js:136-152 | a probe error or a throwing ffprobe call falls back to the declared duration at 30 fps; otherwise the probed duration and rate, with 30 as the defaults; frame count = `floor(duration * fps)` |
| `Segmentation.SegmentUpload` | server.js:651-662 | the route's scenes are what `segmentVideoWithMotion` returns at the resolved metadata, the uniform cut when the sampler rejects |
| `Segmentation.WithoutFfmpegTenSecondUpload` | server.js:11-17 | with no ffmpeg loaded, both probes throw and a declared 10 s clip gets the uniform cut at 30 fps, boundaries every 60 frames |
| `Segmentation.UploadScenesOrdered` | server.js:651-662 | whatever both probes report, the stored scenes form a well-formed five-segment cut |
| `Coaching.FenceContents` | server.js:419-426 | text with no fence passes through unchanged |
| `Coaching.JsonFenceBody` | server.js:419-422 | a reply `pre + fence-json + body + fence + post` yields the trimmed body, when `pre` and `body` hold no backquote and `post` does not start with one |
| `Coaching.PlainFenceBody` | server.js:423-425 | a reply `pre + fence + body + fence + post` with no json fence anywhere yields the trimmed body, when `pre` and `body` hold no backquote and `post` does not start with one |
| `Coaching.AfterBodyFence` | server.js:421 | the second `split` stops at the fence that closes the body |
| `Coaching.NarrowBraces` | server.js:429-432 | the match is no longer than its input, and is either the input or a span from a `{` to a `}` |
| `Coaching.NarrowBracesSpan` | server.js:429-432 | with the first `{` before the last `}`, the match is the span from one to the other |
| `Coaching.NarrowBracesNoMatch` | server.js:429-432 | with no `{` before a `}`, the text is kept |
| `Coaching.NarrowBracesIdempotent` | server.js:429-432 | narrowing twice narrows no further |
| `Coaching.SceneWithFrames` | server.js:331-339 | ids and seconds are kept; each non-zero frame field is kept and each zero one is recomputed as `floor(seconds * fps)`; a scene whose frames agree comes out unchanged |
| `Coaching.UploadPromptScenes` | server.js:331-339 | on the scenes the upload route computes, the `||` fallbacks change no value: a zero frame field (scene 1's start frame) is recomputed as the same frame, so the prompt carries exactly the engine's segments |
| `Coaching.FieldOr` | server.js:645-646 | the value is the field or the fallback; a field sent non-empty is kept; with a non-empty fallback the value is never empty |
| `Coaching.ResolveTerrain` | server.js:320-328 | a table key gives its own entry (and only a key does); a name inherited from `Object.prototype` gives that member, exactly for those names; any other name gives the `blue` entry |
| `Coaching.InheritedName` | server.js:328 | `currentTerrain.name` of an inherited member is undefined exactly for `__proto__`, and the member's own name apart from `constructor` |
| `Coaching.ConstructorTerrainIsObject` | server.js:328 | the terrain `constructor` bypasses the `blue` fallback and names the terrain `Object` |
| `Coaching.Framework` | server.js:314 | CSIA exactly for `ski`, and CASI otherwise |
| `Coaching.DefaultRecommendations` | server.js:557-595 | three drills for `snowboard`, and two for anything else |
| `Coaching.OtherSportMixesLists` | server.js:314 | a sport that is neither `ski` nor `snowboard` gets the CASI framework but the ski drills |
| `Coaching.PracticeRecommendations` | server.js:546-553 | the reply's list, or `[]` when it has none, or the sport's defaults when the request or parse fails |
| `VideoStore.FileFilter` | server.js:83-104 | a file passes exactly when its name matches the extension pattern (case-blind) and its MIME type is listed |
| `VideoStore.UploadRecord` | server.js:645-691 | the record holds the id, the stored file name and its `/uploads/` URL; the resolved metadata's duration and fps (positive); the route's scenes; `sport || 'ski'` and `terrain || 'blue'` (never empty); the extracted coaching JSON and the drills for that sport |
| `VideoStore.UploadRecordOrdered` | server.js:679-691 | every stored record holds a well-formed cut at its own fps, and the prompt saw exactly those scenes |
| `VideoStore.VideoStore.constructor` | server.js:133 | the map starts empty |
| `VideoStore.VideoStore.Get` | server.js:733-742 | `Some` exactly when the id is stored, with the stored record; `None` is the 404 |
| `VideoStore.VideoStore.Set` | server.js:679-691 | the id maps to the new record, and every other id is unchanged |
| `VideoStore.VideoStore.GetCoaching` | server.js:744-753 | the stored coaching JSON exactly when the id is stored |
| `VideoStore.VideoStore.HandleUpload` | server.js:639-731 | a file multer refuses, a missing file (400) and a failed coaching request (500) each store nothing; an accepted file with a reply is stored under its id with a well-formed cut |
| `VideoStore.UploadThenGet` | server.js:679-742 | after a successful upload, a lookup of its id finds the computed scenes; other ids are unaffected |
| `AnalyzePage.JsTrunc` | public/analyze.js:104 | rounds toward zero: the result lies within 1 of its input, on the same side of 0 and no farther from 0 |
| `AnalyzePage.FormatTime` | public/analyze.js:101-106 | NaN prints `0:00` |
| `AnalyzePage.ClockDigits` | public/analyze.js:103-104 | for a non-negative time, minutes and seconds are non-negative, with seconds below 60, and `60 * mins + secs` is the whole seconds |
| `AnalyzePage.FormatTimeShape` | public/analyze.js:101-106 | the printed time is the minutes, a colon and exactly two digits |
| `AnalyzePage.ParseClockJoin` | public/analyze.js:105 | two digit runs joined by a colon split back into those runs |
| `AnalyzePage.PadStart2Value` | public/analyze.js:105 | zero-padding keeps a digit run's value |
| `AnalyzePage.ClockValue` | public/analyze.js:105 | a clock printed from whole minutes and seconds reads back as their total |
| `AnalyzePage.FormatTimeRoundTrip` | public/analyze.js:101-106 | a printed non-negative time reads back as its whole seconds |
| `AnalyzePage.InsertByFreeze` | public/analyze.js:44 | insertion adds exactly the one window |
| `AnalyzePage.InsertByFreezeSorted` | public/analyze.js:44 | insertion into a `freeze_at`-sorted list keeps it sorted |
| `AnalyzePage.SortByFreeze` | public/analyze.js:40-45 | the sort is a permutation and sorted by `freeze_at` |
| `AnalyzePage.SortByFreezeStable` | public/analyze.js:44 | windows with equal `freeze_at` keep their relative order |
| `AnalyzePage.InitialWindows` | public/analyze.js:40-45 | with no scenes the list is empty; otherwise it is the scenes, sorted |
| `AnalyzePage.NewWindowsFresh` | public/analyze.js:112-118 | every window a pass shows has been reached and was not shown before; none is shown twice |
| `AnalyzePage.NewWindowsComplete` | public/analyze.js:112-118 | after a pass, every reached window's id is displayed |
| `AnalyzePage.NewWindowsSorted` | public/analyze.js:112-118 | over sorted windows, a pass shows them in `freeze_at` order, so the last seek is the latest freeze |
| `AnalyzePage.NewWindowsIdempotent` | public/analyze.js:108-119 | a second pass at the same time shows nothing |
| `AnalyzePage.NoneLeft` | public/analyze.js:114 | a pass shows nothing once every reached window is displayed |
| `AnalyzePage.ShownPanelsValid` | public/analyze.js:112-118 | after a pass, the panels show each displayed id exactly once |
| `AnalyzePage.CoachingPlayer.constructor` | public/analyze.js:1-45 | the windows are the sorted scenes; nothing is displayed; the player is at 0 |
| `AnalyzePage.CoachingPlayer.DisplayCoachingWindow` | public/analyze.js:121-173 | pauses, seeks to `freeze_at`, marks the pause as the window's, and puts the panel on top |
| `AnalyzePage.CoachingPlayer.CheckForNewWindows` | public/analyze.js:108-119 | under a window pause nothing changes; otherwise it shows exactly the new reached windows, newest panel first, and seeks to the last one |
| `AnalyzePage.CoachingPlayer.DisplayPass` | public/analyze.js:112-118 | the `forEach` loop shows exactly the windows `NewWindows` selects |
| `AnalyzePage.CoachingPlayer.OnTimeUpdate` | public/analyze.js:52-56 | copies the player's time; under a window pause nothing else changes; otherwise the new windows are displayed in order, the player stops at the last, and every window reached is displayed |
| `AnalyzePage.CoachingPlayer.OnPlay` | public/analyze.js:58-61 | playback resumes and the window pause ends |
| `AnalyzePage.CoachingPlayer.PlayPauseClick` | public/analyze.js:71-80 | toggles `paused`; resuming clears the window pause |
| `AnalyzePage.CoachingPlayer.ClickPanel` | public/analyze.js:143-148 | seeks to the panel's `freeze_at` and holds there as a window pause |
| `LandingPage.LocalBase` | public/landing.js:13 | `http://`, the host, a colon, then the port, or 3000 when the port is empty |
| `LandingPage.NormalizeApiBase` | public/landing.js:30-35 | the result always starts with `http://` or `https://`; the trimmed, slash-stripped text is kept, and `https://` is put in front when it has no scheme |
| `LandingPage.NormalizeKeepsBase` | public/landing.js:30-35 | an address with a scheme, no surrounding space and no trailing `/` is unchanged |
| `LandingPage.NormalizeAddsScheme` | public/landing.js:30-35 | a bare host gets `https://` in front and nothing else |
| `LandingPage.GetApiBase` | public/landing.js:6-52 | a local host uses itself; otherwise a parsable `apiBase` wins and is stored; `clearApiBase=1` forgets the stored one; a stored non-empty value is used; otherwise the base is empty |
| `LandingPage.ApiBaseRecheckAgrees` | public/landing.js:217-243 | the second `getApiBase` call in the upload handler returns what the first returned |
| `LandingPage.NoBackendWithoutAddress` | public/landing.js:19-51 | away from the local host, with no usable parameter, the base is empty exactly when storage is cleared or empty |
| `LandingPage.CheckFile` | public/landing.js:192-209 | refused for type exactly when both the extension and the MIME checks fail; refused for size exactly when the type passes and the size is above 104857600; 104857600 itself passes |
| `LandingPage.SuffixTestsAgree` | public/landing.js:196-197 | for a lower-case extension, the server's case-blind pattern and the page's `toLowerCase().endsWith` agree |
| `LandingPage.ServerAcceptedPassesPage` | public/landing.js:192-209 | every file the server would store passes the page's check |
| `LandingPage.PageAcceptsWhatServerRejects` | public/landing.js:200 | `notes.txt` sent as `video/mp4` passes the page but is refused by the server |
| `LandingPage.LandingState.constructor` | public/landing.js:1-3 | nothing is selected, both sections are hidden, the button is disabled and no click is pending |
| `LandingPage.LandingState.SelectSport` | public/landing.js:126-139 | the sport is set, the terrain choice is dropped, and the upload section is hidden |
| `LandingPage.LandingState.SelectTerrain` | public/landing.js:142-158 | the terrain is set and the upload section shown |
| `LandingPage.LandingState.HandleFileSelect` | public/landing.js:192-214 | an accepted file becomes the selection and enables the button; a refused one changes nothing |
| `LandingPage.LandingState.ClickUpload` | public/landing.js:220-227 | a click on the live button without a sport, a terrain and a file changes nothing; otherwise it starts one more wait for the duration and changes nothing else |
| `LandingPage.LandingState.DurationResolved` | public/landing.js:227-390 | a wait ends with the selections as they are then; with no address the error restores the button; otherwise that form is posted to `<base>/api/upload` with the button disabled |
| `LandingPage.FormText` | public/landing.js:231-233 | a `null` selection is posted as the text `null`, any other as itself |
| `LandingPage.ChangeSportThenUpload` | public/landing.js:130-137 | an upload click straight after changing the sport is refused and starts no wait |
| `LandingPage.ChooseAllThenUpload` | public/landing.js:126-237 | a sport, a terrain, an accepted file and an address post exactly those choices |
| `LandingPage.SportChangeDuringWait` | public/landing.js:126-237 | a sport change during the wait posts the new sport with the terrain `null` |
| `LandingPage.DoubleClickSendsTwice` | public/landing.js:220-237 | two clicks before the duration arrives post the same form twice |

## Left out

- The ffprobe calls, file storage, the Gemini requests and `JSON.parse` are not modelled. Their outcomes are parameters: a `Probe`, an optional reply text and a `PracticeReply`.
- `eval(r_frame_rate)` is not modelled. The probe carries the already evaluated positive rate.
- The prompt texts and the Chinese labels and terrain descriptions are not modelled. Only the keys and choices that steer them are.
- The validation of the parsed coaching reply (`scenes` must be an array) is not modelled. A reply that fails it counts as a failed coaching request.
- The `/api/analyze` route is not modelled. It repeats the uniform cut and the store write of `/api/upload` for a blob URL.
- `Date.now` ids and multer's stored file names are parameters, and the deletion of the uploaded file after a failure is not modelled.
- `VideoStore.VideoStore.HandleUpload`: the route's `MulterError` branch is unreachable. multer's error goes to Express's default handler before the route runs. Both filter and size refusals are therefore the single outcome `FilterRejected`, with no status modelled.
- `VideoStore.VideoStore.HandleUpload`, `VideoStore.UploadRecord`, `VideoStore.UploadRecordOrdered`, `VideoStore.UploadThenGet`, `Segmentation.UploadMetadata`, `Segmentation.SegmentUpload`, `Segmentation.UploadScenesOrdered`, `Coaching.UploadPromptScenes`, `KeyFrames.DurationOr30`: a negative declared duration (`parseFloat` of a negative number) is excluded by precondition. The segmentation lemmas need a positive duration.
- IEEE doubles are modelled as exact reals. Rounding error, Infinity and negative zero are not modelled, and NaN appears only in `formatTime`'s input.
- `AnalyzePage.FormatTime`: only the NaN case is stated on the function itself. The value for non-negative times is given by `ClockDigits`, `FormatTimeShape` and `FormatTimeRoundTrip`.
- Only ASCII letters are case-folded. JavaScript's `toLowerCase` and the `i` regex flag also fold other letters.
- The DOM is modelled only as state fields: the play button text, panel highlighting, the `new` class, scrolling, the `canplay` and `ended` listeners, the practice list and the API indicator badge are not.
- Timers, `sessionStorage` and navigation to `analyze.html` are not modelled.
- `LandingPage.LandingState.DurationResolved`: the XHR transfer, its progress events and its failures are not modelled. The promise is returned rather than awaited inside the `try`, so such failures never reach the `catch` that restores the button. The model ends at `Sending`.
- `LandingPage.LandingState.DurationResolved`: the duration is a parameter. The model does not track which file it was measured from (the one selected at the click), so it does not capture that a file chosen during the wait is posted with the earlier file's duration.
- `LandingPage.LandingState.constructor`: the starting state (sections hidden, button disabled) comes from the page markup, which is not part of this model.
- `getVideoDuration` is not modelled. The duration it resolves, or 30 on a load error, is a parameter.
- The `pause` listener only changes the button text, and is left out.
