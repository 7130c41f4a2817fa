# Photobooth: a verified model of the capture, compose and export pipeline

The photobooth is a single-page React application. It shows the camera's live
video and takes a session of four photos, each after a countdown and an
optional simulated flash. It composes the four photos into one picture, as a
2×2 grid or as a vertical strip, and exports the composition through a
download link or the platform's share sheet, with a cosmetic filter applied.

This project models the core of that application in Dafny:

- the `App` component's state and handlers: `startCamera`, `toggleCamera`,
  `toggleFlash`, `captureFrame`, `startPhotoSession`, `composeFinalImage`,
  `handleDownload`, `handleShare` and `handleNewPhotoshoot`;
- the constant tables of `constants.ts`;
- the handler guards and slot arithmetic of the studio panel.

Modules:

- `Types`: the layouts and filters of `types.ts`, and an option type for
  `null`.
- `Constants`: the layout, countdown and filter tables, the session size,
  and the filter lookup by id.
- `Canvas2D`: the part of the browser canvas the app uses, as a class. A
  canvas records the paint operations issued since its bitmap was last
  cleared. Assigning `width` or `height` clears the bitmap and resets the
  context state, as the HTML standard prescribes. `toDataURL` is a snapshot
  of the record.
- `FrameCapture`: the still `captureFrame` takes, and its mirror geometry.
- `CameraRequests`: the stream bookkeeping of `startCamera` with its request and its answer as two steps, so that two requests can be outstanding at once.
- `Layout` and `LayoutSteps`: the compositor's fixed geometry, and the
  picture published for a given order in which the photos finish loading.
- `Timeline`: the observable course of a session. Timers are not run. Each
  awaited timeout is a `Wait` step, each countdown display a `Show` step,
  each capture a `Capture` step and the hand-over to the compositor a
  `Compose` step.
- `ExportFilter`: the string transform from a filter's class name to a CSS
  filter, with `replace`, `split`, `map` and `join` written out, and the
  export file name.
- `App`: the class `Booth`, whose fields are the component's state slots
  and whose methods are its handlers. It also holds the value-level
  description of a session (`Record`, `ShotsTaken`, `SessionRecord`)
  against which the methods are proved.
- `Studio`: the studio panel's click guards and thumbnail arithmetic, as
  pure functions of the values the panel reads.

Whatever the browser decides is a parameter:

- whether camera access is granted;
- the video present at each capture;
- whether the canvases exist and yield a 2D context;
- the order in which images finish loading;
- the moment of export;
- the shots during which "new photoshoot" was pressed while a session ran.

## Model

| member | source | states |
|---|---|---|
| Constants.FindFilter | App.tsx:225 | the lookup by id finds an entry exactly when one has that id, and returns the first such entry |
| Constants.FilterOptionsOnePerFilter | constants.ts:14-19 | the filter table holds one entry per filter, so the lookup never fails |
| Constants.OnlyOriginalHasEmptyClass | constants.ts:15-18 | only Original has an empty class name |
| Constants.FilterClassesAreOneToken | constants.ts:16-18 | every other class name is "filter " followed by one non-empty, space-free token |
| Constants.CountdownValuesOrdered | constants.ts:12 | the countdown choices are positive and strictly increasing, and the default (index 1, App.tsx:13) is 5 |
| Constants.LayoutOptionsOnePerLayout | constants.ts:7-10 | the layout table holds one entry per layout, grid first |
| Canvas2D.Translated | App.tsx:89 | `translate` offsets every later column by dx and every later row by dy in user space |
| Canvas2D.Scaled | App.tsx:90 | `scale` multiplies every later column by kx and every later row by ky in user space |
| Canvas2D.Canvas.constructor | App.tsx:216 | a fresh canvas is 300×150, blank, with the default context state |
| Canvas2D.Canvas.SetWidth | App.tsx:84 | assigning the width clears the bitmap and resets the context, keeping the height |
| Canvas2D.Canvas.SetHeight | App.tsx:85 | assigning the height clears the bitmap and resets the context, keeping the width |
| Canvas2D.Canvas.FillRect | App.tsx:174-175 | a fill appends one paint with the current fill style |
| Canvas2D.Canvas.DrawImage | App.tsx:92 | a draw appends one paint under the current transform and filter |
| Canvas2D.Canvas.Translate | App.tsx:89 | the context's transform becomes `Translated` of the old one |
| Canvas2D.Canvas.Scale | App.tsx:90 | the context's transform becomes `Scaled` of the old one |
| Canvas2D.Canvas.SetFillStyle | App.tsx:174 | the fill style becomes the given one |
| Canvas2D.Canvas.SetFilter | App.tsx:235 | the context's filter becomes the given string |
| Canvas2D.Canvas.Snapshot | App.tsx:184 | `toDataURL`: the canvas's size and the paints on its bitmap (encoding and quality are not modelled) |
| FrameCapture.CaptureTransform | App.tsx:88-91 | the front-camera transform sends column x to w - x; otherwise it is the identity; rows are never moved |
| FrameCapture.Still | App.tsx:84-93 | the still has the video's native size and is one unfiltered draw of the frame over the whole bitmap, mirrored column by column exactly when the front camera is used, rows unmoved |
| FrameCapture.MirrorGeometry | App.tsx:88-91 | the flip maps [0, w] onto itself, reverses column order and undoes itself |
| CameraRequests.Settled | App.tsx:33-58 | at most one stream is live: every granted stream is stopped or held, and the held one was granted; `CameraRequests.RunKeepsSettled` proves the intended bookkeeping keeps it and `CameraRequests.OverlappingRequestsLeak` that the code's does not |
| CameraRequests.Ask | App.tsx:36-38 | the first half of a call stops the stream of the render the callback was created in; `CameraRequests.AskKeepsSettled` proves it never makes a second stream live |
| CameraRequests.AnswerAsWritten | App.tsx:46-56 | the code's answer: a grant becomes the held stream and a refusal drops it, stopping nothing; `CameraRequests.OverlappingRequestsLeak` shows the stream it leaks and `CameraRequests.OneCallAtATime` that it is harmless when requests do not overlap |
| CameraRequests.Answer | App.tsx:46-56 | the intended answer: the held stream, if not stopped yet, is stopped before the grant or refusal replaces it; `CameraRequests.AnswerKeepsSettled` proves it keeps at most one stream live, and `App.Booth.StartCamera` is proved to follow it |
| CameraRequests.RunAsWritten | App.tsx:33-58 | any interleaving of requests and the code's answers; `CameraRequests.OverlappingRequestsLeak` exhibits one that leaves two streams live |
| CameraRequests.Run | App.tsx:33-58 | any interleaving of requests and the intended answers; `CameraRequests.RunKeepsSettled` proves each keeps at most one stream live |
| CameraRequests.OneCallAtATime | App.tsx:33-58 | when a request is answered before the next is made, it stops the stream it finds held, the code's answer and the intended one agree, and at most one stream is live afterwards |
| CameraRequests.OverlappingRequestsLeak | App.tsx:33-58 | as written, two requests made while no stream is held, answered with grants 1 then 2, leave stream 1 granted, not held and never stopped |
| CameraRequests.AskKeepsSettled | App.tsx:36-38 | stopping the stream a callback saw never makes a second stream live |
| CameraRequests.AnswerKeepsSettled | App.tsx:46-56 | the intended answer, granted or refused, keeps at most one stream live |
| CameraRequests.RunKeepsSettled | App.tsx:33-58 | with the intended answer, any interleaving of requests and answers keeps at most one stream live |
| Layout.CanvasFor | App.tsx:171-193 | the grid canvas is 860×860 and the strip canvas 440×1700 |
| Layout.Cell | App.tsx:180-200 | every photo is drawn stretched to 400×400 |
| Layout.CellPositions | App.tsx:180-200 | the cell positions of the four photos in both layouts |
| Layout.GridCellsMatchSession | constants.ts:21 | a 2×2 grid has exactly as many cells as a session takes photos |
| Layout.CellInsideIff | App.tsx:168-200 | a cell lies on its canvas if and only if its index is below four, in both layouts |
| Layout.CellsDisjoint | App.tsx:180-200 | cells of distinct photos never overlap |
| Layout.LoadOrder | App.tsx:177-208 | the order in which the photos' `onload` callbacks run: each a photo index, none twice, a photo that never loads absent; `Layout.Draws` and `Layout.PublishedPhotos` are stated over every such order |
| Layout.CellDraw | App.tsx:180-200 | one `onload` callback draws its photo, stretched, into the cell of its index; `Layout.Draws` proves every draw of a composition is one of these, in load order |
| Layout.Draws | App.tsx:177-200 | the draws are issued in load order, one per loaded photo, into that photo's cell |
| Layout.Composition | App.tsx:172-200 | the white fill over the layout's canvas, then the draws in load order; `Layout.PublishedPaints` and `LayoutSteps.CompositionStep` state its shape |
| Layout.Published | App.tsx:183-205 | the picture `toDataURL` gives at the last index's load, none when it never loads; `Layout.PublishedIffLastLoads`, `Layout.PublishedPaints` and `Layout.PublishedPhotos` state what it holds |
| Layout.LastIndexLoadsAt | App.tsx:183-201 | the position in the load order of the photo with the last index, if it loaded |
| Layout.PublishedIffLastLoads | App.tsx:183-204 | a picture is published if and only if the photo with the last index has loaded |
| Layout.PublishedPaints | App.tsx:172-202 | the published picture is the layout's canvas size, starts with the white fill, and then holds the draws up to the last index's load |
| Layout.PublishedPhotos | App.tsx:177-205 | the published picture holds exactly the photos that loaded at or before the last index; later loads never reach it |
| Layout.PublishedOr | App.tsx:183-205 | the composed image is replaced only by a published picture and otherwise keeps its earlier value; `App.Booth.ComposeFinalImage` is proved to leave exactly this value |
| Layout.LastLoadingLastPublishesAll | App.tsx:183-201 | when the last index loads last, every photo is in the published picture |
| Layout.LastLoadingFirstPublishesOne | App.tsx:183-201 | when the last index loads first, the published picture holds that photo alone |
| LayoutSteps.CompositionStep | App.tsx:179-200 | one more load extends the canvas by exactly that photo's cell draw |
| LayoutSteps.LastIndexStep | App.tsx:183-201 | one more load is the last index's own, or leaves where the last index loaded unchanged |
| LayoutSteps.PublishedStep | App.tsx:183-203 | one more load publishes the canvas exactly when it is the last index's load, and otherwise leaves the published picture alone |
| Timeline.Attempted | App.tsx:133-142 | the captures reached are all those up to and including the first failure |
| Timeline.Photos | App.tsx:134-135 | the kept photos are the successful captures in order; all of them when every capture succeeds |
| Timeline.Countdown | App.tsx:108-112 | `d, d-1, …, 0`: d+1 values |
| Timeline.Ticks | App.tsx:109-112 | the inner countdown loop: a one-second wait before each of d-1 … 0; `Timeline.TicksMeasures` states its measures |
| Timeline.Shutter | App.tsx:114-131 | the flash overlay with its 100 ms and 50 ms waits, or the plain 150 ms wait; `Timeline.ShutterMeasures` states its measures |
| Timeline.Prelude | App.tsx:108-131 | show d, count down, then the shutter; `Timeline.CountdownMeasures` and `Timeline.ShutterMeasures` state its measures |
| Timeline.Shot | App.tsx:108-133 | the prelude, then one capture; `Timeline.ShotMeasures` states its measures |
| Timeline.Pause | App.tsx:143-145 | the second's pause after every shot but the last; `Timeline.ShotAndPauseMeasures` states when it comes |
| Timeline.Turn | App.tsx:108-145 | one pass of the loop: the shot, then its pause when the capture succeeded; `Timeline.ShotAndPauseMeasures` states its measures |
| Timeline.Shots | App.tsx:107-146 | the passes over the given outcomes in order; `Timeline.ShotsMeasures` and `Timeline.ShotsElapsed` state its measures |
| Timeline.AllCaptured | App.tsx:150 | every capture of the session succeeded, the condition for composing; `App.SessionOutcome` and `App.CompleteSessionPublishes` state what follows from it |
| Timeline.Session | App.tsx:107-152 | the shots up to the first failure, then one hand-over to the compositor when all four succeeded; `Timeline.SuccessfulSession` and `Timeline.FailedSession` state its two shapes |
| Timeline.MeasuresAppend | App.tsx:107-146 | the shown values, waits, captures and hand-overs of a timeline distribute over concatenation |
| Timeline.TicksMeasures | App.tsx:109-112 | the countdown loop shows d-1 down to 0, one per second |
| Timeline.ShutterMeasures | App.tsx:115-131 | the shutter delay is 150 ms with the flash (100 + 50) and without it (150) |
| Timeline.CountdownMeasures | App.tsx:108-112 | showing d and counting down shows d, d-1, …, 0 and waits a second per tick |
| Timeline.ShotMeasures | App.tsx:108-133 | each shot shows exactly d, d-1, …, 0 before its capture and waits 1000·d + 150 ms |
| Timeline.ShotAndPauseMeasures | App.tsx:143-145 | a kept shot is followed by a 1000 ms pause except after the last shot |
| Timeline.ShotsMeasures | App.tsx:107-146 | successful shots show the countdown once each, record their captures in order and hand nothing to the compositor |
| Timeline.ShotsElapsed | App.tsx:107-146 | successful shots take their shot times plus a pause after each but the last |
| Timeline.SuccessfulSession | App.tsx:107-152 | a fully successful session shows the countdown four times, records the four captures in order and hands exactly those photos to the compositor exactly once, with the layout |
| Timeline.SuccessfulSessionElapsed | App.tsx:107-146 | a fully successful session waits 4·(1000·d + 150) + 3·1000 ms |
| Timeline.AttemptedAll | App.tsx:107-146 | when every capture succeeds, all of them are attempted |
| Timeline.AttemptedUpToFailure | App.tsx:137-142 | the first failed capture is the last one attempted |
| Timeline.FailedSession | App.tsx:133-150 | a session whose capture k fails records k+1 captures and never composes |
| Timeline.FailedSessionSteps | App.tsx:133-142 | such a session is the k successful shots and the failed one, with nothing after it |
| ExportFilter.FindFrom | App.tsx:228 | the first occurrence of a pattern at or after a position, if there is one |
| ExportFilter.IndexOf | App.tsx:228 | the first occurrence of a pattern, if there is one |
| ExportFilter.ReplaceFirst | App.tsx:228 | `replace` with a string pattern replaces only the first occurrence, and leaves a string without one unchanged |
| ExportFilter.Split | App.tsx:228 | `split(' ')` yields at least one piece, none containing the separator |
| ExportFilter.JoinSplit | App.tsx:228-234 | joining the pieces of a split restores the string |
| ExportFilter.SplitJoin | App.tsx:228-234 | splitting a join of separator-free pieces restores the pieces |
| ExportFilter.Join | App.tsx:234 | `join(' ')`: the pieces with one separator between neighbours; `ExportFilter.JoinSplit` and `ExportFilter.SplitJoin` make it the inverse of `Split` |
| ExportFilter.MapToken | App.tsx:229-233 | the token-to-CSS table: grayscale, sepia and vintage get their CSS functions, any other token passes through |
| ExportFilter.MapTokenFixesExactlyUnknown | App.tsx:229-233 | a token comes out unchanged exactly when it is not one of the three known ones |
| ExportFilter.KnownToken | App.tsx:229-233 | the three tokens the filter table knows: grayscale, sepia and vintage; `ExportFilter.MapTokenFixesExactlyUnknown` proves exactly the others pass through unchanged |
| ExportFilter.CssFilterValue | App.tsx:228-234 | the class name without its first "filter ", split on spaces, each piece mapped, rejoined with spaces; `ExportFilter.OneTokenClass` and `ExportFilter.UnknownTokensPassThrough` state its values |
| ExportFilter.ClassFilter | App.tsx:225-236 | no filter for an empty class name, so the context keeps "none", and otherwise the mapped class; `ExportFilter.ExportFilterOfEntry` and `ExportFilter.ExportCssValues` state its values |
| ExportFilter.ExportFilterFor | App.tsx:225-236 | the filter the handlers set: none when the lookup fails or the class is empty, otherwise the mapped class |
| ExportFilter.ExportCss | App.tsx:225-236 | the context's filter at the export draw: the one set, or the default "none"; `ExportFilter.ExportCssValues` and `ExportFilter.ExportCssLookup` state its values |
| ExportFilter.MapTokens | App.tsx:228-234 | each piece is mapped on its own, in place |
| ExportFilter.OneTokenClass | App.tsx:228-234 | "filter " plus one token maps to that token's CSS |
| ExportFilter.LookupFinds | constants.ts:14-19 | the lookup by an entry's own id finds that entry |
| ExportFilter.ExportFilterOfEntry | App.tsx:225-236 | exporting under a filter applies the mapped class of that filter's entry |
| ExportFilter.OriginalExportsUnfiltered | App.tsx:226 | Original sets no filter |
| ExportFilter.GrayscaleClass | App.tsx:229 | "filter grayscale" becomes "grayscale(1)" |
| ExportFilter.SepiaClass | App.tsx:230 | "filter sepia" becomes "sepia(1)" |
| ExportFilter.VintageClass | App.tsx:232 | "filter vintage" becomes the sepia, contrast, brightness and saturation composite |
| ExportFilter.FilteredExports | App.tsx:225-236 | the three filtered effects export with those three CSS strings |
| ExportFilter.ExportCssValues | App.tsx:225-237 | the filter in force when the export draws: "none" for Original, and "grayscale(1)", "sepia(1)" or the vintage composite for the other three effects |
| ExportFilter.ExportCssLookup | App.tsx:225-236 | that filter is what the lookup-and-map code computes |
| ExportFilter.UnknownTokensPassThrough | App.tsx:233 | tokens other than the three known ones pass through unchanged |
| ExportFilter.Decimal | App.tsx:242 | a timestamp prints as a non-empty string of decimal digits with no leading zero; it starts with '0' only for 0 itself |
| ExportFilter.DecimalRoundTrip | App.tsx:242 | reading the digits back gives the timestamp, so distinct moments give distinct names |
| ExportFilter.FileName | App.tsx:242 | the file name is "photobooth_image_", the timestamp's digits, then ".jpg", with no leading zero in the digits; share names its file the same way (App.tsx:283) |
| App.FacingMode | App.tsx:41 | "user" exactly for the front camera, "environment" otherwise |
| App.Shoot | App.tsx:80-97 | a capture yields a picture exactly when the video, canvas, context and camera are all there; the picture has the video's size |
| App.PaintStill | App.tsx:88-93 | on a canvas freshly sized to the video, the flip and the draw leave exactly the still `FrameCapture.Still` describes |
| App.Outcomes | App.tsx:107-133 | the session's captures, one per video, each as `captureFrame` would give it |
| App.ExportImage | App.tsx:237 | the export picture: the composition canvas's size and one draw of the image at its natural size under the effect's filter |
| App.Exported | App.tsx:237-242 | the timestamped name and the export picture; `App.Booth.HandleDownload` and `App.Booth.HandleShare` are proved to hand it over |
| App.ResetBefore | App.tsx:300-307 | "new photoshoot" was pressed during one of the first n shots |
| App.LastReset | App.tsx:301 | the last shot during which "new photoshoot" was pressed, with none in between |
| App.KeptStep | App.tsx:136 | how the kept thumbnails grow with each shot, starting over after a reset |
| App.LastAttempted | App.tsx:133-142 | the last capture attempted succeeds exactly when all do |
| App.Cleared | App.tsx:300-307 | the record after the writes of "new photoshoot", which keep the session's timeline; `App.Booth.ClearSession` is proved to produce it |
| App.Prepared | App.tsx:108-131 | the record when a shot reaches its capture: the prelude appended, after the reset's writes when "new photoshoot" was pressed; `App.Booth.AwaitShutter` is proved to produce it |
| App.Recorded | App.tsx:133-145 | the record after a capture: the photo kept and the pause, or the failure message and the session stopped; `App.Booth.RecordOutcome` is proved to produce it |
| App.AfterShot | App.tsx:107-145 | a shot adds exactly its turn to the timeline: countdown, shutter, capture, and the pause when the capture succeeded |
| App.ShotsTakenNext | App.tsx:107-146 | one more pass of the loop extends the record and the kept photos by one shot, and the loop goes on exactly when it succeeded short of the end |
| App.ShotsTaken | App.tsx:107-152 | the record after the first n shots, each adding its turn and, after a reset, clearing the results first; `App.ShotsTakenTimeline`, `App.ShotsTakenCaptured` and `App.ShotsTakenFlags` state what it holds |
| App.SessionRecord | App.tsx:107-152 | the record after a whole session: start, the shots up to the first failure, then composition when all succeeded; `App.SessionTimeline` and `App.SessionOutcome` state what it holds |
| App.Started | App.tsx:101-104 | the four writes before the first shot; `App.Booth.BeginSession` is proved to produce it |
| App.Composed | App.tsx:155-210 | the composing flag dropped without a canvas or context, and otherwise the published picture of the load order; `App.ComposedKeeps` states it and `App.Booth.FinishSession` is proved to produce it |
| App.Concluded | App.tsx:148-152 | the session ended, and composed exactly when every capture succeeded; `App.Booth.Conclude` is proved to produce it and `App.SessionOutcome` states what it holds |
| App.ShotsTakenTimeline | App.tsx:107-146 | after n shots the timeline is theirs, in order |
| App.CapturedNext | App.tsx:136 | a shot appends its photo to the thumbnails, after a reset's clearing |
| App.ShotsTakenCaptured | App.tsx:102-136 | the thumbnails are the photos taken since the last reset |
| App.ShotsTakenFlags | App.tsx:101-141 | during the shots, the session runs and is error-free exactly while captures succeed and no reset came; a reset clears the effect and the composing flag |
| App.ComposedKeeps | App.tsx:155-210 | composing writes only the composed image and the composing flag |
| App.ConcludedTimeline | App.tsx:148-152 | the end of a session adds the hand-over to the compositor to the timeline exactly when every capture succeeded |
| App.SessionTimeline | App.tsx:99-153 | a session's timeline is the one `Timeline.Session` describes |
| App.SessionOutcome | App.tsx:99-153 | after a session: none runs; the thumbnails are the photos since the last reset; the failure message is set exactly when a capture failed; the effect is reset exactly when "new photoshoot" was pressed |
| App.FailedSessionPublishesNothing | App.tsx:137-150 | a failed session publishes nothing and does not compose |
| App.CompleteSessionPublishes | App.tsx:148-210 | a fully successful session ends with the picture the compositor publishes from its four photos, or none without a canvas or context |
| App.UnreadySessionFailsAtOnce | App.tsx:133-142 | a session without a working capture canvas fails at its first capture, keeps no photo and composes nothing |
| App.UnreadySessionHidesPanel | App.tsx:133-142 | a session whose first capture fails keeps no photo, so the studio's thumbnail panel stays hidden |
| App.Booth.constructor | App.tsx:12-30 | the initial state: grid, 5 s countdown, front camera, no flash, Original, no camera, nothing captured |
| App.Booth.CameraValid | App.tsx:33-58 | the camera is active exactly while a stream is held, and at most one granted stream is live; `App.Booth.constructor` establishes it and `App.Booth.StartCamera`, `App.Booth.ToggleCamera` and `App.Booth.NewPhotoshoot` keep it |
| App.Booth.CaptureReady | App.tsx:81-87 | a capture can produce a picture only with a capture canvas that yields a 2D context while the camera is active; `App.Booth.CaptureFrame` is proved to return no picture otherwise |
| App.Booth.CompositionReady | App.tsx:157-166 | composing needs the composition canvas and its 2D context; `App.Booth.ComposeFinalImage` is proved to publish nothing and end composing without them |
| App.Booth.Loaded | App.tsx:177-208 | after the first `k` `onload` callbacks the canvas holds the white fill and their draws, and the composed image and the composing flag are those of `Layout.PublishedOr`; the loop of `App.Booth.ComposeFinalImage` keeps it |
| App.Booth.StartCamera | App.tsx:33-58 | stops the held stream, requests the facing mode at 1280×720, and holds the granted stream or reports the camera unavailable; the bookkeeping is the request followed at once by the intended answer (`CameraRequests.Answer`), so the held stream is the only one not stopped |
| App.Booth.ToggleCamera | App.tsx:60-73 | ignored during a session; otherwise flips the facing and restarts the camera that way: the held stream stopped, the request logged, the grant held and logged, and the error message cleared or set to the camera-unavailable message |
| App.Booth.ToggleFlash | App.tsx:75-78 | ignored during a session; otherwise flips the flash |
| App.Booth.CaptureFrame | App.tsx:80-97 | a still of the video, mirrored for the front camera, exactly when video, canvas, camera and context are there; the canvas is resized to the video whenever the first three are |
| App.Booth.ComposeFinalImage | App.tsx:155-210 | no canvas or context: composing ends and nothing is published; otherwise the canvas holds the white fill and the draws in load order, and the published picture is the one `Layout.Published` describes |
| App.Booth.LoadPhotos | App.tsx:177-208 | the load callbacks, run in load order, leave exactly the composition and the publication of that order |
| App.Booth.LoadOne | App.tsx:179-205 | one load callback draws its photo in its cell and publishes when it is the last index's |
| App.Booth.CountDown | App.tsx:108-112 | shows d, then one less each second, ending on 0 |
| App.Booth.ShutterDelay | App.tsx:115-131 | the flash overlay and its waits, or the plain shutter wait |
| App.Booth.AwaitShutter | App.tsx:108-131 | the prelude of a shot, with the reset's writes when "new photoshoot" was pressed |
| App.Booth.RecordOutcome | App.tsx:133-145 | keeps the photo and pauses, or reports the failure and stops the session |
| App.Booth.TakeShot | App.tsx:108-145 | one pass of the loop; the capture is the one `Shoot` describes |
| App.Booth.ShootNext | App.tsx:107-146 | one pass of the loop extends the record and the kept photos as `ShotsTaken` and `Photos` say, and the loop goes on exactly when the shot succeeded short of the end |
| App.Booth.ShootAll | App.tsx:106-146 | the loop stops at the first failed capture; it reports success exactly when all four succeed, returns the photos in order, and leaves the record `ShotsTaken` describes |
| App.Booth.BeginSession | App.tsx:101-104 | starts the session and clears the previous results |
| App.Booth.FinishSession | App.tsx:148-152 | ends the session and composes the photos with the layout when there are four |
| App.Booth.Conclude | App.tsx:148-152 | ends the session and composes exactly when every capture succeeded |
| App.Booth.RunSession | App.tsx:101-152 | the whole session, with the countdown, flash and layout read at its start, leaves the record `SessionRecord` describes and, when composed, the composition of its photos on the canvas |
| App.Booth.StartPhotoSession | App.tsx:99-153 | nothing happens unless the camera is active and no session runs: a refused start leaves the booth and both canvases unchanged; the settings and the camera are never touched; otherwise the session, with the countdown, flash and layout read at its start, leaves the record `SessionRecord` describes and the composition of its photos on the canvas |
| App.Booth.ClearSession | App.tsx:300-307 | the state writes of "new photoshoot", leaving the record `App.Cleared` describes |
| App.ApplyExportFilter | App.tsx:225-236 | the temporary canvas gets the filter `ExportCss` names |
| App.PaintExport | App.tsx:215-239 | painted exactly when the temporary canvas has a context: the composition canvas's size, and the image at its natural size under the effect's filter; share paints the same way (App.tsx:254-277) |
| App.Booth.HandleDownload | App.tsx:212-248 | a file exactly when there is an image, a composition canvas and a temporary context, and it is the filtered image under the timestamped name |
| App.Booth.HandleShare | App.tsx:250-298 | nothing without an image or canvas, a processing failure without a temporary context, and otherwise the very file a download at that moment gives |
| App.Booth.NewPhotoshoot | App.tsx:300-313 | clears the session and the effect, and restarts the camera only when it is not active; settings and timeline stay |
| Studio.SelectLayout | components/StudioSection.tsx:87 | a layout click takes effect unless a session runs, and changes nothing else |
| Studio.SelectPhotoCount | components/StudioSection.tsx:107 | a count click takes effect only when no session runs and the layout is the strip or the count is four, and changes nothing else |
| Studio.SelectCountdown | components/StudioSection.tsx:123 | a countdown click takes effect unless a session runs, and changes nothing else |
| Studio.PhotoCountAccepted | components/StudioSection.tsx:107 | a click on a count is taken outside a session, for any count under the strip and only for four under the grid; `Studio.GridAcceptsOnlyFour` and `Studio.DisabledExactlyWhenRejected` state it |
| Studio.PhotoCountDisabled | components/StudioSection.tsx:109 | a count button is disabled during a session and, under the grid, for every count but four; `Studio.DisabledExactlyWhenRejected` ties it to the click guard |
| Studio.StartFires | components/StudioSection.tsx:162 | a click on the start action starts a session exactly when none runs and the camera is active; `Studio.InertExactlyWhenNotFiring` ties it to the pointer guard |
| Studio.StartInert | components/StudioSection.tsx:165 | the start action ignores the pointer during a session or with the camera inactive; `Studio.InertExactlyWhenNotFiring` ties it to the click guard |
| Studio.TogglesDisabled | components/StudioSection.tsx:138 | the camera and flash toggles are disabled during a session (also `components/StudioSection.tsx:146`); `Studio.SettingsFrozenDuringSession` states it |
| Studio.DisabledExactlyWhenRejected | components/StudioSection.tsx:107-109 | a count button is disabled exactly when a click on it would be ignored |
| Studio.InertExactlyWhenNotFiring | components/StudioSection.tsx:162-165 | the start action ignores the pointer exactly when a click would not start a session |
| Studio.GridAcceptsOnlyFour | components/StudioSection.tsx:107 | under the grid only four is accepted, and four always is outside a session |
| Studio.SettingsFrozenDuringSession | components/StudioSection.tsx:87-162 | while a session runs, no settings click changes anything, the start action does not fire and the toggles are disabled |
| Studio.StripCountSurvivesGrid | components/StudioSection.tsx:87-107 | a count other than four chosen under the strip survives a switch to the grid, where it could not be chosen |
| Studio.PlaceholderCount | components/StudioSection.tsx:70-72 | max(0, count - captured) placeholders |
| Studio.PanelShown | components/StudioSection.tsx:63 | the thumbnail panel is shown only once at least one photo is captured; `Studio.NoSlotsBeforeFirstPhoto` and `App.UnreadySessionHidesPanel` state when it stays hidden |
| Studio.RenderedSlots | components/StudioSection.tsx:63-72 | the slots on screen: none while the panel is hidden, otherwise a thumbnail per captured photo and the placeholders; `Studio.SlotsFillTheCount` states how many |
| Studio.SlotsFillTheCount | components/StudioSection.tsx:63-72 | no slot is rendered exactly when no photo is captured, since the panel is then hidden; once one is, thumbnails and placeholders fill exactly the count's slots while no more photos than the count are captured; beyond the count there are no placeholders |
| Studio.NoSlotsBeforeFirstPhoto | components/StudioSection.tsx:63 | before the first photo of a session the panel is hidden and no slot, placeholder or thumbnail, is on screen, whatever the count |
| Studio.Columns | components/StudioSection.tsx:66 | min(count, 4) columns |
| Studio.SessionAgainstLargerCount | components/StudioSection.tsx:65-72 | a four-photo session shown against a larger count leaves count - 4 empty slots in four columns |

## Findings

| source | as written | input that shows it | evidently intended | confidence | as-written member | corrected member |
|---|---|---|---|---|---|---|
| App.tsx:33-58 | each `startCamera` call stops only the stream of the render it was created in, and its answer replaces the held stream without stopping it | two requests made while no stream is held (a camera toggle during the permission prompt), answered with grants 1 and then 2: stream 1 stays live and is never stopped | at most one live stream: a held stream not stopped yet is stopped when an answer replaces it | not executed | CameraRequests.OverlappingRequestsLeak | CameraRequests.RunKeepsSettled |

## Left out

- Pixels, image decoding and JPEG encoding. A picture is the record of paint operations on its bitmap, and the quality arguments of `toDataURL` and `toBlob` have no effect in the model.
- The evaluation of CSS filters. Only the filter string is modelled.
- `getUserMedia`, the video element and timers. They are inputs: the granted stream or a refusal, the video at each capture, and `Wait` steps instead of timeouts. Attaching the stream to the video element (`srcObject`) is left out.
- The effect's cleanup (`App.tsx:62-66`). It reads the `stream` of the render in which the effect last ran (its dependencies are `[useFrontCamera]`, `App.tsx:68`): null after mount, and after a camera toggle the stream which that toggle's `startCamera` stops anyway. So the cleanup never stops the stream held at the time, and at unmount that stream keeps running. The model has no unmount, and the cleanup that runs on a toggle has no effect in it. The effect's call on mount is the constructor followed by `StartCamera`.
- React's batching and rendering. A setter takes effect where it is called, and the closures read the state as of the click.
- Interleavings other than "new photoshoot" during a session's shots. After a "new photoshoot" during a session, `isTakingPhoto` is false (`App.tsx:304`) while the session's loop goes on. The guards of the camera toggle (`App.tsx:71`), the flash toggle (`App.tsx:76`) and the start action (`components/StudioSection.tsx:162`) then let their clicks through. A toggle during such a session, and a second session running beside the first, are not modelled. Nor are a "new photoshoot" that restarts the camera mid-session, and one pressed during a pause or during composition.
- The image `onerror` path. The code has none, and a photo that never loads is simply absent from the load order.
- The platform part of `handleShare`: `toBlob`, `navigator.share`, and the alerts that follow it. The model stops at the file handed to the platform. The alert on a missing temporary context is the `ProcessingFailed` outcome.
- The download link's creation and click. The model stops at the file.
- `scrollIntoView` calls and the presentational markup of every component.
- `PHOTOS_PER_SESSION_OPTIONS`, which the studio panel imports, is not defined in `constants.ts`. The studio panel's photo count and its setter are not passed by `App.tsx:319-336`. The count is therefore an input of `Studio`, and the booth always takes `PHOTOS_PER_SESSION` photos.
- The `components/Darkroom_gif.tsx` GIF encoder, the navigation scroll-spy, the service worker and the build configuration are not part of this model.
- Behaviour the code does not have is not modelled: capture retries, cancellation of a running session, crop or aspect-preserving scaling (every photo is stretched to 400×400), and recomposition when the layout changes. The compositor publishes when the photo with the last index loads, not when all photos have loaded.
- App.Booth.StartCamera: its request and its answer are one step, so `CameraValid` (at most one live stream) holds in the booth. In the code `startCamera` awaits `getUserMedia` (`App.tsx:39`) and sets the stream only when it answers (`App.tsx:46`), and each call stops only the stream of the render it was created in (`App.tsx:36-38`). `CameraValid` therefore holds only while every request is answered before the next one is made. A camera toggle during the permission prompt (`App.tsx:71` checks only `isTakingPhoto`), two quick toggles, or "new photoshoot" while the camera is still inactive (`App.tsx:309-311`) make two requests outstanding. Then the first grant is never stopped (see "## Findings"), and when the answers come in the other order the held stream faces the other way from `useFrontCamera`. `CameraRequests` models these interleavings for the bookkeeping only. The facing mode of the held stream is not modelled.
- App.Booth.NewPhotoshoot: when the camera is inactive, its contract states the restart's request, stream and message but not the stream bookkeeping, which `App.Booth.StartCamera` states.
