# HttpProxy capture engine and control plane, in Dafny

This project models two parts of the HttpProxy repository.

The first is the screen-capture engine `DXScreenCapture`. It acquires a frame from the
display-duplication interface and resizes it on the GPU. It releases the frame, encodes the
result as a BMP into a cached memory stream, and returns a bitmap. A background thread repeats
this at a target frame rate, with a start flag and a capture flag guarding overlapping starts
and stops. Disposal tears down the five native handles once.

The second is the control plane in `HttpProxyApi/Program.cs`. It has one static address,
overwritten by `POST /ip`. `GET /ip` converts that address into four bytes with
`ConvertIpToBytes`. `GET ""` and `GET /server` embed it in a greeting and in a redirect page.

Files:

- `wrappers.dfy`: `Option` (a C# reference that may be null), `Result` (a value or the
  exception raised) and `Max`.
- `pacing.dfy`: C# integer semantics (truncating division, unchecked 32-bit wrap-around). It
  also holds the sleep rule of the capture loop and the size of the resize target.
- `screen_capture.dfy`: the engine as a class whose methods update its fields. Foreign
  Direct3D, DXGI, Direct2D and WIC calls are abstract steps that either succeed or throw. A
  `DrawEnv` says which step throws during one `Draw`; an `InitStep` says the same for `Init`.
  The duplication interface carries the "frame held" state that governs acquire and release.
- `ipv4.dfy`: `string.Split`, `byte.Parse` on digit strings, and `ConvertIpToBytes` over an
  array, with the parser's properties.
- `control_plane.dfy`: the static address and the four handlers, each handler as a method
  of a `Program` class.

Inputs that come from outside the code are parameters:

- the outcome of each foreign call (`DrawEnv`, `InitStep`);
- the processing time the stopwatch measures (`Tick.procTime`);
- a `StopCapture` issued by another thread between two loop passes (`Tick.stopRequested`).

Ghost fields record what the properties speak about:

- the engine's `log` of flag stores, acquire and release requests, encoder bindings, joins and
  starts;
- `released`, the handle disposals in order;
- `delivered`, the images handed to the callback.

Three behaviours of the code worth knowing:

- The frame is released only once `EndDraw` has succeeded (DXScreenCapture.cs:107-111). A
  resize step that throws skips the release; see "## Findings".
- `Dispose(bool)` clears the capture flag, without joining the loop thread, only when
  `disposing` is true (`Dispose()`, DXScreenCapture.cs:214-217); the finalizer path leaves the
  flag as it is. Either way it then disposes
  the device first, then the duplication interface, the Direct2D device and the two draw
  contexts (DXScreenCapture.cs:216-223).
- The sleep is clamped to at least 1 ms only after a produced frame (DXScreenCapture.cs:182-191).
  A pass without an image sleeps the raw budget `1000 / F`, which is 0 above 1000 frames per
  second (`Pacing.IdleSleepAtHighRate`). For a negative F and no image: from -1000 to -501 the
  pass calls `Sleep(-1)` and waits forever; from -500 to -1 `Sleep` throws; below -1000 the
  budget is 0 (`ScreenCapture.NegativeRatePass`).

## Model

| member | source | states |
|---|---|---|
| Wrappers.Max | DXScreenCapture.cs:191 | `Math.Max(a, b)`: the result is at least both arguments and equals one of them |
| Pacing.Wrap32 | DXScreenCapture.cs:189-190 | unchecked `int` arithmetic and the `(int)` cast keep the value modulo 2^32 inside the int range, and keep every in-range value |
| Pacing.TruncDiv | DXScreenCapture.cs:179 | C# integer division truncates toward zero: it agrees with Euclidean division by sign case, never exceeds the dividend in magnitude, and is 0 when the divisor is larger |
| Pacing.Budget | DXScreenCapture.cs:179 | `1000 / targetFrameRate` lies in [-1000, 1000], equals `1000 / F` for positive F, and is 0 above 1000 frames per second |
| Pacing.SleepMs | DXScreenCapture.cs:179-191 | the loop's sleep fails exactly for a zero frame rate; after a produced frame it is at least 1; otherwise it is the whole budget |
| Pacing.IdleSleepAtHighRate | DXScreenCapture.cs:179-191 | at 2000 frames per second a pass without an image sleeps 0 ms |
| Pacing.SleepForProducedFrame | DXScreenCapture.cs:179-191 | while nothing wraps, the sleep after a produced frame is `max(1, 1000/F - procTime - 7)`, between 1 and `max(1, 1000/F)` |
| Pacing.SleepMonotone | DXScreenCapture.cs:187-191 | while nothing wraps (a processing time of at most INT32_MAX - 1007 ms), a longer processing time never gives a longer sleep |
| Pacing.Truncate | DXScreenCapture.cs:74-75 | the `(int)` cast truncates toward zero: it lies less than 1 below a non-negative value and less than 1 above a negative one |
| Pacing.NegativeBudget | DXScreenCapture.cs:179 | a negative frame rate gives a budget of -1 from -1000 to -501, at most -2 from -500 to -1, and 0 below -1000 |
| Pacing.ThreadSleep | DXScreenCapture.cs:203 | `Thread.Sleep` waits for a value of 0 or more, waits forever for -1, and throws below -1 |
| Pacing.TargetDim | DXScreenCapture.cs:74-75 | `(int)(n * ratio)` is the floor of the product for a non-negative ratio, and at most n for a ratio up to 1 |
| Pacing.TargetSize | DXScreenCapture.cs:74-75 | the resize target is the floor of each frame side times the scale |
| Pacing.HalfScaleFullHd | DXScreenCapture.cs:28 | the default scale 0.5 turns a 1920x1080 frame into 960x540 |
| Pacing.TinyScaleEmptyTarget | DXScreenCapture.cs:74-75 | at scale 0.0004 a 1920x1080 frame gives a 0x0 target |
| Ipv4.Split | HttpProxyApi/Program.cs:42 | `Split('.')` always yields at least one chunk |
| Ipv4.JoinSplit | HttpProxyApi/Program.cs:42 | splitting loses nothing: joining the chunks with the separator returns the string, and no chunk holds a separator |
| Ipv4.SplitJoin | HttpProxyApi/Program.cs:42 | joining separator-free chunks and splitting again returns the same chunks |
| Ipv4.SplitAppend | HttpProxyApi/Program.cs:42 | splitting `s + sep + t` concatenates the chunks of `s` and of `t` |
| Ipv4.SplitWhole | HttpProxyApi/Program.cs:42 | a string without a separator is one chunk |
| Ipv4.SplitQuad | HttpProxyApi/Program.cs:42 | four dot-free parts joined by dots split back into those four, in order |
| Ipv4.ParseByte | HttpProxyApi/Program.cs:47 | a successful parse was given a non-empty digit string and returns its value; every failure is a format or an overflow error, and an overflow comes only from a digit string above 255 |
| Ipv4.ParseByteSpec | HttpProxyApi/Program.cs:47 | `byte.Parse` succeeds exactly on a non-empty digit string denoting at most 255 and returns that value; a dotted string is a format error |
| Ipv4.ParseDecimalByte | HttpProxyApi/Program.cs:47 | every byte printed in decimal parses back to itself |
| Ipv4.ParseChunks | HttpProxyApi/Program.cs:45-48 | after n passes of the loop, success means n bytes from at least n chunks; no failure is a null reference |
| Ipv4.ParseChunksSpec | HttpProxyApi/Program.cs:45-48 | the loop succeeds exactly when enough chunks exist and each of the first n parses, and byte i is chunk i parsed |
| Ipv4.ParseChunksStops | HttpProxyApi/Program.cs:45-48 | the first exception ends the loop: later passes do not change the outcome |
| Ipv4.ParseChunksPrefix | HttpProxyApi/Program.cs:45-48 | chunks after the n-th play no part in the first n passes |
| Ipv4.ParseIp | HttpProxyApi/Program.cs:40-50 | a successful conversion yields exactly four bytes |
| Ipv4.ConvertIpToBytes | HttpProxyApi/Program.cs:40-50 | the array method succeeds exactly when the reference conversion does: it returns a four-element array holding the same bytes, or else raises the same exception |
| Ipv4.ParseIpSpec | HttpProxyApi/Program.cs:40-50 | conversion succeeds exactly when there are at least four chunks and each of the first four parses as a byte, and byte i is chunk i |
| Ipv4.ParseWellFormed | HttpProxyApi/Program.cs:40-50 | `"a.b.c.d"` with byte-valued parts converts to those four bytes, in order |
| Ipv4.TooFewChunks | HttpProxyApi/Program.cs:45-47 | fewer than four chunks always fail, and the failure is an index out of range when every chunk present parses |
| Ipv4.BadChunk | HttpProxyApi/Program.cs:47 | one of the first four chunks that does not parse makes the conversion fail |
| Ipv4.IgnoresExtraChunks | HttpProxyApi/Program.cs:42-48 | once a string has four chunks, anything after a further dot is ignored |
| Ipv4.FifthChunkIgnored | HttpProxyApi/Program.cs:42-48 | `"1.2.3.4.x"` converts to `[1, 2, 3, 4]` |
| Ipv4.FormatParseRoundTrip | HttpProxyApi/Program.cs:40-50 | formatting any four bytes in dotted decimal and converting gives them back |
| ControlPlane.Text | HttpProxyApi/Program.cs:28 | concatenating a null string adds nothing; a non-null string adds itself |
| ControlPlane.HomePage | HttpProxyApi/Program.cs:37 | the greeting is `hi->` followed by the address, with nothing else |
| ControlPlane.ServerPage | HttpProxyApi/Program.cs:27-28 | the page is the script prefix, the address, `:20012` and the script suffix, in that order |
| ControlPlane.HomePageDeterminesAddress | HttpProxyApi/Program.cs:37 | two greetings are equal exactly when the addresses they show are |
| ControlPlane.ServerPageDeterminesAddress | HttpProxyApi/Program.cs:27-28 | two redirect pages are equal exactly when the addresses they redirect to are |
| ControlPlane.InitialAddressParses | HttpProxyApi/Program.cs:15 | the initial address `0.0.0.0` converts to four zero bytes |
| ControlPlane.Program.constructor | HttpProxyApi/Program.cs:15 | the address starts as `0.0.0.0` |
| ControlPlane.Program.PostIp | HttpProxyApi/Program.cs:30-34 | the posted `Ip`, null included, replaces the address; the `Id` is ignored |
| ControlPlane.Program.GetIp | HttpProxyApi/Program.cs:36 | the answer is the conversion of the current address: four bytes, or the exception that fails the request |
| ControlPlane.Program.GetHome | HttpProxyApi/Program.cs:37 | the answer is the greeting for the current address |
| ControlPlane.Program.GetServer | HttpProxyApi/Program.cs:27-28 | the answer is the redirect page for the current address |
| ScreenCapture.Duplication.AcquireNextFrame | DXScreenCapture.cs:60 | a frame is acquired exactly when the output offers one and none is held; the interface refuses an acquire while a frame is held, and an acquired frame stays held |
| ScreenCapture.Duplication.ReleaseFrame | DXScreenCapture.cs:107-111 | releasing ends the hold even when access was lost and the call throws |
| ScreenCapture.MemoryStream.SetPosition | DXScreenCapture.cs:118 | setting the position never changes the stream's length |
| ScreenCapture.MemoryStream.Write | DXScreenCapture.cs:119-140 | a write advances the position and grows the length only past its end |
| ScreenCapture.ReleaseStep | DXScreenCapture.cs:219-223 | disposing a null or not yet disposed handle keeps every disposal single |
| ScreenCapture.StillUnreleased | DXScreenCapture.cs:219-223 | disposing one handle leaves a different undisposed handle undisposed |
| ScreenCapture.DisposalOnce | DXScreenCapture.cs:219-223 | the five `?.Dispose()` calls dispose no object twice when the handles are distinct and none was disposed before |
| ScreenCapture.ProducedAppend | DXScreenCapture.cs:181-184 | one more pass adds its image, if any, to the images produced |
| ScreenCapture.WrittenFrames | DXScreenCapture.cs:55-151 | successive calls of `Draw` as written give one result per call, each starting from the hold the previous call left |
| ScreenCapture.WrittenFramesAppend | DXScreenCapture.cs:55-151 | one more call of `Draw` as written appends the image for the hold the earlier calls left, and updates that hold |
| ScreenCapture.WedgeIsPermanent | DXScreenCapture.cs:55-151 | once a frame is held, every later call of `Draw` as written returns null, whatever the output offers |
| ScreenCapture.ResizeFailureWedges | DXScreenCapture.cs:60-111 | a resize step that throws after a successful acquire makes that call and every later call of `Draw` as written return null |
| ScreenCapture.EndDrawFailureExample | DXScreenCapture.cs:60-111 | after one `EndDraw` failure at scale 0.5, `Draw` as written loses the next clean 1920x1080 frame, which the releasing draw returns as 960x540 |
| ScreenCapture.PassOutcome | DXScreenCapture.cs:177-203 | one pass of the loop: it exits exactly on a stop or a clear flag; a pass that sleeps returned the image its setup and output give and sleeps a non-negative time by the rule |
| ScreenCapture.PassOutcomeSpec | DXScreenCapture.cs:177-203 | with capture on, a pass crashes only on a zero rate or, after no image, on a budget below -1; a produced image always leads to a sleep of at least 1 ms |
| ScreenCapture.NegativeRatePass | DXScreenCapture.cs:179-203 | with a negative rate and no image, a pass waits forever for rates -1000 to -501, crashes for -500 to -1, and sleeps 0 ms below -1000 |
| ScreenCapture.RanAppend | DXScreenCapture.cs:177-203 | one more pass that ended in a sleep extends the record that every pass did, as `PassOutcome` says |
| ScreenCapture.RanByRuleMeans | DXScreenCapture.cs:177-203 | in a run where every pass slept, no pass saw a stop, each returned the image its output gives, and each slept a non-negative time by the rule |
| ScreenCapture.CaptureThread.constructor | DXScreenCapture.cs:175 | a new thread carries the frame rate and the callback and is not yet alive |
| ScreenCapture.CaptureThread.Start | DXScreenCapture.cs:206 | a started thread is alive |
| ScreenCapture.DXScreenCapture.constructor | DXScreenCapture.cs:17-28 | all handles, the stream and the thread are null, both flags are 0, the scale is 0.5 and nothing is disposed |
| ScreenCapture.DXScreenCapture.Init | DXScreenCapture.cs:29-52 | `Init` stores the scale and creates fresh handles up to the first throwing step; later handles keep their old values; nothing else changes |
| ScreenCapture.DXScreenCapture.OpenDuplication | DXScreenCapture.cs:34-46 | the device and then the duplication interface, with no frame held, are created unless an earlier step throws |
| ScreenCapture.DXScreenCapture.CreateDrawContexts | DXScreenCapture.cs:48-52 | the Direct2D device and the frame and texture contexts are created in order until a step throws |
| ScreenCapture.DXScreenCapture.StopCapture | DXScreenCapture.cs:154 | the capture flag becomes 0 and nothing else changes |
| ScreenCapture.DXScreenCapture.StopAndJoin | DXScreenCapture.cs:164-168 | the capture flag becomes 0, then the old thread is joined and is no longer alive |
| ScreenCapture.DXScreenCapture.CaptureAuto | DXScreenCapture.cs:155-208 | with capture on or a start in progress nothing changes; otherwise the start flag is taken, a live old thread is stopped and joined, capture becomes 1, and a fresh thread with this rate and callback is started before the start flag clears, in that order |
| ScreenCapture.DXScreenCapture.Spawn | DXScreenCapture.cs:169-207 | capture becomes 1, a fresh live thread with this rate and callback is stored, and the start flag returns to 0 |
| ScreenCapture.DXScreenCapture.RewindStream | DXScreenCapture.cs:116-118 | the stream is created only when missing and rewound to 0 without shrinking |
| ScreenCapture.DXScreenCapture.Encode | DXScreenCapture.cs:113-143 | an image of the target size results exactly when no encoder step throws; the stream is bound at position 0 and holds the encoded bytes, with stale bytes beyond them kept |
| ScreenCapture.DXScreenCapture.AcquireFrame | DXScreenCapture.cs:60 | the request with the 10 s timeout is logged; a frame is acquired exactly when one is ready and none is held |
| ScreenCapture.DXScreenCapture.ResizeAndEncode | DXScreenCapture.cs:61-143 | with a frame held: an image of the target size results exactly when no resize or encode step throws; a resize failure skips the release and leaves the frame held; otherwise the frame is released before encoding |
| ScreenCapture.DXScreenCapture.ResizeAndEncodeReleasing | DXScreenCapture.cs:61-143 | the same image, but the frame is released on both paths |
| ScreenCapture.DXScreenCapture.ReleaseFrame | DXScreenCapture.cs:107-111 | the frame is released and an access-loss exception is swallowed |
| ScreenCapture.DXScreenCapture.Draw | DXScreenCapture.cs:55-151 | as written: the image is `DrawImage` of the state before the call, one of the target size exactly when the interface hands out a frame and no resize or encode step throws; afterwards a frame is held exactly when one was held before or a resize step threw after the acquire; with a frame held, `Draw` returns null; the log gains `WrittenDrawLog` (acquire, then release and encode only once the resize steps pass) and the stream is reset to position 0, and then written with the encoded bytes unless the write fails, exactly when `EncodeReached` holds; otherwise, and in particular without an interface, it keeps its object, position and length |
| ScreenCapture.DXScreenCapture.DrawReleasing | DXScreenCapture.cs:55-151 | the same image, but every acquired frame is released before encoding or returning, so the frame state after the call is the state before it; the log gains `ReleasingDrawLog` (a release after every acquired frame) and the stream changes exactly as in `Draw` |
| ScreenCapture.DXScreenCapture.DrawEach | DXScreenCapture.cs:55-151 | successive calls of `Draw` return exactly `WrittenFrames` of the state before the first, and leave the hold `HoldAfter` gives |
| ScreenCapture.DXScreenCapture.CaptureFrame | DXScreenCapture.cs:179-192 | one capture pass over the releasing draw: the image is the one the draw setup and the output give, the sleep is the rule's value for it, a produced image goes to the callback when there is one, the draw setup is unchanged, and the log and stream change exactly as in `DrawReleasing` |
| ScreenCapture.DXScreenCapture.CaptureFrameAsWritten | DXScreenCapture.cs:179-192 | the same pass over `Draw` as written: the frame hold afterwards is the one `Draw` leaves, and with a frame held before it the pass yields no image and sleeps the whole budget; the log and stream change exactly as in `Draw` |
| ScreenCapture.DXScreenCapture.LoopStep | DXScreenCapture.cs:177-203 | one pass ends as `PassOutcome` says: an exit on a stop or a clear flag, a crash on a zero rate or a sleep below -1, an endless wait on a sleep of -1, otherwise a sleep of the rule's value with the drawn image; a stop request clears the flag and logs only the store of 0, and a pass that draws adds `ReleasingDrawLog` and the stream change of `DrawReleasing` |
| ScreenCapture.DXScreenCapture.RunLoop | DXScreenCapture.cs:175-205 | every pass before the last slept as `PassOutcome` says; the run ends at the first pass that does not sleep, whose outcome `ending` gives, or after the whole script; the callback received exactly the produced images, in order |
| ScreenCapture.DXScreenCapture.DisposeCore | DXScreenCapture.cs:210-226 | the first call clears the capture flag when disposing, disposes each non-null handle once in declaration order, and marks the object disposed; later calls change nothing |
| ScreenCapture.DXScreenCapture.Dispose | DXScreenCapture.cs:233-237 | disposal with the capture stop, idempotent, and the finalizer is suppressed |
| ScreenCapture.DXScreenCapture.Finalize | DXScreenCapture.cs:228-231 | the same disposal without touching the capture flag |

## Left out

- The pixels: frames, textures and encoded images are reduced to their sizes and byte counts.
  Direct3D, DXGI, Direct2D and WIC internals are abstract steps that succeed or throw.
- The `using` blocks inside `Init` and `Draw` dispose temporary COM objects. These objects are
  not the engine's fields and are not modelled.
- Thread scheduling and `Interlocked` atomicity: each call runs to completion. Another
  thread's `StopCapture` appears only between two loop passes, as `Tick.stopRequested`.
- `Thread.Sleep` is not executed: the model computes the value passed to it and what
  `Pacing.ThreadSleep` says that value does (a wait, an endless wait for -1, an exception
  below -1).
- `Stopwatch` and the clock: the processing time is the parameter `Tick.procTime`.
- The `DEBUG` build's frames-per-second counter and console output, and its debug device flag.
- `Debug.WriteLine` in `POST /ip`, ASP.NET hosting, routing, authorization and JSON binding.
- Floating point: the scale and the products of `Draw` use exact reals, so rounding before
  the `(int)` cast is not modelled.
- Pacing.Truncate: returns an unbounded integer. C#'s `(int)` cast of a double outside the
  int range does not truncate: older runtimes give an unspecified value in unchecked code,
  and .NET 9 on x86/x64 saturates.
- Use of the engine after `Dispose`, and the race between `Dispose`, which does not join the
  thread, and a loop pass still drawing with the disposed handles.
- ScreenCapture.DXScreenCapture.CaptureAuto: `Join` is assumed to return. Suppose a loop
  thread waits forever in `Sleep(-1)`, for example at rate -600 with no image. Then a later
  `CaptureAuto` waits forever at line 167 in the source, with `acquire` left at 1, and every
  call after it returns at line 161. The model still joins, sets capture to 1, starts a fresh
  thread and clears `acquire`.
- ScreenCapture.Duplication.ReleaseFrame: an access loss invalidates the duplication
  interface in DXGI, and the source never recreates it, so every later acquire fails and
  `Draw` returns null for good. The model lets a later `DrawEnv` offer a frame again.
- ScreenCapture.DXScreenCapture.Init: the screen and adapter indices are not parameters. An
  index that does not exist is the step `GetAdapter` or `GetOutput` throwing. Calling `Init`
  twice overwrites handles that are never disposed; the model allows this and does not flag
  it.
- ScreenCapture.DXScreenCapture.RunLoop: the loop does not mark its thread dead when it ends.
  Only `StopAndJoin` clears the thread's `alive` flag. When the loop has already ended, the
  source finds `IsAlive` false and skips lines 166-167, while the model's log can still record
  that join.
- ScreenCapture.DXScreenCapture.RunLoop: its passes use the corrected draw, as in
  `CaptureFrame`.
- ScreenCapture.DXScreenCapture.CaptureFrame: it calls the corrected draw (`DrawReleasing`)
  where line 181 calls `Draw`. The pass as written is `CaptureFrameAsWritten`, and the images
  successive calls of `Draw` as written give are `WrittenFrames`.
- ScreenCapture.DXScreenCapture.LoopStep: a pass over the corrected draw, as in `CaptureFrame`.
  A loop as written returns no image after the first frame it leaves held (`WedgeIsPermanent`).
- ScreenCapture.DXScreenCapture.CaptureFrame: the callback's own behaviour is not modelled.
  The model records each image handed to it and gives it no further effect.
- ScreenCapture.DXScreenCapture.Draw: the frame information and the frame resource of
  `AcquireNextFrame` are not modelled; `Draw` looks only at the acquire outcome.
- ScreenCapture.DXScreenCapture.Draw: aliasing between the returned images is not modelled.
  Every `Bitmap` it returns is built over the same `cachedStream` (DXScreenCapture.cs:141), so
  the next draw rewrites the bytes under an image the callback may still hold. The model's
  `Image` values are independent of each other and of the stream.
- Ipv4.ParseByte: accepts only non-empty ASCII digit strings. .NET's `byte.Parse`, under its
  default number style, also accepts leading and trailing white space, a leading sign (`+7`,
  and `-0` for zero) and trailing NUL characters; the model treats those as format errors.
  Both reject digits outside ASCII. Because .NET accepts the sign, a negative non-zero value
  such as `-5` is an overflow error there and a format error in the model; the model's own
  clause that an overflow comes only from a digit string above 255 therefore does not hold for
  .NET on signed input.

## Findings

| source | as written | input that shows it | evidently intended | confidence | as-written member | corrected member |
|---|---|---|---|---|---|---|
| DXScreenCapture.cs:60-111 | `ReleaseFrame` is called only after `EndDraw`. An exception between the acquire and `EndDraw`, inside the outer `try`, is caught without releasing the frame. The frame stays held, the interface refuses every later acquire, and `Draw` returns null forever. | an `EndDraw` that throws once on a 1920x1080 frame (`ScreenCapture.WedgeScenario`), or scale 0.0004, which asks for a 0x0 texture (`Pacing.TinyScaleEmptyTarget`) | release the frame in a `finally` on every path after a successful acquire | medium, not executed | ScreenCapture.DXScreenCapture.Draw | ScreenCapture.DXScreenCapture.DrawReleasing |

`ScreenCapture.EndDrawFailureExample` and `ScreenCapture.WedgeScenario` show the wedge.
`ScreenCapture.WedgeIsPermanent` proves that once a frame is held no later call of `Draw` as
written yields an image, and `CaptureFrameAsWritten` that such a pass sleeps the whole budget.
`ScreenCapture.RecoveryScenario` shows the corrected draw acquiring and encoding the next frame
after the same failure. `CaptureFrame`, `LoopStep` and `RunLoop` use the corrected draw, which
leaves the frame state as it found it.
