/**
 * The control logic of the capture engine `DXScreenCapture`: its flags, its thread handle,
 * the lazily created output stream, disposal, and the acquire / resize / release / encode
 * skeleton of `Draw`. Every Direct3D, DXGI, Direct2D and WIC call is an abstract step that
 * succeeds or throws, as a `DrawEnv` or an `InitStep` says; threads run as sequential steps.
 */
module ScreenCapture {
  import opened Wrappers
  import opened Pacing

  /** The wait `Draw` passes to `AcquireNextFrame`, in milliseconds. */
  const ACQUIRE_TIMEOUT_MS: int := 10000

  /** The five native handles the engine owns, in the order disposal releases them. */
  datatype Resource = D3dDevice | OutputDuplication | D2dDevice | FrameDc | TextureDc

  /** A device or draw context: a foreign object whose identity is all the model needs. */
  class Handle {
    const kind: Resource

    constructor (kind: Resource)
      ensures this.kind == kind
    {
      this.kind := kind;
    }
  }

  /** What the duplication interface reports when asked for a frame. */
  datatype AcquireOutcome = FrameReady | TimedOut | AcquireFailed

  /**
   * The display-duplication interface. `frameHeld` is true between an acquire and its release;
   * the interface refuses a second acquire while a frame is held.
   */
  class Duplication {
    var frameHeld: bool

    constructor ()
      ensures !frameHeld
    {
      frameHeld := false;
    }

    /**
     * Returns true when a frame was acquired; a timeout, an error or a frame still held returns
     * false (the caller sees an exception).
     */
    method AcquireNextFrame(timeoutMs: int, outcome: AcquireOutcome) returns (acquired: bool)
      modifies this
      ensures acquired <==> outcome == FrameReady && !old(frameHeld)
      ensures frameHeld == (old(frameHeld) || acquired)
    {
      acquired := outcome == FrameReady && !frameHeld;
      if acquired {
        frameHeld := true;
      }
    }

    /** Ends the current acquire; reports false when access to the output was lost (the call throws). */
    method ReleaseFrame(accessLost: bool) returns (released: bool)
      modifies this
      ensures !frameHeld && released == !accessLost
    {
      frameHeld := false;
      released := !accessLost;
    }
  }

  /** A `MemoryStream` as far as the encoder uses it: a write position and a length. */
  class MemoryStream {
    var position: nat
    var length: nat

    constructor ()
      ensures position == 0 && length == 0
    {
      position, length := 0, 0;
    }

    /** `Position = p`: moving the position never shortens the stream. */
    method SetPosition(p: nat)
      modifies this
      ensures position == p && length == old(length)
    {
      position := p;
    }

    /** Writes `count` bytes at the position; the stream grows only when the write runs past its end. */
    method Write(count: nat)
      modifies this
      ensures position == old(position) + count
      ensures length == Max(old(length), old(position) + count)
    {
      position := position + count;
      length := Max(length, position);
    }
  }

  /** The image `Draw` returns: a bitmap of the resize target's size over the cached stream. */
  datatype Image = Image(width: int, height: int)

  /** The calls of `Draw` that can throw, in program order. */
  datatype DrawStep =
    // from the acquired frame to the committed draw
    | QuerySurface | CreateFrameBitmap | CreateTexture | QueryTextureSurface
    | CreateTextureBitmap | BindTarget | BeginDraw | DrawBitmap | EndDraw
    // encoding, after the frame has been released
    | CreateImagingFactory | CreateBmpEncoder | InitializeEncoder | CreateFrameEncode
    | InitializeFrameEncode | CreateImageEncoder | WriteFrame | CommitFrame
    | CommitEncoder | WrapBitmap

  /** The steps between the acquire and `EndDraw`. */
  predicate IsResizeStep(s: DrawStep)
  {
    s.QuerySurface? || s.CreateFrameBitmap? || s.CreateTexture? || s.QueryTextureSurface?
    || s.CreateTextureBitmap? || s.BindTarget? || s.BeginDraw? || s.DrawBitmap? || s.EndDraw?
  }

  /**
   * How the foreign calls of one `Draw` behave: the acquire outcome, the frame's size, the
   * first call that throws (if any), whether `ReleaseFrame` throws, and how many bytes the
   * encoder writes.
   */
  datatype DrawEnv = DrawEnv(
    acquire: AcquireOutcome,
    frameWidth: nat,
    frameHeight: nat,
    failAt: Option<DrawStep>,
    accessLost: bool,
    encodedBytes: nat)

  /**
   * The resize part throws: a missing device or draw context, a texture with a zero (or
   * negative) side, which Direct3D 11 rejects, or a failing step.
   */
  predicate ResizeFails(env: DrawEnv, width: int, height: int, devicesReady: bool)
  {
    !devicesReady || width <= 0 || height <= 0 || (env.failAt.Some? && IsResizeStep(env.failAt.value))
  }

  /** The encoder cannot be created, so the cached stream is not touched. */
  predicate EncoderFails(env: DrawEnv)
  {
    env.failAt == Some(CreateImagingFactory) || env.failAt == Some(CreateBmpEncoder)
  }

  /** A step between binding the stream and writing the pixels throws (a missing Direct2D device included). */
  predicate WriteFails(env: DrawEnv, encoderReady: bool)
  {
    !encoderReady || env.failAt == Some(InitializeEncoder) || env.failAt == Some(CreateFrameEncode)
    || env.failAt == Some(InitializeFrameEncode) || env.failAt == Some(CreateImageEncoder)
    || env.failAt == Some(WriteFrame)
  }

  predicate CommitFails(env: DrawEnv)
  {
    env.failAt == Some(CommitFrame) || env.failAt == Some(CommitEncoder) || env.failAt == Some(WrapBitmap)
  }

  predicate EncodeFails(env: DrawEnv, encoderReady: bool)
  {
    EncoderFails(env) || WriteFails(env, encoderReady) || CommitFails(env)
  }

  /** What one draw depends on besides its environment. */
  datatype DrawSetup = DrawSetup(
    duplication: bool,    // the duplication interface exists
    frameHeld: bool,      // a frame acquired earlier is still held
    scale: real,
    devicesReady: bool,   // the device and both draw contexts exist
    encoderReady: bool)   // the Direct2D device exists

  /**
   * The image a draw returns: one of the target size when the interface hands out a frame
   * (it exists, holds none and has one ready) and neither the resize nor the encoder throws.
   */
  function DrawImage(setup: DrawSetup, env: DrawEnv): Option<Image>
  {
    var size := TargetSize(env.frameWidth, env.frameHeight, setup.scale);
    if setup.duplication && !setup.frameHeld && env.acquire == FrameReady
       && !ResizeFails(env, size.0, size.1, setup.devicesReady) && !EncodeFails(env, setup.encoderReady)
    then Some(Image(size.0, size.1))
    else None
  }

  /** Whether a draw gets as far as binding the stream: a frame handed out, resized, and an encoder made. */
  predicate EncodeReached(setup: DrawSetup, env: DrawEnv)
  {
    var size := TargetSize(env.frameWidth, env.frameHeight, setup.scale);
    && setup.duplication && !setup.frameHeld && env.acquire == FrameReady
    && !ResizeFails(env, size.0, size.1, setup.devicesReady) && !EncoderFails(env)
  }

  /**
   * The events `Draw` as written logs: the acquire request, then the release and the encoder
   * binding only once the resize is done.
   */
  function WrittenDrawLog(setup: DrawSetup, env: DrawEnv): seq<Event>
  {
    var size := TargetSize(env.frameWidth, env.frameHeight, setup.scale);
    var committed := !setup.frameHeld && env.acquire == FrameReady && !ResizeFails(env, size.0, size.1, setup.devicesReady);
    if !setup.duplication then []
    else
      [AcquireRequested(ACQUIRE_TIMEOUT_MS)]
      + (if committed then [ReleaseRequested] + (if EncoderFails(env) then [] else [EncodeStarted(0, false)]) else [])
  }

  /** The events the releasing draw logs: a release follows every successful acquire. */
  function ReleasingDrawLog(setup: DrawSetup, env: DrawEnv): seq<Event>
  {
    var acquired := !setup.frameHeld && env.acquire == FrameReady;
    if !setup.duplication then []
    else
      [AcquireRequested(ACQUIRE_TIMEOUT_MS)]
      + (if acquired then [ReleaseRequested] else [])
      + (if EncodeReached(setup, env) then [EncodeStarted(0, false)] else [])
  }

  /**
   * Whether a frame is held after `Draw` as written: a held frame stays held, and a resize
   * failure after a successful acquire keeps the new frame.
   */
  function HeldAfterDraw(setup: DrawSetup, env: DrawEnv): bool
  {
    var size := TargetSize(env.frameWidth, env.frameHeight, setup.scale);
    setup.duplication
    && (setup.frameHeld || (env.acquire == FrameReady && ResizeFails(env, size.0, size.1, setup.devicesReady)))
  }

  /** The images of successive calls of `Draw` as written: each starts with the hold the previous one left. */
  function WrittenFrames(setup: DrawSetup, envs: seq<DrawEnv>): (frames: seq<Option<Image>>)
    ensures |frames| == |envs|
    decreases |envs|
  {
    if |envs| == 0 then []
    else [DrawImage(setup, envs[0])] + WrittenFrames(setup.(frameHeld := HeldAfterDraw(setup, envs[0])), envs[1..])
  }

  /** The setup after successive calls of `Draw` as written: only the frame hold changes. */
  function HoldAfter(setup: DrawSetup, envs: seq<DrawEnv>): DrawSetup
    decreases |envs|
  {
    if |envs| == 0 then setup
    else HoldAfter(setup.(frameHeld := HeldAfterDraw(setup, envs[0])), envs[1..])
  }

  /** One more call of `Draw` as written adds its image and updates the hold it found. */
  lemma {:induction false} WrittenFramesAppend(setup: DrawSetup, envs: seq<DrawEnv>, env: DrawEnv)
    ensures WrittenFrames(setup, envs + [env]) == WrittenFrames(setup, envs) + [DrawImage(HoldAfter(setup, envs), env)]
    ensures HoldAfter(setup, envs + [env])
         == HoldAfter(setup, envs).(frameHeld := HeldAfterDraw(HoldAfter(setup, envs), env))
    decreases |envs|
  {
    if |envs| == 0 {
      assert [env][1..] == [];
    } else {
      var next := setup.(frameHeld := HeldAfterDraw(setup, envs[0]));
      assert (envs + [env])[1..] == envs[1..] + [env];
      WrittenFramesAppend(next, envs[1..], env);
    }
  }

  /** Once a frame is held, no later call of `Draw` as written yields an image, whatever its environment. */
  lemma {:induction false} WedgeIsPermanent(setup: DrawSetup, envs: seq<DrawEnv>)
    requires setup.duplication && setup.frameHeld
    ensures forall k :: 0 <= k < |envs| ==> WrittenFrames(setup, envs)[k] == None
    decreases |envs|
  {
    if |envs| > 0 {
      assert setup.(frameHeld := HeldAfterDraw(setup, envs[0])) == setup;
      WedgeIsPermanent(setup, envs[1..]);
      forall k | 0 <= k < |envs| ensures WrittenFrames(setup, envs)[k] == None {
        if k > 0 {
          assert WrittenFrames(setup, envs)[k] == WrittenFrames(setup, envs[1..])[k - 1];
        }
      }
    }
  }

  /** A resize failure after an acquire wedges `Draw` as written: that call and every later one yield no image. */
  lemma ResizeFailureWedges(setup: DrawSetup, env: DrawEnv, later: seq<DrawEnv>)
    requires setup.duplication && !setup.frameHeld && env.acquire == FrameReady
    requires ResizeFails(env, TargetSize(env.frameWidth, env.frameHeight, setup.scale).0,
                         TargetSize(env.frameWidth, env.frameHeight, setup.scale).1, setup.devicesReady)
    ensures forall k :: 0 <= k <= |later| ==> WrittenFrames(setup, [env] + later)[k] == None
  {
    var held := setup.(frameHeld := true);
    assert ([env] + later)[1..] == later;
    WedgeIsPermanent(held, later);
    forall k | 0 < k <= |later| ensures WrittenFrames(setup, [env] + later)[k] == None {
      assert WrittenFrames(setup, [env] + later)[k] == WrittenFrames(held, later)[k - 1];
    }
  }

  /**
   * One `EndDraw` failure on a 1920x1080 frame at scale 0.5: as written, the next clean frame
   * is lost too; a draw that releases the frame gets it.
   */
  lemma EndDrawFailureExample()
    ensures var setup := DrawSetup(true, false, 0.5, true, true);
      var broken := DrawEnv(FrameReady, 1920, 1080, Some(EndDraw), false, 100);
      var clean := DrawEnv(FrameReady, 1920, 1080, None, false, 100);
      && WrittenFrames(setup, [broken, clean]) == [None, None]
      && DrawImage(setup, clean) == Some(Image(960, 540))
  {
    var setup := DrawSetup(true, false, 0.5, true, true);
    var broken := DrawEnv(FrameReady, 1920, 1080, Some(EndDraw), false, 100);
    var clean := DrawEnv(FrameReady, 1920, 1080, None, false, 100);
    HalfScaleFullHd();
    ResizeFailureWedges(setup, broken, [clean]);
    assert [broken] + [clean] == [broken, clean];
  }

  /** A step of `Init` that can throw, in program order. */
  datatype InitStep =
    | CreateFactory | GetAdapter | GetOutput | QueryOutput1 | CreateDevice | DuplicateOutput
    | QueryDxgiDevice | CreateD2dFactory | CreateD2dDevice | CreateFrameDc | CreateTextureDc

  function InitStage(s: InitStep): nat
  {
    match s
    case CreateFactory => 0 case GetAdapter => 1 case GetOutput => 2 case QueryOutput1 => 3
    case CreateDevice => 4 case DuplicateOutput => 5 case QueryDxgiDevice => 6
    case CreateD2dFactory => 7 case CreateD2dDevice => 8 case CreateFrameDc => 9
    case CreateTextureDc => 10
  }

  /** `Init` gets past step `s`: nothing throws up to and including it. */
  predicate Passes(failAt: Option<InitStep>, s: InitStep)
  {
    failAt.None? || InitStage(failAt.value) > InitStage(s)
  }

  /** What the engine does that the properties speak about, in order. */
  datatype Event =
    | AcquireRequested(timeoutMs: int)
    | ReleaseRequested
    | EncodeStarted(position: nat, frameHeld: bool)   // the stream position and the frame state when the encoder binds the stream
    | CaptureStored(value: int)
    | AcquireStored(value: int)
    | ThreadJoined
    | ThreadStarted(targetFrameRate: int)

  /** One disposal: which of the five handles, and the object disposed. */
  type Release = (Resource, object)

  /** The disposal a non-null handle calls for. */
  function ReleaseOf(kind: Resource, handle: object?): seq<Release>
  {
    if handle == null then [] else [(kind, handle)]
  }

  /** No object is disposed twice. */
  ghost predicate NoDoubleRelease(released: seq<Release>)
  {
    forall i, j :: 0 <= i < j < |released| ==> released[i].1 != released[j].1
  }

  /** `h` is null or has not been disposed. */
  ghost predicate Unreleased(released: seq<Release>, h: object?)
  {
    h != null ==> forall i :: 0 <= i < |released| ==> released[i].1 != h
  }

  /** Disposing a handle that is null or not yet disposed keeps every disposal single. */
  lemma ReleaseStep(released: seq<Release>, kind: Resource, h: object?)
    requires NoDoubleRelease(released) && Unreleased(released, h)
    ensures NoDoubleRelease(released + ReleaseOf(kind, h))
  {
    var r := released + ReleaseOf(kind, h);
    forall i, j | 0 <= i < j < |r| ensures r[i].1 != r[j].1 {
      assert r[i] == released[i];
      if j < |released| { assert r[j] == released[j]; }
    }
  }

  /** Disposing `h` leaves a different, undisposed handle `other` undisposed. */
  lemma StillUnreleased(released: seq<Release>, kind: Resource, h: object?, other: object?)
    requires Unreleased(released, other) && (h != null ==> h != other)
    ensures Unreleased(released + ReleaseOf(kind, h), other)
  {
    var r := released + ReleaseOf(kind, h);
    forall i | other != null && 0 <= i < |r| ensures r[i].1 != other {
      if i < |released| { assert r[i] == released[i]; }
    }
  }

  /** The disposals of the five handles, in declaration order, skipping null ones. */
  function Disposal(d3d: Handle?, dup: Duplication?, d2d: Handle?, fdc: Handle?, tdc: Handle?): seq<Release>
  {
    ReleaseOf(D3dDevice, d3d) + ReleaseOf(OutputDuplication, dup)
    + ReleaseOf(D2dDevice, d2d) + ReleaseOf(FrameDc, fdc) + ReleaseOf(TextureDc, tdc)
  }

  /**
   * Disposing the five handles disposes no object twice when none of them was disposed before
   * and the four `Handle` fields are distinct.
   */
  lemma DisposalOnce(released: seq<Release>, d3d: Handle?, dup: Duplication?, d2d: Handle?, fdc: Handle?, tdc: Handle?)
    requires NoDoubleRelease(released) && HandlesDistinct(d3d, d2d, fdc, tdc)
    requires Unreleased(released, d3d) && Unreleased(released, dup) && Unreleased(released, d2d)
    requires Unreleased(released, fdc) && Unreleased(released, tdc)
    ensures NoDoubleRelease(released + Disposal(d3d, dup, d2d, fdc, tdc))
  {
    var a, b, c := ReleaseOf(D3dDevice, d3d), ReleaseOf(OutputDuplication, dup), ReleaseOf(D2dDevice, d2d);
    var d, e := ReleaseOf(FrameDc, fdc), ReleaseOf(TextureDc, tdc);
    ReleaseStep(released, D3dDevice, d3d);
    StillUnreleased(released, D3dDevice, d3d, dup);
    StillUnreleased(released, D3dDevice, d3d, d2d);
    StillUnreleased(released, D3dDevice, d3d, fdc);
    StillUnreleased(released, D3dDevice, d3d, tdc);
    ReleaseStep(released + a, OutputDuplication, dup);
    StillUnreleased(released + a, OutputDuplication, dup, d2d);
    StillUnreleased(released + a, OutputDuplication, dup, fdc);
    StillUnreleased(released + a, OutputDuplication, dup, tdc);
    assert released + a + b == released + (a + b);
    ReleaseStep(released + (a + b), D2dDevice, d2d);
    StillUnreleased(released + (a + b), D2dDevice, d2d, fdc);
    StillUnreleased(released + (a + b), D2dDevice, d2d, tdc);
    assert released + (a + b) + c == released + (a + b + c);
    ReleaseStep(released + (a + b + c), FrameDc, fdc);
    StillUnreleased(released + (a + b + c), FrameDc, fdc, tdc);
    assert released + (a + b + c) + d == released + (a + b + c + d);
    ReleaseStep(released + (a + b + c + d), TextureDc, tdc);
    assert released + (a + b + c + d) + e == released + (a + b + c + d + e);
  }

  /** The four `Handle` fields refer to different objects, or are null. */
  ghost predicate HandlesDistinct(a: Handle?, b: Handle?, c: Handle?, d: Handle?)
  {
    (a != null ==> a != b && a != c && a != d)
    && (b != null ==> b != c && b != d)
    && (c != null ==> c != d)
  }

  /** The images in a sequence of iteration results. */
  function Produced(frames: seq<Option<Image>>): seq<Image>
  {
    if frames == [] then []
    else
      var last := frames[|frames| - 1];
      Produced(frames[..|frames| - 1]) + (if last.Some? then [last.value] else [])
  }

  /** One more pass adds its image, if it produced one. */
  lemma ProducedAppend(frames: seq<Option<Image>>, frame: Option<Image>)
    ensures Produced(frames + [frame]) == Produced(frames) + (if frame.Some? then [frame.value] else [])
  {
    assert (frames + [frame])[..|frames|] == frames;
  }

  /** One iteration of the capture loop as the environment plays it. */
  datatype Tick = Tick(stopRequested: bool, env: DrawEnv, procTime: nat)

  /** How one pass of the capture loop ends. */
  datatype Iteration =
    | Exited                                   // the capture flag was clear: the loop ends
    | Crashed                                  // an unhandled exception ends the process: a zero frame rate, or a sleep below -1
    | Blocked                                  // `Thread.Sleep(-1)`: the thread waits forever
    | Slept(ms: int, image: Option<Image>)     // the pass drew and the thread sleeps `ms`

  /**
   * How one pass of the loop over the releasing draw ends, for the capture flag it finds:
   * the loop condition, the budget, the draw, then `Thread.Sleep` of the computed sleep.
   */
  function PassOutcome(tfr: Int32, setup: DrawSetup, capture: int, tick: Tick): (o: Iteration)
    ensures o.Exited? <==> tick.stopRequested || capture != 1
    ensures o.Slept? ==> && o.image == DrawImage(setup, tick.env) && o.ms >= 0
                         && SleepMs(tfr, o.image.Some?, tick.procTime) == Success(o.ms)
  {
    if tick.stopRequested || capture != 1 then Exited
    else if tfr == 0 then Crashed
    else
      var image := DrawImage(setup, tick.env);
      var ms := SleepMs(tfr, image.Some?, tick.procTime).value;
      match ThreadSleep(ms)
      case Waits => Slept(ms, image)
      case WaitsForever => Blocked
      case Throws => Crashed
  }

  /**
   * A pass crashes only on a zero rate or, after no image, on a budget below -1; a produced
   * image always leads to a sleep of at least 1 ms.
   */
  lemma PassOutcomeSpec(tfr: Int32, setup: DrawSetup, tick: Tick)
    requires !tick.stopRequested
    ensures PassOutcome(tfr, setup, 1, tick).Crashed? ==>
      tfr == 0 || (DrawImage(setup, tick.env) == None && Budget(tfr) < -1)
    ensures tfr != 0 && DrawImage(setup, tick.env).Some? ==>
      PassOutcome(tfr, setup, 1, tick).Slept? && PassOutcome(tfr, setup, 1, tick).ms >= 1
  {
  }

  /**
   * With a negative frame rate a pass that draws nothing waits forever (-1000 to -501) or
   * crashes (-500 to -1); below -1000 it sleeps 0 ms.
   */
  lemma NegativeRatePass(tfr: Int32, setup: DrawSetup, tick: Tick)
    requires tfr < 0 && !tick.stopRequested && DrawImage(setup, tick.env) == None
    ensures -1000 <= tfr <= -501 ==> PassOutcome(tfr, setup, 1, tick) == Blocked
    ensures -500 <= tfr ==> PassOutcome(tfr, setup, 1, tick) == Crashed
    ensures tfr < -1000 ==> PassOutcome(tfr, setup, 1, tick) == Slept(0, None)
  {
    NegativeBudget(tfr);
  }

  /** Every pass so far ended in a sleep, as `PassOutcome` says for its tick. */
  ghost predicate RanByRule(tfr: Int32, setup: DrawSetup, capture: int, script: seq<Tick>,
                            sleeps: seq<int>, frames: seq<Option<Image>>)
    requires |sleeps| == |frames| <= |script|
  {
    forall k :: 0 <= k < |sleeps| ==> PassOutcome(tfr, setup, capture, script[k]) == Slept(sleeps[k], frames[k])
  }

  /** One more pass that slept keeps `RanByRule`. */
  lemma RanAppend(tfr: Int32, setup: DrawSetup, capture: int, script: seq<Tick>,
                  sleeps: seq<int>, frames: seq<Option<Image>>, ms: int, image: Option<Image>)
    requires |sleeps| == |frames| < |script| && RanByRule(tfr, setup, capture, script, sleeps, frames)
    requires PassOutcome(tfr, setup, capture, script[|sleeps|]) == Slept(ms, image)
    ensures RanByRule(tfr, setup, capture, script, sleeps + [ms], frames + [image])
  {
    var s2, f2 := sleeps + [ms], frames + [image];
    forall k | 0 <= k < |s2|
      ensures PassOutcome(tfr, setup, capture, script[k]) == Slept(s2[k], f2[k])
    {
      if k < |sleeps| {
        assert s2[k] == sleeps[k] && f2[k] == frames[k];
      }
    }
  }

  /**
   * In a run by the rule no pass found a stop, each pass returned the image its environment
   * gives, and each slept a non-negative time by the sleep rule.
   */
  lemma RanByRuleMeans(tfr: Int32, setup: DrawSetup, capture: int, script: seq<Tick>,
                       sleeps: seq<int>, frames: seq<Option<Image>>)
    requires |sleeps| == |frames| <= |script| && RanByRule(tfr, setup, capture, script, sleeps, frames)
    ensures forall k :: 0 <= k < |sleeps| ==>
      && !script[k].stopRequested && frames[k] == DrawImage(setup, script[k].env) && sleeps[k] >= 0
      && SleepMs(tfr, frames[k].Some?, script[k].procTime) == Success(sleeps[k])
  {
    forall k | 0 <= k < |sleeps|
      ensures && !script[k].stopRequested && frames[k] == DrawImage(setup, script[k].env) && sleeps[k] >= 0
              && SleepMs(tfr, frames[k].Some?, script[k].procTime) == Success(sleeps[k])
    {
    }
  }

  /** The background thread the loop runs on. */
  class CaptureThread {
    const targetFrameRate: Int32
    const hasCallback: bool   // `onCaptured` is not null
    var alive: bool

    constructor (targetFrameRate: Int32, hasCallback: bool)
      ensures this.targetFrameRate == targetFrameRate && this.hasCallback == hasCallback && !alive
    {
      this.targetFrameRate := targetFrameRate;
      this.hasCallback := hasCallback;
      alive := false;
    }

    method Start()
      modifies this
      ensures alive
    {
      alive := true;
    }
  }

  class DXScreenCapture {
    var d3dDevice: Handle?
    var outputDuplication: Duplication?
    var cachedStream: MemoryStream?
    var d2dDevice: Handle?
    var frameDc: Handle?
    var textureDc: Handle?

    var captureThread: CaptureThread?
    var disposedValue: bool
    var capture: int
    var acquire: int
    var scale: real

    ghost var finalizerSuppressed: bool
    ghost var log: seq<Event>
    ghost var released: seq<Release>   // every handle disposed so far, in order
    ghost var delivered: seq<Image>    // every image handed to the callback, in order

    /** The five owned handles. */
    ghost function Handles(): (Handle?, Duplication?, Handle?, Handle?, Handle?)
      reads this
    {
      (d3dDevice, outputDuplication, d2dDevice, frameDc, textureDc)
    }

    /**
     * Everything but the capture flag, the event log, the deliveries and the cached stream:
     * what drawing and the capture loop leave alone.
     */
    ghost function Fixed(): (Handle?, Duplication?, Handle?, Handle?, Handle?, CaptureThread?, bool, int, real, bool, seq<Release>)
      reads this
    {
      (d3dDevice, outputDuplication, d2dDevice, frameDc, textureDc,
       captureThread, disposedValue, acquire, scale, finalizerSuppressed, released)
    }

    /** What disposal releases now, in its order. */
    ghost function PendingReleases(): seq<Release>
      reads this
    {
      Disposal(d3dDevice, outputDuplication, d2dDevice, frameDc, textureDc)
    }

    ghost function FrameHeld(): bool
      reads this, outputDuplication
    {
      outputDuplication != null && outputDuplication.frameHeld
    }

    /** What the next draw depends on besides its environment. */
    ghost function Setup(): DrawSetup
      reads this, outputDuplication
    {
      DrawSetup(outputDuplication != null, FrameHeld(), scale, DevicesReady(), d2dDevice != null)
    }

    /** Devices and draw contexts that the resize needs. */
    function DevicesReady(): bool
      reads this
    {
      d3dDevice != null && frameDc != null && textureDc != null
    }

    /**
     * The flags hold 0 or 1; no handle has been disposed twice; until disposal, the owned
     * handles are distinct and none of them has been disposed yet.
     */
    ghost predicate Valid()
      reads this
    {
      && (capture == 0 || capture == 1)
      && (acquire == 0 || acquire == 1)
      && NoDoubleRelease(released)
      && (!disposedValue ==>
            && HandlesDistinct(d3dDevice, d2dDevice, frameDc, textureDc)
            && Unreleased(released, d3dDevice) && Unreleased(released, outputDuplication)
            && Unreleased(released, d2dDevice) && Unreleased(released, frameDc)
            && Unreleased(released, textureDc))
    }

    constructor ()
      ensures Valid()
      ensures Handles() == (null, null, null, null, null) && cachedStream == null && captureThread == null
      ensures capture == 0 && acquire == 0 && !disposedValue && scale == 0.5
      ensures log == [] && released == [] && delivered == [] && !finalizerSuppressed
    {
      d3dDevice, outputDuplication, cachedStream := null, null, null;
      d2dDevice, frameDc, textureDc := null, null, null;
      captureThread := null;
      disposedValue := false;
      capture, acquire := 0, 0;
      scale := 0.5;
      finalizerSuppressed := false;
      log, released, delivered := [], [], [];
    }

    /**
     * Everything but the five handles and the scale: what `Init` leaves alone.
     */
    ghost function Settings(): (MemoryStream?, CaptureThread?, int, int, bool, bool, seq<Event>, seq<Release>, seq<Image>)
      reads this
    {
      (cachedStream, captureThread, capture, acquire, disposedValue, finalizerSuppressed, log, released, delivered)
    }

    /**
     * `Init`: store the scale, then create the device, the duplication, the Direct2D device
     * and the two draw contexts. A throwing step ends `Init`; handles assigned before it stay.
     */
    method Init(scale: real, failAt: Option<InitStep>) returns (ok: bool)
      requires Valid()
      modifies this
      ensures Valid()
      ensures this.scale == scale && ok == failAt.None?
      ensures if Passes(failAt, CreateDevice) then fresh(d3dDevice) else d3dDevice == old(d3dDevice)
      ensures if Passes(failAt, DuplicateOutput) then fresh(outputDuplication) && !outputDuplication.frameHeld
              else outputDuplication == old(outputDuplication)
      ensures if Passes(failAt, CreateD2dDevice) then fresh(d2dDevice) else d2dDevice == old(d2dDevice)
      ensures if Passes(failAt, CreateFrameDc) then fresh(frameDc) else frameDc == old(frameDc)
      ensures if Passes(failAt, CreateTextureDc) then fresh(textureDc) else textureDc == old(textureDc)
      ensures Settings() == old(Settings())
    {
      this.scale := scale;
      ok := OpenDuplication(failAt);
      if ok {
        ok := CreateDrawContexts(failAt);
      }
    }

    /** Lines 34-46: create the Direct3D device, then duplicate the output on it. */
    method OpenDuplication(failAt: Option<InitStep>) returns (ok: bool)
      requires Valid()
      modifies this
      ensures Valid()
      ensures ok == Passes(failAt, DuplicateOutput)
      ensures if Passes(failAt, CreateDevice) then fresh(d3dDevice) else d3dDevice == old(d3dDevice)
      ensures if ok then fresh(outputDuplication) && !outputDuplication.frameHeld
              else outputDuplication == old(outputDuplication)
      ensures (d2dDevice, frameDc, textureDc) == old((d2dDevice, frameDc, textureDc))
      ensures Settings() == old(Settings()) && scale == old(scale)
    {
      ok := false;
      if !Passes(failAt, CreateDevice) { return; }
      d3dDevice := new Handle(D3dDevice);
      assert Unreleased(released, d3dDevice);
      if !Passes(failAt, DuplicateOutput) { return; }
      outputDuplication := new Duplication();
      assert Unreleased(released, outputDuplication);
      ok := true;
    }

    /** Lines 48-52: create the Direct2D device and the two draw contexts on it. */
    method CreateDrawContexts(failAt: Option<InitStep>) returns (ok: bool)
      requires Valid()
      modifies this
      ensures Valid()
      ensures ok == failAt.None?
      ensures if Passes(failAt, CreateD2dDevice) then fresh(d2dDevice) else d2dDevice == old(d2dDevice)
      ensures if Passes(failAt, CreateFrameDc) then fresh(frameDc) else frameDc == old(frameDc)
      ensures if Passes(failAt, CreateTextureDc) then fresh(textureDc) else textureDc == old(textureDc)
      ensures (d3dDevice, outputDuplication) == old((d3dDevice, outputDuplication))
      ensures Settings() == old(Settings()) && scale == old(scale)
    {
      ok := false;
      if !Passes(failAt, CreateD2dDevice) { return; }
      d2dDevice := new Handle(D2dDevice);
      assert Unreleased(released, d2dDevice);
      if !Passes(failAt, CreateFrameDc) { return; }
      frameDc := new Handle(FrameDc);
      assert Unreleased(released, frameDc);
      if !Passes(failAt, CreateTextureDc) { return; }
      textureDc := new Handle(TextureDc);
      assert Unreleased(released, textureDc);
      ok := true;
    }

    /** `StopCapture`: clear the capture flag; nothing else changes. */
    method StopCapture()
      requires Valid()
      modifies this
      ensures Valid()
      ensures capture == 0 && log == old(log) + [CaptureStored(0)]
      ensures Fixed() == old(Fixed()) && cachedStream == old(cachedStream) && delivered == old(delivered)
    {
      capture := 0;
      log := log + [CaptureStored(0)];
    }

    /**
     * Lines 164-168: clear the capture flag, then wait for the live loop thread, which can
     * only end once the flag is clear.
     */
    method StopAndJoin()
      requires Valid() && captureThread != null
      modifies this, captureThread
      ensures Valid()
      ensures Fixed() == old(Fixed()) && cachedStream == old(cachedStream) && delivered == old(delivered)
      ensures capture == 0 && !captureThread.alive && log == old(log) + [CaptureStored(0), ThreadJoined]
    {
      capture := 0;
      log := log + [CaptureStored(0)];
      captureThread.alive := false;
      log := log + [ThreadJoined];
    }

    /**
     * `CaptureAuto`: unless capture is on or another start is in progress, take the start
     * flag, stop and join a live previous thread, set the capture flag, start a new loop
     * thread and clear the start flag.
     */
    method CaptureAuto(targetFrameRate: Int32, hasCallback: bool)
      requires Valid()
      modifies this, captureThread
      ensures Valid()
      ensures old(capture) == 1 || old(acquire) == 1 ==>
        unchanged(this) && (old(captureThread) != null ==> unchanged(old(captureThread)))
      ensures old(capture) != 1 && old(acquire) != 1 ==>
        && capture == 1 && acquire == 0
        && fresh(captureThread) && captureThread.alive
        && captureThread.targetFrameRate == targetFrameRate && captureThread.hasCallback == hasCallback
        && (old(captureThread) != null ==> !old(captureThread).alive)
        && log == old(log) + [AcquireStored(1)]
             + (if old(captureThread != null && captureThread.alive) then [CaptureStored(0), ThreadJoined] else [])
             + [CaptureStored(1), ThreadStarted(targetFrameRate), AcquireStored(0)]
      ensures Handles() == old(Handles()) && cachedStream == old(cachedStream)
      ensures disposedValue == old(disposedValue) && scale == old(scale)
      ensures finalizerSuppressed == old(finalizerSuppressed) && released == old(released)
      ensures delivered == old(delivered)
    {
      if capture == 1 {
        return;
      }
      if acquire == 1 {
        return;
      }
      acquire := 1;
      log := log + [AcquireStored(1)];
      if captureThread != null && captureThread.alive {
        StopAndJoin();
      }
      Spawn(targetFrameRate, hasCallback);
    }

    /**
     * Lines 169-207: set the capture flag, start a new loop thread and clear the start flag.
     */
    method Spawn(targetFrameRate: Int32, hasCallback: bool)
      requires Valid()
      modifies this
      ensures Valid()
      ensures capture == 1 && acquire == 0
      ensures fresh(captureThread) && captureThread.alive
      ensures captureThread.targetFrameRate == targetFrameRate && captureThread.hasCallback == hasCallback
      ensures log == old(log) + [CaptureStored(1), ThreadStarted(targetFrameRate), AcquireStored(0)]
      ensures Handles() == old(Handles()) && cachedStream == old(cachedStream)
      ensures disposedValue == old(disposedValue) && scale == old(scale)
      ensures finalizerSuppressed == old(finalizerSuppressed) && released == old(released)
      ensures delivered == old(delivered)
    {
      capture := 1;
      log := log + [CaptureStored(1)];
      var thread := new CaptureThread(targetFrameRate, hasCallback);
      thread.Start();
      captureThread := thread;
      log := log + [ThreadStarted(targetFrameRate)];
      acquire := 0;
      log := log + [AcquireStored(0)];
    }

    /**
     * The state of the cached stream after an encode that did (`reached`) or did not get as
     * far as binding the stream: created only when missing, rewound to 0, then written.
     */
    twostate predicate StreamAfterEncode(env: DrawEnv, reached: bool, encoderReady: bool)
      reads this, cachedStream
    {
      var oldLength := if old(cachedStream) == null then 0 else old(cachedStream.length);
      if !reached then
        cachedStream == old(cachedStream)
        && (cachedStream != null ==>
              cachedStream.position == old(cachedStream.position) && cachedStream.length == old(cachedStream.length))
      else
        && cachedStream != null
        && (old(cachedStream) != null ==> cachedStream == old(cachedStream))
        && (old(cachedStream) == null ==> fresh(cachedStream))
        && if WriteFails(env, encoderReady) then cachedStream.position == 0 && cachedStream.length == oldLength
           else cachedStream.position == env.encodedBytes && cachedStream.length == Max(oldLength, env.encodedBytes)
    }

    /** Lines 116-118: create the cached stream when it is missing, then rewind it. */
    method RewindStream()
      modifies this, cachedStream
      ensures cachedStream != null && cachedStream.position == 0
      ensures old(cachedStream) == null ==> fresh(cachedStream) && cachedStream.length == 0
      ensures old(cachedStream) != null ==> cachedStream == old(cachedStream) && cachedStream.length == old(cachedStream.length)
      ensures Fixed() == old(Fixed()) && capture == old(capture) && log == old(log) && delivered == old(delivered)
    {
      if cachedStream == null {
        cachedStream := new MemoryStream();
      }
      cachedStream.SetPosition(0);
    }

    /** Lines 113-143: encode the resize target into the cached stream. */
    method Encode(env: DrawEnv, width: int, height: int) returns (image: Option<Image>)
      requires Valid()
      modifies this, cachedStream
      ensures Valid()
      ensures image.Some? <==> !EncodeFails(env, d2dDevice != null)
      ensures image.Some? ==> image.value == Image(width, height)
      ensures log == old(log) + (if EncoderFails(env) then [] else [EncodeStarted(0, FrameHeld())])
      ensures StreamAfterEncode(env, !EncoderFails(env), d2dDevice != null)
      ensures Fixed() == old(Fixed()) && capture == old(capture) && delivered == old(delivered)
    {
      if EncoderFails(env) {
        return None;
      }
      RewindStream();
      log := log + [EncodeStarted(cachedStream.position, FrameHeld())];
      if WriteFails(env, d2dDevice != null) {
        return None;
      }
      cachedStream.Write(env.encodedBytes);
      if CommitFails(env) {
        return None;
      }
      image := Some(Image(width, height));
    }

    /** Line 60: request the next frame with the 10 s timeout; false when none is handed out (the call throws). */
    method AcquireFrame(outcome: AcquireOutcome) returns (acquired: bool)
      requires outputDuplication != null
      modifies this, outputDuplication
      ensures outputDuplication == old(outputDuplication)
      ensures acquired <==> outcome == FrameReady && !old(outputDuplication.frameHeld)
      ensures outputDuplication.frameHeld == (old(outputDuplication.frameHeld) || acquired)
      ensures log == old(log) + [AcquireRequested(ACQUIRE_TIMEOUT_MS)]
      ensures Fixed() == old(Fixed()) && capture == old(capture) && cachedStream == old(cachedStream)
      ensures delivered == old(delivered)
    {
      log := log + [AcquireRequested(ACQUIRE_TIMEOUT_MS)];
      acquired := outputDuplication.AcquireNextFrame(ACQUIRE_TIMEOUT_MS, outcome);
    }

    /**
     * Lines 61-143 of `Draw` as written, with a frame held: resize, release, encode. A resize
     * failure skips the release and leaves the frame held.
     */
    method ResizeAndEncode(env: DrawEnv) returns (image: Option<Image>)
      requires Valid() && outputDuplication != null && outputDuplication.frameHeld
      modifies this, outputDuplication, cachedStream
      ensures Valid() && outputDuplication == old(outputDuplication)
      ensures Fixed() == old(Fixed()) && capture == old(capture) && delivered == old(delivered)
      ensures var size := TargetSize(env.frameWidth, env.frameHeight, scale);
        var resized := !ResizeFails(env, size.0, size.1, DevicesReady());
        && image == (if resized && !EncodeFails(env, d2dDevice != null) then Some(Image(size.0, size.1)) else None)
        && outputDuplication.frameHeld == !resized
        && log == old(log) + (if resized then [ReleaseRequested] + (if EncoderFails(env) then [] else [EncodeStarted(0, false)]) else [])
        && StreamAfterEncode(env, resized && !EncoderFails(env), d2dDevice != null)
    {
      var size := TargetSize(env.frameWidth, env.frameHeight, scale);
      if ResizeFails(env, size.0, size.1, DevicesReady()) {
        return None;
      }
      ReleaseFrame(env.accessLost);
      image := Encode(env, size.0, size.1);
    }

    /** The same steps with the release on both paths, as a `finally` around lines 61-111 would give. */
    method ResizeAndEncodeReleasing(env: DrawEnv) returns (image: Option<Image>)
      requires Valid() && outputDuplication != null && outputDuplication.frameHeld
      modifies this, outputDuplication, cachedStream
      ensures Valid() && outputDuplication == old(outputDuplication)
      ensures Fixed() == old(Fixed()) && capture == old(capture) && delivered == old(delivered)
      ensures var size := TargetSize(env.frameWidth, env.frameHeight, scale);
        var resized := !ResizeFails(env, size.0, size.1, DevicesReady());
        && image == (if resized && !EncodeFails(env, d2dDevice != null) then Some(Image(size.0, size.1)) else None)
        && !outputDuplication.frameHeld
        && log == old(log) + [ReleaseRequested] + (if resized && !EncoderFails(env) then [EncodeStarted(0, false)] else [])
        && StreamAfterEncode(env, resized && !EncoderFails(env), d2dDevice != null)
    {
      var size := TargetSize(env.frameWidth, env.frameHeight, scale);
      if ResizeFails(env, size.0, size.1, DevicesReady()) {
        ReleaseFrame(env.accessLost);
        return None;
      }
      ReleaseFrame(env.accessLost);
      image := Encode(env, size.0, size.1);
    }

    /** The frame is released and the exception an access loss raises is swallowed. */
    method ReleaseFrame(accessLost: bool)
      requires outputDuplication != null
      modifies this, outputDuplication
      ensures outputDuplication == old(outputDuplication)
      ensures !outputDuplication.frameHeld && log == old(log) + [ReleaseRequested]
      ensures Fixed() == old(Fixed()) && capture == old(capture) && cachedStream == old(cachedStream)
      ensures delivered == old(delivered)
    {
      var _ := outputDuplication.ReleaseFrame(accessLost);
      log := log + [ReleaseRequested];
    }

    /**
     * `Draw`, as written: acquire, resize, release, encode; any exception yields `None`. A
     * failure between the acquire and `EndDraw` skips the release, so the frame stays held and
     * every later acquire fails.
     */
    method Draw(env: DrawEnv) returns (image: Option<Image>)
      requires Valid()
      modifies this, outputDuplication, cachedStream
      ensures Valid()
      ensures Fixed() == old(Fixed()) && capture == old(capture) && delivered == old(delivered)
      ensures image == DrawImage(old(Setup()), env)
      ensures FrameHeld() == HeldAfterDraw(old(Setup()), env)
      ensures log == old(log) + WrittenDrawLog(old(Setup()), env)
      ensures StreamAfterEncode(env, EncodeReached(old(Setup()), env), d2dDevice != null)
      ensures old(FrameHeld()) ==> image == None && FrameHeld()
    {
      if outputDuplication == null {
        return None;
      }
      var acquired := AcquireFrame(env.acquire);
      if !acquired {
        return None;
      }
      image := ResizeAndEncode(env);
    }

    /**
     * `Draw` with the release on every path after a successful acquire, as a `finally` would
     * give it: the same image, and the frame state is what it was before the call.
     */
    method DrawReleasing(env: DrawEnv) returns (image: Option<Image>)
      requires Valid()
      modifies this, outputDuplication, cachedStream
      ensures Valid()
      ensures Fixed() == old(Fixed()) && capture == old(capture) && delivered == old(delivered)
      ensures image == DrawImage(old(Setup()), env)
      ensures FrameHeld() == old(FrameHeld())
      ensures log == old(log) + ReleasingDrawLog(old(Setup()), env)
      ensures StreamAfterEncode(env, EncodeReached(old(Setup()), env), d2dDevice != null)
    {
      if outputDuplication == null {
        return None;
      }
      var acquired := AcquireFrame(env.acquire);
      if !acquired {
        return None;
      }
      image := ResizeAndEncodeReleasing(env);
    }

    /**
     * Successive calls of `Draw` as written, one per environment: the images are `WrittenFrames`
     * and the hold left behind is the one `HoldAfter` gives.
     */
    method DrawEach(envs: seq<DrawEnv>) returns (images: seq<Option<Image>>)
      requires Valid()
      modifies this, outputDuplication, cachedStream
      ensures Valid() && Fixed() == old(Fixed()) && capture == old(capture) && delivered == old(delivered)
      ensures images == WrittenFrames(old(Setup()), envs)
      ensures Setup() == HoldAfter(old(Setup()), envs)
    {
      images := [];
      for i := 0 to |envs|
        invariant Valid() && Fixed() == old(Fixed()) && capture == old(capture) && delivered == old(delivered)
        invariant cachedStream == old(cachedStream) || fresh(cachedStream)
        invariant images == WrittenFrames(old(Setup()), envs[..i])
        invariant Setup() == HoldAfter(old(Setup()), envs[..i])
      {
        var image := Draw(envs[i]);
        WrittenFramesAppend(old(Setup()), envs[..i], envs[i]);
        assert envs[..i + 1] == envs[..i] + [envs[i]];
        images := images + [image];
      }
      assert envs[..|envs|] == envs;
    }

    /**
     * One pass of the loop body with capture on (lines 179-192), over the releasing draw: take
     * the budget, draw, hand a produced image to the callback and compute the sleep from the
     * processing time.
     */
    method CaptureFrame(thread: CaptureThread, tick: Tick) returns (sleep: int, img: Option<Image>)
      requires Valid() && thread.targetFrameRate != 0
      modifies this, outputDuplication, cachedStream
      ensures Valid() && Setup() == old(Setup())
      ensures Fixed() == old(Fixed()) && capture == old(capture)
      ensures cachedStream == old(cachedStream) || fresh(cachedStream)
      ensures img == DrawImage(old(Setup()), tick.env)
      ensures log == old(log) + ReleasingDrawLog(old(Setup()), tick.env)
      ensures StreamAfterEncode(tick.env, EncodeReached(old(Setup()), tick.env), d2dDevice != null)
      ensures SleepMs(thread.targetFrameRate, img.Some?, tick.procTime) == Success(sleep)
      ensures delivered == old(delivered) + (if thread.hasCallback && img.Some? then [img.value] else [])
    {
      sleep := TruncDiv(MS_PER_SECOND, thread.targetFrameRate);
      img := DrawReleasing(tick.env);
      if img.Some? {
        if thread.hasCallback {
          delivered := delivered + [img.value];
        }
        sleep := Wrap32(sleep - Wrap32(tick.procTime));
        sleep := Wrap32(sleep - SCHEDULING_OFFSET_MS);
        sleep := Max(1, sleep);
      }
    }

    /**
     * The same pass as written (lines 179-192), over `Draw`: a frame left held by an earlier
     * pass stays held, and the pass then yields no image and sleeps the whole budget.
     */
    method CaptureFrameAsWritten(thread: CaptureThread, tick: Tick) returns (sleep: int, img: Option<Image>)
      requires Valid() && thread.targetFrameRate != 0
      modifies this, outputDuplication, cachedStream
      ensures Valid() && Fixed() == old(Fixed()) && capture == old(capture)
      ensures cachedStream == old(cachedStream) || fresh(cachedStream)
      ensures img == DrawImage(old(Setup()), tick.env)
      ensures Setup() == old(Setup()).(frameHeld := HeldAfterDraw(old(Setup()), tick.env))
      ensures log == old(log) + WrittenDrawLog(old(Setup()), tick.env)
      ensures StreamAfterEncode(tick.env, EncodeReached(old(Setup()), tick.env), d2dDevice != null)
      ensures SleepMs(thread.targetFrameRate, img.Some?, tick.procTime) == Success(sleep)
      ensures old(FrameHeld()) ==> img == None && sleep == Budget(thread.targetFrameRate) && FrameHeld()
      ensures delivered == old(delivered) + (if thread.hasCallback && img.Some? then [img.value] else [])
    {
      sleep := TruncDiv(MS_PER_SECOND, thread.targetFrameRate);
      img := Draw(tick.env);
      if img.Some? {
        if thread.hasCallback {
          delivered := delivered + [img.value];
        }
        sleep := Wrap32(sleep - Wrap32(tick.procTime));
        sleep := Wrap32(sleep - SCHEDULING_OFFSET_MS);
        sleep := Max(1, sleep);
      }
    }

    /**
     * One pass of the loop (lines 177-203), with a `StopCapture` from another thread first
     * when the tick requests it: the loop condition, the capture, then `Thread.Sleep`.
     */
    method LoopStep(thread: CaptureThread, tick: Tick) returns (step: Iteration)
      requires Valid()
      modifies this, outputDuplication, cachedStream
      ensures Valid() && Setup() == old(Setup())
      ensures Fixed() == old(Fixed())
      ensures cachedStream == old(cachedStream) || fresh(cachedStream)
      ensures capture == (if tick.stopRequested then 0 else old(capture))
      ensures step == PassOutcome(thread.targetFrameRate, old(Setup()), old(capture), tick)
      ensures var drew := !tick.stopRequested && old(capture) == 1 && thread.targetFrameRate != 0;
        && log == old(log) + (if tick.stopRequested then [CaptureStored(0)] else [])
                           + (if drew then ReleasingDrawLog(old(Setup()), tick.env) else [])
        && StreamAfterEncode(tick.env, drew && EncodeReached(old(Setup()), tick.env), d2dDevice != null)
      ensures delivered == old(delivered)
        + (if step.Slept? && thread.hasCallback && step.image.Some? then [step.image.value] else [])
    {
      if tick.stopRequested {
        StopCapture();
      }
      if capture != 1 {
        return Exited;
      }
      if thread.targetFrameRate == 0 {
        return Crashed;
      }
      var sleep, img := CaptureFrame(thread, tick);
      match ThreadSleep(sleep)
      case Waits => step := Slept(sleep, img);
      case WaitsForever => step := Blocked;
      case Throws => step := Crashed;
    }

    /**
     * The loop thread's body (lines 177-204) over the iterations `script` plays: the loop runs
     * while the capture flag is 1. It stops at the first pass that does not end in a sleep (a
     * stop, a crash or an endless wait), which `ending` reports.
     */
    method RunLoop(thread: CaptureThread, script: seq<Tick>)
      returns (sleeps: seq<int>, frames: seq<Option<Image>>, ending: Option<Iteration>)
      requires Valid()
      modifies this, outputDuplication, cachedStream
      ensures Valid() && Setup() == old(Setup())
      ensures Fixed() == old(Fixed())
      ensures |sleeps| == |frames| <= |script|
      ensures RanByRule(thread.targetFrameRate, old(Setup()), old(capture), script, sleeps, frames)
      ensures ending.None? <==> |sleeps| == |script|
      ensures ending.Some? ==>
        && !ending.value.Slept?
        && ending.value == PassOutcome(thread.targetFrameRate, old(Setup()), old(capture), script[|sleeps|])
      ensures capture == (if |sleeps| < |script| && script[|sleeps|].stopRequested then 0 else old(capture))
      ensures delivered == old(delivered) + (if thread.hasCallback then Produced(frames) else [])
    {
      sleeps, frames, ending := [], [], None;
      for i := 0 to |script|
        invariant |sleeps| == i && |frames| == i && ending == None
        invariant Valid() && Setup() == old(Setup())
        invariant Fixed() == old(Fixed())
        invariant cachedStream == old(cachedStream) || fresh(cachedStream)
        invariant i > 0 ==> old(capture) == 1
        invariant capture == old(capture)
        invariant RanByRule(thread.targetFrameRate, old(Setup()), old(capture), script, sleeps, frames)
        invariant thread.hasCallback ==> delivered == old(delivered) + Produced(frames)
        invariant !thread.hasCallback ==> delivered == old(delivered)
      {
        var step := LoopStep(thread, script[i]);
        if !step.Slept? {
          ending := Some(step);
          break;
        }
        ProducedAppend(frames, step.image);
        RanAppend(thread.targetFrameRate, old(Setup()), old(capture), script, sleeps, frames, step.ms, step.image);
        sleeps, frames := sleeps + [step.ms], frames + [step.image];
      }
    }

    /**
     * `Dispose(bool)`: the first call stops capture when disposing (not from the finalizer),
     * disposes every non-null handle once, in a fixed order, and marks the object disposed;
     * later calls do nothing.
     */
    method DisposeCore(disposing: bool)
      requires Valid()
      modifies this
      ensures Valid()
      ensures old(disposedValue) ==> unchanged(this)
      ensures !old(disposedValue) ==>
        && disposedValue
        && capture == (if disposing then 0 else old(capture))
        && log == old(log) + (if disposing then [CaptureStored(0)] else [])
        && released == old(released) + old(PendingReleases())
      ensures Handles() == old(Handles()) && cachedStream == old(cachedStream)
      ensures captureThread == old(captureThread) && acquire == old(acquire) && scale == old(scale)
      ensures finalizerSuppressed == old(finalizerSuppressed) && delivered == old(delivered)
    {
      if !disposedValue {
        if disposing {
          StopCapture();
        }
        // lines 219-223: `?.Dispose()` on each handle, in declaration order
        DisposalOnce(released, d3dDevice, outputDuplication, d2dDevice, frameDc, textureDc);
        released := released + PendingReleases();
        disposedValue := true;
      }
    }

    /** `Dispose()`: dispose with the thread stop, then keep the finalizer from running. */
    method Dispose()
      requires Valid()
      modifies this
      ensures Valid() && disposedValue && finalizerSuppressed
      ensures old(disposedValue) ==> log == old(log) && capture == old(capture)
      ensures !old(disposedValue) ==> capture == 0 && log == old(log) + [CaptureStored(0)]
      ensures released == old(released) + (if old(disposedValue) then [] else old(PendingReleases()))
      ensures Handles() == old(Handles()) && cachedStream == old(cachedStream)
      ensures captureThread == old(captureThread) && acquire == old(acquire) && scale == old(scale)
      ensures delivered == old(delivered)
    {
      DisposeCore(true);
      finalizerSuppressed := true;
    }

    /** The finalizer: the same release sequence without stopping capture. */
    method Finalize()
      requires Valid() && !finalizerSuppressed
      modifies this
      ensures Valid() && disposedValue
      ensures capture == old(capture)
      ensures log == old(log)
      ensures released == old(released) + (if old(disposedValue) then [] else old(PendingReleases()))
      ensures Handles() == old(Handles()) && cachedStream == old(cachedStream)
      ensures captureThread == old(captureThread) && acquire == old(acquire) && scale == old(scale)
      ensures delivered == old(delivered)
    {
      DisposeCore(false);
    }
  }

  /**
   * Why `Draw` as written stops producing images: one `EndDraw` failure leaves the frame
   * held, so the next frame the output offers cannot be acquired.
   */
  method WedgeScenario()
  {
    var engine := new DXScreenCapture();
    var ok := engine.Init(0.5, None);
    var first := engine.Draw(DrawEnv(FrameReady, 1920, 1080, Some(EndDraw), false, 100));
    assert first == None && engine.FrameHeld();
    var second := engine.Draw(DrawEnv(FrameReady, 1920, 1080, None, false, 100));
    assert second == None && engine.FrameHeld();
  }

  /** The same `EndDraw` failure under `DrawReleasing`: the next frame is acquired and encoded. */
  method RecoveryScenario()
  {
    var engine := new DXScreenCapture();
    var ok := engine.Init(0.5, None);
    var good := DrawEnv(FrameReady, 1920, 1080, None, false, 100);
    var first := engine.DrawReleasing(DrawEnv(FrameReady, 1920, 1080, Some(EndDraw), false, 100));
    assert first == None && !engine.FrameHeld();
    assert engine.DevicesReady() && engine.d2dDevice != null && engine.scale == 0.5;
    HalfScaleFullHd();
    assert !ResizeFails(good, 960, 540, true) && !EncodeFails(good, true);
    var second := engine.DrawReleasing(good);
    assert second == Some(Image(960, 540));
  }
}
