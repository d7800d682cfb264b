/**
  The per-device viewer (`VideoPanel`): its state, the start/stop/close
  lifecycle, the capture-delay setting, and the snapshot and save calls.

  The capture thread is reduced to its handle: `captureThread` names the
  thread the panel currently refers to and `threadsSpawned` counts how many
  were ever created. Swing painting is not modelled.
 */
module Video {
  import opened Cv

  /** `BufferedImage.TYPE_BYTE_GRAY` and `BufferedImage.TYPE_3BYTE_BGR`. */
  datatype ImageType = ByteGray | ThreeByteBgr

  /** Bytes per pixel of the image type's raster. */
  function BytesPerPixel(t: ImageType): (r: nat)
    ensures t == ByteGray ==> r == 1
    ensures t == ThreeByteBgr ==> r == 3
  {
    match t
    case ByteGray => 1
    case ThreeByteBgr => 3
  }

  /**
    A display image: `id` tells allocations apart, `shows` is the frame whose
    pixels were last copied into it (`None` while still blank).
   */
  datatype BufferedImage = BufferedImage(id: nat, width: int, height: int, imageType: ImageType, shows: Option<Mat>)

  /** The cached raster byte array: which image it belongs to and its length. */
  datatype Raster = Raster(owner: nat, length: int)

  datatype VideoPanel = VideoPanel(
    deviceIndex: int,
    apiPreference: int,
    capture: VideoCapture,
    frameWidth: int,
    frameHeight: int,
    captureDelayMs: nat,
    running: bool,
    captureThread: Option<nat>,
    threadsSpawned: nat,
    lastFrame: Mat,
    resizedMat: Mat,
    convertedMat: Mat,
    imageForDisplay: Option<BufferedImage>,
    imagePixels: Option<Raster>,
    imagesAllocated: nat)

  /** Requested capture size a new panel starts with. */
  const DefaultFrameWidth: int := 1366
  const DefaultFrameHeight: int := 768

  /** A new panel around a capture handle that may or may not be open already. */
  function NewVideoPanel(capture: VideoCapture, apiPreference: int, deviceIndex: int): (p: VideoPanel)
    ensures p.capture == capture && p.deviceIndex == deviceIndex && p.apiPreference == apiPreference
    ensures !p.running && p.captureThread.None? && p.threadsSpawned == 0
    ensures p.lastFrame.empty && p.imageForDisplay.None? && p.imagePixels.None?
    ensures p.captureDelayMs == 0
  {
    VideoPanel(deviceIndex, apiPreference, capture, DefaultFrameWidth, DefaultFrameHeight, 0,
               false, None, 0, EmptyMat, EmptyMat, EmptyMat, None, None, 0)
  }

  /** Only the lifecycle part (running flag, thread handle, capture) differs between `p` and `q`. */
  predicate SameFrames(p: VideoPanel, q: VideoPanel)
  {
    && q.deviceIndex == p.deviceIndex && q.apiPreference == p.apiPreference
    && q.frameWidth == p.frameWidth && q.frameHeight == p.frameHeight
    && q.captureDelayMs == p.captureDelayMs
    && q.lastFrame == p.lastFrame && q.resizedMat == p.resizedMat && q.convertedMat == p.convertedMat
    && q.imageForDisplay == p.imageForDisplay && q.imagePixels == p.imagePixels
    && q.imagesAllocated == p.imagesAllocated
  }

  // -------------------- Lifecycle --------------------

  /**
    Opens the capture only when it is closed and then requests the panel's
    frame size; an already open handle is left exactly as it is.
   */
  function OpenCaptureIfNeeded(p: VideoPanel, opens: bool): (r: VideoPanel)
    ensures p.capture.isOpened ==> r == p
    ensures !p.capture.isOpened ==> r.capture.openCalls == p.capture.openCalls + 1
    ensures !p.capture.isOpened ==> (r.capture.isOpened <==> opens)
    ensures r.capture.isOpened && !p.capture.isOpened ==>
      r.capture.width == Some(p.frameWidth) && r.capture.height == Some(p.frameHeight)
    ensures r.capture.releaseCalls == p.capture.releaseCalls
    ensures r == p.(capture := r.capture)
  {
    if p.capture.isOpened then p
    else p.(capture := RequestSize(OpenCapture(p.capture, opens), p.frameWidth, p.frameHeight))
  }

  /**
    `start()`: nothing when already running; otherwise opens the capture if
    needed, raises the running flag and creates one new capture thread.
   */
  function Start(p: VideoPanel, opens: bool): (r: VideoPanel)
    ensures p.running ==> r == p
    ensures r.running
    ensures !p.running ==> r.captureThread == Some(p.threadsSpawned) && r.threadsSpawned == p.threadsSpawned + 1
    ensures !p.running ==> r.capture == OpenCaptureIfNeeded(p, opens).capture
    ensures p.capture.isOpened ==> r.capture == p.capture
    ensures SameFrames(p, r)
  {
    if p.running then p
    else
      var q := OpenCaptureIfNeeded(p, opens);
      q.(running := true, captureThread := Some(q.threadsSpawned), threadsSpawned := q.threadsSpawned + 1)
  }

  /**
    `stop()`: lowers the running flag, releases the capture if (and only if)
    it is open, and drops the thread handle.
   */
  function Stop(p: VideoPanel): (r: VideoPanel)
    ensures !r.running && r.captureThread.None? && !r.capture.isOpened
    ensures r.capture.releaseCalls == p.capture.releaseCalls + (if p.capture.isOpened then 1 else 0)
    ensures r.capture.openCalls == p.capture.openCalls
    ensures !p.capture.isOpened ==> r.capture == p.capture
    ensures p.capture.isOpened ==> r.capture == ReleaseCapture(p.capture)
    ensures r.threadsSpawned == p.threadsSpawned
    ensures SameFrames(p, r)
  {
    var c := if p.capture.isOpened then ReleaseCapture(p.capture) else p.capture;
    p.(running := false, capture := c, captureThread := None)
  }

  /** `close()`: `stop()`, then release the resize, conversion and last-frame buffers. */
  function Close(p: VideoPanel): (r: VideoPanel)
    ensures !r.running && r.captureThread.None? && !r.capture.isOpened
    ensures r.capture == Stop(p).capture && r.threadsSpawned == p.threadsSpawned
    ensures r.lastFrame.empty && r.resizedMat.empty && r.convertedMat.empty
    ensures r.imageForDisplay == p.imageForDisplay && r.imagePixels == p.imagePixels
    ensures r == Stop(p).(lastFrame := r.lastFrame, resizedMat := r.resizedMat, convertedMat := r.convertedMat)
  {
    var q := Stop(p);
    q.(resizedMat := Release(q.resizedMat), convertedMat := Release(q.convertedMat), lastFrame := Release(q.lastFrame))
  }

  /** `setCaptureDelayMs(d)`: a negative delay is stored as 0. */
  function SetCaptureDelayMs(p: VideoPanel, delayMs: int): (r: VideoPanel)
    ensures delayMs >= 0 ==> r.captureDelayMs == delayMs
    ensures delayMs < 0 ==> r.captureDelayMs == 0
    ensures r == p.(captureDelayMs := r.captureDelayMs)
  {
    p.(captureDelayMs := if delayMs < 0 then 0 else delayMs)
  }

  /** `setFrameWidth(w)`: stores the width and pushes it to the capture when that is open. */
  function SetFrameWidth(p: VideoPanel, width: int): (r: VideoPanel)
    ensures r.frameWidth == width
    ensures p.capture.isOpened ==> r.capture == p.capture.(width := Some(width))
    ensures !p.capture.isOpened ==> r.capture == p.capture
    ensures r == p.(frameWidth := width, capture := r.capture)
  {
    p.(frameWidth := width, capture := SetProperty(p.capture, FrameWidthProp, width))
  }

  /** `setFrameHeight(h)`: stores the height and pushes it to the capture when that is open. */
  function SetFrameHeight(p: VideoPanel, height: int): (r: VideoPanel)
    ensures r.frameHeight == height
    ensures p.capture.isOpened ==> r.capture == p.capture.(height := Some(height))
    ensures !p.capture.isOpened ==> r.capture == p.capture
    ensures r == p.(frameHeight := height, capture := r.capture)
  {
    p.(frameHeight := height, capture := SetProperty(p.capture, FrameHeightProp, height))
  }

  // -------------------- Snapshots --------------------

  /** `snapshotFrame()`: a fresh empty frame when nothing is stored, otherwise a copy of the last frame. */
  function SnapshotFrame(p: VideoPanel): (m: Mat)
    ensures m.empty <==> p.lastFrame.empty
    ensures !m.empty ==> m == p.lastFrame
    ensures m.empty ==> m == EmptyMat
  {
    if p.lastFrame.empty then EmptyMat else p.lastFrame
  }

  /** An output file (`java.io.File`), identified by its path. */
  datatype File = File(path: string)

  /** Calls a save makes on the snapshot: handing it to the encoder, and releasing it. */
  datatype Effect = Encoded(file: File, frame: Mat) | Released(frame: Mat)

  /** How a save call ends: it returns a boolean, or the encoder's exception propagates. */
  datatype SaveAnswer = Returns(ok: bool) | Throws

  datatype Saved = Saved(answer: SaveAnswer, effects: seq<Effect>)

  /** What `Imgcodecs.imwrite` does: reports success or failure, or throws. */
  datatype WriteReply = Wrote(ok: bool) | WriteRaised

  /** `Imgcodecs.imwrite` as an oracle over the file and the frame. */
  type Encoder = (File, Mat) -> WriteReply

  /**
    The channel assertion `imwrite` makes on its frame: anything but one,
    three or four channels raises.
   */
  ghost predicate ChecksLayout(encode: Encoder)
  {
    forall f: File, m: Mat :: !KnownLayout(m.channels) ==> encode(f, m) == WriteRaised
  }

  /**
    `saveSnapshot(File)`: false for a null file (no snapshot taken); otherwise
    takes a snapshot and hands it to the encoder only when non-empty, returning
    the encoder's answer or passing on its exception, and in every case
    releases the snapshot last.
   */
  function SaveSnapshot(p: VideoPanel, file: Option<File>, encode: Encoder): (r: Saved)
    ensures file.None? ==> r.answer == Returns(false) && r.effects == []
    ensures r.answer == Returns(true) ==> file.Some? && !p.lastFrame.empty && encode(file.value, p.lastFrame) == Wrote(true)
    ensures file.Some? && !p.lastFrame.empty ==>
      (r.answer == Throws <==> encode(file.value, p.lastFrame) == WriteRaised)
      && (encode(file.value, p.lastFrame).Wrote? ==> r.answer == Returns(encode(file.value, p.lastFrame).ok))
    ensures file.Some? && p.lastFrame.empty ==> r.answer == Returns(false)
    ensures file.Some? ==> |r.effects| > 0 && r.effects[|r.effects| - 1] == Released(SnapshotFrame(p))
    ensures file.Some? ==>
      r.effects == (if p.lastFrame.empty then [] else [Encoded(file.value, p.lastFrame)]) + [Released(SnapshotFrame(p))]
    ensures forall e | e in r.effects :: e.Encoded? ==> file == Some(e.file) && e.frame == p.lastFrame && !e.frame.empty
    ensures (exists e | e in r.effects :: e.Encoded?) <==> file.Some? && !p.lastFrame.empty
  {
    match file
    case None => Saved(Returns(false), [])
    case Some(f) =>
      var snap := SnapshotFrame(p);
      if snap.empty then Saved(Returns(false), [Released(snap)])
      else
        var answer := match encode(f, snap)
          case Wrote(ok) => Returns(ok)
          case WriteRaised => Throws;
        assert Encoded(f, snap) in [Encoded(f, snap), Released(snap)];
        Saved(answer, [Encoded(f, snap), Released(snap)])
  }

  /** `saveSnapshot(String)`: false for a null path, otherwise the `File` overload on that path. */
  function SaveSnapshotToPath(p: VideoPanel, path: Option<string>, encode: Encoder): (r: Saved)
    ensures path.None? ==> r == Saved(Returns(false), [])
    ensures path.Some? ==> r == SaveSnapshot(p, Some(File(path.value)), encode)
  {
    match path
    case None => Saved(Returns(false), [])
    case Some(s) => SaveSnapshot(p, Some(File(s)), encode)
  }

  /**
    A stored frame with a layout `imwrite` rejects makes the save throw, and
    the snapshot is still released on the way out.
   */
  lemma SaveOfUnknownLayoutThrows(p: VideoPanel, file: File, encode: Encoder)
    requires ChecksLayout(encode)
    requires !p.lastFrame.empty && !KnownLayout(p.lastFrame.channels)
    ensures SaveSnapshot(p, Some(file), encode).answer == Throws
    ensures SaveSnapshot(p, Some(file), encode).effects == [Encoded(file, p.lastFrame), Released(p.lastFrame)]
  {
  }

  // -------------------- Lifecycle properties --------------------

  /** A second `start()` changes nothing: at most one capture thread per run. */
  lemma StartIsIdempotent(p: VideoPanel, opens: bool, opensAgain: bool)
    ensures Start(Start(p, opens), opensAgain) == Start(p, opens)
    ensures Start(Start(p, opens), opensAgain).threadsSpawned <= p.threadsSpawned + 1
  {
  }

  /**
    A second `stop()` changes nothing, and `stop()` on an idle panel whose
    capture is closed touches nothing (a probed viewer's open handle would be released).
   */
  lemma StopIsIdempotent(p: VideoPanel)
    ensures Stop(Stop(p)) == Stop(p)
    ensures !p.running && p.captureThread.None? && !p.capture.isOpened ==> Stop(p) == p
  {
  }

  /**
    A handle that arrives open (as a probed one does) is not reopened by
    `start()`, so the panel's frame size is never requested on it; once `stop()`
    has released it, the next `start()` reopens it and requests the size.
   */
  lemma FrameSizeRequestedOnlyOnReopen(capture: VideoCapture, api: int, index: int)
    requires capture.isOpened && capture.width.None? && capture.height.None?
    ensures var p := Start(NewVideoPanel(capture, api, index), true);
      p.capture == capture && p.capture.width.None? && p.capture.height.None?
    ensures var p := Start(Stop(Start(NewVideoPanel(capture, api, index), true)), true);
      p.capture.isOpened && p.capture.openCalls == capture.openCalls + 1
      && p.capture.width == Some(DefaultFrameWidth) && p.capture.height == Some(DefaultFrameHeight)
  {
  }

  /**
    A new frame size reaches the device: an open capture takes it at once,
    and a closed one takes it when the next `start()` opens it.
   */
  lemma NewFrameSizeReachesCapture(p: VideoPanel, width: int, height: int)
    ensures var q := SetFrameHeight(SetFrameWidth(p, width), height);
      p.capture.isOpened ==> q.capture.width == Some(width) && q.capture.height == Some(height)
    ensures var q := SetFrameHeight(SetFrameWidth(p, width), height);
      !p.capture.isOpened && !p.running ==>
        q.capture == p.capture
        && Start(q, true).capture.width == Some(width) && Start(q, true).capture.height == Some(height)
  {
  }

  /** After `close()` the snapshot is empty, so a save reports false without calling the encoder. */
  lemma SaveAfterCloseFails(p: VideoPanel, file: Option<File>, encode: Encoder)
    ensures SnapshotFrame(Close(p)) == EmptyMat
    ensures SaveSnapshot(Close(p), file, encode).answer == Returns(false)
    ensures forall e | e in SaveSnapshot(Close(p), file, encode).effects :: !e.Encoded?
  {
  }
}
