/**
  Abstract stand-ins for the OpenCV values the camera core decides on.

  A frame (`Mat`) is reduced to its emptiness, its channel count and an
  identity tag for its pixel content; a capture handle (`VideoCapture`) to
  whether it is open, how often it was opened and released, and which frame
  size was requested on it. Pixel operations keep the tag and change only
  what the core looks at.
 */
module Cv {

  datatype Option<+T> = None | Some(value: T)

  /** `Math.max` on Java ints. */
  function Max(a: int, b: int): (r: int)
    ensures r >= a && r >= b
    ensures r == a || r == b
  {
    if a >= b then a else b
  }

  // -------------------- Frames --------------------

  /** An OpenCV matrix as far as the core cares: empty or not, how many channels, which content. */
  datatype Mat = Mat(empty: bool, channels: int, tag: int)

  /** `new Mat()`: an empty single-channel matrix. */
  const EmptyMat: Mat := Mat(true, 1, 0)

  /** `Mat.release()`: the matrix no longer holds any data. */
  function Release(m: Mat): (r: Mat)
    ensures r.empty
  {
    EmptyMat
  }

  /**
    The destination of `src.copyTo(dst)`: a copy of a non-empty source, or a
    released (empty) matrix when the source is empty.
   */
  function CopyOf(src: Mat): (r: Mat)
    ensures r.empty <==> src.empty
    ensures !src.empty ==> r == src
  {
    if src.empty then EmptyMat else src
  }

  /** `Imgproc.cvtColor(src, dst, COLOR_BGRA2BGR)` on a non-empty four-channel source. */
  function BgraToBgr(src: Mat): (r: Mat)
    requires !src.empty && src.channels == 4
    ensures !r.empty && r.channels == 3 && r.tag == src.tag
  {
    Mat(false, 3, src.tag)
  }

  /**
    `Imgproc.resize(src, dst, new Size(w, h))` on a non-empty source: same
    channels and content; the target size is carried by the display buffer.
   */
  function Resize(src: Mat): (r: Mat)
    requires !src.empty
    ensures !r.empty && r.channels == src.channels && r.tag == src.tag
  {
    src
  }

  // -------------------- Device answers --------------------

  /** What `VideoCapture.read(frame)` does: returns true with a frame (maybe empty), returns false, or throws. */
  datatype Read = Grabbed(frame: Mat) | NotGrabbed | ReadRaised

  /** What `VideoCapture.open(index, api)` does: returns true, returns false, or throws. */
  datatype Open = Opened | NotOpened | OpenRaised

  /** How one device answers the probe: the open call and the single test read that follows it. */
  datatype Device = Device(open: Open, testRead: Read)

  /** The probing oracle: the answer of the device at an index under an API preference. */
  type DeviceOracle = (int, int) -> Device

  /** A read that delivers a usable frame: the call returned true and the frame is not empty. */
  predicate GoodRead(r: Read)
  {
    r.Grabbed? && !r.frame.empty
  }

  // -------------------- Capture handles --------------------

  /**
    A `VideoCapture` handle: open or closed, how often `open` and `release`
    were called on it, and the frame width and height last requested on it
    while it was open.
   */
  datatype VideoCapture = VideoCapture(isOpened: bool, openCalls: nat, releaseCalls: nat,
                                       width: Option<int>, height: Option<int>)

  /** `new VideoCapture()`: a handle that was never opened. */
  const Unopened: VideoCapture := VideoCapture(false, 0, 0, None, None)

  /** `open(index, api)` on a closed handle; `succeeded` is the device's answer. */
  function OpenCapture(c: VideoCapture, succeeded: bool): (r: VideoCapture)
    requires !c.isOpened
    ensures r.isOpened <==> succeeded
    ensures r.openCalls == c.openCalls + 1
    ensures r.releaseCalls == c.releaseCalls && r.width == c.width && r.height == c.height
  {
    c.(isOpened := succeeded, openCalls := c.openCalls + 1)
  }

  /** `release()`: the handle is closed and forgets its requested size, whatever state it was in. */
  function ReleaseCapture(c: VideoCapture): (r: VideoCapture)
    ensures !r.isOpened && r.width.None? && r.height.None?
    ensures r.releaseCalls == c.releaseCalls + 1 && r.openCalls == c.openCalls
  {
    c.(isOpened := false, releaseCalls := c.releaseCalls + 1, width := None, height := None)
  }

  /** `Videoio.CAP_PROP_FRAME_WIDTH` and `Videoio.CAP_PROP_FRAME_HEIGHT`. */
  datatype SizeProperty = FrameWidthProp | FrameHeightProp

  /** `set(prop, value)` for a size property: only an open handle takes it. */
  function SetProperty(c: VideoCapture, prop: SizeProperty, value: int): (r: VideoCapture)
    ensures c.isOpened && prop == FrameWidthProp ==> r == c.(width := Some(value))
    ensures c.isOpened && prop == FrameHeightProp ==> r == c.(height := Some(value))
    ensures !c.isOpened ==> r == c
  {
    if !c.isOpened then c
    else match prop
      case FrameWidthProp => c.(width := Some(value))
      case FrameHeightProp => c.(height := Some(value))
  }

  /** Both size properties, width first: an open handle takes both, a closed one neither. */
  function RequestSize(c: VideoCapture, width: int, height: int): (r: VideoCapture)
    ensures c.isOpened ==> r.width == Some(width) && r.height == Some(height)
    ensures !c.isOpened ==> r == c
    ensures r.isOpened == c.isOpened && r.openCalls == c.openCalls && r.releaseCalls == c.releaseCalls
  {
    SetProperty(SetProperty(c, FrameWidthProp, width), FrameHeightProp, height)
  }

  // -------------------- Per-frame filter --------------------

  /**
    What `IProcessCapture.process(frame)` does: returns a frame, returns null,
    or throws. A filter may edit its input in place before it returns null or
    throws (a non-`Mat` result of a script filter is a `ClassCastException`),
    so those two answers carry the input as the filter left it.
   */
  datatype FilterReply = Returned(frame: Mat) | ReturnedNull(input: Mat) | Raised(input: Mat)

  /** The optional per-frame filter (`null` disables it). */
  type Filter = Option<Mat -> FilterReply>

  /**
    The frame the capture loop goes on with: the filter's frame when it
    returned one; otherwise the loop falls back to its own `frame` object,
    which is the raw frame without a filter and the frame as the filter left
    it after a null result or an exception.
   */
  function Process(filter: Filter, frame: Mat): (r: Mat)
    ensures filter.None? ==> r == frame
    ensures filter.Some? ==> match filter.value(frame)
      case Returned(m) => r == m
      case ReturnedNull(left) => r == left
      case Raised(left) => r == left
  {
    match filter
    case None => frame
    case Some(f) =>
      match f(frame)
      case Returned(m) => m
      case ReturnedNull(left) => left
      case Raised(left) => left
  }

  /** A filter that never edits its input in place. */
  ghost predicate LeavesInputAlone(f: Mat -> FilterReply)
  {
    forall m: Mat :: !f(m).Returned? ==> f(m).input == m
  }

  /**
    With a filter that does not edit its input, the loop goes on with the
    filter's frame when it returned one and with the raw frame exactly otherwise.
   */
  lemma FallbackIsRawFrame(filter: Filter, frame: Mat)
    requires filter.Some? ==> LeavesInputAlone(filter.value)
    ensures filter.None? || !filter.value(frame).Returned? ==> Process(filter, frame) == frame
    ensures filter.Some? && filter.value(frame).Returned? ==> Process(filter, frame) == filter.value(frame).frame
    ensures Process(filter, frame) == frame || (filter.Some? && filter.value(frame) == Returned(Process(filter, frame)))
  {
  }

  // -------------------- Channel layouts --------------------

  /** A channel count the loop shows and `imwrite` accepts: gray, BGR, or BGRA. */
  predicate KnownLayout(channels: int)
  {
    channels == 1 || channels == 3 || channels == 4
  }
}
