/**
  One iteration of `VideoPanel.run()` as a pure step, the display-buffer
  reuse of `ensureImageBuffer`, and the loop as a fold of steps over the
  device's successive answers.

  The loop body reads a frame, applies the optional filter (falling back to
  the raw frame), stores the result as the last frame, normalises the channel
  layout, resizes it to the panel and copies it into a reused display image.
  The Java code catches exceptions outside the `while`, so an exception in
  a step ends the loop while the running flag stays raised (`Aborted`).
 */
module CaptureLoop {
  import opened Cv
  import opened Video

  /** Back-off after a failed or empty read. */
  const ReadRetryMs: nat := 30

  /** Back-off after a frame whose channel count cannot be displayed. */
  const UnsupportedSkipMs: nat := 5

  // -------------------- Display buffer --------------------

  /** The raster array `ensureImageBuffer` caches for an image. */
  function RasterOf(img: BufferedImage): Raster
  {
    Raster(img.id, img.width * img.height * BytesPerPixel(img.imageType))
  }

  /**
    The cached raster belongs to the current display image, and that image's
    id was handed out by an earlier allocation.
   */
  predicate BufferInv(p: VideoPanel)
  {
    p.imageForDisplay.Some? ==>
      p.imageForDisplay.value.id < p.imagesAllocated && p.imagePixels == Some(RasterOf(p.imageForDisplay.value))
  }

  /** The current display image exists and already has the wanted size and type. */
  predicate Reusable(current: Option<BufferedImage>, width: int, height: int, imageType: ImageType)
  {
    current.Some? && current.value.width == width && current.value.height == height
    && current.value.imageType == imageType
  }

  /** Only the display image, its raster and the allocation count differ between `p` and `q`. */
  predicate OnlyDisplayChanged(p: VideoPanel, q: VideoPanel)
  {
    q == p.(imageForDisplay := q.imageForDisplay, imagePixels := q.imagePixels, imagesAllocated := q.imagesAllocated)
  }

  /**
    `ensureImageBuffer(w, h, type)`: reuses the current display image when its
    size and type match and allocates a fresh one otherwise; the image it
    returns is the one published for display, and the raster is never null.
   */
  function EnsureImageBuffer(p: VideoPanel, width: int, height: int, imageType: ImageType): (r: (VideoPanel, BufferedImage))
    ensures r.0.imageForDisplay == Some(r.1)
    ensures r.1.width == width && r.1.height == height && r.1.imageType == imageType
    ensures Reusable(p.imageForDisplay, width, height, imageType) ==>
      r.1 == p.imageForDisplay.value && r.0.imagesAllocated == p.imagesAllocated
    ensures !Reusable(p.imageForDisplay, width, height, imageType) ==>
      r.1 == BufferedImage(p.imagesAllocated, width, height, imageType, None)
      && r.0.imagesAllocated == p.imagesAllocated + 1
    ensures r.0.imagePixels.Some?
    ensures BufferInv(p) ==> BufferInv(r.0)
    ensures OnlyDisplayChanged(p, r.0)
  {
    if !Reusable(p.imageForDisplay, width, height, imageType) then
      var img := BufferedImage(p.imagesAllocated, width, height, imageType, None);
      (p.(imageForDisplay := Some(img), imagePixels := Some(RasterOf(img)), imagesAllocated := p.imagesAllocated + 1), img)
    else if p.imagePixels.None? then
      (p.(imagePixels := Some(RasterOf(p.imageForDisplay.value))), p.imageForDisplay.value)
    else
      (p, p.imageForDisplay.value)
  }

  /**
    `resizedMat.get(0, 0, imagePixels)` then `imageForDisplay = img`: the
    pixels land in `img` only when the cached raster is `img`'s and large enough.
   */
  function CopyPixels(p: VideoPanel, img: BufferedImage, src: Mat, required: int): (r: VideoPanel)
    ensures r.imageForDisplay.Some? && r.imageForDisplay.value.id == img.id
    ensures p.imagePixels == Some(RasterOf(img)) && RasterOf(img).length >= required ==>
      r.imageForDisplay == Some(img.(shows := Some(src)))
    ensures r == p.(imageForDisplay := r.imageForDisplay)
  {
    if p.imagePixels.Some? && p.imagePixels.value.owner == img.id && p.imagePixels.value.length >= required then
      p.(imageForDisplay := Some(img.(shows := Some(src))))
    else
      p.(imageForDisplay := Some(img))
  }

  /** The display type for a channel count: gray for one channel, 3-byte BGR otherwise. */
  function DisplayType(channels: int): (t: ImageType)
    ensures t == ByteGray <==> channels == 1
  {
    if channels == 1 then ByteGray else ThreeByteBgr
  }

  /**
    The display half of a step for a one- or three-channel frame: resize to
    `width` x `height`, pick the image type, make sure the buffer fits, copy.
   */
  function Display(p: VideoPanel, toDisplay: Mat, width: int, height: int): (r: VideoPanel)
    requires !toDisplay.empty && (toDisplay.channels == 1 || toDisplay.channels == 3)
    ensures r.imageForDisplay.Some?
    ensures r.imageForDisplay.value.width == width && r.imageForDisplay.value.height == height
    ensures r.imageForDisplay.value.imageType == DisplayType(toDisplay.channels)
    ensures r.resizedMat == Resize(toDisplay)
    ensures r.imagesAllocated <= p.imagesAllocated + 1
    ensures BufferInv(p) ==> BufferInv(r) && r.imageForDisplay.value.shows == Some(toDisplay)
    ensures BufferInv(p) && Reusable(p.imageForDisplay, width, height, DisplayType(toDisplay.channels)) ==>
      r.imageForDisplay.value.id == p.imageForDisplay.value.id && r.imagesAllocated == p.imagesAllocated
    ensures !Reusable(p.imageForDisplay, width, height, DisplayType(toDisplay.channels)) ==>
      r.imageForDisplay.value.id == p.imagesAllocated && r.imagesAllocated == p.imagesAllocated + 1
    ensures r == p.(resizedMat := r.resizedMat, imageForDisplay := r.imageForDisplay,
                    imagePixels := r.imagePixels, imagesAllocated := r.imagesAllocated)
  {
    var resized := Resize(toDisplay);
    var imageType := DisplayType(toDisplay.channels);
    var first := EnsureImageBuffer(p.(resizedMat := resized), width, height, imageType);
    var required := resized.channels * width * height;
    var second :=
      if first.0.imagePixels.None? || first.0.imagePixels.value.length < required
      then EnsureImageBuffer(first.0, width, height, imageType)
      else first;
    CopyPixels(second.0, second.1, resized, required)
  }

  // -------------------- One loop iteration --------------------

  /**
    What one iteration sees: the device's answer, the filter the volatile
    field holds at that moment (it may be swapped, or be a stateful script,
    between iterations), and the panel's size.
   */
  datatype Tick = Tick(read: Read, filter: Filter, panelWidth: int, panelHeight: int)

  /**
    How an iteration ended: no usable frame (retry), a frame that cannot be
    displayed (skipped), a displayed frame, or an exception that ends the loop.
   */
  datatype Outcome = NoFrame | Unsupported | Displayed | Aborted

  datatype StepResult = StepResult(panel: VideoPanel, outcome: Outcome, sleepMs: nat)

  /** Channels of the displayed image: BGRA is shown as BGR, the others as they are. */
  function ShownChannels(channels: int): int
  {
    if channels == 4 then 3 else channels
  }

  /** The capture thread's configuration and lifecycle state agree in `p` and `q`. */
  predicate SameLifecycle(p: VideoPanel, q: VideoPanel)
  {
    && q.deviceIndex == p.deviceIndex && q.apiPreference == p.apiPreference
    && q.capture == p.capture && q.running == p.running
    && q.captureThread == p.captureThread && q.threadsSpawned == p.threadsSpawned
    && q.frameWidth == p.frameWidth && q.frameHeight == p.frameHeight
    && q.captureDelayMs == p.captureDelayMs
  }

  /** One pass through the body of the `while` loop in `run()`. */
  function Step(p: VideoPanel, tick: Tick): (r: StepResult)
    ensures SameLifecycle(p, r.panel)
    ensures !GoodRead(tick.read) ==> r.panel == p
    ensures !GoodRead(tick.read) && !tick.read.ReadRaised? ==> r.outcome == NoFrame && r.sleepMs == ReadRetryMs
    ensures r.outcome == Aborted <==>
      tick.read.ReadRaised?
      || (GoodRead(tick.read) && Process(tick.filter, tick.read.frame).empty
          && KnownLayout(Process(tick.filter, tick.read.frame).channels))
    ensures GoodRead(tick.read) ==> r.panel.lastFrame == CopyOf(Process(tick.filter, tick.read.frame))
    ensures r.outcome == Displayed <==>
      GoodRead(tick.read) && !Process(tick.filter, tick.read.frame).empty && KnownLayout(Process(tick.filter, tick.read.frame).channels)
    ensures r.outcome == Unsupported <==>
      GoodRead(tick.read) && !KnownLayout(Process(tick.filter, tick.read.frame).channels)
    ensures r.outcome == Unsupported ==> r.sleepMs == UnsupportedSkipMs
    ensures r.outcome == Displayed ==> r.sleepMs == p.captureDelayMs
    ensures r.outcome != Displayed ==>
      r.panel.imageForDisplay == p.imageForDisplay && r.panel.imagePixels == p.imagePixels
      && r.panel.imagesAllocated == p.imagesAllocated
    ensures r.outcome == Displayed ==>
      var ch := Process(tick.filter, tick.read.frame).channels;
      && r.panel.imageForDisplay.Some?
      && r.panel.imageForDisplay.value.width == Max(1, tick.panelWidth)
      && r.panel.imageForDisplay.value.height == Max(1, tick.panelHeight)
      && (r.panel.imageForDisplay.value.imageType == ByteGray <==> ch == 1)
      && r.panel.imagesAllocated <= p.imagesAllocated + 1
    ensures r.outcome == Displayed && BufferInv(p) ==>
      var m := Process(tick.filter, tick.read.frame);
      r.panel.imageForDisplay.value.shows == Some(Mat(false, ShownChannels(m.channels), m.tag))
    ensures BufferInv(p) ==> BufferInv(r.panel)
  {
    match tick.read
    case ReadRaised => StepResult(p, Aborted, 0)
    case NotGrabbed => StepResult(p, NoFrame, ReadRetryMs)
    case Grabbed(frame) =>
      if frame.empty then StepResult(p, NoFrame, ReadRetryMs)
      else
        var processed := Process(tick.filter, frame);
        var stored := p.(lastFrame := CopyOf(processed));
        var w := Max(1, tick.panelWidth);
        var h := Max(1, tick.panelHeight);
        var ch := processed.channels;
        if ch == 4 then
          // cvtColor rejects an empty source with an exception
          if processed.empty then StepResult(stored, Aborted, 0)
          else
            var converted := BgraToBgr(processed);
            StepResult(Display(stored.(convertedMat := converted), converted, w, h), Displayed, p.captureDelayMs)
        else if ch != 1 && ch != 3 then
          StepResult(stored, Unsupported, UnsupportedSkipMs)
        // resize rejects an empty source with an exception
        else if processed.empty then StepResult(stored, Aborted, 0)
        else StepResult(Display(stored, processed, w, h), Displayed, p.captureDelayMs)
  }

  /**
    The buffer-reuse rule of a displayed step: the previous display image is
    kept exactly when its size and type match the clamped panel size and the
    frame's display type, and a fresh one is allocated otherwise.
   */
  lemma StepReusesMatchingBuffer(p: VideoPanel, tick: Tick)
    requires BufferInv(p)
    requires Step(p, tick).outcome == Displayed
    ensures var r := Step(p, tick).panel;
      var reuse := Reusable(p.imageForDisplay, Max(1, tick.panelWidth), Max(1, tick.panelHeight),
                            DisplayType(ShownChannels(Process(tick.filter, tick.read.frame).channels)));
      && (reuse ==> r.imageForDisplay.value.id == p.imageForDisplay.value.id && r.imagesAllocated == p.imagesAllocated)
      && (!reuse ==> r.imageForDisplay.value.id == p.imagesAllocated && r.imagesAllocated == p.imagesAllocated + 1)
  {
  }

  // -------------------- The loop --------------------

  /** Where the loop stopped: out of ticks or not running (`aborted` false), or after an exception. */
  datatype RunResult = RunResult(panel: VideoPanel, aborted: bool)

  /**
    `run()` fed with successive ticks while the running flag stays raised;
    each tick brings the filter the field holds in that iteration.
   */
  function Run(p: VideoPanel, ticks: seq<Tick>): (r: RunResult)
    ensures SameLifecycle(p, r.panel)
    ensures r.aborted ==> p.running
    ensures BufferInv(p) ==> BufferInv(r.panel)
    ensures !p.running ==> r.panel == p
    decreases |ticks|
  {
    if !p.running || |ticks| == 0 then RunResult(p, false)
    else
      var s := Step(p, ticks[0]);
      if s.outcome == Aborted then RunResult(s.panel, true)
      else Run(s.panel, ticks[1..])
  }

  /** Tick `i` delivered a frame whose stored (filtered) form is `m`. */
  predicate AcquiredAt(ticks: seq<Tick>, i: int, m: Mat)
  {
    0 <= i < |ticks| && GoodRead(ticks[i].read) && CopyOf(Process(ticks[i].filter, ticks[i].read.frame)) == m
  }

  /**
    No torn or invented snapshots: after any run the last frame is the one
    the panel started with or the stored form of a frame the device delivered.
   */
  lemma {:induction false} RunLastFrameWasAcquired(p: VideoPanel, ticks: seq<Tick>)
    ensures var q := Run(p, ticks).panel;
      q.lastFrame == p.lastFrame || exists i :: AcquiredAt(ticks, i, q.lastFrame)
    decreases |ticks|
  {
    if !p.running || |ticks| == 0 {
    } else {
      var s := Step(p, ticks[0]);
      if s.outcome == Aborted {
        if GoodRead(ticks[0].read) {
          assert AcquiredAt(ticks, 0, s.panel.lastFrame);
        }
      } else {
        RunLastFrameWasAcquired(s.panel, ticks[1..]);
        var q := Run(s.panel, ticks[1..]).panel;
        assert Run(p, ticks).panel == q;
        if q.lastFrame == s.panel.lastFrame {
          if GoodRead(ticks[0].read) {
            assert AcquiredAt(ticks, 0, q.lastFrame);
          }
        } else {
          var i :| AcquiredAt(ticks[1..], i, q.lastFrame);
          assert AcquiredAt(ticks, i + 1, q.lastFrame);
        }
      }
    }
  }

  /** What a tick leaves as the last frame when it is not the end of the loop. */
  function StoredAfter(last: Mat, t: Tick): Mat
  {
    if GoodRead(t.read) then CopyOf(Process(t.filter, t.read.frame)) else last
  }

  /**
    The reference for the stored frame: the stored form of the frame from the
    latest tick that delivered one, or `init` when no tick did.
   */
  function LatestStored(init: Mat, ticks: seq<Tick>): Mat
    decreases |ticks|
  {
    if |ticks| == 0 then init
    else StoredAfter(LatestStored(init, ticks[..|ticks| - 1]), ticks[|ticks| - 1])
  }

  /** Peeling the first tick off the reference: it only changes the starting frame. */
  lemma {:induction false} LatestStoredCons(init: Mat, t: Tick, rest: seq<Tick>)
    ensures LatestStored(init, [t] + rest) == LatestStored(StoredAfter(init, t), rest)
    decreases |rest|
  {
    if |rest| > 0 {
      var n := |rest|;
      assert ([t] + rest)[..n] == [t] + rest[..n - 1];
      assert ([t] + rest)[n] == rest[n - 1];
      LatestStoredCons(init, t, rest[..n - 1]);
    } else {
      assert ([t] + rest)[..0] == [];
    }
  }

  /**
    Frames are stored in acquisition order: a loop that is not ended by an
    exception leaves, as the last frame, the stored form of the latest frame
    the device delivered, whatever failed reads followed it (as after `stop()`
    released the handle), and the initial frame when none was delivered.
   */
  lemma {:induction false} RunStoresLatest(p: VideoPanel, ticks: seq<Tick>)
    requires p.running && !Run(p, ticks).aborted
    ensures Run(p, ticks).panel.lastFrame == LatestStored(p.lastFrame, ticks)
    decreases |ticks|
  {
    if |ticks| > 0 {
      var s := Step(p, ticks[0]);
      assert s.panel.lastFrame == StoredAfter(p.lastFrame, ticks[0]);
      RunStoresLatest(s.panel, ticks[1..]);
      assert [ticks[0]] + ticks[1..] == ticks;
      LatestStoredCons(p.lastFrame, ticks[0], ticks[1..]);
    }
  }

  /**
    Appending a tick to a run changes the latest stored frame only when that
    tick delivers a frame: the failed reads that follow `stop()` releasing the
    handle leave it as it was.
   */
  lemma LatestStoredSnoc(init: Mat, ticks: seq<Tick>, t: Tick)
    ensures GoodRead(t.read) ==> LatestStored(init, ticks + [t]) == CopyOf(Process(t.filter, t.read.frame))
    ensures !GoodRead(t.read) ==> LatestStored(init, ticks + [t]) == LatestStored(init, ticks)
  {
  }

  /**
    A frame with a channel count the loop cannot show is skipped without
    ending the loop: the snapshot is updated, the display is not, and the
    following ticks are processed as usual.
   */
  lemma UnsupportedFrameIsSkipped(p: VideoPanel, t: Tick, rest: seq<Tick>)
    requires p.running && GoodRead(t.read) && !KnownLayout(Process(t.filter, t.read.frame).channels)
    ensures var s := Step(p, t);
      && s.outcome == Unsupported
      && s.panel.imageForDisplay == p.imageForDisplay
      && SnapshotFrame(s.panel) == SnapshotFrame(p.(lastFrame := Process(t.filter, t.read.frame)))
      && Run(p, [t] + rest) == Run(s.panel, rest)
  {
  }

  /**
    The concrete case of an unsupported layout reaching the encoder: a
    non-empty frame with, say, two channels is stored for the snapshot, so a
    later save hands it to `imwrite`, which raises; the save throws after
    releasing the snapshot.
   */
  lemma UnsupportedFrameBreaksSave(p: VideoPanel, t: Tick, file: File, encode: Encoder)
    requires ChecksLayout(encode)
    requires GoodRead(t.read)
    requires !Process(t.filter, t.read.frame).empty && !KnownLayout(Process(t.filter, t.read.frame).channels)
    ensures Step(p, t).outcome == Unsupported
    ensures var saved := SaveSnapshot(Step(p, t).panel, Some(file), encode);
      saved.answer == Throws && saved.effects[|saved.effects| - 1] == Released(Process(t.filter, t.read.frame))
  {
  }

  /**
    After an exception ends the loop the running flag is still raised, so
    `start()` is a no-op and no new capture thread appears until `stop()`.
   */
  lemma AbortedLoopBlocksRestart(p: VideoPanel, ticks: seq<Tick>, opens: bool)
    requires Run(p, ticks).aborted
    ensures var q := Run(p, ticks).panel;
      q.running && Start(q, opens) == q && q.threadsSpawned == p.threadsSpawned
    ensures var q := Run(p, ticks).panel;
      Start(Stop(q), opens).threadsSpawned == q.threadsSpawned + 1
  {
  }
}
