# Camera group and capture pipeline — a Dafny model

This project models the camera-management core of a multi-camera live-preview
application (Java, OpenCV and Swing):

- `DeviceGroup` probes device indices `0 .. deviceCount-1`. Each index gets
  either a viewer or an "Empty" placeholder panel. The group fans
  `start`/`stop`/`close` out over the viewers.
- `VideoPanel` is the per-device viewer. It has a start/stop/close lifecycle,
  a capture loop that reads, filters, converts, resizes and publishes frames,
  and snapshot/save calls on the last stored frame.

OpenCV, the camera, the per-frame filter and the image encoder are abstract
stand-ins:

- A frame is a `Mat` with an emptiness flag, a channel count and a content tag.
- A capture handle records whether it is open, how often it was opened and
  released, and which frame size was requested on it.
- Device, filter and encoder behaviour are oracle parameters. A device answers
  open/read with success, failure or an exception. The filter returns a frame,
  returns null, or throws; in the last two cases it reports the input frame as
  it left it, since it may have edited it in place. The encoder answers true,
  false, or throws.

Modules:

- `Cv` (`cv.dfy`): the OpenCV stand-ins and the filter fallback.
- `Video` (`video_panel.dfy`): the panel's state, lifecycle, capture delay,
  snapshot and save.
- `CaptureLoop` (`capture_loop.dfy`): one iteration of `run()` as a pure step,
  `ensureImageBuffer`, and the loop as a fold of steps over successive device
  answers (`Tick`s).
- `Devices` (`device_group.dfy`): count clamping, probing, `init`, the group's
  shape invariant, and the fan-outs.
- `Scenario` (`scenario.dfy`): a three-index end-to-end run.

## Notes on the code's behaviour

- The capture loop's `catch` sits outside the `while`. An exception in an
  iteration therefore ends the loop, and `running` stays true. Because
  `running` is still true, `start()` does nothing until `stop()` is called
  (`CaptureLoop.AbortedLoopBlocksRestart`).
- OpenCV's `cvtColor` and `resize` raise on an empty source. So a filter that
  leaves an empty frame with 1, 3 or 4 channels ends the loop. The snapshot is
  already empty at that point.
- When the filter returns null or throws, the loop goes on with its own
  `frame` object, including any edit the filter made to it in place.
- The filter field is read once per iteration, so a filter swapped while the
  loop runs takes effect on the next frame. Each `Tick` carries the filter of
  its iteration.
- `saveSnapshot` returns false for a null file or path, for an empty snapshot
  and for a failed write. It throws when `imwrite` throws, for example on a
  stored frame with 2 channels (`CaptureLoop.UnsupportedFrameBreaksSave`), and
  the snapshot is released in every case.
- The run state is a `running` flag plus a thread handle. `stop()` releases
  the capture only if it is open. A later `start()` reopens it.
- Frames with a channel count other than 1, 3 or 4 are dropped from the
  display but still stored as the snapshot.
- `setDeviceCount` is public, while `init` runs only from the constructor.
  Changing the count on a built group leaves the panels at the old count
  (`Devices.SetDeviceCountBreaksShape`).

## Model

| member | source | states |
|---|---|---|
| `Cv.Process` | src/main/java/io/github/beatum/video/VideoPanel.java:298-308 | the frame the loop goes on with is the filter's frame when it returned one, the raw frame when there is no filter, and the loop's own frame as the filter left it when the filter returned null or threw |
| `Cv.FallbackIsRawFrame` | src/main/java/io/github/beatum/video/VideoPanel.java:299-307 | with a filter that does not edit its input, the loop goes on with the filter's frame when it returned one and with the raw frame otherwise |
| `Cv.CopyOf` | src/main/java/io/github/beatum/video/VideoPanel.java:310-313 | storing a frame keeps a copy equal to it; storing an empty frame leaves the slot empty |
| `Video.NewVideoPanel` | src/main/java/io/github/beatum/video/VideoPanel.java:115-124 | a new panel keeps the handle it is given (open or not), is not running, has no thread, no stored frame and no display image |
| `Video.OpenCaptureIfNeeded` | src/main/java/io/github/beatum/video/VideoPanel.java:397-403 | an open handle is left untouched; a closed one is opened once, and when that succeeds the panel's frame size is requested on it |
| `Video.Start` | src/main/java/io/github/beatum/video/VideoPanel.java:132-141 | a running panel is unchanged; otherwise the panel ends up running with exactly one new thread, an already open capture is not reopened, and no frame or display state changes |
| `Video.Stop` | src/main/java/io/github/beatum/video/VideoPanel.java:147-167 | afterwards nothing runs, no thread handle remains and the capture is closed; it is released once if it was open and not at all otherwise |
| `Video.Close` | src/main/java/io/github/beatum/video/VideoPanel.java:172-183 | close is exactly stop plus emptying the last-frame, resize and conversion buffers; nothing else changes |
| `Video.SetCaptureDelayMs` | src/main/java/io/github/beatum/video/VideoPanel.java:239-241 | the stored delay is the request when it is non-negative and 0 otherwise; nothing else changes |
| `Video.SetFrameWidth` | src/main/java/io/github/beatum/video/VideoPanel.java:209-214 | the width is stored, and pushed to the capture exactly when it is open; nothing else changes |
| `Video.SetFrameHeight` | src/main/java/io/github/beatum/video/VideoPanel.java:223-228 | the height is stored, and pushed to the capture exactly when it is open; nothing else changes |
| `Video.SnapshotFrame` | src/main/java/io/github/beatum/video/VideoPanel.java:251-255 | the snapshot is empty exactly when no frame is stored, and otherwise equals the stored frame |
| `Video.SaveSnapshot` | src/main/java/io/github/beatum/video/VideoPanel.java:263-273 | false for a null file, with no calls made; false for an empty snapshot; otherwise the encoder is called with the stored frame and its answer is returned, or its exception is passed on; with a file, the calls are exactly one encode (only for a non-empty snapshot) followed by one release |
| `Video.SaveSnapshotToPath` | src/main/java/io/github/beatum/video/VideoPanel.java:278-281 | a null path gives false with no calls made; any other path behaves as the `File` overload on that path |
| `Video.SaveOfUnknownLayoutThrows` | src/main/java/io/github/beatum/video/VideoPanel.java:263-273 | with an encoder that rejects layouts other than 1, 3 or 4 channels, saving such a stored frame throws after encoding was attempted and the snapshot was released |
| `Video.StartIsIdempotent` | src/main/java/io/github/beatum/video/VideoPanel.java:132-141 | a second start changes nothing, so one run never has more than one new thread |
| `Video.StopIsIdempotent` | src/main/java/io/github/beatum/video/VideoPanel.java:147-167 | a second stop changes nothing, and stop on an idle panel whose capture is closed changes nothing |
| `Video.FrameSizeRequestedOnlyOnReopen` | src/main/java/io/github/beatum/video/VideoPanel.java:397-403 | a probed (already open) handle is not reopened by the first start, so no frame size is requested on it; after stop, the next start reopens it and requests 1366x768 |
| `Video.NewFrameSizeReachesCapture` | src/main/java/io/github/beatum/video/VideoPanel.java:209-228 | a new frame size reaches an open capture at once, and a closed one when the next start opens it |
| `Video.SaveAfterCloseFails` | src/main/java/io/github/beatum/video/VideoPanel.java:172-183 | after close the snapshot is empty and a save returns false without calling the encoder |
| `CaptureLoop.EnsureImageBuffer` | src/main/java/io/github/beatum/video/VideoPanel.java:409-426 | the current display image is reused exactly when size and type match, otherwise a fresh one is allocated; the returned image is the published one, its raster is never null, and raster/image agreement is preserved |
| `CaptureLoop.CopyPixels` | src/main/java/io/github/beatum/video/VideoPanel.java:353-354 | the published image gets the resized pixels when the cached raster is its own and large enough |
| `CaptureLoop.Display` | src/main/java/io/github/beatum/video/VideoPanel.java:336-354 | the published image has the target size, gray type exactly for one channel, shows the frame, and at most one image is allocated (the second buffer check never allocates) |
| `CaptureLoop.Step` | src/main/java/io/github/beatum/video/VideoPanel.java:289-366 | a failed or empty read changes nothing and backs off 30 ms; the iteration ends the loop exactly when the read throws or the filtered frame is empty with 1, 3 or 4 channels; a good read stores the filtered frame before the channel check; a frame is displayed exactly when it is non-empty with 1, 3 or 4 channels, as 3 channels for 4, at size max(1, panel size), gray exactly for 1 channel; other counts are skipped with a 5 ms back-off and the display untouched; the lifecycle state is never touched |
| `CaptureLoop.StepReusesMatchingBuffer` | src/main/java/io/github/beatum/video/VideoPanel.java:340-351 | a displayed step keeps the previous image exactly when its size and type match, and otherwise allocates one fresh image |
| `CaptureLoop.Run` | src/main/java/io/github/beatum/video/VideoPanel.java:285-373 | running the loop, with the filter of each iteration read afresh, never changes the lifecycle state or configuration, only aborts while running, and keeps the display image and raster in agreement |
| `CaptureLoop.RunLastFrameWasAcquired` | src/main/java/io/github/beatum/video/VideoPanel.java:310-313 | after any run the stored frame is the initial one or the stored form of a frame the device actually delivered |
| `CaptureLoop.RunStoresLatest` | src/main/java/io/github/beatum/video/VideoPanel.java:289-313 | frames are stored in acquisition order: a loop not ended by an exception leaves the stored form of the latest delivered frame, even when failed reads follow it (the usual exit after stop), and the initial frame when none was delivered |
| `CaptureLoop.LatestStoredCons` | src/main/java/io/github/beatum/video/VideoPanel.java:289-313 | the latest-frame reference, read from the back, agrees with reading the ticks from the front: the first tick only changes the starting frame |
| `CaptureLoop.LatestStoredSnoc` | src/main/java/io/github/beatum/video/VideoPanel.java:289-313 | a further tick changes the latest stored frame exactly to its own stored frame when it delivers one, and not at all after a failed read, as after stop released the handle |
| `CaptureLoop.UnsupportedFrameIsSkipped` | src/main/java/io/github/beatum/video/VideoPanel.java:329-334 | a frame with an unsupported channel count updates the snapshot, leaves the display untouched and does not end the loop |
| `CaptureLoop.UnsupportedFrameBreaksSave` | src/main/java/io/github/beatum/video/VideoPanel.java:329-334 | a non-empty frame of an unsupported layout is skipped but stored, so a later save hands it to an encoder that rejects it and throws, releasing the snapshot |
| `CaptureLoop.AbortedLoopBlocksRestart` | src/main/java/io/github/beatum/video/VideoPanel.java:368-372 | after an exception ends the loop the panel still counts as running, so start creates no thread until stop |
| `Devices.SetDeviceCount` | src/main/java/io/github/beatum/video/DeviceGroup.java:85-87 | a negative device count is stored as 0, any other as given |
| `Devices.SetDeviceCountBreaksShape` | src/main/java/io/github/beatum/video/DeviceGroup.java:48-49 | changing the count on a consistent group keeps its panels and viewers, so it no longer has one panel per index |
| `Devices.TryOpenAndProbe` | src/main/java/io/github/beatum/video/DeviceGroup.java:165-177 | the probe succeeds exactly when open succeeds and the test read returns a non-empty frame (exceptions count as failure); the handle stays open exactly when open succeeded |
| `Devices.ProbeSlot` | src/main/java/io/github/beatum/video/DeviceGroup.java:128-146 | a working index gets a viewer panel and a viewer owning the open handle; any other gets a placeholder, no viewer, and a released handle |
| `Devices.ProbeSlots` | src/main/java/io/github/beatum/video/DeviceGroup.java:125-150 | the loop produces one slot per index, in index order |
| `Devices.Init` | src/main/java/io/github/beatum/video/DeviceGroup.java:120-150 | exactly deviceCount panels, panel i for index i, a viewer panel exactly at working indices; every handle of a failed probe is released once and closed |
| `Devices.NewDeviceGroup` | src/main/java/io/github/beatum/video/DeviceGroup.java:57-61 | the constructor, run on the event thread, stores max(0, n) as the count and builds a consistent group with one panel per index, probed with the DirectShow preference, whose viewers are exactly the working devices in index order |
| `Devices.WorkingIndicesCharacterised` | src/main/java/io/github/beatum/video/DeviceGroup.java:130-144 | the indices whose probe succeeds, listed in loop order, are strictly ascending, at most n, and contain exactly the working devices |
| `Devices.ViewersFollowSlots` | src/main/java/io/github/beatum/video/DeviceGroup.java:132-146 | the viewers and the viewer panels both list exactly the working indices, in order, and each viewer is the one its slot created |
| `Devices.InitIsConsistent` | src/main/java/io/github/beatum/video/DeviceGroup.java:125-150 | after init the viewers sit, in ascending order, exactly at the viewer panels, and they are exactly the working devices |
| `Devices.InitViewersOwnProbedHandles` | src/main/java/io/github/beatum/video/DeviceGroup.java:132-143 | every viewer holds the handle its probe opened, still open, opened once, never released, and starts idle with no stored frame |
| `Devices.ConsistentGroupShape` | src/main/java/io/github/beatum/video/DeviceGroup.java:45-49 | viewers are in ascending index order, each at a viewer panel (never a placeholder), so there are at most deviceCount of them |
| `Devices.ViewerPanelIndicesShape` | src/main/java/io/github/beatum/video/DeviceGroup.java:146-149 | the viewer-panel indices are ascending, at most one per panel, and are exactly the viewer panels |
| `Devices.InitDiscardsStaleState` | src/main/java/io/github/beatum/video/DeviceGroup.java:120-123 | init's result depends only on count, API preference and devices, so nothing from earlier viewers or panels survives |
| `Devices.ForEachViewer` | src/main/java/io/github/beatum/video/DeviceGroup.java:195-217 | a fan-out applies its operation once to each viewer, first to last, and to nothing else |
| `Devices.OpenAll` | src/main/java/io/github/beatum/video/DeviceGroup.java:195-199 | every viewer is started and then running; panels are untouched |
| `Devices.StopAll` | src/main/java/io/github/beatum/video/DeviceGroup.java:204-208 | every viewer is stopped: not running, no thread, capture closed; panels are untouched |
| `Devices.ReleaseAll` | src/main/java/io/github/beatum/video/DeviceGroup.java:213-217 | every viewer is closed: not running, no thread, capture closed, no stored frame; panels are untouched |
| `Devices.CloseGroup` | src/main/java/io/github/beatum/video/DeviceGroup.java:222-224 | close on the group is releaseAll, with the same guarantees |
| `Devices.FanOutKeepsShape` | src/main/java/io/github/beatum/video/DeviceGroup.java:201-208 | starting, stopping or releasing all viewers keeps the group's panel/viewer shape |
| `Devices.FanOutIsIdempotent` | src/main/java/io/github/beatum/video/DeviceGroup.java:195-217 | a second openAll or releaseAll changes nothing |
| `Devices.OpenAllSpawnsOneThreadPerIdleViewer` | src/main/java/io/github/beatum/video/DeviceGroup.java:195-199 | openAll creates exactly one thread per viewer that was not running, and none for running ones |
| `Devices.CloseLeavesNothingRunningOrOpen` | src/main/java/io/github/beatum/video/DeviceGroup.java:210-224 | after close no viewer runs and no viewer holds an open handle |
| `Scenario.BenchProbe` | src/main/java/io/github/beatum/video/DeviceGroup.java:125-150 | with cameras 0 and 2 working and 1 not opening, probing yields [viewer, placeholder, viewer], releases handle 1, and leaves two idle viewers with open handles |
| `Scenario.ThreeSlotLifecycle` | src/main/java/io/github/beatum/video/DeviceGroup.java:125-150 | with cameras 0 and 2 working and 1 not opening: panels are [viewer, placeholder, viewer], handle 1 is released, openAll starts exactly two threads, and close leaves none running and no handle open |

## Left out

- Threads are not modelled. This covers thread creation, `interrupt`, `join(800)` and its timeout, daemon flags, `volatile` visibility and the `frameLock` mutual exclusion. Each loop iteration is one atomic step, and a thread is reduced to its handle and a creation count.
- The interrupt check in the loop condition is not modelled, because only `stop()` interrupts and it also clears `running`.
- `CaptureLoop.Step`: a tick's read is not tied to the handle's state. In the code `read` on a closed handle returns false; the model lets any answer arrive, a superset of the code's behaviour.
- Sleeps are reported as a duration (`sleepMs`), not performed.
- Swing is not modelled: painting ("No Signal"), layout, the placeholder label text, container add/remove/revalidate and `invokeLater`/`repaint`.
- `Devices.NewDeviceGroup`: models the constructor on the event thread, where App builds the group. Off that thread `init` only schedules itself and returns (DeviceGroup.java:111-118), so right after the constructor the group has no panels and no viewers.
- OpenCV pixel work and `VideoCapture` I/O are abstract functions over the `Mat` record. These are `cvtColor`, `resize`, `Mat.get`, `copyTo` and `imwrite`. The model keeps four failures: `open` and `read` may raise (`OpenRaised`, `ReadRaised`), `cvtColor`/`resize` raise on an empty source, and `imwrite` may raise (the `WriteRaised` answer).
- `CaptureLoop.Step`: the frame's element depth is not modelled. `Mat.get` into a byte array raises for a frame that is not 8-bit, which would end the loop; every frame is treated as 8-bit.
- `Video.SaveSnapshot`: whether `imwrite` raises for a given file extension or frame is left to the encoder oracle; `ChecksLayout` states only its channel assertion.
- The file's absolute path is not modelled, because the encoder receives the `File`.
- `setApiPreference`, `setImageProcessingFilter` and the plain getters are not modelled, because they only store or return a field. A filter set while the loop runs is expressed by the filter each `Tick` carries.
- `Video.Start`: assumes `open` inside `start()` does not throw. In the code such an exception would leave the panel stopped and also abort the rest of an `openAll` loop.
- The null checks on `videoCapture` are not modelled, because the group always passes a handle and the no-argument constructor throws.
- Java `int` overflow of `channels * width * height` is not modelled. It needs a panel of about 26000 x 26000 pixels.
- `Devices.Init`: re-running `init` drops the old viewers without stopping or releasing them. The model does not track those old handles. In the code `init` is private and only the constructor calls it.
- `Video.java` is not part of this model. It is the legacy viewer with an unbounded loop and `Thread.stop()`.
- `Commons.java`, `App.java` and the scripting filter (`ProcessCapturePnutsImpl.java`) are not part of this model. The filter is the abstract `Filter` oracle.
