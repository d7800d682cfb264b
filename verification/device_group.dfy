/**
  The device group (`DeviceGroup`): clamps the requested device count,
  probes every index with one open and one test read, turns each index into
  a viewer or a placeholder panel, and fans `start`/`stop`/`close` out over
  the viewers.

  Each index's capture handle is returned next to the group so that the
  fate of every handle (kept open by a viewer, or released) can be stated.
 */
module Devices {
  import opened Cv
  import opened Video

  /** `Videoio.CAP_DSHOW`, the default API preference. */
  const CapDshow: int := 700

  /** The panel at one index: the viewer's container, or an "Empty: i" placeholder. */
  datatype DevicePanel = ViewerPanel(device: int) | Placeholder(device: int)

  datatype DeviceGroup = DeviceGroup(
    apiPreference: int,
    deviceCount: nat,
    viewers: seq<VideoPanel>,
    devicePanels: seq<DevicePanel>)

  /** A group as the field initialisers leave it, before the constructor body runs. */
  const Unconfigured: DeviceGroup := DeviceGroup(CapDshow, 1, [], [])

  /** `setDeviceCount(n)`: a negative count is stored as 0. */
  function SetDeviceCount(g: DeviceGroup, n: int): (r: DeviceGroup)
    ensures n >= 0 ==> r.deviceCount == n
    ensures n < 0 ==> r.deviceCount == 0
    ensures r == g.(deviceCount := r.deviceCount)
  {
    g.(deviceCount := if n < 0 then 0 else n)
  }

  // -------------------- Probing --------------------

  /** The probe's verdict in the device's terms: it opens, and its test read yields a non-empty frame. */
  predicate Works(d: Device)
  {
    d.open == Opened && GoodRead(d.testRead)
  }

  /**
    `tryOpenAndProbe(cap, index, api)` on a fresh handle: true exactly when the
    device works; the handle is left open exactly when `open` succeeded, since
    a failed or throwing read does not close it.
   */
  function TryOpenAndProbe(cap: VideoCapture, d: Device): (r: (bool, VideoCapture))
    requires !cap.isOpened
    ensures r.0 <==> Works(d)
    ensures r.1.isOpened <==> d.open == Opened
    ensures r.1.openCalls == cap.openCalls + 1 && r.1.releaseCalls == cap.releaseCalls && r.1.width == cap.width && r.1.height == cap.height
  {
    match d.open
    case OpenRaised => (false, OpenCapture(cap, false))
    case NotOpened => (false, OpenCapture(cap, false))
    case Opened =>
      var handle := OpenCapture(cap, true);
      match d.testRead
      case Grabbed(test) => (!test.empty, handle)
      case NotGrabbed => (false, handle)
      case ReadRaised => (false, handle)
  }

  /** What one iteration of `init`'s loop produces for an index. */
  datatype Slot = Slot(panel: DevicePanel, viewer: Option<VideoPanel>, handle: VideoCapture)

  /**
    One iteration of `init`'s loop: a working device gets a viewer that owns
    its still-open handle; any other device gets a placeholder and its handle
    is released.
   */
  function ProbeSlot(index: int, api: int, devices: DeviceOracle): (s: Slot)
    ensures s.panel.device == index
    ensures s.panel.ViewerPanel? <==> Works(devices(index, api))
    ensures s.viewer.Some? <==> s.panel.ViewerPanel?
    ensures s.viewer.Some? ==> s.viewer.value == NewVideoPanel(s.handle, api, index)
    ensures s.handle.isOpened <==> Works(devices(index, api))
    ensures s.handle.openCalls == 1
    ensures s.handle.releaseCalls == (if Works(devices(index, api)) then 0 else 1)
  {
    var probe := TryOpenAndProbe(Unopened, devices(index, api));
    if probe.0 then Slot(ViewerPanel(index), Some(NewVideoPanel(probe.1, api, index)), probe.1)
    else Slot(Placeholder(index), None, ReleaseCapture(probe.1))
  }

  /** The loop of `init` over indices `0 .. n-1`, in order. */
  function ProbeSlots(n: nat, api: int, devices: DeviceOracle): (slots: seq<Slot>)
    ensures |slots| == n
    ensures forall i | 0 <= i < n :: slots[i] == ProbeSlot(i, api, devices)
  {
    if n == 0 then [] else ProbeSlots(n - 1, api, devices) + [ProbeSlot(n - 1, api, devices)]
  }

  /** The viewers `init` adds, in the order it adds them. */
  function ViewersOf(slots: seq<Slot>): seq<VideoPanel>
  {
    if |slots| == 0 then []
    else
      var last := slots[|slots| - 1];
      ViewersOf(slots[..|slots| - 1]) + (if last.viewer.Some? then [last.viewer.value] else [])
  }

  /** The group after `init`, with the final state of the handle opened for each index. */
  datatype Probed = Probed(group: DeviceGroup, handles: seq<VideoCapture>)

  /**
    `init()`: discards the previous viewers and panels and rebuilds both from
    a fresh probe of every index `0 .. deviceCount-1`.
   */
  function Init(g: DeviceGroup, devices: DeviceOracle): (r: Probed)
    ensures r.group.deviceCount == g.deviceCount && r.group.apiPreference == g.apiPreference
    ensures |r.group.devicePanels| == g.deviceCount && |r.handles| == g.deviceCount
    ensures forall i | 0 <= i < g.deviceCount :: r.group.devicePanels[i].device == i
    ensures forall i | 0 <= i < g.deviceCount ::
      r.group.devicePanels[i].ViewerPanel? <==> Works(devices(i, g.apiPreference))
    ensures forall i | 0 <= i < g.deviceCount ::
      r.handles[i].isOpened <==> Works(devices(i, g.apiPreference))
    ensures forall i | 0 <= i < g.deviceCount && !Works(devices(i, g.apiPreference)) ::
      r.handles[i].releaseCalls == 1
  {
    var slots := ProbeSlots(g.deviceCount, g.apiPreference, devices);
    var panels := seq(|slots|, i requires 0 <= i < |slots| => slots[i].panel);
    var handles := seq(|slots|, i requires 0 <= i < |slots| => slots[i].handle);
    assert forall i | 0 <= i < g.deviceCount ::
      panels[i] == ProbeSlot(i, g.apiPreference, devices).panel && handles[i] == ProbeSlot(i, g.apiPreference, devices).handle;
    Probed(g.(viewers := ViewersOf(slots), devicePanels := panels), handles)
  }

  /** `new DeviceGroup(container, n)`: clamp the count, then probe. */
  function NewDeviceGroup(n: int, devices: DeviceOracle): (r: Probed)
    ensures |r.group.devicePanels| == Max(0, n) && r.group.deviceCount == Max(0, n)
    ensures r.group.apiPreference == CapDshow
    ensures Consistent(r.group)
    ensures DeviceIndices(r.group.viewers) == WorkingIndices(r.group.deviceCount, CapDshow, devices)
  {
    InitIsConsistent(SetDeviceCount(Unconfigured, n), devices);
    Init(SetDeviceCount(Unconfigured, n), devices)
  }

  // -------------------- Reference definitions --------------------

  /** The indices below `n` whose device works, ascending. */
  function WorkingIndices(n: nat, api: int, devices: DeviceOracle): seq<int>
  {
    if n == 0 then []
    else WorkingIndices(n - 1, api, devices) + (if Works(devices(n - 1, api)) then [n - 1] else [])
  }

  /** The device index of each viewer, in list order. */
  function DeviceIndices(viewers: seq<VideoPanel>): (r: seq<int>)
    ensures |r| == |viewers|
    ensures forall k | 0 <= k < |viewers| :: r[k] == viewers[k].deviceIndex
  {
    seq(|viewers|, k requires 0 <= k < |viewers| => viewers[k].deviceIndex)
  }

  /** The indices of the viewer panels, in panel order. */
  function ViewerPanelIndices(panels: seq<DevicePanel>): seq<int>
  {
    if |panels| == 0 then []
    else
      var last := panels[|panels| - 1];
      ViewerPanelIndices(panels[..|panels| - 1]) + (if last.ViewerPanel? then [last.device] else [])
  }

  /** Strictly increasing. */
  predicate Ascending(s: seq<int>)
  {
    forall a, b | 0 <= a < b < |s| :: s[a] < s[b]
  }

  /**
    The group's shape: one panel per index in index order, and the viewers
    sit, in the same order, exactly at the viewer panels.
   */
  predicate Consistent(g: DeviceGroup)
  {
    && |g.devicePanels| == g.deviceCount
    && (forall i | 0 <= i < |g.devicePanels| :: g.devicePanels[i].device == i)
    && DeviceIndices(g.viewers) == ViewerPanelIndices(g.devicePanels)
  }

  // -------------------- Properties of init --------------------

  /** The working indices are ascending, below `n`, and are exactly the working devices. */
  lemma {:induction false} WorkingIndicesCharacterised(n: nat, api: int, devices: DeviceOracle)
    ensures Ascending(WorkingIndices(n, api, devices))
    ensures |WorkingIndices(n, api, devices)| <= n
    ensures forall i :: i in WorkingIndices(n, api, devices) <==> 0 <= i < n && Works(devices(i, api))
  {
    if n > 0 {
      WorkingIndicesCharacterised(n - 1, api, devices);
      var before := WorkingIndices(n - 1, api, devices);
      var s := WorkingIndices(n, api, devices);
      forall a, b | 0 <= a < b < |s|
        ensures s[a] < s[b]
      {
        assert s[a] == before[a];
        if b >= |before| {
          assert before[a] in before;
        }
      }
    }
  }

  /** The viewers built from slots, and the viewer panels among them, follow the slots' order. */
  lemma {:induction false} ViewersFollowSlots(slots: seq<Slot>, api: int, devices: DeviceOracle)
    requires forall i | 0 <= i < |slots| :: slots[i] == ProbeSlot(i, api, devices)
    ensures DeviceIndices(ViewersOf(slots)) == WorkingIndices(|slots|, api, devices)
    ensures ViewerPanelIndices(seq(|slots|, i requires 0 <= i < |slots| => slots[i].panel))
            == WorkingIndices(|slots|, api, devices)
    ensures forall v | v in ViewersOf(slots) ::
      0 <= v.deviceIndex < |slots| && slots[v.deviceIndex].viewer == Some(v)
  {
    if |slots| > 0 {
      var n := |slots|;
      var prefix := slots[..n - 1];
      ViewersFollowSlots(prefix, api, devices);
      var panels := seq(n, i requires 0 <= i < n => slots[i].panel);
      assert panels[..n - 1] == seq(n - 1, i requires 0 <= i < n - 1 => prefix[i].panel);
      var last := slots[n - 1];
      var tail := if last.viewer.Some? then [last.viewer.value] else [];
      assert ViewersOf(slots) == ViewersOf(prefix) + tail;
      assert DeviceIndices(ViewersOf(prefix) + tail) == DeviceIndices(ViewersOf(prefix)) + DeviceIndices(tail);
    }
  }

  /**
    `init` yields exactly `deviceCount` panels in index order and, in the
    same order, one viewer per working device and none for the others.
   */
  lemma InitIsConsistent(g: DeviceGroup, devices: DeviceOracle)
    ensures Consistent(Init(g, devices).group)
    ensures DeviceIndices(Init(g, devices).group.viewers) == WorkingIndices(g.deviceCount, g.apiPreference, devices)
  {
    ViewersFollowSlots(ProbeSlots(g.deviceCount, g.apiPreference, devices), g.apiPreference, devices);
  }

  /**
    Every viewer `init` creates is idle, has stored no frame, and owns the very
    handle the probe opened: open, opened once, never released.
   */
  lemma InitViewersOwnProbedHandles(g: DeviceGroup, devices: DeviceOracle)
    ensures var r := Init(g, devices);
      forall v | v in r.group.viewers ::
        && 0 <= v.deviceIndex < g.deviceCount
        && Works(devices(v.deviceIndex, g.apiPreference))
        && v.capture == r.handles[v.deviceIndex]
        && v.capture.isOpened && v.capture.openCalls == 1 && v.capture.releaseCalls == 0
        && !v.running && v.captureThread.None? && v.threadsSpawned == 0 && v.lastFrame.empty
  {
    var slots := ProbeSlots(g.deviceCount, g.apiPreference, devices);
    ViewersFollowSlots(slots, g.apiPreference, devices);
  }

  /**
    Viewers are listed by ascending device index, each at a viewer panel and
    never at a placeholder, so there are at most `deviceCount` of them.
   */
  lemma {:induction false} ConsistentGroupShape(g: DeviceGroup)
    requires Consistent(g)
    ensures |g.viewers| <= g.deviceCount
    ensures Ascending(DeviceIndices(g.viewers))
    ensures forall k | 0 <= k < |g.viewers| ::
      0 <= g.viewers[k].deviceIndex < g.deviceCount && g.devicePanels[g.viewers[k].deviceIndex].ViewerPanel?
  {
    ViewerPanelIndicesShape(g.devicePanels);
    forall k | 0 <= k < |g.viewers|
      ensures 0 <= g.viewers[k].deviceIndex < g.deviceCount && g.devicePanels[g.viewers[k].deviceIndex].ViewerPanel?
    {
      assert g.viewers[k].deviceIndex == DeviceIndices(g.viewers)[k];
      assert DeviceIndices(g.viewers)[k] in ViewerPanelIndices(g.devicePanels);
    }
  }

  /** The viewer-panel indices of a panel list whose panels carry their own index. */
  lemma {:induction false} ViewerPanelIndicesShape(panels: seq<DevicePanel>)
    requires forall i | 0 <= i < |panels| :: panels[i].device == i
    ensures Ascending(ViewerPanelIndices(panels))
    ensures |ViewerPanelIndices(panels)| <= |panels|
    ensures forall i :: i in ViewerPanelIndices(panels) <==> 0 <= i < |panels| && panels[i].ViewerPanel?
  {
    if |panels| > 0 {
      var prefix := panels[..|panels| - 1];
      ViewerPanelIndicesShape(prefix);
      var before := ViewerPanelIndices(prefix);
      var s := ViewerPanelIndices(panels);
      forall a, b | 0 <= a < b < |s|
        ensures s[a] < s[b]
      {
        assert s[a] == before[a];
        if b >= |before| {
          assert before[a] in before;
        }
      }
    }
  }

  /** Re-running `init` keeps nothing from before: the result depends only on count, API and devices. */
  lemma InitDiscardsStaleState(g: DeviceGroup, h: DeviceGroup, devices: DeviceOracle)
    requires g.deviceCount == h.deviceCount && g.apiPreference == h.apiPreference
    ensures Init(g, devices) == Init(h, devices)
  {
  }

  /**
    `setDeviceCount` is public but `init` runs only from the constructor, so
    changing the count on a built group leaves the panels at the old count:
    the group no longer has one panel per index.
   */
  lemma SetDeviceCountBreaksShape(g: DeviceGroup, n: int)
    requires Consistent(g) && Max(0, n) != g.deviceCount
    ensures !Consistent(SetDeviceCount(g, n))
    ensures SetDeviceCount(g, n).devicePanels == g.devicePanels && SetDeviceCount(g, n).viewers == g.viewers
  {
  }

  // -------------------- Lifecycle fan-out --------------------

  /** The viewer operation a fan-out applies. */
  datatype Op = StartOp | StopOp | CloseOp

  /** One viewer call; `opens` answers whether the viewer's device accepts `open` now. */
  function Apply(op: Op, v: VideoPanel, opens: int -> bool): VideoPanel
  {
    match op
    case StartOp => Start(v, opens(v.deviceIndex))
    case StopOp => Stop(v)
    case CloseOp => Close(v)
  }

  /** The loop `for i in 0 .. viewers.size()-1: viewers.get(i).op()`, first viewer first. */
  function ForEachViewer(viewers: seq<VideoPanel>, op: Op, opens: int -> bool): (r: seq<VideoPanel>)
    ensures |r| == |viewers|
    ensures forall k | 0 <= k < |viewers| :: r[k] == Apply(op, viewers[k], opens)
  {
    if |viewers| == 0 then []
    else [Apply(op, viewers[0], opens)] + ForEachViewer(viewers[1..], op, opens)
  }

  /** `openAll()`: `start()` on every viewer; panels are untouched. */
  function OpenAll(g: DeviceGroup, opens: int -> bool): (r: DeviceGroup)
    ensures r.devicePanels == g.devicePanels && |r.viewers| == |g.viewers|
    ensures forall k | 0 <= k < |g.viewers| :: r.viewers[k] == Start(g.viewers[k], opens(g.viewers[k].deviceIndex))
    ensures forall k | 0 <= k < |r.viewers| :: r.viewers[k].running
  {
    g.(viewers := ForEachViewer(g.viewers, StartOp, opens))
  }

  /** `stopAll()`: `stop()` on every viewer; panels are untouched. */
  function StopAll(g: DeviceGroup): (r: DeviceGroup)
    ensures r.devicePanels == g.devicePanels && |r.viewers| == |g.viewers|
    ensures forall k | 0 <= k < |g.viewers| :: r.viewers[k] == Stop(g.viewers[k])
    ensures forall k | 0 <= k < |r.viewers| ::
      !r.viewers[k].running && r.viewers[k].captureThread.None? && !r.viewers[k].capture.isOpened
  {
    g.(viewers := ForEachViewer(g.viewers, StopOp, _ => false))
  }

  /** `releaseAll()`: `close()` on every viewer, leaving nothing running, open or stored. */
  function ReleaseAll(g: DeviceGroup): (r: DeviceGroup)
    ensures r.devicePanels == g.devicePanels && |r.viewers| == |g.viewers|
    ensures forall k | 0 <= k < |g.viewers| :: r.viewers[k] == Close(g.viewers[k])
    ensures forall k | 0 <= k < |r.viewers| ::
      !r.viewers[k].running && r.viewers[k].captureThread.None? && !r.viewers[k].capture.isOpened
      && r.viewers[k].lastFrame.empty
  {
    g.(viewers := ForEachViewer(g.viewers, CloseOp, _ => false))
  }

  /** `close()`: the same as `releaseAll()`. */
  function CloseGroup(g: DeviceGroup): (r: DeviceGroup)
    ensures r == ReleaseAll(g)
    ensures r.devicePanels == g.devicePanels && |r.viewers| == |g.viewers|
    ensures forall k | 0 <= k < |r.viewers| ::
      !r.viewers[k].running && r.viewers[k].captureThread.None? && !r.viewers[k].capture.isOpened
  {
    ReleaseAll(g)
  }

  /** The fan-outs keep viewer order and device indices, hence the group's shape. */
  lemma FanOutKeepsShape(g: DeviceGroup, opens: int -> bool)
    requires Consistent(g)
    ensures Consistent(OpenAll(g, opens)) && Consistent(StopAll(g)) && Consistent(ReleaseAll(g))
  {
  }

  /** A second `openAll()` or `releaseAll()` changes nothing. */
  lemma FanOutIsIdempotent(g: DeviceGroup, opens: int -> bool, opensAgain: int -> bool)
    ensures OpenAll(OpenAll(g, opens), opensAgain) == OpenAll(g, opens)
    ensures ReleaseAll(ReleaseAll(g)) == ReleaseAll(g)
  {
  }

  // -------------------- Counting threads and handles --------------------

  /** How many viewers are running. */
  function RunningCount(viewers: seq<VideoPanel>): (c: nat)
    ensures c <= |viewers|
  {
    if |viewers| == 0 then 0 else (if viewers[0].running then 1 else 0) + RunningCount(viewers[1..])
  }

  /** How many viewers hold an open capture handle. */
  function OpenCount(viewers: seq<VideoPanel>): (c: nat)
    ensures c <= |viewers|
  {
    if |viewers| == 0 then 0 else (if viewers[0].capture.isOpened then 1 else 0) + OpenCount(viewers[1..])
  }

  /** Threads spawned over all viewers. */
  function ThreadsSpawned(viewers: seq<VideoPanel>): nat
  {
    if |viewers| == 0 then 0 else viewers[0].threadsSpawned + ThreadsSpawned(viewers[1..])
  }

  /** No viewer is running. */
  lemma {:induction false} NoneRunning(viewers: seq<VideoPanel>)
    requires forall k | 0 <= k < |viewers| :: !viewers[k].running
    ensures RunningCount(viewers) == 0
  {
    if |viewers| > 0 {
      NoneRunning(viewers[1..]);
    }
  }

  /** No viewer holds an open handle. */
  lemma {:induction false} NoneOpen(viewers: seq<VideoPanel>)
    requires forall k | 0 <= k < |viewers| :: !viewers[k].capture.isOpened
    ensures OpenCount(viewers) == 0
  {
    if |viewers| > 0 {
      NoneOpen(viewers[1..]);
    }
  }

  /**
    `openAll()` creates exactly one capture thread per viewer that was not
    running, and none for a viewer that was.
   */
  lemma {:induction false} OpenAllSpawnsOneThreadPerIdleViewer(viewers: seq<VideoPanel>, opens: int -> bool)
    ensures ThreadsSpawned(ForEachViewer(viewers, StartOp, opens))
            == ThreadsSpawned(viewers) + |viewers| - RunningCount(viewers)
  {
    if |viewers| > 0 {
      OpenAllSpawnsOneThreadPerIdleViewer(viewers[1..], opens);
      assert ForEachViewer(viewers, StartOp, opens)[1..] == ForEachViewer(viewers[1..], StartOp, opens);
    }
  }

  /** After `close()` on the group no viewer runs and no viewer holds an open handle. */
  lemma CloseLeavesNothingRunningOrOpen(g: DeviceGroup)
    ensures RunningCount(CloseGroup(g).viewers) == 0
    ensures OpenCount(CloseGroup(g).viewers) == 0
  {
    NoneRunning(CloseGroup(g).viewers);
    NoneOpen(CloseGroup(g).viewers);
  }
}
