/**
  A concrete run of the group: three indices, where the cameras at 0 and 2
  open and deliver a frame and the one at 1 refuses to open.
 */
module Scenario {
  import opened Cv
  import opened Video
  import opened Devices

  /** Cameras 0 and 2 work; camera 1 does not open. */
  function Bench(index: int, api: int): Device
  {
    if index == 1 then Device(NotOpened, NotGrabbed) else Device(Opened, Grabbed(Mat(false, 3, index)))
  }

  /**
    Probing classifies the slots as [viewer, placeholder, viewer] and leaves
    only the two viewers' handles open; both viewers start idle.
   */
  lemma BenchProbe()
    ensures var probed := NewDeviceGroup(3, Bench);
      && probed.group.devicePanels == [ViewerPanel(0), Placeholder(1), ViewerPanel(2)]
      && DeviceIndices(probed.group.viewers) == [0, 2]
      && !probed.handles[1].isOpened && probed.handles[1].releaseCalls == 1
      && OpenCount(probed.group.viewers) == 2
      && RunningCount(probed.group.viewers) == 0 && ThreadsSpawned(probed.group.viewers) == 0
  {
    var probed := NewDeviceGroup(3, Bench);
    var g := probed.group;
    assert Works(Bench(0, CapDshow)) && !Works(Bench(1, CapDshow)) && Works(Bench(2, CapDshow));
    assert g.devicePanels == [ViewerPanel(0), Placeholder(1), ViewerPanel(2)];
    InitIsConsistent(SetDeviceCount(Unconfigured, 3), Bench);
    assert WorkingIndices(3, CapDshow, Bench) == [0, 2];
    InitViewersOwnProbedHandles(SetDeviceCount(Unconfigured, 3), Bench);
    assert |g.viewers| == 2;
    assert g.viewers[0] in g.viewers && g.viewers[1] in g.viewers;
    assert g.viewers[1..][1..] == [];
    assert g.viewers[1..][0] == g.viewers[1];
    assert OpenCount(g.viewers) == 2;
    assert ThreadsSpawned(g.viewers[1..]) == 0;
    assert RunningCount(g.viewers[1..]) == 0;
  }

  /**
    The three-index run end to end: `openAll()` starts exactly two capture
    threads, and `close()` then leaves no viewer running and no handle open.
   */
  lemma ThreeSlotLifecycle()
    ensures var probed := NewDeviceGroup(3, Bench);
      && probed.group.devicePanels == [ViewerPanel(0), Placeholder(1), ViewerPanel(2)]
      && DeviceIndices(probed.group.viewers) == [0, 2]
      && !probed.handles[1].isOpened && probed.handles[1].releaseCalls == 1
      && OpenCount(probed.group.viewers) == 2
    ensures var started := OpenAll(NewDeviceGroup(3, Bench).group, _ => true);
      RunningCount(started.viewers) == 2 && ThreadsSpawned(started.viewers) == 2
    ensures var closed := CloseGroup(OpenAll(NewDeviceGroup(3, Bench).group, _ => true));
      RunningCount(closed.viewers) == 0 && OpenCount(closed.viewers) == 0
  {
    BenchProbe();
    var g := NewDeviceGroup(3, Bench).group;
    var started := OpenAll(g, _ => true);
    assert |started.viewers| == 2;
    assert started.viewers[1..][1..] == [];
    assert RunningCount(started.viewers) == 2;
    OpenAllSpawnsOneThreadPerIdleViewer(g.viewers, _ => true);
    CloseLeavesNothingRunningOrOpen(started);
  }
}
