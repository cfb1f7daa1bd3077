/**
 The allocator of play windows to devices: two tables that point into each other. The
 server's and the stream's answers are inputs.
 */
module MainCtrl {

  datatype Device = Device(
    key: string,
    isActive: bool,
    isPlaying: bool,
    isPlayingAudio: bool,
    windowIdx: int)

  datatype Window = Window(isPlaying: bool, deviceIdx: int)

  datatype Tables = Tables(devices: seq<Device>, windows: seq<Window>)

  predicate ValidDevice(t: Tables, d: int) {
    0 <= d < |t.devices|
  }

  predicate ValidWindow(t: Tables, w: int) {
    0 <= w < |t.windows|
  }

  // ---------------------------------------------------------------- invariant

  /** A playing window and its device point at each other; an idle window points nowhere. */
  predicate WindowOk(t: Tables, w: int)
    requires ValidWindow(t, w)
  {
    var d := t.windows[w].deviceIdx;
    if t.windows[w].isPlaying then
      ValidDevice(t, d) && t.devices[d].isPlaying && t.devices[d].windowIdx == w
    else
      d == -1
  }

  predicate DeviceOk(t: Tables, d: int)
    requires ValidDevice(t, d)
  {
    var w := t.devices[d].windowIdx;
    if t.devices[d].isPlaying then
      ValidWindow(t, w) && t.windows[w].isPlaying && t.windows[w].deviceIdx == d
    else
      w == -1 && !t.devices[d].isPlayingAudio
  }

  /** Windows and devices form a partial bijection. */
  ghost predicate Consistent(t: Tables) {
    && (forall w {:trigger WindowOk(t, w)} :: ValidWindow(t, w) ==> WindowOk(t, w))
    && (forall d {:trigger DeviceOk(t, d)} :: ValidDevice(t, d) ==> DeviceOk(t, d))
  }

  function PlayingCount(devices: seq<Device>): nat {
    if devices == [] then 0
    else PlayingCount(devices[..|devices| - 1]) + (if devices[|devices| - 1].isPlaying then 1 else 0)
  }

  predicate HasIdle(t: Tables) {
    exists w :: 0 <= w < |t.windows| && !t.windows[w].isPlaying
  }

  // ---------------------------------------------------------------- operations

  function FirstIdle(windows: seq<Window>, from: nat): (i: nat)
    requires from <= |windows|
    ensures from <= i <= |windows|
    ensures i < |windows| ==> !windows[i].isPlaying
    ensures forall w :: from <= w < i ==> windows[w].isPlaying
    decreases |windows| - from
  {
    if from == |windows| || !windows[from].isPlaying then from else FirstIdle(windows, from + 1)
  }

  /** The first idle window; if all play, window 0; if there is none, -1. */
  function FindWindow(t: Tables): (r: int)
    ensures r == -1 <==> t.windows == []
    ensures r != -1 ==> ValidWindow(t, r)
    ensures HasIdle(t) ==> !t.windows[r].isPlaying && forall w :: 0 <= w < r ==> t.windows[w].isPlaying
    ensures t.windows != [] && !HasIdle(t) ==> r == 0
  {
    if t.windows == [] then -1
    else
      var i := FirstIdle(t.windows, 0);
      if i < |t.windows| then i else 0
  }

  function AddedDevice(t: Tables, key: string): Tables {
    t.(devices := t.devices + [Device(key, false, false, false, -1)])
  }

  function AddedWindow(t: Tables): Tables {
    t.(windows := t.windows + [Window(false, -1)])
  }

  function Stopped(t: Tables, d: int): Tables {
    if !ValidDevice(t, d) || !ValidWindow(t, t.devices[d].windowIdx) then t
    else
      var w := t.devices[d].windowIdx;
      Tables(t.devices[d := t.devices[d].(isPlaying := false, isPlayingAudio := false, windowIdx := -1)],
             t.windows[w := Window(false, -1)])
  }

  function Assigned(t: Tables, d: int, w: int): Tables
    requires ValidDevice(t, d) && ValidWindow(t, w)
  {
    Tables(t.devices[d := t.devices[d].(isPlaying := true, windowIdx := w)],
           t.windows[w := Window(true, d)])
  }

  /** `playVideo` gets past its checks. */
  predicate Playable(t: Tables, d: int) {
    ValidDevice(t, d) && t.devices[d].isActive && !t.devices[d].isPlaying && t.windows != []
  }

  /** The tables once the chosen window has been freed. */
  function Freed(t: Tables): Tables
    requires t.windows != []
  {
    var w := FindWindow(t);
    if t.windows[w].isPlaying then Stopped(t, t.windows[w].deviceIdx) else t
  }

  /** `accepted` is the answer of the window's player. */
  function Played(t: Tables, d: int, accepted: bool): Tables {
    if !Playable(t, d) then t
    else if accepted then Assigned(Freed(t), d, FindWindow(t))
    else Freed(t)
  }

  function AudioOn(t: Tables, w: int): Tables {
    if ValidWindow(t, w) && ValidDevice(t, t.windows[w].deviceIdx) && t.windows[w].isPlaying then
      var d := t.windows[w].deviceIdx;
      t.(devices := t.devices[d := t.devices[d].(isPlayingAudio := true)])
    else
      t
  }

  function AudioOff(t: Tables, w: int): Tables {
    if ValidWindow(t, w) && ValidDevice(t, t.windows[w].deviceIdx) then
      var d := t.windows[w].deviceIdx;
      t.(devices := t.devices[d := t.devices[d].(isPlayingAudio := false)])
    else
      t
  }

  /** The first device with this key, or the number of devices. */
  function FirstWithKey(devices: seq<Device>, key: string, from: nat): (i: nat)
    requires from <= |devices|
    ensures from <= i <= |devices|
    ensures i < |devices| ==> devices[i].key == key
    ensures forall k :: from <= k < i ==> devices[k].key != key
    decreases |devices| - from
  {
    if from == |devices| || devices[from].key == key then from else FirstWithKey(devices, key, from + 1)
  }

  function StatusChanged(t: Tables, key: string, status: string): Tables {
    var d := FirstWithKey(t.devices, key, 0);
    if key == "" || status == "" || d == |t.devices| then t
    else t.(devices := t.devices[d := t.devices[d].(isActive := status == "active")])
  }

  datatype Op =
    | AddDevice(key: string)
    | AddWindow
    | PlayVideo(device: int, accepted: bool)
    | StopVideo(device: int)
    | PlayAudio(window: int)
    | StopAudio(window: int)
    | Status(key: string, status: string)

  function Apply(t: Tables, op: Op): Tables {
    match op
    case AddDevice(key) => AddedDevice(t, key)
    case AddWindow => AddedWindow(t)
    case PlayVideo(d, accepted) => Played(t, d, accepted)
    case StopVideo(d) => Stopped(t, d)
    case PlayAudio(w) => AudioOn(t, w)
    case StopAudio(w) => AudioOff(t, w)
    case Status(key, status) => StatusChanged(t, key, status)
  }

  function After(t: Tables, ops: seq<Op>): Tables {
    if ops == [] then t else Apply(After(t, ops[..|ops| - 1]), ops[|ops| - 1])
  }

  // ---------------------------------------------------------------- preservation

  lemma {:induction false} AddingKeeps(t: Tables, key: string)
    requires Consistent(t)
    ensures Consistent(AddedDevice(t, key))
    ensures Consistent(AddedWindow(t))
  {
    forall w | ValidWindow(t, w)
      ensures WindowOk(AddedDevice(t, key), w) && WindowOk(AddedWindow(t), w)
    {
      assert WindowOk(t, w);
    }
    forall d | ValidDevice(t, d)
      ensures DeviceOk(AddedDevice(t, key), d) && DeviceOk(AddedWindow(t), d)
    {
      assert DeviceOk(t, d);
    }
  }

  lemma {:induction false} StoppingKeeps(t: Tables, d: int)
    requires Consistent(t)
    ensures Consistent(Stopped(t, d))
  {
    if ValidDevice(t, d) && ValidWindow(t, t.devices[d].windowIdx) {
      var s := Stopped(t, d);
      assert DeviceOk(t, d);
      forall w | ValidWindow(s, w)
        ensures WindowOk(s, w)
      {
        assert WindowOk(t, w);
      }
      forall e | ValidDevice(s, e)
        ensures DeviceOk(s, e)
      {
        assert DeviceOk(t, e);
      }
    }
  }

  lemma {:induction false} AssigningKeeps(t: Tables, d: int, w: int)
    requires Consistent(t)
    requires ValidDevice(t, d) && !t.devices[d].isPlaying
    requires ValidWindow(t, w) && !t.windows[w].isPlaying
    ensures Consistent(Assigned(t, d, w))
  {
    var s := Assigned(t, d, w);
    assert DeviceOk(t, d) && WindowOk(t, w);
    forall v | ValidWindow(s, v)
      ensures WindowOk(s, v)
    {
      assert WindowOk(t, v);
    }
    forall e | ValidDevice(s, e)
      ensures DeviceOk(s, e)
    {
      assert DeviceOk(t, e);
    }
  }

  /** Freeing the chosen window stops at most the device it shows. */
  lemma {:induction false} FreeingStops(t: Tables)
    requires Consistent(t) && t.windows != []
    ensures Consistent(Freed(t))
    ensures |Freed(t).devices| == |t.devices| && |Freed(t).windows| == |t.windows|
    ensures !Freed(t).windows[FindWindow(t)].isPlaying
    ensures forall d :: ValidDevice(t, d) && !t.devices[d].isPlaying ==> Freed(t).devices[d] == t.devices[d]
  {
    var w := FindWindow(t);
    assert WindowOk(t, w);
    if t.windows[w].isPlaying {
      StoppingKeeps(t, t.windows[w].deviceIdx);
    }
  }

  lemma {:induction false} DeviceChangeKeeps(t: Tables, d: int, e: Device)
    requires Consistent(t) && ValidDevice(t, d)
    requires e.isPlaying == t.devices[d].isPlaying && e.windowIdx == t.devices[d].windowIdx
    requires !e.isPlaying ==> !e.isPlayingAudio
    ensures Consistent(t.(devices := t.devices[d := e]))
  {
    var s := t.(devices := t.devices[d := e]);
    forall w | ValidWindow(s, w)
      ensures WindowOk(s, w)
    {
      assert WindowOk(t, w);
    }
    forall c | ValidDevice(s, c)
      ensures DeviceOk(s, c)
    {
      assert DeviceOk(t, c);
    }
  }

  lemma {:induction false} ApplyKeeps(t: Tables, op: Op)
    requires Consistent(t)
    ensures Consistent(Apply(t, op))
  {
    match op
    case AddDevice(key) => AddingKeeps(t, key);
    case AddWindow => AddingKeeps(t, "");
    case PlayVideo(d, accepted) =>
      if Playable(t, d) {
        FreeingStops(t);
        if accepted {
          AssigningKeeps(Freed(t), d, FindWindow(t));
        }
      }
    case StopVideo(d) => StoppingKeeps(t, d);
    case PlayAudio(w) =>
      if ValidWindow(t, w) && ValidDevice(t, t.windows[w].deviceIdx) && t.windows[w].isPlaying {
        var d := t.windows[w].deviceIdx;
        assert WindowOk(t, w);
        DeviceChangeKeeps(t, d, t.devices[d].(isPlayingAudio := true));
      }
    case StopAudio(w) =>
      if ValidWindow(t, w) && ValidDevice(t, t.windows[w].deviceIdx) {
        var d := t.windows[w].deviceIdx;
        DeviceChangeKeeps(t, d, t.devices[d].(isPlayingAudio := false));
      }
    case Status(key, status) =>
      var d := FirstWithKey(t.devices, key, 0);
      if d < |t.devices| {
        assert DeviceOk(t, d);
        DeviceChangeKeeps(t, d, t.devices[d].(isActive := status == "active"));
      }
  }

  /**
   Over every run from empty tables: a window plays iff it points at a device that plays
   in it, devices that play point back, and audio plays only with video.
   */
  lemma {:induction false} RunsAreConsistent(ops: seq<Op>)
    ensures var t := After(Tables([], []), ops);
            && Consistent(t)
            && (forall w :: ValidWindow(t, w) ==>
                  (t.windows[w].isPlaying <==>
                    ValidDevice(t, t.windows[w].deviceIdx)
                    && t.devices[t.windows[w].deviceIdx].windowIdx == w
                    && t.devices[t.windows[w].deviceIdx].isPlaying))
            && (forall d :: ValidDevice(t, d) ==>
                  (t.devices[d].isPlayingAudio ==> t.devices[d].isPlaying))
    decreases |ops|
  {
    var t := After(Tables([], []), ops);
    if ops == [] {
    } else {
      RunsAreConsistent(ops[..|ops| - 1]);
      ApplyKeeps(After(Tables([], []), ops[..|ops| - 1]), ops[|ops| - 1]);
    }
    forall w | ValidWindow(t, w)
      ensures WindowOk(t, w)
    {
    }
    forall d | ValidDevice(t, d)
      ensures DeviceOk(t, d)
    {
    }
  }

  // ---------------------------------------------------------------- counting

  lemma {:induction false} CountChange(devices: seq<Device>, d: nat, e: Device)
    requires d < |devices|
    ensures PlayingCount(devices[d := e])
            == PlayingCount(devices) + (if e.isPlaying then 1 else 0) - (if devices[d].isPlaying then 1 else 0)
    decreases |devices|
  {
    var n := |devices| - 1;
    if d < n {
      CountChange(devices[..n], d, e);
      assert devices[d := e][..n] == devices[..n][d := e];
    } else {
      assert devices[d := e][..n] == devices[..n];
    }
  }

  /**
   What `playVideo` does to the number of playing devices: one more if a window was idle,
   the same if window 0 was evicted, and one fewer if the eviction was in vain.
   */
  lemma {:induction false} PlayCounts(t: Tables, d: int, accepted: bool)
    requires Consistent(t) && Playable(t, d)
    ensures PlayingCount(Played(t, d, accepted).devices)
            == PlayingCount(t.devices) + (if accepted then 1 else 0) - (if HasIdle(t) then 0 else 1)
  {
    var w := FindWindow(t);
    FreeingStops(t);
    assert WindowOk(t, w);
    if t.windows[w].isPlaying {
      var evicted := t.windows[w].deviceIdx;
      CountChange(t.devices, evicted, Freed(t).devices[evicted]);
    }
    if accepted {
      CountChange(Freed(t).devices, d, Played(t, d, true).devices[d]);
    }
  }

  /** A successful play shows device `d` in the chosen window and disturbs nobody but the evicted device. */
  lemma {:induction false} PlayShows(t: Tables, d: int, e: int)
    requires Consistent(t) && Playable(t, d) && ValidDevice(t, e)
    ensures var s, w := Played(t, d, true), FindWindow(t);
            && s.devices[d].isPlaying && s.devices[d].windowIdx == w && s.windows[w] == Window(true, d)
            && (e != d && t.devices[e].windowIdx != w ==> s.devices[e] == t.devices[e])
            && (t.devices[e].windowIdx == w ==> !s.devices[e].isPlaying && s.devices[e].windowIdx == -1)
  {
    var w := FindWindow(t);
    FreeingStops(t);
    assert WindowOk(t, w) && DeviceOk(t, e) && DeviceOk(t, d);
  }

  /** Stopping what was just played on an idle window restores the tables. */
  lemma {:induction false} StopUndoesPlay(t: Tables, d: int)
    requires Consistent(t) && Playable(t, d) && HasIdle(t)
    ensures Stopped(Played(t, d, true), d) == t
  {
    var w, s := FindWindow(t), Played(t, d, true);
    assert WindowOk(t, w) && DeviceOk(t, d);
    assert Stopped(s, d).devices == t.devices;
    assert Stopped(s, d).windows == t.windows;
  }

  /** An active device that is not playing plays as soon as there is a window and its player accepts. */
  lemma {:induction false} ActivePlays(t: Tables, d: int)
    requires Consistent(t) && ValidDevice(t, d) && t.windows != []
    ensures t.devices[d].isActive && !t.devices[d].isPlaying ==>
              var s := Played(t, d, true);
              s.devices[d].isPlaying && ValidWindow(s, s.devices[d].windowIdx)
              && s.windows[s.devices[d].windowIdx].deviceIdx == d
    ensures !t.devices[d].isActive || t.devices[d].isPlaying ==>
              Played(t, d, true) == Played(t, d, false) == t
  {
    FreeingStops(t);
  }

  /** A device no table has, or no window at all: nothing changes. */
  lemma {:induction false} NowhereToPlay(t: Tables, d: int, accepted: bool)
    requires !ValidDevice(t, d) || t.windows == []
    ensures Played(t, d, accepted) == t
  {
  }

  /** A status message sets the activity of the first device with its key, and nothing else. */
  lemma {:induction false} StatusSets(t: Tables, key: string, status: string, d: nat)
    requires key != "" && status != ""
    requires d < |t.devices| && t.devices[d].key == key && forall k :: 0 <= k < d ==> t.devices[k].key != key
    ensures var s := StatusChanged(t, key, status);
            && s.windows == t.windows && |s.devices| == |t.devices|
            && (s.devices[d].isActive <==> status == "active")
            && s.devices[d] == t.devices[d].(isActive := s.devices[d].isActive)
            && forall e :: 0 <= e < |t.devices| && e != d ==> s.devices[e] == t.devices[e]
  {
    assert FirstWithKey(t.devices, key, 0) == d;
  }

  /** A message without a device or a status, or about an unknown device, changes nothing. */
  lemma {:induction false} StatusIgnored(t: Tables, key: string, status: string)
    requires key == "" || status == "" || forall d :: 0 <= d < |t.devices| ==> t.devices[d].key != key
    ensures StatusChanged(t, key, status) == t
  {
  }

  /** `getWindowIsPlayingAudio`. */
  predicate WindowAudio(t: Tables, w: int) {
    ValidWindow(t, w) && ValidDevice(t, t.windows[w].deviceIdx) && t.devices[t.windows[w].deviceIdx].isPlayingAudio
  }

  /** Switching the audio of a playing window switches that window's audio and no other's. */
  lemma {:induction false} AudioSwitches(t: Tables, w: int, v: int)
    requires Consistent(t)
    requires ValidWindow(t, w) && t.windows[w].isPlaying && ValidWindow(t, v)
    ensures WindowAudio(AudioOn(t, w), v) <==> v == w || WindowAudio(t, v)
    ensures WindowAudio(AudioOff(t, w), v) <==> v != w && WindowAudio(t, v)
  {
    assert WindowOk(t, w) && WindowOk(t, v);
  }

  // ---------------------------------------------------------------- the controller

  class MainCtrl {
    var devices: seq<Device>
    var windows: seq<Window>

    ghost function State(): Tables
      reads this
    {
      Tables(devices, windows)
    }

    ghost predicate Valid()
      reads this
    {
      Consistent(State())
    }

    constructor ()
      ensures Valid() && State() == Tables([], [])
    {
      devices, windows := [], [];
    }

    /** `found`: the server knows the device. */
    method AddDevice(key: string, found: bool) returns (idx: int)
      requires Valid()
      modifies this
      ensures Valid()
      ensures State() == if found then AddedDevice(old(State()), key) else old(State())
      ensures windows == old(windows)
      ensures devices == old(devices) + if found then [Device(key, false, false, false, -1)] else []
      ensures idx == if found then |old(devices)| else -1
    {
      AddingKeeps(State(), key);
      if !found {
        return -1;
      }
      devices := devices + [Device(key, false, false, false, -1)];
      idx := |devices| - 1;
    }

    method AddWindow() returns (idx: int)
      requires Valid()
      modifies this
      ensures Valid() && State() == AddedWindow(old(State())) && idx == |old(windows)|
      ensures devices == old(devices) && windows == old(windows) + [Window(false, -1)]
    {
      AddingKeeps(State(), "");
      windows := windows + [Window(false, -1)];
      idx := |windows| - 1;
    }

    method FindIdleWindow() returns (idx: int)
      ensures idx == FindWindow(State())
    {
      idx := -1;
      for i := 0 to |windows|
        invariant i == 0 ==> idx == -1
        invariant i > 0 ==> idx == 0
        invariant FirstIdle(windows, 0) == FirstIdle(windows, i)
      {
        idx := 0;
        if windows[i].isPlaying {
          continue;
        }
        idx := i;
        break;
      }
    }

    method StopVideo(deviceIdx: int)
      requires Valid()
      modifies this
      ensures Valid() && State() == Stopped(old(State()), deviceIdx)
    {
      StoppingKeeps(State(), deviceIdx);
      if deviceIdx < 0 || deviceIdx >= |devices| {
        return;
      }
      var w := devices[deviceIdx].windowIdx;
      if w < 0 || w >= |windows| {
        return;
      }
      windows := windows[w := Window(false, -1)];
      var stopped := devices[deviceIdx].(isPlaying := false, isPlayingAudio := false, windowIdx := -1);
      devices := devices[deviceIdx := stopped];
    }

    /** Returns the window on success; `accepted` is the answer of that window's player. */
    method PlayVideo(deviceIdx: int, accepted: bool) returns (windowIdx: int)
      requires Valid()
      modifies this
      ensures Valid()
      ensures State() == Played(old(State()), deviceIdx, accepted)
      ensures windowIdx == if Playable(old(State()), deviceIdx) && accepted then FindWindow(old(State())) else -1
    {
      ApplyKeeps(State(), Op.PlayVideo(deviceIdx, accepted));
      if deviceIdx < 0 || deviceIdx >= |devices| {
        return -1;
      }
      var device := devices[deviceIdx];
      if !device.isActive || device.isPlaying {
        return -1;
      }
      windowIdx := FindIdleWindow();
      if windowIdx == -1 {
        return -1;
      }
      FreeingStops(State());
      if windows[windowIdx].isPlaying {
        StopVideo(windows[windowIdx].deviceIdx);
      }
      if !accepted {
        return -1;
      }
      windows := windows[windowIdx := windows[windowIdx].(deviceIdx := deviceIdx)];
      windows := windows[windowIdx := windows[windowIdx].(isPlaying := true)];
      devices := devices[deviceIdx := devices[deviceIdx].(isPlaying := true)];
      devices := devices[deviceIdx := devices[deviceIdx].(windowIdx := windowIdx)];
      assert windows == Played(old(State()), deviceIdx, true).windows;
      assert devices == Played(old(State()), deviceIdx, true).devices;
    }

    method PlayAudio(windowIdx: int)
      requires Valid()
      modifies this
      ensures Valid() && State() == AudioOn(old(State()), windowIdx)
    {
      ApplyKeeps(State(), Op.PlayAudio(windowIdx));
      if windowIdx < 0 || windowIdx >= |windows| {
        return;
      }
      var window := windows[windowIdx];
      if window.deviceIdx < 0 || window.deviceIdx >= |devices| {
        return;
      }
      if window.isPlaying {
        devices := devices[window.deviceIdx := devices[window.deviceIdx].(isPlayingAudio := true)];
      }
    }

    method StopAudio(windowIdx: int)
      requires Valid()
      modifies this
      ensures Valid() && State() == AudioOff(old(State()), windowIdx)
    {
      ApplyKeeps(State(), Op.StopAudio(windowIdx));
      if windowIdx < 0 || windowIdx >= |windows| {
        return;
      }
      var window := windows[windowIdx];
      if window.deviceIdx < 0 || window.deviceIdx >= |devices| {
        return;
      }
      devices := devices[window.deviceIdx := devices[window.deviceIdx].(isPlayingAudio := false)];
    }

    /** A status message: the first device with the key becomes active or inactive. */
    method HandleStatus(deviceId: string, deviceStatus: string)
      requires Valid()
      modifies this
      ensures Valid() && State() == StatusChanged(old(State()), deviceId, deviceStatus)
    {
      ApplyKeeps(State(), Status(deviceId, deviceStatus));
      if deviceId != "" && deviceStatus != "" {
        for i := 0 to |devices|
          invariant State() == old(State())
          invariant FirstWithKey(devices, deviceId, 0) == FirstWithKey(devices, deviceId, i)
        {
          if devices[i].key == deviceId {
            devices := devices[i := devices[i].(isActive := deviceStatus == "active")];
            break;
          }
        }
      }
    }
  }
}
