/** Finding a camera and watching it: `Camera.initialize_camera`, which
    scans external camera indices until one opens, and the scheduled
    `check_camera_and_notify`. The device queries (is a USB camera listed,
    does index i open) are inputs; the device calls the scan makes are
    returned as events. */
module CameraDevice {
  import opened Wrappers
  import opened Effects

  /** A device call made while scanning. */
  datatype DeviceEvent =
    | Open(index: nat)      // cv2.VideoCapture(index, CAP_DSHOW)
    | Release(index: nat)   // camera.release() of an index that did not open
    | Wait(seconds: nat)    // time.sleep while no USB camera is listed

  /** The indices tried, lowest first: `range(1, 10)`. Index 0, the built-in
      camera, is never tried. */
  const FirstIndex: nat := 1
  const LastIndex: nat := 9

  /** The pause before looking for a USB camera again. */
  const RescanPause: nat := 5

  /** The outcome of trying indices: the index kept, if any, and the calls made. */
  datatype Probe = Probe(chosen: Option<nat>, events: seq<DeviceEvent>)

  /** The index loop from `i` on: open each index; keep the first that
      opens, releasing every earlier one (see `ProbeFromSpec`). */
  function ProbeFrom(i: nat, openable: set<nat>): (r: Probe)
    requires FirstIndex <= i <= LastIndex + 1
    ensures r.chosen.Some? ==> i <= r.chosen.value <= LastIndex
    decreases LastIndex + 1 - i
  {
    if i > LastIndex then Probe(None, [])
    else if i in openable then Probe(Some(i), [Open(i)])
    else
      var rest := ProbeFrom(i + 1, openable);
      Probe(rest.chosen, [Open(i), Release(i)] + rest.events)
  }

  /** The calls of the index loop written out by index: every index from
      `i` below `k` opened and at once released, one device at a time. */
  function OpenRelease(i: nat, k: nat): seq<DeviceEvent>
    decreases k - i
  {
    if i >= k then [] else [Open(i), Release(i)] + OpenRelease(i + 1, k)
  }

  /** The index kept is the lowest one from `i` on that opens, and there is
      none exactly when no index up to the last opens. The calls, in order:
      each failing index below the one kept (or every index, when none is
      kept) is opened and released before the next is opened, and then the
      kept index is opened. Every index up to the one kept (or the last) is
      opened, exactly the ones below it that fail are released, and no call
      waits. */
  lemma ProbeFromSpec(i: nat, openable: set<nat>)
    requires FirstIndex <= i <= LastIndex + 1
    ensures var r := ProbeFrom(i, openable);
      && (r.chosen.Some? ==> r.events == OpenRelease(i, r.chosen.value) + [Open(r.chosen.value)])
      && (r.chosen.None? ==> r.events == OpenRelease(i, LastIndex + 1))
      && (r.chosen.Some? ==> var k := r.chosen.value;
           && k in openable && (forall j :: i <= j < k ==> j !in openable))
      && (r.chosen.None? <==> forall j :: i <= j <= LastIndex ==> j !in openable)
      && (forall k: nat :: Open(k) in r.events <==>
           i <= k <= (if r.chosen.Some? then r.chosen.value else LastIndex))
      && (forall k: nat :: Release(k) in r.events <==>
           i <= k <= LastIndex && k !in openable && (r.chosen.Some? ==> k < r.chosen.value))
      && (forall e :: e in r.events ==> !e.Wait?)
  {
    ProbeChoice(i, openable);
    ProbeOrder(i, openable);
    ProbeOpens(i, openable);
    ProbeReleases(i, openable);
    ProbeNoWaits(i, openable);
  }

  /** The index kept is the lowest that opens; none when no index opens. */
  lemma {:induction false} ProbeChoice(i: nat, openable: set<nat>)
    requires FirstIndex <= i <= LastIndex + 1
    ensures var r := ProbeFrom(i, openable);
      && (r.chosen.Some? ==> var k := r.chosen.value;
           && k in openable && (forall j :: i <= j < k ==> j !in openable))
      && (r.chosen.None? <==> forall j :: i <= j <= LastIndex ==> j !in openable)
    decreases LastIndex + 1 - i
  {
    if i <= LastIndex && i !in openable {
      ProbeChoice(i + 1, openable);
    }
  }

  /** The calls in order: open-and-release pairs up to the index kept, then
      its opening. */
  lemma {:induction false} ProbeOrder(i: nat, openable: set<nat>)
    requires FirstIndex <= i <= LastIndex + 1
    ensures var r := ProbeFrom(i, openable);
      && (r.chosen.Some? ==> r.events == OpenRelease(i, r.chosen.value) + [Open(r.chosen.value)])
      && (r.chosen.None? ==> r.events == OpenRelease(i, LastIndex + 1))
    decreases LastIndex + 1 - i
  {
    if i > LastIndex {
      assert i == LastIndex + 1;
    } else if i in openable {
      assert OpenRelease(i, i) == [];
    } else {
      ProbeOrder(i + 1, openable);
      var rest := ProbeFrom(i + 1, openable);
      var end := if rest.chosen.Some? then rest.chosen.value else LastIndex + 1;
      var tail := if rest.chosen.Some? then [Open(rest.chosen.value)] else [];
      assert rest.events == OpenRelease(i + 1, end) + tail;
      assert OpenRelease(i, end) == [Open(i), Release(i)] + OpenRelease(i + 1, end);
      assert ProbeFrom(i, openable).events == [Open(i), Release(i)] + (OpenRelease(i + 1, end) + tail);
    }
  }

  /** The last index a probe opens: the one kept, or the last index. */
  function Reach(p: Probe): nat {
    if p.chosen.Some? then p.chosen.value else LastIndex
  }

  /** Every index from `i` up to the one kept (or the last) is opened. */
  lemma {:induction false} ProbeOpens(i: nat, openable: set<nat>)
    requires FirstIndex <= i <= LastIndex + 1
    ensures forall k: nat :: Open(k) in ProbeFrom(i, openable).events <==> i <= k <= Reach(ProbeFrom(i, openable))
    decreases LastIndex + 1 - i
  {
    if i <= LastIndex && i !in openable {
      ProbeOpens(i + 1, openable);
      ProbeOpensStep(i, openable);
    }
  }

  lemma ProbeOpensStep(i: nat, openable: set<nat>)
    requires FirstIndex <= i <= LastIndex && i !in openable
    requires forall k: nat :: Open(k) in ProbeFrom(i + 1, openable).events <==> i + 1 <= k <= Reach(ProbeFrom(i + 1, openable))
    ensures forall k: nat :: Open(k) in ProbeFrom(i, openable).events <==> i <= k <= Reach(ProbeFrom(i, openable))
  {
    ProbeStep(i, openable);
  }

  /** Exactly the indices below the one kept that fail to open are released. */
  lemma {:induction false} ProbeReleases(i: nat, openable: set<nat>)
    requires FirstIndex <= i <= LastIndex + 1
    ensures var r := ProbeFrom(i, openable);
      forall k: nat :: Release(k) in r.events <==>
        i <= k <= LastIndex && k !in openable && (r.chosen.Some? ==> k < r.chosen.value)
    decreases LastIndex + 1 - i
  {
    if i <= LastIndex && i !in openable {
      ProbeReleases(i + 1, openable);
      ProbeReleasesStep(i, openable);
    } else {
      ProbeReleasesBase(i, openable);
    }
  }

  /** Past the last index nothing is released, and when `i` opens it is
      kept before anything is released. */
  lemma ProbeReleasesBase(i: nat, openable: set<nat>)
    requires FirstIndex <= i <= LastIndex + 1 && (i > LastIndex || i in openable)
    ensures var r := ProbeFrom(i, openable);
      forall k: nat :: Release(k) in r.events <==>
        i <= k <= LastIndex && k !in openable && (r.chosen.Some? ==> k < r.chosen.value)
  {
  }

  lemma ProbeReleasesStep(i: nat, openable: set<nat>)
    requires FirstIndex <= i <= LastIndex && i !in openable
    requires var r := ProbeFrom(i + 1, openable);
      forall k: nat :: Release(k) in r.events <==>
        i + 1 <= k <= LastIndex && k !in openable && (r.chosen.Some? ==> k < r.chosen.value)
    ensures var r := ProbeFrom(i, openable);
      forall k: nat :: Release(k) in r.events <==>
        i <= k <= LastIndex && k !in openable && (r.chosen.Some? ==> k < r.chosen.value)
  {
    ProbeStep(i, openable);
  }

  /** The index loop never waits. */
  lemma {:induction false} ProbeNoWaits(i: nat, openable: set<nat>)
    requires FirstIndex <= i <= LastIndex + 1
    ensures forall e :: e in ProbeFrom(i, openable).events ==> !e.Wait?
    decreases LastIndex + 1 - i
  {
    if i <= LastIndex && i !in openable {
      ProbeNoWaits(i + 1, openable);
      ProbeStep(i, openable);
    }
  }

  /** An index that fails is opened and released before the rest are tried. */
  lemma ProbeStep(i: nat, openable: set<nat>)
    requires FirstIndex <= i <= LastIndex && i !in openable
    ensures var rest := ProbeFrom(i + 1, openable);
      && ProbeFrom(i, openable).chosen == rest.chosen
      && forall e :: e in ProbeFrom(i, openable).events <==> e == Open(i) || e == Release(i) || e in rest.events
  {
  }

  /** What one pass of `while self.running` finds: the flag, whether a USB
      camera is listed, and which indices would open. */
  datatype Round = Round(running: bool, usbPresent: bool, openable: set<nat>)

  datatype Outcome =
    | Acquired(index: nat)   // self.camera is set and start() runs
    | Cancelled              // running was false: the method returns with no camera
    | Searching              // still looping after the rounds given

  datatype Acquisition = Acquisition(outcome: Outcome, events: seq<DeviceEvent>)

  /** A round that ends the scan: the flag is off, or a USB camera is
      listed and some index opens. */
  predicate Settles(r: Round) {
    !r.running || (r.usbPresent && exists j :: FirstIndex <= j <= LastIndex && j in r.openable)
  }

  /** The device calls of one round that does not end the scan. */
  function RoundEvents(r: Round): seq<DeviceEvent> {
    if !r.usbPresent then [Wait(RescanPause)] else ProbeFrom(FirstIndex, r.openable).events
  }

  /** `initialize_camera` over the rounds given. Without a USB camera it
      waits five seconds and looks again; with one whose indices all fail
      it looks again at once. */
  function Acquire(rounds: seq<Round>): (a: Acquisition)
    ensures a.outcome.Acquired? ==> FirstIndex <= a.outcome.index <= LastIndex
    decreases |rounds|
  {
    if rounds == [] then Acquisition(Searching, [])
    else
      var r := rounds[0];
      if !r.running then Acquisition(Cancelled, [])
      else if !r.usbPresent then
        var rest := Acquire(rounds[1..]);
        Acquisition(rest.outcome, [Wait(RescanPause)] + rest.events)
      else
        var probe := ProbeFrom(FirstIndex, r.openable);
        if probe.chosen.Some? then Acquisition(Acquired(probe.chosen.value), probe.events)
        else
          var rest := Acquire(rounds[1..]);
          Acquisition(rest.outcome, probe.events + rest.events)
  }

  lemma AllAfterFirst(rounds: seq<Round>)
    requires rounds != [] && !Settles(rounds[0])
    ensures (forall n :: 0 <= n < |rounds| ==> !Settles(rounds[n]))
        <==> (forall n :: 0 <= n < |rounds[1..]| ==> !Settles(rounds[1..][n]))
  {
    if forall n :: 0 <= n < |rounds[1..]| ==> !Settles(rounds[1..][n]) {
      forall n | 0 <= n < |rounds|
        ensures !Settles(rounds[n])
      {
        if n > 0 {
          assert rounds[n] == rounds[1..][n - 1];
        }
      }
    }
  }

  /** One round that does not settle: its calls, then the rest of the scan. */
  lemma AcquireUnfold(rounds: seq<Round>)
    requires rounds != [] && !Settles(rounds[0])
    ensures Acquire(rounds)
         == Acquisition(Acquire(rounds[1..]).outcome, RoundEvents(rounds[0]) + Acquire(rounds[1..]).events)
  {
    var r := rounds[0];
    if r.usbPresent {
      ProbeChoice(FirstIndex, r.openable);
    }
  }

  /** The scan is still searching after the rounds given exactly when none
      of them settled it. */
  lemma {:induction false} AcquireSearching(rounds: seq<Round>)
    ensures Acquire(rounds).outcome.Searching? <==> forall n :: 0 <= n < |rounds| ==> !Settles(rounds[n])
    decreases |rounds|
  {
    if rounds != [] {
      var r := rounds[0];
      if Settles(r) {
        if r.running {
          ProbeChoice(FirstIndex, r.openable);
        }
      } else {
        AcquireSearching(rounds[1..]);
        AcquireUnfold(rounds);
        AllAfterFirst(rounds);
      }
    }
  }

  /** What a settling round decides on its own: a cleared flag cancels
      with no calls; otherwise the lowest index that opens is acquired,
      after the calls the index loop makes. */
  function Decision(r: Round): (d: Acquisition)
    requires Settles(r)
    ensures d.outcome != Searching
  {
    if !r.running then Acquisition(Cancelled, [])
    else
      ProbeChoice(FirstIndex, r.openable);
      var probe := ProbeFrom(FirstIndex, r.openable);
      Acquisition(Acquired(probe.chosen.value), probe.events)
  }

  /** The first round that settles decides the outcome, and the calls made
      are those of the rounds before it followed by those of the deciding
      round: nothing after it is looked at. A cleared flag cancels; a listed
      USB camera selects the lowest index that opens. */
  lemma {:induction false} FirstSettlingRoundDecides(pre: seq<Round>, r: Round, post: seq<Round>)
    requires forall n :: 0 <= n < |pre| ==> !Settles(pre[n])
    requires Settles(r)
    ensures Acquire(pre + ([r] + post)) == Acquisition(Decision(r).outcome, Acquire(pre).events + Decision(r).events)
    decreases |pre|
  {
    if pre == [] {
      SettlingRound(r, post);
    } else {
      var later := pre[1..];
      assert forall n :: 0 <= n < |later| ==> !Settles(later[n]) by {
        forall n | 0 <= n < |later|
          ensures later[n] == pre[n + 1]
        {
        }
      }
      FirstSettlingRoundDecides(later, r, post);
      PassOverRound(pre[0], later, [r] + post, Decision(r).outcome, Decision(r).events);
      assert pre == [pre[0]] + later;
      assert pre + ([r] + post) == [pre[0]] + (later + ([r] + post));
    }
  }

  /** A settling round, first in line, decides on its own. */
  lemma SettlingRound(r: Round, post: seq<Round>)
    requires Settles(r)
    ensures Acquire([] + ([r] + post)) == Acquisition(Decision(r).outcome, Acquire([]).events + Decision(r).events)
  {
    var rounds := [] + ([r] + post);
    assert rounds[0] == r;
    if r.running {
      ProbeChoice(FirstIndex, r.openable);
    }
  }

  /** A round that does not settle adds its calls in front of what the
      following rounds decide. */
  lemma PassOverRound(r: Round, later: seq<Round>, suffix: seq<Round>, outcome: Outcome, tail: seq<DeviceEvent>)
    requires !Settles(r)
    requires Acquire(later + suffix) == Acquisition(outcome, Acquire(later).events + tail)
    ensures Acquire([r] + (later + suffix)) == Acquisition(outcome, Acquire([r] + later).events + tail)
  {
    var lead := RoundEvents(r);
    calc {
      Acquire([r] + (later + suffix));
      == { AcquireCons(r, later + suffix); }
      Acquisition(Acquire(later + suffix).outcome, lead + Acquire(later + suffix).events);
      ==
      Acquisition(outcome, lead + (Acquire(later).events + tail));
      == { assert lead + (Acquire(later).events + tail) == (lead + Acquire(later).events) + tail; }
      Acquisition(outcome, (lead + Acquire(later).events) + tail);
      == { AcquireCons(r, later); }
      Acquisition(outcome, Acquire([r] + later).events + tail);
    }
  }

  /** `AcquireUnfold` for a list written as its first round and the rest. */
  lemma AcquireCons(r: Round, rest: seq<Round>)
    requires !Settles(r)
    ensures Acquire([r] + rest) == Acquisition(Acquire(rest).outcome, RoundEvents(r) + Acquire(rest).events)
  {
    var rounds := [r] + rest;
    assert rounds[0] == r && rounds[1..] == rest;
    AcquireUnfold(rounds);
  }

  /** The rounds before the scan settles that found no USB camera. */
  function UsbLessRounds(rounds: seq<Round>): nat {
    if rounds == [] || Settles(rounds[0]) then 0
    else (if rounds[0].usbPresent then 0 else 1) + UsbLessRounds(rounds[1..])
  }

  function WaitCount(events: seq<DeviceEvent>): nat {
    if events == [] then 0 else (if events[0].Wait? then 1 else 0) + WaitCount(events[1..])
  }

  lemma {:induction false} WaitCountAppend(a: seq<DeviceEvent>, b: seq<DeviceEvent>)
    ensures WaitCount(a + b) == WaitCount(a) + WaitCount(b)
    decreases |a|
  {
    if a == [] {
      assert a + b == b;
    } else {
      assert (a + b)[0] == a[0] && (a + b)[1..] == a[1..] + b;
      WaitCountAppend(a[1..], b);
    }
  }

  lemma {:induction false} NoWaitsWithout(events: seq<DeviceEvent>)
    requires forall e :: e in events ==> !e.Wait?
    ensures WaitCount(events) == 0
    decreases |events|
  {
    if events != [] {
      assert events[0] in events;
      assert forall e :: e in events[1..] ==> e in events;
      NoWaitsWithout(events[1..]);
    }
  }

  /** The scan sleeps five seconds exactly once per round, before it
      settles, in which no USB camera was listed, and never while trying
      indices. */
  lemma WaitsOnlyWithoutUsb(rounds: seq<Round>)
    ensures WaitCount(Acquire(rounds).events) == UsbLessRounds(rounds)
    ensures forall e :: e in Acquire(rounds).events && e.Wait? ==> e == Wait(5)
  {
    WaitsPerRound(rounds);
    WaitsAreRescans(rounds);
  }

  lemma {:induction false} WaitsPerRound(rounds: seq<Round>)
    ensures WaitCount(Acquire(rounds).events) == UsbLessRounds(rounds)
    decreases |rounds|
  {
    if rounds != [] {
      var r := rounds[0];
      if Settles(r) {
        SettledWaits(r, rounds[1..]);
        assert rounds == [r] + rounds[1..];
      } else {
        var rest := rounds[1..];
        WaitsPerRound(rest);
        calc {
          WaitCount(Acquire(rounds).events);
          == { AcquireUnfold(rounds); }
          WaitCount(RoundEvents(r) + Acquire(rest).events);
          == { WaitCountAppend(RoundEvents(r), Acquire(rest).events); }
          WaitCount(RoundEvents(r)) + WaitCount(Acquire(rest).events);
          == { RoundWaits(r); }
          (if r.usbPresent then 0 else 1) + UsbLessRounds(rest);
        }
      }
    }
  }

  /** Every wait of the scan is the five-second rescan pause. */
  lemma {:induction false} WaitsAreRescans(rounds: seq<Round>)
    ensures forall e :: e in Acquire(rounds).events && e.Wait? ==> e == Wait(5)
    decreases |rounds|
  {
    if rounds != [] {
      var r := rounds[0];
      if !r.running {
      } else if r.usbPresent {
        ProbeNoWaits(FirstIndex, r.openable);
        if !Settles(r) {
          WaitsAreRescans(rounds[1..]);
          AcquireUnfold(rounds);
        } else {
          ProbeChoice(FirstIndex, r.openable);
        }
      } else {
        WaitsAreRescans(rounds[1..]);
        AcquireUnfold(rounds);
      }
    }
  }

  /** A round that does not settle waits once without a USB camera and
      never with one. */
  lemma RoundWaits(r: Round)
    ensures WaitCount(RoundEvents(r)) == if r.usbPresent then 0 else 1
  {
    if r.usbPresent {
      ProbeNoWaits(FirstIndex, r.openable);
      NoWaitsWithout(RoundEvents(r));
    } else {
      assert RoundEvents(r)[1..] == [];
    }
  }

  /** A settling round, first in line, does not wait. */
  lemma SettledWaits(r: Round, post: seq<Round>)
    requires Settles(r)
    ensures WaitCount(Acquire([r] + post).events) == 0
  {
    SettlingRound(r, post);
    assert [] + ([r] + post) == [r] + post;
    if r.running {
      ProbeNoWaits(FirstIndex, r.openable);
      NoWaitsWithout(Decision(r).events);
    }
  }

  /** With only index 4 able to open, indices 1 to 3 are opened and
      released and index 4 is kept. */
  lemma OnlyIndexFourOpens()
    ensures ProbeFrom(FirstIndex, {4}) == Probe(Some(4), [Open(1), Release(1), Open(2), Release(2), Open(3), Release(3), Open(4)])
  {
  }

  // ------------------------------------------------------------ health check

  /** `self.camera`: not yet set, or a capture object that is or is not open. */
  datatype CameraHandle = NoCamera | Capture(index: nat, isOpen: bool)

  /** The notification `check_camera_and_notify` shows through `cam_notif`,
      which does not consult `notifications_enabled`. */
  const MissingCameraNote: Notification := Notification("No USB camera detected.", "Please insert an external camera.")

  datatype Health = Health(notes: seq<Notification>, flag: bool)

  /** One scheduled check: with no usable camera, notify and set
      `notification_flag`; otherwise do nothing. */
  function HealthCheck(cam: CameraHandle, flag: bool): (h: Health)
    ensures h.notes == (if cam.NoCamera? || !cam.isOpen then [MissingCameraNote] else [])
    ensures h.flag == (flag || cam.NoCamera? || !cam.isOpen)
  {
    if cam.NoCamera? || !cam.isOpen then Health([MissingCameraNote], true)
    else Health([], flag)
  }

  /** The checks the scheduler runs, one per camera state observed: one
      notification per check without a usable camera, and the flag set
      once any check found none. */
  function HealthChecks(cams: seq<CameraHandle>, flag: bool): (h: Health)
    ensures |h.notes| == MissingCount(cams)
    ensures h.flag == (flag || MissingCount(cams) > 0)
    decreases |cams|
  {
    if cams == [] then Health([], flag)
    else
      var first := HealthCheck(cams[0], flag);
      var rest := HealthChecks(cams[1..], first.flag);
      Health(first.notes + rest.notes, rest.flag)
  }

  function MissingCount(cams: seq<CameraHandle>): nat {
    if cams == [] then 0
    else (if cams[0].NoCamera? || !cams[0].isOpen then 1 else 0) + MissingCount(cams[1..])
  }

  /** The warning is not latched: every check that finds no usable camera
      notifies, whatever `notification_flag` holds, so n such checks show
      n identical notifications. */
  lemma {:induction false} HealthChecksNotLatched(cams: seq<CameraHandle>, flag: bool, other: bool)
    ensures |HealthChecks(cams, flag).notes| == MissingCount(cams)
    ensures forall i :: 0 <= i < |HealthChecks(cams, flag).notes| ==> HealthChecks(cams, flag).notes[i] == MissingCameraNote
    ensures HealthChecks(cams, flag).notes == HealthChecks(cams, other).notes
    decreases |cams|
  {
    if cams != [] {
      var first := HealthCheck(cams[0], flag);
      HealthChecksNotLatched(cams[1..], first.flag, HealthCheck(cams[0], other).flag);
      var rest := HealthChecks(cams[1..], first.flag);
      forall i | 0 <= i < |first.notes + rest.notes|
        ensures (first.notes + rest.notes)[i] == MissingCameraNote
      {
        if i >= |first.notes| {
          assert (first.notes + rest.notes)[i] == rest.notes[i - |first.notes|];
        }
      }
    }
  }
}
