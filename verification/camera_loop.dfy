/** `Camera.start` and `Camera.stop`: the capture loop as a run over a finite
    prefix of its iterations. What each iteration observes (no usable
    camera, a failed read, or a captured frame with the hands the detector
    found, the clock reading, the notification flag and the key pressed) is
    an input. The loop records what each iteration did; the effects it
    issues are rendered from that record. */
module CameraLoop {
  import opened Landmarks
  import opened Effects
  import opened Detection

  /** What one pass of `while self.running` observes. */
  datatype Tick =
    | CameraMissing      // `self.camera` is None or not opened
    | ReadFailed         // `camera.read()` returned no frame
    | Captured(hands: seq<Hand>, stamp: Reading, enabled: bool, key: nat)
      // a frame: the detector's hands, `datetime.now()`, `notifications_enabled`,
      // and `cv2.waitKey(1) & 0xFF`

  /** What one pass did: waited for a camera, judged a frame, or broke out
      of the loop (after which `stop` runs). */
  datatype Iteration =
    | Waited
    | Judged(verdict: Verdict, stamp: Reading, enabled: bool)
    | Stopped

  /** A judged frame: its verdict, the clock reading taken for it and the
      notification flag read for it. */
  datatype Frame = Frame(verdict: Verdict, stamp: Reading, enabled: bool)

  /** The pause taken when there is no usable camera. */
  const RetryPause: nat := 1

  /** The pass that observing `t` makes. */
  function PassOf(t: Tick, classify: Classifier): Iteration {
    match t
    case CameraMissing => Waited
    case ReadFailed => Stopped
    case Captured(hands, stamp, enabled, _) => Judged(VerdictOf(FeatureVector(hands), classify), stamp, enabled)
  }

  /** The loop body, pass after pass. A missing camera means a pause and no
      read; a failed read breaks out of the loop; a captured frame is
      judged, and the key read afterwards is not looked at. Every tick gets
      its pass until a read fails, and then the break is the last pass. */
  function Loop(ticks: seq<Tick>, classify: Classifier): (its: seq<Iteration>)
    ensures |its| <= |ticks|
    ensures ReadFailed !in ticks ==> |its| == |ticks|
    ensures ReadFailed in ticks ==> its != [] && its[|its| - 1] == Stopped
    decreases |ticks|
  {
    if ticks == [] then []
    else if ticks[0].ReadFailed? then [Stopped]
    else
      assert ticks == [ticks[0]] + ticks[1..];
      [PassOf(ticks[0], classify)] + Loop(ticks[1..], classify)
  }

  /** A tick other than a failed read adds its pass and the loop goes on. */
  lemma LoopCons(t: Tick, rest: seq<Tick>, classify: Classifier)
    requires !t.ReadFailed?
    ensures Loop([t] + rest, classify) == [PassOf(t, classify)] + Loop(rest, classify)
  {
    assert ([t] + rest)[1..] == rest;
  }

  /** What one pass does to the outside world: a one-second sleep, the
      frame's image, log line, alert and pause, or `stop`'s release of the
      camera. */
  function IterationEffects(it: Iteration): seq<Effect> {
    match it
    case Waited => [Sleep(RetryPause)]
    case Judged(v, stamp, enabled) => FrameEffects(v, stamp, enabled)
    case Stopped => [ReleaseCamera]
  }

  /** The effects of a run, pass after pass. */
  function RunEffects(its: seq<Iteration>): seq<Effect> {
    if its == [] then [] else IterationEffects(its[0]) + RunEffects(its[1..])
  }

  /** The frame one pass judged, if any. */
  function IterationFrames(it: Iteration): seq<Frame> {
    if it.Judged? then [Frame(it.verdict, it.stamp, it.enabled)] else []
  }

  /** The frames a run judged, in order. */
  function JudgedFrames(its: seq<Iteration>): seq<Frame> {
    if its == [] then [] else IterationFrames(its[0]) + JudgedFrames(its[1..])
  }

  function IterationWaits(it: Iteration): nat {
    if it.Waited? then 1 else 0
  }

  /** The number of passes of a run that waited for a camera. */
  function Waits(its: seq<Iteration>): nat {
    if its == [] then 0 else IterationWaits(its[0]) + Waits(its[1..])
  }

  /** What the loop has to judge, read straight off the ticks: every frame
      captured before the first failed read, with the verdict its hands
      earn, in order. */
  function CapturedFrames(ticks: seq<Tick>, classify: Classifier): seq<Frame> {
    if ticks == [] || ticks[0].ReadFailed? then []
    else if ticks[0].Captured? then
      [Frame(VerdictOf(FeatureVector(ticks[0].hands), classify), ticks[0].stamp, ticks[0].enabled)]
      + CapturedFrames(ticks[1..], classify)
    else CapturedFrames(ticks[1..], classify)
  }

  /** The number of ticks without a usable camera before the first failed
      read. */
  function MissingBeforeFailure(ticks: seq<Tick>): nat {
    if ticks == [] || ticks[0].ReadFailed? then 0
    else (if ticks[0].CameraMissing? then 1 else 0) + MissingBeforeFailure(ticks[1..])
  }

  /** A run breaks out of the loop at most once, as its last pass. */
  predicate StopsLast(its: seq<Iteration>) {
    forall i :: 0 <= i < |its| && its[i].Stopped? ==> i == |its| - 1
  }

  /** The loop stops exactly at the first failed read: the run holds a
      `Stopped` pass if and only if a read failed, and only as its last
      pass. */
  lemma {:induction false} LoopOutcome(ticks: seq<Tick>, classify: Classifier)
    ensures Stopped in Loop(ticks, classify) <==> ReadFailed in ticks
    ensures StopsLast(Loop(ticks, classify))
    decreases |ticks|
  {
    if ticks != [] {
      assert ticks == [ticks[0]] + ticks[1..];
      LoopOutcome(ticks[1..], classify);
      var its := Loop(ticks, classify);
      if !ticks[0].ReadFailed? {
        var rest := Loop(ticks[1..], classify);
        assert its == [its[0]] + rest;
        assert its[1..] == rest;
        forall i | 0 <= i < |its| && its[i].Stopped?
          ensures i == |its| - 1
        {
          assert i > 0 && its[i] == rest[i - 1];
        }
      }
    }
  }

  /** The loop judges exactly the frames captured before the first failed
      read, in order, each with the verdict of its hands, its clock reading
      and its notification flag; and it waits once per tick without a
      camera before that read. */
  lemma {:induction false} LoopFrames(ticks: seq<Tick>, classify: Classifier)
    ensures JudgedFrames(Loop(ticks, classify)) == CapturedFrames(ticks, classify)
    ensures Waits(Loop(ticks, classify)) == MissingBeforeFailure(ticks)
    decreases |ticks|
  {
    if ticks != [] {
      var its := Loop(ticks, classify);
      if ticks[0].ReadFailed? {
        assert its == [Stopped] && its[1..] == [];
      } else {
        LoopFrames(ticks[1..], classify);
        assert its[1..] == Loop(ticks[1..], classify);
      }
    }
  }

  /** A failed read ends the loop for good: nothing after it is observed,
      and the run is the run up to it followed by the break. */
  lemma {:induction false} LoopStopsAtFailure(pre: seq<Tick>, post: seq<Tick>, classify: Classifier)
    requires ReadFailed !in pre
    ensures Loop(pre + [ReadFailed] + post, classify) == Loop(pre, classify) + [Stopped]
    decreases |pre|
  {
    var ticks := pre + [ReadFailed] + post;
    if pre == [] {
      assert ticks[0] == ReadFailed;
    } else {
      var rest := pre[1..] + [ReadFailed] + post;
      assert ticks == [pre[0]] + rest && pre == [pre[0]] + pre[1..];
      assert !pre[0].ReadFailed? by {
        assert pre[0] in pre;
      }
      LoopStopsAtFailure(pre[1..], post, classify);
      LoopCons(pre[0], rest, classify);
      LoopCons(pre[0], pre[1..], classify);
    }
  }

  /** Two tick lists that differ at most in the keys pressed. */
  predicate SameButKeys(a: seq<Tick>, b: seq<Tick>) {
    && |a| == |b|
    && forall i :: 0 <= i < |a| ==>
         if a[i].Captured? then
           b[i].Captured? && a[i].hands == b[i].hands && a[i].stamp == b[i].stamp && a[i].enabled == b[i].enabled
         else b[i] == a[i]
  }

  /** Pressing 'q' (or any key) does not change what the loop does. */
  lemma {:induction false} LoopIgnoresKeys(a: seq<Tick>, b: seq<Tick>, classify: Classifier)
    requires SameButKeys(a, b)
    ensures Loop(a, classify) == Loop(b, classify)
    decreases |a|
  {
    if a != [] {
      assert SameButKeys(a[1..], b[1..]) by {
        forall i | 0 <= i < |a[1..]|
          ensures a[1..][i] == a[i + 1] && b[1..][i] == b[i + 1]
        {
        }
      }
      LoopIgnoresKeys(a[1..], b[1..], classify);
      assert a[0].Captured? <==> b[0].Captured?;
    }
  }

  // ------------------------------------------------------ what a frame leaves

  /** `f` of each frame, one after the other. */
  function Gather<T>(frames: seq<Frame>, f: Frame -> seq<T>): seq<T> {
    if frames == [] then [] else f(frames[0]) + Gather(frames[1..], f)
  }

  /** A frame is saved as an image named after its clock reading exactly
      when its verdict is logged. */
  function ImageOf(fr: Frame): seq<string> {
    if LogMessage(fr.verdict).Some? then [ImageName(ImagePrefix, fr.stamp)] else []
  }

  /** The detection-log message of a frame, if its verdict is logged. */
  function LineOf(fr: Frame): seq<string> {
    if LogMessage(fr.verdict).Some? then [LogMessage(fr.verdict).value] else []
  }

  /** The notification of a frame: only for an alerting verdict judged with
      notifications enabled. */
  function NoteOf(fr: Frame): seq<Notification> {
    if fr.enabled && AlertOf(fr.verdict).Some? then [AlertOf(fr.verdict).value.note] else []
  }

  /** The sound of a frame, for an alerting verdict whatever the flag. */
  function CueOf(fr: Frame): seq<Cue> {
    if AlertOf(fr.verdict).Some? then [AlertOf(fr.verdict).value.cue] else []
  }

  /** How the effects of a run relate to the frames it judged and the
      passes it waited: the images named after the logged frames' readings,
      their log lines, the notifications of the alerts judged with the flag
      on and the sounds of all alerts, each in frame order; each sound
      followed by the alert pause, one retry pause per wait, and no other
      pause; and the camera released once exactly when the loop has
      stopped, as the very last effect. */
  predicate Coherent(stopped: bool, effects: seq<Effect>, frames: seq<Frame>, waits: nat) {
    && Images(effects) == Gather(frames, ImageOf)
    && LogLines(effects) == Gather(frames, LineOf)
    && Notifications(effects) == Gather(frames, NoteOf)
    && Cues(effects) == Gather(frames, CueOf)
    && PausesFollowCues(effects)
    && multiset(Sleeps(effects))[AlertPause] == |Cues(effects)|
    && multiset(Sleeps(effects))[RetryPause] == waits
    && |Sleeps(effects)| == |Cues(effects)| + waits
    && multiset(effects)[ReleaseCamera] == (if stopped then 1 else 0)
    && (stopped ==> effects != [] && effects[|effects| - 1] == ReleaseCamera)
  }

  lemma LastOfAppend(a: seq<Effect>, b: seq<Effect>)
    ensures b != [] ==> a + b != [] && (a + b)[|a + b| - 1] == b[|b| - 1]
  {
  }

  lemma {:induction false} GatherAppend<T>(a: seq<Frame>, b: seq<Frame>, f: Frame -> seq<T>)
    ensures Gather(a + b, f) == Gather(a, f) + Gather(b, f)
    decreases |a|
  {
    if a == [] {
      assert a + b == b;
    } else {
      assert (a + b)[0] == a[0] && (a + b)[1..] == a[1..] + b;
      GatherAppend(a[1..], b, f);
    }
  }

  lemma GatherOne<T>(fr: Frame, f: Frame -> seq<T>)
    ensures Gather([fr], f) == f(fr)
  {
    assert [fr][1..] == [];
  }

  /** A coherent run that has not stopped, followed by a coherent run, is
      a coherent run. */
  lemma CoherentAppend(a: seq<Effect>, fa: seq<Frame>, wa: nat, stopped: bool, b: seq<Effect>, fb: seq<Frame>, wb: nat)
    requires Coherent(false, a, fa, wa) && Coherent(stopped, b, fb, wb)
    ensures Coherent(stopped, a + b, fa + fb, wa + wb)
  {
    SelectAllAppend(a, b);
    GatherAppend(fa, fb, ImageOf);
    GatherAppend(fa, fb, LineOf);
    GatherAppend(fa, fb, NoteOf);
    GatherAppend(fa, fb, CueOf);
    PausesFollowCuesAppend(a, b);
    LastOfAppend(a, b);
  }

  lemma WaitCoherent()
    ensures Coherent(false, IterationEffects(Waited), [], 1)
  {
    var e := [Sleep(RetryPause)];
    ProjectOne(Sleep(RetryPause));
    assert Images(e) == [] && LogLines(e) == [] && Notifications(e) == [] && Cues(e) == [];
    assert |Sleeps(e)| == 1 && ReleaseCamera !in e;
  }

  /** Without a usable camera a pass only sleeps the retry pause, judges
      nothing, and the loop goes on with the next tick. */
  lemma MissingCameraPass(ticks: seq<Tick>, classify: Classifier)
    ensures Loop([CameraMissing] + ticks, classify) == [Waited] + Loop(ticks, classify)
    ensures IterationEffects(Waited) == [Sleep(1)]
    ensures Coherent(false, IterationEffects(Waited), [], 1)
  {
    LoopCons(CameraMissing, ticks, classify);
    WaitCoherent();
  }

  /** A judged frame is coherent with itself. */
  lemma FrameCoherent(fr: Frame)
    ensures Coherent(false, FrameEffects(fr.verdict, fr.stamp, fr.enabled), [fr], 0)
  {
    GatherOne(fr, ImageOf);
    GatherOne(fr, LineOf);
    GatherOne(fr, NoteOf);
    GatherOne(fr, CueOf);
  }

  lemma RunUnfold(its: seq<Iteration>)
    requires its != []
    ensures RunEffects(its) == IterationEffects(its[0]) + RunEffects(its[1..])
    ensures JudgedFrames(its) == IterationFrames(its[0]) + JudgedFrames(its[1..])
    ensures Waits(its) == IterationWaits(its[0]) + Waits(its[1..])
  {
  }

  /** A pass that did not break out of the loop is coherent on its own. */
  lemma PassCoherent(it: Iteration)
    requires !it.Stopped?
    ensures Coherent(false, IterationEffects(it), IterationFrames(it), IterationWaits(it))
  {
    match it
    case Waited => WaitCoherent();
    case Judged(v, stamp, enabled) => FrameCoherent(Frame(v, stamp, enabled));
  }

  /** The break out of the loop runs `stop`, whose only effect is the
      release of the camera: it judges nothing and waits for nothing. */
  lemma StopPass()
    ensures RunEffects([Stopped]) == [ReleaseCamera]
    ensures JudgedFrames([Stopped]) == [] && Waits([Stopped]) == 0
    ensures Coherent(true, RunEffects([Stopped]), [], 0)
  {
    var its := [Stopped];
    assert its[1..] == [];
    RunUnfold(its);
    assert RunEffects(its) == [ReleaseCamera] + [];
    ReleaseCoherent();
  }

  lemma ReleaseCoherent()
    ensures Coherent(true, [ReleaseCamera], [], 0)
  {
    ReleaseAlone();
    assert multiset([ReleaseCamera]) == multiset{ReleaseCamera};
  }

  /** The release writes, shows, plays and sleeps nothing. */
  lemma ReleaseAlone()
    ensures Images([ReleaseCamera]) == [] && LogLines([ReleaseCamera]) == []
    ensures Notifications([ReleaseCamera]) == [] && Cues([ReleaseCamera]) == [] && Sleeps([ReleaseCamera]) == []
  {
    ProjectOne(ReleaseCamera);
  }

  lemma StopsLastTail(its: seq<Iteration>)
    requires its != [] && !its[0].Stopped? && StopsLast(its)
    ensures StopsLast(its[1..])
    ensures Stopped in its <==> Stopped in its[1..]
  {
    var rest := its[1..];
    forall i | 0 <= i < |rest| && rest[i].Stopped?
      ensures i == |rest| - 1
    {
      assert its[i + 1] == rest[i];
    }
    assert its == [its[0]] + rest;
  }

  /** Every run that breaks out at most once, last, is coherent with the
      frames it judged and the passes it waited. */
  lemma {:induction false} RunCoherent(its: seq<Iteration>)
    requires StopsLast(its)
    ensures Coherent(Stopped in its, RunEffects(its), JudgedFrames(its), Waits(its))
    decreases |its|
  {
    if its == [] {
    } else if its[0].Stopped? {
      assert its == [Stopped];
      StopPass();
    } else {
      var rest := its[1..];
      StopsLastTail(its);
      RunCoherent(rest);
      RunUnfold(its);
      PassCoherent(its[0]);
      CoherentAppend(IterationEffects(its[0]), IterationFrames(its[0]), IterationWaits(its[0]),
                     Stopped in rest, RunEffects(rest), JudgedFrames(rest), Waits(rest));
    }
  }

  /** Where a run of `start` ends up: `running` after the ticks given, the
      effects issued and every frame judged, in order. */
  datatype LoopResult = LoopResult(running: bool, effects: seq<Effect>, frames: seq<Frame>)

  /** `start` followed, once the loop ends, by `stop`. With `running`
      already false the loop body never runs and `stop` follows at once,
      releasing the camera if there is one. Otherwise the run is still
      running exactly when no read failed, judged every frame captured
      before the first failed read, and its effects are coherent with those
      frames and with the ticks that found no camera. */
  function Start(running: bool, hasCamera: bool, ticks: seq<Tick>, classify: Classifier): (r: LoopResult)
    ensures !running ==> !r.running && r.frames == [] && (r.effects == [ReleaseCamera] <==> hasCamera)
    ensures !running && !hasCamera ==> r.effects == []
    ensures running ==> (r.running <==> ReadFailed !in ticks)
    ensures running ==> r.frames == CapturedFrames(ticks, classify)
    ensures running ==> Coherent(!r.running, r.effects, r.frames, MissingBeforeFailure(ticks))
  {
    if running then
      var its := Loop(ticks, classify);
      LoopOutcome(ticks, classify);
      LoopFrames(ticks, classify);
      RunCoherent(its);
      LoopResult(Stopped !in its, RunEffects(its), JudgedFrames(its))
    else LoopResult(false, if hasCamera then [ReleaseCamera] else [], [])
  }

  /** With notifications disabled on every frame, a run shows no OS
      notification at all, though its sounds and pauses still happen. */
  lemma {:induction false} RunQuietWhenDisabled(its: seq<Iteration>)
    requires forall i :: 0 <= i < |its| && its[i].Judged? ==> !its[i].enabled
    ensures Notifications(RunEffects(its)) == []
    decreases |its|
  {
    if its != [] {
      var rest := its[1..];
      assert forall i :: 0 <= i < |rest| && rest[i].Judged? ==> !rest[i].enabled by {
        forall i | 0 <= i < |rest|
          ensures rest[i] == its[i + 1]
        {
        }
      }
      RunQuietWhenDisabled(rest);
      calc {
        Notifications(RunEffects(its));
        == { RunUnfold(its); }
        Notifications(IterationEffects(its[0]) + RunEffects(rest));
        == { SelectAllAppend(IterationEffects(its[0]), RunEffects(rest)); }
        Notifications(IterationEffects(its[0])) + Notifications(RunEffects(rest));
        == { PassQuiet(its[0]); }
        [];
      }
    }
  }

  /** A pass shows a notification only for a frame judged with the flag on. */
  lemma PassQuiet(it: Iteration)
    requires it.Judged? ==> !it.enabled
    ensures Notifications(IterationEffects(it)) == []
  {
    match it
    case Waited => ProjectOne(Sleep(RetryPause));
    case Stopped => ProjectOne(ReleaseCamera);
    case Judged(_, _, _) =>
  }

  /** The loop's passes carry the notification flag of the frame they judged. */
  lemma {:induction false} LoopKeepsFlags(ticks: seq<Tick>, classify: Classifier)
    requires forall i :: 0 <= i < |ticks| && ticks[i].Captured? ==> !ticks[i].enabled
    ensures forall i :: 0 <= i < |Loop(ticks, classify)| && Loop(ticks, classify)[i].Judged? ==> !Loop(ticks, classify)[i].enabled
    decreases |ticks|
  {
    if ticks != [] && !ticks[0].ReadFailed? {
      var rest := ticks[1..];
      assert forall i :: 0 <= i < |rest| && rest[i].Captured? ==> !rest[i].enabled by {
        forall i | 0 <= i < |rest|
          ensures rest[i] == ticks[i + 1]
        {
        }
      }
      LoopKeepsFlags(rest, classify);
      var its := Loop(ticks, classify);
      assert its[1..] == Loop(rest, classify);
      forall i | 0 <= i < |its| && its[i].Judged?
        ensures !its[i].enabled
      {
        if i > 0 {
          assert its[i] == Loop(rest, classify)[i - 1];
        }
      }
    }
  }

  /** With notifications disabled on every frame, `start` shows no OS
      notification. */
  lemma StartQuietWhenDisabled(running: bool, hasCamera: bool, ticks: seq<Tick>, classify: Classifier)
    requires forall i :: 0 <= i < |ticks| && ticks[i].Captured? ==> !ticks[i].enabled
    ensures Notifications(Start(running, hasCamera, ticks, classify).effects) == []
  {
    if running {
      LoopKeepsFlags(ticks, classify);
      RunQuietWhenDisabled(Loop(ticks, classify));
    } else {
      ProjectOne(ReleaseCamera);
    }
  }

  /** A frame whose classification fails, or whose feature list has an
      unexpected length, leaves no trace: no image, no log line, no alert,
      no pause. Every other frame leaves one. */
  lemma SilentFrames(v: Verdict, t: Reading, enabled: bool)
    ensures FrameEffects(v, t, enabled) == [] <==> v.ClassifierFailed? || v.UnexpectedShape?
  {
    if v.ClassifierFailed? || v.UnexpectedShape? {
      UnjudgedFrameSilent(v, t, enabled);
    } else {
      JudgedFrameHeard(v, t, enabled);
    }
  }

  lemma UnjudgedFrameSilent(v: Verdict, t: Reading, enabled: bool)
    requires v.ClassifierFailed? || v.UnexpectedShape?
    ensures FrameEffects(v, t, enabled) == []
  {
    assert SaveAndLog(v, t) == [];
    assert AlertEffects(AlertOf(v), enabled) == [];
  }

  lemma JudgedFrameHeard(v: Verdict, t: Reading, enabled: bool)
    requires !(v.ClassifierFailed? || v.UnexpectedShape?)
    ensures FrameEffects(v, t, enabled) != []
  {
    assert LogLines(FrameEffects(v, t, enabled)) != [];
  }
}
