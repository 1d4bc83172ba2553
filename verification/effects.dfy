/** What the monitor does to the outside world, as data: the image writes,
    detection-log lines, OS notifications, sounds and pauses that the
    `Camera` class of the monitor process issues. A run of the monitor is
    modelled as the list of these effects, in issue order. */
module Effects {
  import opened Wrappers

  /** The three sound files: `speak_text2` plays audio2.wav (no hands),
      `speak_text` plays audio3.wav (one hand), `speak_text3` plays audio.wav
      (incorrect posture). */
  datatype Cue = NoHandsCue | OneHandCue | IncorrectCue

  /** An OS notification as `plyer.notification.notify` receives it. */
  datatype Notification = Notification(title: string, body: string)

  datatype Effect =
    | SaveImage(name: string)          // cv2.imwrite of the frame into captured_images
    | DetectionLog(message: string)    // one record of the detection logger
    | Notify(note: Notification)       // an OS notification
    | PlayAudio(cue: Cue)              // winsound.PlaySound of a cue
    | Sleep(seconds: nat)              // time.sleep on the capture loop's thread
    | ReleaseCamera                    // camera.release() in stop()

  /** The values `f` picks out of `effs`, in order. */
  function Select<T>(effs: seq<Effect>, f: Effect -> Option<T>): (r: seq<T>)
    ensures |r| <= |effs|
  {
    if effs == [] then []
    else (if f(effs[0]).Some? then [f(effs[0]).value] else []) + Select(effs[1..], f)
  }

  /** Picking commutes with concatenation. */
  lemma {:induction false} SelectAppend<T>(a: seq<Effect>, b: seq<Effect>, f: Effect -> Option<T>)
    ensures Select(a + b, f) == Select(a, f) + Select(b, f)
    decreases |a|
  {
    if a != [] {
      assert (a + b)[0] == a[0];
      assert (a + b)[1..] == a[1..] + b;
      SelectAppend(a[1..], b, f);
    } else {
      assert a + b == b;
    }
  }

  function AsImage(e: Effect): Option<string> {
    if e.SaveImage? then Some(e.name) else None
  }

  function AsLogLine(e: Effect): Option<string> {
    if e.DetectionLog? then Some(e.message) else None
  }

  function AsNotification(e: Effect): Option<Notification> {
    if e.Notify? then Some(e.note) else None
  }

  function AsCue(e: Effect): Option<Cue> {
    if e.PlayAudio? then Some(e.cue) else None
  }

  function AsSleep(e: Effect): Option<nat> {
    if e.Sleep? then Some(e.seconds) else None
  }

  /** Names of the images written, in order. */
  function Images(effs: seq<Effect>): seq<string> {
    Select(effs, AsImage)
  }

  /** Messages written to the detection log, in order. */
  function LogLines(effs: seq<Effect>): seq<string> {
    Select(effs, AsLogLine)
  }

  /** OS notifications shown, in order. */
  function Notifications(effs: seq<Effect>): seq<Notification> {
    Select(effs, AsNotification)
  }

  /** Sounds played, in order. */
  function Cues(effs: seq<Effect>): seq<Cue> {
    Select(effs, AsCue)
  }

  /** Lengths of the pauses taken, in order. */
  function Sleeps(effs: seq<Effect>): seq<nat> {
    Select(effs, AsSleep)
  }

  /** The pause that follows every alert sound. */
  const AlertPause: nat := 3

  /** Every sound is immediately followed by the alert pause: the capture
      loop does not look at another frame until it has slept. */
  predicate PausesFollowCues(effs: seq<Effect>) {
    forall i :: 0 <= i < |effs| && effs[i].PlayAudio? ==> i + 1 < |effs| && effs[i + 1] == Sleep(AlertPause)
  }

  lemma PausesFollowCuesAppend(a: seq<Effect>, b: seq<Effect>)
    requires PausesFollowCues(a) && PausesFollowCues(b)
    ensures PausesFollowCues(a + b)
  {
    forall i | 0 <= i < |a + b| && (a + b)[i].PlayAudio?
      ensures i + 1 < |a + b| && (a + b)[i + 1] == Sleep(AlertPause)
    {
      if i < |a| {
        assert a[i].PlayAudio?;
        assert (a + b)[i + 1] == a[i + 1];
      } else {
        assert b[i - |a|].PlayAudio?;
        assert (a + b)[i + 1] == b[i + 1 - |a|];
      }
    }
  }
}
