/** One frame of `Camera.start`: the verdict drawn from the length of the
    feature list (and, for two hands, from the posture classifier), and what
    the loop then does: `save_image_and_log` (image file plus detection-log
    record) and the alert thread (notification plus sound) followed by a
    three-second sleep. Also the two time-stamped texts the frame leaves
    behind: the image file name and the detection-log record. */
module Detection {
  import opened Wrappers
  import opened Text
  import opened Landmarks
  import opened Effects

  // ---------------------------------------------------------------- verdict

  datatype Verdict =
    | NoHands
    | OneHand
    | CorrectPosture
    | IncorrectPosture
    | ClassifierFailed            // predict_proba raised; caught, frame dropped
    | UnexpectedShape(length: nat) // any other feature-list length

  /** The posture model: `predict_proba(...)[0, 1]` for the 42-entry row, or
      `None` when the call raises. */
  type Classifier = seq<Coord> -> Option<real>

  /** Probabilities strictly above this mean correct posture. */
  const Threshold: real := 0.5

  /** The verdict on a frame's feature list. The length alone decides
      every verdict but those of a 42-entry list, which the classifier's
      answer decides. */
  function VerdictOf(features: seq<Coord>, classify: Classifier): (v: Verdict)
    ensures v == NoHands <==> |features| == 0
    ensures v == OneHand <==> |features| == 21
    ensures v in {CorrectPosture, IncorrectPosture, ClassifierFailed} <==> |features| == 42
    ensures v.UnexpectedShape? <==> |features| !in {0, 21, 42}
    ensures v.UnexpectedShape? ==> v.length == |features|
  {
    if |features| == 0 then NoHands
    else if |features| == 21 then OneHand
    else if |features| == 42 then
      match classify(features)
      case None => ClassifierFailed
      case Some(p) => if p > Threshold then CorrectPosture else IncorrectPosture
    else UnexpectedShape(|features|)
  }

  /** The verdict as a case table over the feature-list length: 0 and 21
      need no classifier, 42 consults it with a strict threshold (exactly
      one half is incorrect), a failure of the classifier is its own
      outcome, and every other length is unexpected whatever the classifier
      would say. */
  lemma VerdictCases(features: seq<Coord>, classify: Classifier, other: Classifier)
    ensures VerdictOf(features, classify) == NoHands <==> |features| == 0
    ensures VerdictOf(features, classify) == OneHand <==> |features| == 21
    ensures VerdictOf(features, classify) == CorrectPosture <==>
      |features| == 42 && classify(features).Some? && classify(features).value > 1.0 / 2.0
    ensures VerdictOf(features, classify) == IncorrectPosture <==>
      |features| == 42 && classify(features).Some? && classify(features).value <= 1.0 / 2.0
    ensures VerdictOf(features, classify) == ClassifierFailed <==>
      |features| == 42 && classify(features).None?
    ensures VerdictOf(features, classify).UnexpectedShape? <==> |features| !in {0, 21, 42}
    ensures |features| != 42 ==> VerdictOf(features, classify) == VerdictOf(features, other)
  {
  }

  /** End to end with the detector's 21-landmark hands: no hands and one hand
      are recognised by count alone, two or more hands always reach the
      classifier, and the unexpected-shape branch is unreachable. */
  lemma VerdictOfHands(hands: seq<Hand>, classify: Classifier)
    requires forall k :: 0 <= k < |hands| ==> |hands[k]| >= 18
    ensures var v := VerdictOf(FeatureVector(hands), classify);
      && (v == NoHands <==> |hands| == 0)
      && (v == OneHand <==> |hands| == 1)
      && (|hands| >= 2 <==> v in {CorrectPosture, IncorrectPosture, ClassifierFailed})
      && !v.UnexpectedShape?
  {
    FeatureVectorLength(hands);
  }

  // ------------------------------------------------------- time-stamped text

  /** A reading of `datetime.now()`. */
  datatype Timestamp = Timestamp(
    year: nat, month: nat, day: nat, hour: nat, minute: nat, second: nat, microsecond: nat)

  predicate ValidTimestamp(t: Timestamp) {
    && 1 <= t.year <= 9999 && 1 <= t.month <= 12 && 1 <= t.day <= 31
    && t.hour < 24 && t.minute < 60 && t.second < 60 && t.microsecond < 1000000
  }

  /** A reading `datetime.now()` can return. */
  type Reading = t: Timestamp | ValidTimestamp(t) witness Timestamp(1970, 1, 1, 0, 0, 0, 0)

  lemma Pow10Values()
    ensures Pow10(2) == 100 && Pow10(3) == 1000 && Pow10(4) == 10000 && Pow10(6) == 1000000
  {
    assert Pow10(1) == 10;
    assert Pow10(2) == 100;
    assert Pow10(3) == 1000;
    assert Pow10(4) == 10000;
    assert Pow10(5) == 100000;
  }

  /** The fields of `strftime('Y%Y-M%m-D%d_H%H-M%M-S%S-MS')` up to the
      fractional part, followed by `tail`. */
  function FieldsThen(t: Reading, tail: string): string
  {
    Pow10Values();
    "Y" + (Pad(t.year, 4) + ("-M" + (Pad(t.month, 2) + ("-D" + (Pad(t.day, 2) + ("_H" + (Pad(t.hour, 2)
    + ("-M" + (Pad(t.minute, 2) + ("-S" + (Pad(t.second, 2) + ("-MS" + tail))))))))))))
  }

  /** `datetime.now().strftime('Y%Y-M%m-D%d_H%H-M%M-S%S-MS%f')`. */
  function StampText(t: Reading): string
  {
    Pow10Values();
    FieldsThen(t, Pad(t.microsecond, 6))
  }

  const ImagePrefix: string := "Test_image"

  /** The file name `save_image` builds: prefix, `_`, the stamp with its
      last three characters cut off (`[:-3]`), `.png`. */
  function ImageName(prefix: string, t: Reading): string
  {
    prefix + "_" + DropLast3(StampText(t)) + ".png"
  }

  lemma DropLast3Append(a: string, b: string)
    requires |b| >= 3
    ensures DropLast3(a + b) == a + DropLast3(b)
  {
    assert (a + b)[..|a + b| - 3] == a + b[..|b| - 3];
  }

  lemma FieldsThenAppend(t: Reading, x: string, y: string)
    ensures FieldsThen(t, x) + y == FieldsThen(t, x + y)
  {
  }

  /** The stamp is its fields followed by the six microsecond digits. */
  lemma StampSplit(t: Reading)
    ensures t.microsecond < Pow10(6)
    ensures StampText(t) == FieldsThen(t, []) + Pad(t.microsecond, 6)
  {
    Pow10Values();
    var us := Pad(t.microsecond, 6);
    FieldsThenAppend(t, [], us);
    assert [] + us == us;
  }

  /** Cutting three characters off the stamp leaves its fields followed by
      the three millisecond digits. */
  lemma StampMillis(t: Reading)
    ensures t.microsecond / 1000 < Pow10(3)
    ensures DropLast3(StampText(t)) == FieldsThen(t, []) + Pad(t.microsecond / 1000, 3)
  {
    Pow10Values();
    StampSplit(t);
    MicrosToMillis(t.microsecond);
    DropLast3Append(FieldsThen(t, []), Pad(t.microsecond, 6));
  }

  /** Cutting three characters off the six-digit microseconds leaves the
      milliseconds: the name carries a three-digit millisecond field. */
  lemma ImageNameMillis(prefix: string, t: Reading)
    ensures t.microsecond / 1000 < 1000
    ensures ImageName(prefix, t) == prefix + ("_" + FieldsThen(t, Pad(t.microsecond / 1000, 3) + ".png"))
  {
    Pow10Values();
    StampMillis(t);
    var ms := Pad(t.microsecond / 1000, 3);
    var head := FieldsThen(t, []);
    FieldsThenAppend(t, [], ms + ".png");
    assert [] + (ms + ".png") == ms + ".png";
    Regroup(prefix, head, ms);
  }

  lemma Regroup(prefix: string, head: string, ms: string)
    ensures prefix + "_" + (head + ms) + ".png" == prefix + ("_" + (head + (ms + ".png")))
  {
  }

  /** Two readings taken in the same millisecond. */
  predicate SameMillisecond(t1: Timestamp, t2: Timestamp) {
    && t1.year == t2.year && t1.month == t2.month && t1.day == t2.day
    && t1.hour == t2.hour && t1.minute == t2.minute && t1.second == t2.second
    && t1.microsecond / 1000 == t2.microsecond / 1000
  }

  /** Peels one literal and one fixed-width field off two equal texts. */
  lemma PeelField(lit: string, w: nat, m: nat, n: nat, r1: string, r2: string)
    requires m < Pow10(w) && n < Pow10(w)
    requires lit + (Pad(m, w) + r1) == lit + (Pad(n, w) + r2)
    ensures m == n && r1 == r2
  {
    SplitEqual(lit, Pad(m, w) + r1, lit, Pad(n, w) + r2);
    SplitEqual(Pad(m, w), r1, Pad(n, w), r2);
    PadInjective(m, n, w);
  }

  /** Image names tell frames apart exactly to the millisecond: two frames
      get the same file name if and only if they were stamped in the same
      millisecond (so frames within one millisecond overwrite each other). */
  lemma ImageNameIdentifiesMillisecond(prefix: string, t1: Reading, t2: Reading)
    ensures ImageName(prefix, t1) == ImageName(prefix, t2) <==> SameMillisecond(t1, t2)
  {
    Pow10Values();
    ImageNameMillis(prefix, t1);
    ImageNameMillis(prefix, t2);
    if ImageName(prefix, t1) == ImageName(prefix, t2) {
      var tail1 := Pad(t1.microsecond / 1000, 3) + ".png";
      var tail2 := Pad(t2.microsecond / 1000, 3) + ".png";
      SplitEqual(prefix, "_" + FieldsThen(t1, tail1), prefix, "_" + FieldsThen(t2, tail2));
      SplitEqual("_", FieldsThen(t1, tail1), "_", FieldsThen(t2, tail2));
      var r1 := "-M" + (Pad(t1.month, 2) + ("-D" + (Pad(t1.day, 2) + ("_H" + (Pad(t1.hour, 2)
        + ("-M" + (Pad(t1.minute, 2) + ("-S" + (Pad(t1.second, 2) + ("-MS" + tail1))))))))));
      var r2 := "-M" + (Pad(t2.month, 2) + ("-D" + (Pad(t2.day, 2) + ("_H" + (Pad(t2.hour, 2)
        + ("-M" + (Pad(t2.minute, 2) + ("-S" + (Pad(t2.second, 2) + ("-MS" + tail2))))))))));
      PeelField("Y", 4, t1.year, t2.year, r1, r2);
      var q1 := "-D" + (Pad(t1.day, 2) + ("_H" + (Pad(t1.hour, 2)
        + ("-M" + (Pad(t1.minute, 2) + ("-S" + (Pad(t1.second, 2) + ("-MS" + tail1))))))));
      var q2 := "-D" + (Pad(t2.day, 2) + ("_H" + (Pad(t2.hour, 2)
        + ("-M" + (Pad(t2.minute, 2) + ("-S" + (Pad(t2.second, 2) + ("-MS" + tail2))))))));
      PeelField("-M", 2, t1.month, t2.month, q1, q2);
      var p1 := "_H" + (Pad(t1.hour, 2) + ("-M" + (Pad(t1.minute, 2) + ("-S" + (Pad(t1.second, 2) + ("-MS" + tail1))))));
      var p2 := "_H" + (Pad(t2.hour, 2) + ("-M" + (Pad(t2.minute, 2) + ("-S" + (Pad(t2.second, 2) + ("-MS" + tail2))))));
      PeelField("-D", 2, t1.day, t2.day, p1, p2);
      var o1 := "-M" + (Pad(t1.minute, 2) + ("-S" + (Pad(t1.second, 2) + ("-MS" + tail1))));
      var o2 := "-M" + (Pad(t2.minute, 2) + ("-S" + (Pad(t2.second, 2) + ("-MS" + tail2))));
      PeelField("_H", 2, t1.hour, t2.hour, o1, o2);
      var n1 := "-S" + (Pad(t1.second, 2) + ("-MS" + tail1));
      var n2 := "-S" + (Pad(t2.second, 2) + ("-MS" + tail2));
      PeelField("-M", 2, t1.minute, t2.minute, n1, n2);
      PeelField("-S", 2, t1.second, t2.second, "-MS" + tail1, "-MS" + tail2);
      PeelField("-MS", 3, t1.microsecond / 1000, t2.microsecond / 1000, ".png", ".png");
    }
  }

  /** Two stamps a fraction of a millisecond apart share one image name. */
  lemma SubMillisecondCollision()
    ensures ImageName(ImagePrefix, Timestamp(2024, 5, 1, 9, 30, 0, 1000))
         == ImageName(ImagePrefix, Timestamp(2024, 5, 1, 9, 30, 0, 1999))
  {
    ImageNameIdentifiesMillisecond(ImagePrefix, Timestamp(2024, 5, 1, 9, 30, 0, 1000),
                                   Timestamp(2024, 5, 1, 9, 30, 0, 1999));
  }

  /** `asctime` of the detection-log formatter: `YYYY-MM-DD HH:MM:SS,mmm`. */
  function AscTime(t: Reading): (s: string)
    ensures |s| == 23 && IsDigit(s[0])
    ensures forall i :: 0 <= i < |s| ==> IsDigit(s[i]) || s[i] in "- :,"
  {
    Pow10Values();
    var s := Pad(t.year, 4) + "-" + Pad(t.month, 2) + "-" + Pad(t.day, 2) + " "
      + Pad(t.hour, 2) + ":" + Pad(t.minute, 2) + ":" + Pad(t.second, 2) + "," + Pad(t.microsecond / 1000, 3);
    s
  }

  /** One record of the detection log file: `%(asctime)s - %(message)s` and
      the handler's newline. */
  function DetectionRecord(t: Reading, message: string): string
  {
    AscTime(t) + " - " + message + "\n"
  }

  // ---------------------------------------------------------------- effects

  /** The detection-log message `save_image_and_log` receives, if any:
      one for each of the four recognised verdicts, none for a failed
      classification or an unexpected shape. */
  function LogMessage(v: Verdict): (m: Option<string>)
    ensures m.Some? <==> v in {NoHands, OneHand, CorrectPosture, IncorrectPosture}
    ensures m.Some? ==>
      m.value in {"No hands detected", "One hand detected", "Correct hand posture", "Incorrect hand posture detected"}
  {
    match v
    case NoHands => Some("No hands detected")
    case OneHand => Some("One hand detected")
    case CorrectPosture => Some("Correct hand posture")
    case IncorrectPosture => Some("Incorrect hand posture detected")
    case _ => None
  }

  /** The alert a verdict raises: notification title and body, and sound. */
  datatype Alert = Alert(note: Notification, cue: Cue)

  /** The alert of a verdict: no hands, one hand and incorrect posture
      raise one, each logged too; correct posture and the unjudged frames
      raise none. The two alignment alerts share their body text. */
  function AlertOf(v: Verdict): (a: Option<Alert>)
    ensures a.Some? <==> v in {NoHands, OneHand, IncorrectPosture}
    ensures a.Some? ==> LogMessage(v).Some?
    ensures a.Some? ==>
      a.value.note.body == if v == IncorrectPosture then "Correct your posture immediately!" else "Align both hands in the camera"
  {
    match v
    case NoHands => Some(Alert(Notification("No hands detected.", "Align both hands in the camera"), NoHandsCue))
    case OneHand => Some(Alert(Notification("One hand is detected.", "Align both hands in the camera"), OneHandCue))
    case IncorrectPosture =>
      Some(Alert(Notification("Incorrect hand posture detected.", "Correct your posture immediately!"), IncorrectCue))
    case _ => None
  }

  /** The four recognised verdicts log four different messages, and the
      three alerts differ in title and in sound: the log and the user can
      tell every verdict apart. */
  lemma VerdictTextsDistinct(v: Verdict, w: Verdict)
    requires v != w
    ensures LogMessage(v).Some? && LogMessage(w).Some? ==> LogMessage(v) != LogMessage(w)
    ensures AlertOf(v).Some? && AlertOf(w).Some? ==>
      AlertOf(v).value.note.title != AlertOf(w).value.note.title && AlertOf(v).value.cue != AlertOf(w).value.cue
  {
  }

  /** `save_image_and_log`: for the four recognised verdicts, one image
      named after the frame's time stamp and one detection-log line carrying
      the verdict's message; nothing for the others. It shows, plays and
      sleeps nothing. */
  function SaveAndLog(v: Verdict, t: Reading): (r: seq<Effect>)
    ensures Images(r) == (if LogMessage(v).Some? then [ImageName(ImagePrefix, t)] else [])
    ensures LogLines(r) == (if LogMessage(v).Some? then [LogMessage(v).value] else [])
    ensures Notifications(r) == [] && Cues(r) == [] && Sleeps(r) == []
    ensures PausesFollowCues(r)
    ensures ReleaseCamera !in r
  {
    if LogMessage(v).Some? then
      RecordSequence(ImageName(ImagePrefix, t), LogMessage(v).value);
      [SaveImage(ImageName(ImagePrefix, t)), DetectionLog(LogMessage(v).value)]
    else []
  }

  /** The effects of a logged frame: its image, then its log line. */
  lemma RecordSequence(name: string, message: string)
    ensures var r := [SaveImage(name), DetectionLog(message)];
      && Images(r) == [name] && LogLines(r) == [message]
      && Notifications(r) == [] && Cues(r) == [] && Sleeps(r) == []
      && PausesFollowCues(r)
      && ReleaseCamera !in r
  {
    assert [SaveImage(name), DetectionLog(message)] == [SaveImage(name)] + [DetectionLog(message)];
    ProjectOne(SaveImage(name));
    ProjectOne(DetectionLog(message));
    SelectAllAppend([SaveImage(name)], [DetectionLog(message)]);
  }

  /** The alert thread (`notify_and_speak` / `inc_notif_and_speak`) and the
      loop's sleep after starting it. The notification is shown only when
      notifications are enabled (`align_notif`, `oneh_notif`, `inc_notif`
      test the flag), but the sound plays and the three-second sleep follows
      whatever the flag says: the guard `if self.process_log_line:` tests a
      bound method, which is always true. Correct posture, a failed
      classification and an unexpected shape raise no alert and do not sleep. */
  function AlertEffects(alert: Option<Alert>, enabled: bool): (r: seq<Effect>)
    ensures Images(r) == [] && LogLines(r) == []
    ensures Notifications(r) == (if enabled && alert.Some? then [alert.value.note] else [])
    ensures Cues(r) == (if alert.Some? then [alert.value.cue] else [])
    ensures Sleeps(r) == (if alert.Some? then [AlertPause] else [])
    ensures PausesFollowCues(r)
    ensures ReleaseCamera !in r
  {
    if alert.None? then []
    else
      AlertSequence(alert.value, enabled);
      (if enabled then [Notify(alert.value.note)] else []) + [PlayAudio(alert.value.cue), Sleep(AlertPause)]
  }

  /** The effects of a raised alert: the notification when enabled, then
      the sound and the pause. */
  lemma AlertSequence(a: Alert, enabled: bool)
    ensures var r := (if enabled then [Notify(a.note)] else []) + [PlayAudio(a.cue), Sleep(AlertPause)];
      && Images(r) == [] && LogLines(r) == []
      && Notifications(r) == (if enabled then [a.note] else [])
      && Cues(r) == [a.cue] && Sleeps(r) == [AlertPause]
      && PausesFollowCues(r)
      && ReleaseCamera !in r
  {
    var note := if enabled then [Notify(a.note)] else [];
    var sound := [PlayAudio(a.cue)] + [Sleep(AlertPause)];
    assert [PlayAudio(a.cue), Sleep(AlertPause)] == sound;
    ProjectOne(Notify(a.note));
    ProjectOne(PlayAudio(a.cue));
    ProjectOne(Sleep(AlertPause));
    SelectAllAppend([PlayAudio(a.cue)], [Sleep(AlertPause)]);
    SelectAllAppend(note, sound);
    assert PausesFollowCues(sound);
    PausesFollowCuesAppend(note, sound);
  }

  /** Everything one frame does once its verdict is known: the image and
      log line, then the alert and its pause. */
  function FrameEffects(v: Verdict, t: Reading, enabled: bool): (r: seq<Effect>)
    ensures Images(r) == (if LogMessage(v).Some? then [ImageName(ImagePrefix, t)] else [])
    ensures LogLines(r) == (if LogMessage(v).Some? then [LogMessage(v).value] else [])
    ensures Notifications(r) == (if enabled && AlertOf(v).Some? then [AlertOf(v).value.note] else [])
    ensures Cues(r) == (if AlertOf(v).Some? then [AlertOf(v).value.cue] else [])
    ensures Sleeps(r) == (if AlertOf(v).Some? then [AlertPause] else [])
    ensures PausesFollowCues(r)
    ensures ReleaseCamera !in r
  {
    var persist := SaveAndLog(v, t);
    var alert := AlertEffects(AlertOf(v), enabled);
    Combine(persist, alert, Images(persist), LogLines(persist),
            Notifications(alert), Cues(alert), Sleeps(alert));
    persist + alert
  }

  /** Records followed by an alert: each projection comes from the part
      that produces it, and the pauses still follow the sounds. */
  lemma Combine(persist: seq<Effect>, alert: seq<Effect>, images: seq<string>, lines: seq<string>,
                notes: seq<Notification>, cues: seq<Cue>, sleeps: seq<nat>)
    requires Images(persist) == images && LogLines(persist) == lines
    requires Notifications(persist) == [] && Cues(persist) == [] && Sleeps(persist) == []
    requires Images(alert) == [] && LogLines(alert) == []
    requires Notifications(alert) == notes && Cues(alert) == cues && Sleeps(alert) == sleeps
    requires PausesFollowCues(persist) && PausesFollowCues(alert)
    requires ReleaseCamera !in persist && ReleaseCamera !in alert
    ensures var r := persist + alert;
      && Images(r) == images && LogLines(r) == lines
      && Notifications(r) == notes && Cues(r) == cues && Sleeps(r) == sleeps
      && PausesFollowCues(r) && ReleaseCamera !in r
  {
    SelectAllAppend(persist, alert);
    PausesFollowCuesAppend(persist, alert);
  }

  /** The five projections of a single effect. */
  lemma ProjectOne(e: Effect)
    ensures Images([e]) == (if e.SaveImage? then [e.name] else [])
    ensures LogLines([e]) == (if e.DetectionLog? then [e.message] else [])
    ensures Notifications([e]) == (if e.Notify? then [e.note] else [])
    ensures Cues([e]) == (if e.PlayAudio? then [e.cue] else [])
    ensures Sleeps([e]) == (if e.Sleep? then [e.seconds] else [])
  {
    assert [e][1..] == [];
  }

  /** The five projections of a concatenation. */
  lemma SelectAllAppend(a: seq<Effect>, b: seq<Effect>)
    ensures Images(a + b) == Images(a) + Images(b)
    ensures LogLines(a + b) == LogLines(a) + LogLines(b)
    ensures Notifications(a + b) == Notifications(a) + Notifications(b)
    ensures Cues(a + b) == Cues(a) + Cues(b)
    ensures Sleeps(a + b) == Sleeps(a) + Sleeps(b)
  {
    SelectAppend(a, b, AsImage);
    SelectAppend(a, b, AsLogLine);
    SelectAppend(a, b, AsNotification);
    SelectAppend(a, b, AsCue);
    SelectAppend(a, b, AsSleep);
  }
}
