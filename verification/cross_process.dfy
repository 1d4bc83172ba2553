/** What the two processes agree on through detection.log: the record the
    monitor appends for a verdict decides the panel `updateStatusLabel`
    computes from that log. The GUI calls it once, when the window opens. */
module CrossProcess {
  import opened Wrappers
  import opened Text
  import opened Detection
  import opened CameraLoop
  import opened LogViewer

  /** The panel a logged verdict should produce in the GUI. */
  function PanelFor(v: Verdict): Panel {
    match v
    case CorrectPosture => CorrectHighlighted
    case IncorrectPosture => IncorrectHighlighted
    case _ => NeutralPanel
  }

  /** The record without its newline: time stamp, separator, message. */
  function RecordBody(t: Reading, v: Verdict): string
    requires LogMessage(v).Some?
  {
    AscTime(t) + " - " + LogMessage(v).value
  }

  /** A line made of a time stamp, the separator and a message: it holds
      no newline, stripping gives it back, and the stamp part holds neither
      marker's first letter. */
  lemma StampedLine(stamp: string, msg: string)
    requires |stamp| > 0 && IsDigit(stamp[0])
    requires forall i :: 0 <= i < |stamp| ==> IsDigit(stamp[i]) || stamp[i] in "- :,"
    requires |msg| > 0 && !IsSpace(msg[|msg| - 1]) && '\n' !in msg
    ensures '\n' !in stamp + " - " + msg
    ensures Strip(stamp + " - " + msg + "\n") == stamp + " - " + msg
    ensures 'C' !in stamp + " - " && 'I' !in stamp + " - "
  {
    var head := stamp + " - ";
    var body := head + msg;
    assert forall i :: 0 <= i < |head| ==> head[i] != '\n' && head[i] != 'C' && head[i] != 'I' by {
      forall i | 0 <= i < |head|
        ensures head[i] != '\n' && head[i] != 'C' && head[i] != 'I'
      {
        if i < |stamp| {
          assert head[i] == stamp[i];
          assert IsDigit(stamp[i]) || stamp[i] in "- :,";
        }
      }
    }
    assert body[0] == stamp[0];
    assert body[|body| - 1] == msg[|msg| - 1];
    StripLine(body);
    forall i | 0 <= i < |body|
      ensures body[i] != '\n'
    {
      if i >= |head| {
        assert body[i] == msg[i - |head|];
      }
    }
  }

  lemma RecordBodyShape(t: Reading, v: Verdict)
    requires LogMessage(v).Some?
    ensures DetectionRecord(t, LogMessage(v).value) == RecordBody(t, v) + "\n"
    ensures '\n' !in RecordBody(t, v)
    ensures Strip(RecordBody(t, v) + "\n") == RecordBody(t, v)
    ensures 'C' !in AscTime(t) + " - " && 'I' !in AscTime(t) + " - "
  {
    MessageShape(v);
    StampedLine(AscTime(t), LogMessage(v).value);
  }

  /** Every logged message is one line ending in a letter. */
  lemma MessageShape(v: Verdict)
    requires LogMessage(v).Some?
    ensures var msg := LogMessage(v).value;
      |msg| > 0 && !IsSpace(msg[|msg| - 1]) && '\n' !in msg
  {
    match v
    case NoHands =>
    case OneHand =>
    case CorrectPosture =>
    case IncorrectPosture =>
  }

  /** A message with neither marker's first letter leaves both panels
      neutral. */
  lemma UnmarkedMessage(msg: string)
    requires 'C' !in msg && 'I' !in msg
    ensures ClassifyEntry(msg) == NeutralPanel
  {
    NotContainsWithoutHead(CorrectMarker, msg);
    NotContainsWithoutHead(IncorrectMarker, msg);
  }

  lemma CorrectMessage()
    ensures ClassifyEntry("Correct hand posture") == CorrectHighlighted
  {
    assert OccursAt(CorrectMarker, "Correct hand posture", 0);
  }

  /** The GUI's verdict on a message alone. */
  lemma MessagePanels(v: Verdict)
    requires LogMessage(v).Some?
    ensures ClassifyEntry(LogMessage(v).value) == PanelFor(v)
  {
    match v
    case CorrectPosture => CorrectMessage();
    case IncorrectPosture => IncorrectIsNotCorrect();
    case NoHands => UnmarkedMessage("No hands detected");
    case OneHand => UnmarkedMessage("One hand detected");
  }

  /** On a detection log that ends with the record of a verdict,
      `updateStatusLabel` computes that verdict's panel: correct posture highlights the correct panel,
      incorrect posture the incorrect one (the case-sensitive test does not
      mistake "Incorrect" for "Correct"), and no hands or one hand leave
      both panels neutral. */
  lemma RecordDrivesPanel(prev: string, t: Reading, v: Verdict)
    requires prev == [] || prev[|prev| - 1] == '\n'
    requires LogMessage(v).Some?
    ensures StatusForLog(Some(prev + DetectionRecord(t, LogMessage(v).value))) == PanelFor(v)
  {
    var body := RecordBody(t, v);
    var head := AscTime(t) + " - ";
    var msg := LogMessage(v).value;
    RecordBodyShape(t, v);
    LastLineDecides(prev, body);
    assert body == head + msg;
    ContainsAfterPrefix(CorrectMarker, head, msg);
    ContainsAfterPrefix(IncorrectMarker, head, msg);
    MessagePanels(v);
  }

  /** The detection log a run of the capture loop appends: one record per
      frame whose verdict is logged. */
  function LogText(its: seq<Iteration>): string {
    if its == [] then []
    else
      (if its[0].Judged? && LogMessage(its[0].verdict).Some?
       then DetectionRecord(its[0].stamp, LogMessage(its[0].verdict).value) else [])
      + LogText(its[1..])
  }

  /** The last verdict of a run that was logged. */
  function LastLogged(its: seq<Iteration>): (r: Option<Verdict>)
    ensures r.Some? ==> LogMessage(r.value).Some?
  {
    if its == [] then None
    else if LastLogged(its[1..]).Some? then LastLogged(its[1..])
    else if its[0].Judged? && LogMessage(its[0].verdict).Some? then Some(its[0].verdict)
    else None
  }

  /** The records one iteration appends. */
  function RecordsOf(it: Iteration): (r: string)
    ensures r != [] <==> it.Judged? && LogMessage(it.verdict).Some?
  {
    if it.Judged? && LogMessage(it.verdict).Some?
    then DetectionRecord(it.stamp, LogMessage(it.verdict).value) else []
  }

  lemma LogTextUnfold(its: seq<Iteration>)
    requires its != []
    ensures LogText(its) == RecordsOf(its[0]) + LogText(its[1..])
  {
  }

  /** One iteration's records keep the log made of whole lines, and decide
      the panel when there are any. */
  lemma PanelStep(prev: string, it: Iteration)
    requires prev == [] || prev[|prev| - 1] == '\n'
    ensures var next := prev + RecordsOf(it);
      && (next == [] || next[|next| - 1] == '\n')
      && StatusForLog(Some(next))
         == if RecordsOf(it) != [] then PanelFor(it.verdict) else StatusForLog(Some(prev))
  {
    if RecordsOf(it) != [] {
      RecordBodyShape(it.stamp, it.verdict);
      RecordDrivesPanel(prev, it.stamp, it.verdict);
    } else {
      assert prev + RecordsOf(it) == prev;
    }
  }

  /** On the log after the capture loop has run, `updateStatusLabel`
      computes the panel of the last verdict the run logged; after a run
      that logged nothing it computes the panel of the log before the run. */
  lemma {:induction false} PanelAfterRun(prev: string, its: seq<Iteration>)
    requires prev == [] || prev[|prev| - 1] == '\n'
    ensures StatusForLog(Some(prev + LogText(its)))
         == if LastLogged(its).Some? then PanelFor(LastLogged(its).value) else StatusForLog(Some(prev))
    decreases |its|
  {
    if its == [] {
      assert prev + LogText(its) == prev;
    } else {
      var head := RecordsOf(its[0]);
      var next := prev + head;
      PanelStep(prev, its[0]);
      PanelAfterRun(next, its[1..]);
      LogTextUnfold(its);
      AppendAssoc(prev, head, LogText(its[1..]));
    }
  }

  lemma AppendAssoc(a: string, b: string, c: string)
    ensures a + (b + c) == (a + b) + c
  {
  }
}
