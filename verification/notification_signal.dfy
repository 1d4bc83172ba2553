/** The notification switch shared by the two processes through the file
    Notification.log: the GUI's `NotifButton.write_log` overwrites it with
    one character, and the monitor's `follow_log` thread polls its first
    line and hands changes to `process_log_line`, which sets
    `notifications_enabled`. */
module NotificationSignal {
  import opened Wrappers
  import opened Text

  /** The whole content of Notification.log after `write_log(checked)`:
      the file is opened for writing (truncated) and gets one character. */
  function WriteLog(checked: bool): (content: string)
    ensures |content| == 1
    ensures content == "1" <==> checked
    ensures content == "0" <==> !checked
  {
    if checked then "1" else "0"
  }

  /** `process_log_line`: "0" turns notifications off, "1" turns them on,
      anything else is reported and changes nothing. */
  function ProcessLogLine(enabled: bool, line: string): (e: bool)
    ensures line == "1" ==> e
    ensures line == "0" ==> !e
    ensures line != "0" && line != "1" ==> e == enabled
  {
    if line == "0" then false
    else if line == "1" then true
    else enabled
  }

  /** The state of the `follow_log` thread: the last line it handled
      (`None` before the first), the flag it drives, and whether the thread
      is still running. */
  datatype Follower = Follower(lastLine: Option<string>, enabled: bool, alive: bool)

  /** The flag starts off, before any line is read. */
  const InitialFollower: Follower := Follower(None, false, true)

  /** One poll of the file: `None` when the file does not exist, which
      raises FileNotFoundError out of the polling loop and ends the thread
      for good. Otherwise the stripped first line is handed on only when it
      differs from the last one handled. */
  function Poll(f: Follower, file: Option<string>): (g: Follower)
    ensures !f.alive ==> g == f
    ensures f.alive && file.None? ==> !g.alive && g.enabled == f.enabled
    ensures f.alive && file.Some? ==> g.alive && g.lastLine == Some(Strip(FirstLine(file.value)))
    ensures f.alive && file.Some? && Some(Strip(FirstLine(file.value))) == f.lastLine ==> g == f
    ensures f.alive && file.Some? && Some(Strip(FirstLine(file.value))) != f.lastLine ==>
      g.enabled == ProcessLogLine(f.enabled, Strip(FirstLine(file.value)))
  {
    if !f.alive then f
    else if file.None? then f.(alive := false)
    else
      var line := Strip(FirstLine(file.value));
      if Some(line) != f.lastLine then Follower(Some(line), ProcessLogLine(f.enabled, line), true)
      else f
  }

  /** Polls in order. The watcher survives exactly when it was alive and
      the file existed at every poll, and then it remembers the line of
      the last poll. */
  function Follow(f: Follower, polls: seq<Option<string>>): (g: Follower)
    ensures g.alive <==> f.alive && None !in polls
    ensures g.alive && polls != [] ==> g.lastLine == Some(Strip(FirstLine(polls[|polls| - 1].value)))
    decreases |polls|
  {
    if polls == [] then f
    else
      assert polls == [polls[0]] + polls[1..];
      Follow(Poll(f, polls[0]), polls[1..])
  }

  /** The flag agrees with the last line handled whenever that line was a
      signal. */
  predicate Consistent(f: Follower) {
    f.lastLine.Some? && (f.lastLine.value == "0" || f.lastLine.value == "1") ==>
      f.enabled == (f.lastLine.value == "1")
  }

  /** Polling keeps the flag consistent with the last line handled. */
  lemma PollConsistent(f: Follower, file: Option<string>)
    requires Consistent(f)
    ensures Consistent(Poll(f, file))
  {
  }

  lemma InitialConsistent()
    ensures Consistent(InitialFollower)
  {
  }

  /** Once the watcher has died, polling changes nothing. */
  lemma {:induction false} DeadFollowerFrozen(f: Follower, polls: seq<Option<string>>)
    requires !f.alive
    ensures Follow(f, polls) == f
    decreases |polls|
  {
    if polls != [] {
      DeadFollowerFrozen(Poll(f, polls[0]), polls[1..]);
    }
  }

  /** The lines the watcher reads: the stripped first line of every poll
      up to the first one that finds no file. */
  function LinesRead(polls: seq<Option<string>>): seq<string> {
    if polls == [] || polls[0].None? then []
    else [Strip(FirstLine(polls[0].value))] + LinesRead(polls[1..])
  }

  /** Handing every line read to `process_log_line`, repeats included. */
  function ProcessAll(enabled: bool, lines: seq<string>): bool
    decreases |lines|
  {
    if lines == [] then enabled else ProcessAll(ProcessLogLine(enabled, lines[0]), lines[1..])
  }

  /** Skipping repeated lines loses nothing: following the file gives the
      flag that handing every line read to `process_log_line` gives. */
  lemma {:induction false} FollowProcessesAll(f: Follower, polls: seq<Option<string>>)
    requires f.alive && Consistent(f)
    ensures Follow(f, polls).enabled == ProcessAll(f.enabled, LinesRead(polls))
    decreases |polls|
  {
    if polls != [] {
      var g := Poll(f, polls[0]);
      if polls[0].None? {
        DeadFollowerFrozen(g, polls[1..]);
      } else {
        var line := Strip(FirstLine(polls[0].value));
        assert g.enabled == ProcessLogLine(f.enabled, line);
        PollConsistent(f, polls[0]);
        FollowProcessesAll(g, polls[1..]);
        assert LinesRead(polls) == [line] + LinesRead(polls[1..]);
        assert ([line] + LinesRead(polls[1..]))[1..] == LinesRead(polls[1..]);
      }
    }
  }

  /** The last line among `lines` that is a signal, as the flag it sets. */
  function LastSignal(lines: seq<string>): Option<bool> {
    if lines == [] then None
    else
      var l := lines[|lines| - 1];
      if l == "0" then Some(false)
      else if l == "1" then Some(true)
      else LastSignal(lines[..|lines| - 1])
  }

  /** Handing lines in order leaves the flag of the last signal among
      them, or the flag as it was when there is none. */
  lemma {:induction false} ProcessAllIsLastSignal(enabled: bool, lines: seq<string>)
    ensures ProcessAll(enabled, lines) == LastSignal(lines).GetOr(enabled)
    decreases |lines|
  {
    if lines != [] {
      var init := lines[..|lines| - 1];
      var l := lines[|lines| - 1];
      ProcessAllSnoc(enabled, init, l);
      ProcessAllIsLastSignal(enabled, init);
      assert lines == init + [l];
    }
  }

  lemma {:induction false} ProcessAllSnoc(enabled: bool, init: seq<string>, l: string)
    ensures ProcessAll(enabled, init + [l]) == ProcessLogLine(ProcessAll(enabled, init), l)
    decreases |init|
  {
    if init == [] {
      assert init + [l] == [l];
    } else {
      assert (init + [l])[0] == init[0] && (init + [l])[1..] == init[1..] + [l];
      ProcessAllSnoc(ProcessLogLine(enabled, init[0]), init[1..], l);
    }
  }

  /** From the start of the monitor, the flag is the last "0" or "1" the
      watcher read, or off when it has read none. */
  lemma FlagIsLastSignal(polls: seq<Option<string>>)
    ensures Follow(InitialFollower, polls).enabled == LastSignal(LinesRead(polls)).GetOr(false)
  {
    InitialConsistent();
    FollowProcessesAll(InitialFollower, polls);
    ProcessAllIsLastSignal(false, LinesRead(polls));
  }

  /** What the switch writes, the watcher reads back: after the file is
      written by `write_log(checked)`, the next poll of a running watcher
      leaves `notifications_enabled == checked`. */
  lemma SwitchRoundTrip(f: Follower, checked: bool)
    requires f.alive && Consistent(f)
    ensures Poll(f, Some(WriteLog(checked))).enabled == checked
    ensures Consistent(Poll(f, Some(WriteLog(checked))))
  {
    var content := WriteLog(checked);
    assert FirstLine(content) == content by {
      assert content[1..] == [];
    }
    StripLine1(content);
    PollConsistent(f, Some(content));
  }

  lemma StripLine1(s: string)
    requires s == "0" || s == "1"
    ensures Strip(s) == s
  {
    assert !IsSpace(s[0]);
    assert LeadingSpaces(s) == 0;
    assert TrailingSpaces(s) == 0;
  }
}
