/** The GUI's power switch: `MainWindow.toggle_application`,
    `start_application` and `stop_application`. Whether the executable is
    found and whether `taskkill` succeeds are inputs; the programs launched
    and killed are returned as commands. */
module ControlPanel {
  import opened Wrappers

  /** The window's state: whether `self.process` holds a launched monitor,
      and whether `self.start_application_thread` has been started (a
      Python thread can be started only once). */
  datatype Window = Window(hasProcess: bool, threadStarted: bool)

  const InitialWindow: Window := Window(false, false)

  datatype Command = Launch(path: string) | TaskKill

  datatype Outcome =
    | Started          // monitor launched and the thread started
    | ThreadError      // monitor launched, then starting the thread again raised RuntimeError
    | NotFound         // no executable found: nothing happens
    | Stopped          // taskkill succeeded: self.process is cleared
    | KillFailed       // taskkill failed: self.process is kept
    | NothingRunning   // no process recorded: nothing happens

  datatype Step = Step(window: Window, commands: seq<Command>, outcome: Outcome)

  /** `start_application`: launch the executable when it is found, record
      the process, then start the window's one thread. The second launch
      in a window's life raises when starting the thread, after the process
      has already been launched and recorded. */
  function StartApplication(w: Window, exe: Option<string>): (s: Step)
    ensures exe.None? <==> s.outcome == NotFound
    ensures exe.None? ==> s.window == w && s.commands == []
    ensures exe.Some? ==> s.commands == [Launch(exe.value)] && s.window == Window(true, true)
    ensures exe.Some? ==> (s.outcome == ThreadError <==> w.threadStarted)
  {
    if exe.None? then Step(w, [], NotFound)
    else if w.threadStarted then Step(Window(true, true), [Launch(exe.value)], ThreadError)
    else Step(Window(true, true), [Launch(exe.value)], Started)
  }

  /** `stop_application`: with a recorded process, run `taskkill` on every
      instance and forget the process only when that succeeds. */
  function StopApplication(w: Window, killOk: bool): (s: Step)
    ensures !w.hasProcess ==> s == Step(w, [], NothingRunning)
    ensures w.hasProcess ==> s.commands == [TaskKill]
    ensures s.window.threadStarted == w.threadStarted
    ensures s.window.hasProcess <==> w.hasProcess && !killOk
  {
    if !w.hasProcess then Step(w, [], NothingRunning)
    else if killOk then Step(w.(hasProcess := false), [TaskKill], Stopped)
    else Step(w, [TaskKill], KillFailed)
  }

  /** One click of the power switch: on starts, off stops. */
  datatype Click = Click(on: bool, exe: Option<string>, killOk: bool)

  function Toggle(w: Window, c: Click): (s: Step)
    ensures c.on ==> s.outcome in {Started, ThreadError, NotFound}
    ensures !c.on ==> s.outcome in {Stopped, KillFailed, NothingRunning}
    ensures s.window.hasProcess != w.hasProcess ==>
      (s.window.hasProcess && c.on && c.exe.Some?) || (!s.window.hasProcess && !c.on && c.killOk)
  {
    if c.on then StartApplication(w, c.exe) else StopApplication(w, c.killOk)
  }

  /** Clicks in order: the final window and every outcome. */
  function Clicks(w: Window, cs: seq<Click>): (r: (Window, seq<Outcome>))
    ensures |r.1| == |cs|
    decreases |cs|
  {
    if cs == [] then (w, [])
    else
      var s := Toggle(w, cs[0]);
      var rest := Clicks(s.window, cs[1..]);
      (rest.0, [s.outcome] + rest.1)
  }

  function CountStarted(os: seq<Outcome>): nat {
    if os == [] then 0 else (if os[0] == Started then 1 else 0) + CountStarted(os[1..])
  }

  /** A window starts the monitor cleanly at most once in its life: every
      later successful launch ends in the thread error. */
  lemma {:induction false} StartsCleanlyOnce(w: Window, cs: seq<Click>)
    ensures CountStarted(Clicks(w, cs).1) + (if w.threadStarted then 1 else 0) <= 1
    ensures w.threadStarted ==> Clicks(w, cs).0.threadStarted
    decreases |cs|
  {
    if cs != [] {
      var s := Toggle(w, cs[0]);
      StartsCleanlyOnce(s.window, cs[1..]);
      assert ([s.outcome] + Clicks(s.window, cs[1..]).1)[1..] == Clicks(s.window, cs[1..]).1;
      assert s.outcome == Started ==> !w.threadStarted && s.window.threadStarted;
    }
  }

  /** Switching on, off and on again with the executable present: the
      first launch starts cleanly; the off click runs `taskkill` whatever
      it achieves; the second on launches a second monitor, records it and
      raises on the thread. */
  lemma SecondLaunchRaises(path: string, killOk: bool)
    ensures var on := Click(true, Some(path), killOk);
      var off := Click(false, None, killOk);
      && Clicks(InitialWindow, [on, off, on]).1
         == [Started, if killOk then Stopped else KillFailed, ThreadError]
      && Clicks(InitialWindow, [on, off, on]).0 == Window(true, true)
  {
    var on := Click(true, Some(path), killOk);
    var off := Click(false, None, killOk);
    var w1 := Toggle(InitialWindow, on).window;
    var w2 := Toggle(w1, off).window;
    assert [on, off, on][1..] == [off, on] && [off, on][1..] == [on] && [on][1..] == [];
    assert w1 == Window(true, true) && w2.threadStarted;
    assert Toggle(w2, on) == Step(Window(true, true), [Launch(path)], ThreadError);
    assert Clicks(w2, [on]) == (Window(true, true), [ThreadError] + []);
    assert Clicks(w1, [off, on]).0 == Window(true, true);
    assert Clicks(w1, [off, on]).1 == [if killOk then Stopped else KillFailed, ThreadError];
  }
}
