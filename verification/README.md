# Don't Wrist It: a Dafny model of the posture monitor

Don't Wrist It is a Windows desktop tool made of two processes.

- **The monitor** (Main-App.py) watches the user's hands through an external USB camera. For every frame it:
  - builds a feature list from the hand landmarks;
  - decides a verdict (no hands, one hand, correct or incorrect posture);
  - saves the frame and appends a record to `detection.log`;
  - for the three bad verdicts, plays a sound and, when notifications are on, shows an OS notification.
- **The GUI** (WindowApp.py) talks to the monitor through two files:
  - it writes the notification switch to `Notification.log`, which the monitor polls;
  - it reads `detection.log` back, to highlight the posture panel and to stream the log into a dialog.
- Its power switch launches and kills the monitor.

This project models that decision logic and the text contracts between the two processes, and proves properties of them.

Camera, detector, classifier, clock and file system are inputs. What the monitor does to the outside world is returned as a list of effects: image writes, log records, notifications, sounds, pauses and the camera release. The model has one module per concern:

| file | module | models |
|---|---|---|
| wrappers.dfy | `Wrappers` | `Option` |
| text.dfy | `Text` | the Python text behaviour both programs rely on: `str.strip()`, `p in s`, `readline()`, `readlines()`, zero-padded decimal fields |
| landmarks.dfy | `Landmarks` | `HandLandmarksDetector.extract_landmarks` |
| effects.dfy | `Effects` | the effect list and its projections |
| detection.dfy | `Detection` | the per-frame verdict, `save_image_and_log`, the alert thread and its pause, the image name, the detection-log record |
| camera_loop.dfy | `CameraLoop` | `Camera.start` and `Camera.stop`, over a finite prefix of loop passes |
| camera_device.dfy | `CameraDevice` | `initialize_camera`, `check_camera_and_notify` |
| notification_signal.dfy | `NotificationSignal` | `NotifButton.write_log`, `follow_log`, `process_log_line` |
| log_viewer.dfy | `LogViewer` | `MainWindow.updateStatusLabel`, `LogReaderThread.run` |
| control_panel.dfy | `ControlPanel` | `toggle_application`, `start_application`, `stop_application` |
| cross_process.dfy | `CrossProcess` | the panel `updateStatusLabel` computes from a log the monitor has written |

Behaviour of the code worth knowing:

- **Landmarks.** The code keeps seven landmarks per hand with three entries each, so a hand gives 21 entries. A `z` the detector does not report is kept as `Missing`, never as zero.
- **Threshold.** Correct posture needs a probability strictly above 0.5. A probability of exactly 0.5 is incorrect.
- **Image names.** They carry milliseconds, not a sub-millisecond stamp: `[:-3]` cuts the microseconds to three digits. Two frames stamped in the same millisecond get the same name (`ImageNameIdentifiesMillisecond`).
- **No alert cool-down gating.** The guard `if self.process_log_line:` tests a bound method and is always true. Every alert plays its sound and is followed by the three-second sleep; only the OS notification depends on `notifications_enabled`.
- **No latch on the camera warning.** `notification_flag` is set but never read, so every health check without a usable camera notifies again.
- **A failed read ends the loop.** The loop breaks and `stop` runs. The camera is not acquired again.
- **The posture panel is computed once.** `updateStatusLabel` is called only from `initUI` (WindowApp.py:189). The panel reflects the log as it was when the window opened and is not refreshed after start-up.

## Model

| member | source | states |
|---|---|---|
| Landmarks.Triple | Main-App.py:73 | a kept landmark contributes exactly three entries: x, y, then z or an explicit absence when the landmark has no z |
| Landmarks.HandFeatures | Main-App.py:71-73 | one hand contributes three entries for every landmark whose index is kept |
| Landmarks.KeptIsListed | Main-App.py:72 | the kept-index test holds exactly for the indices 0, 1, 2, 5, 9, 13 and 17 |
| Landmarks.FeatureVector | Main-App.py:67-70 | only the first two hands count: no hands give nothing, one hand gives its features, two or more give hand 0's features followed by hand 1's |
| Landmarks.ExtractLandmarks | Main-App.py:63-75 | the nested loop over hands and landmarks builds exactly the feature list of the first two hands, in order |
| Landmarks.HandFeaturesOrder | Main-App.py:71-73 | the j-th triple of a hand's features is the triple of its j-th kept landmark, so entries follow landmark index order |
| Landmarks.KeptCountFull | Main-App.py:72 | every hand of at least 18 landmarks keeps all seven listed indices |
| Landmarks.FeatureVectorLength | Main-App.py:67-75 | with hands of at least 18 landmarks (the detector reports 21), the list has 21 entries per hand for at most two hands, so its length is 0, 21 or 42 |
| Detection.VerdictOf | Main-App.py:297-334 | the length of the feature list alone decides no hands (0 entries), one hand (21) and an unexpected shape (any other length but 42, carrying that length); a 42-entry list always gets one of correct, incorrect or classifier failure |
| Detection.VerdictCases | Main-App.py:297-334 | length 0 is no hands; length 21 is one hand; length 42 is correct exactly when the classifier answers above one half, incorrect when it answers one half or less, and a failure when it raises; every other length is unexpected; a list of any length other than 42 never depends on the classifier |
| Detection.LogMessage | Main-App.py:297-325 | exactly the four judged verdicts (no hands, one hand, correct, incorrect) write a log line, each with its own fixed message; a classifier failure or an unexpected shape writes none |
| Detection.AlertOf | Main-App.py:269-275 | exactly no hands, one hand and incorrect posture raise an alert, each of them also logged; the incorrect-posture alert's body asks to correct the posture, the other two ask to align both hands (Main-App.py:297-329) |
| Detection.VerdictTextsDistinct | Main-App.py:297-329 | two different verdicts never share a log message, an alert title or a sound cue |
| Detection.VerdictOfHands | Main-App.py:297-334 | for detector hands, no hands and one hand are told by count alone, two or more hands always reach the classifier, and the unexpected branch cannot be taken |
| Detection.ImageNameMillis | Main-App.py:350 | the image name is the prefix, an underscore, the date and time fields, a three-digit millisecond field, then `.png` |
| Detection.ImageNameIdentifiesMillisecond | Main-App.py:350 | two frames get the same image name if and only if they were stamped in the same millisecond |
| Detection.SubMillisecondCollision | Main-App.py:350 | two stamps 999 microseconds apart produce the same image name |
| Detection.AscTime | Main-App.py:42 | the record's time stamp is 23 characters of digits and the separators `-`, space, `:` and `,`, starting with a digit |
| Detection.SaveAndLog | Main-App.py:348-357 | each of the four recognised verdicts writes exactly one image, named after the frame's stamp, and one detection-log line carrying its message; other verdicts write nothing; nothing is shown, played or slept |
| Detection.AlertSequence | Main-App.py:269-275 | a raised alert shows its notification only when enabled, then plays its sound, then sleeps the three-second pause |
| Detection.AlertEffects | Main-App.py:368-384 | the notification is shown exactly when notifications are enabled and an alert is raised; the sound and the three-second pause follow every raised alert whatever the flag says |
| Detection.FrameEffects | Main-App.py:297-334 | one frame writes the image and log line of a logged verdict; the no-hands, one-hand and incorrect verdicts play their own sound followed by the pause, and notify only when enabled; the frame never releases the camera |
| CameraLoop.Loop | Main-App.py:278-339 | every tick gets its own pass while no read fails; once a read fails the run ends with the break |
| CameraLoop.LoopOutcome | Main-App.py:278-286 | the loop breaks if and only if a read failed, and the break is the last pass |
| CameraLoop.LoopFrames | Main-App.py:278-339 | the loop judges exactly the frames captured before the first failed read, in order, each with the verdict its hands earn, its clock reading and its notification flag; it waits once for each tick without a camera before that read |
| CameraLoop.LoopStopsAtFailure | Main-App.py:283-286 | nothing after the first failed read is looked at: the run is the run up to it followed by the break |
| CameraLoop.LoopIgnoresKeys | Main-App.py:337-339 | the key read after each frame, 'q' included, does not change what the loop does |
| CameraLoop.MissingCameraPass | Main-App.py:279-281 | a tick without a usable camera adds a waiting pass and the loop goes on with the next tick; that pass's only effect is a single one-second sleep, so it writes, shows and plays nothing |
| CameraLoop.FrameCoherent | Main-App.py:297-334 | a judged frame writes the image named after its reading and the log line of a logged verdict, shows the notification of an alert only when judged with notifications on, plays the sound of every alert followed by the pause, and releases nothing |
| CameraLoop.StopPass | Main-App.py:284-286 | a failed read ends the run through `stop` (Main-App.py:345-346, 359-363): the stopping pass's only effect is one release of the camera; it judges no frame and waits for nothing |
| CameraLoop.RunCoherent | Main-App.py:277-346 | over a whole run, in frame order: the images are named after the readings of the logged frames; the log lines are those frames' messages; the notifications are those of the alerts judged with notifications on; the sounds are those of all alerts. Each sound is followed by the three-second alert pause, there is exactly one one-second retry pause per wait, and there is no other pause. The camera is released exactly once when the loop has stopped, as the very last effect, and never otherwise |
| CameraLoop.Start | Main-App.py:277-346 | with `running` already false nothing is judged and only `stop` runs, releasing a camera if there is one. Otherwise the run is still running exactly when no read failed. Its frames are exactly those captured before the first failed read, each with its verdict. Its images, log lines, notifications, sounds and pauses are coherent, as above, with those frames and with the ticks that found no camera |
| CameraLoop.RunQuietWhenDisabled | Main-App.py:368-384 | a run whose frames were all judged with notifications off shows no OS notification |
| CameraLoop.StartQuietWhenDisabled | Main-App.py:420-427 | `start` with notifications off on every captured frame shows no OS notification |
| CameraLoop.SilentFrames | Main-App.py:330-334 | a frame leaves no effect at all exactly when its classification failed or its feature list had an unexpected length |
| CameraDevice.ProbeFromSpec | Main-App.py:227-236 | the index kept is the lowest that opens, and none is kept exactly when none opens; in order, each failing index is opened and released before the next one is opened, so one device is held at a time, and then the kept index is opened and not released; with none kept, indices up to 9 are each opened and released; the index loop never sleeps |
| CameraDevice.OnlyIndexFourOpens | Main-App.py:227-236 | when only index 4 opens, indices 1 to 3 are opened and released in turn and index 4 is kept |
| CameraDevice.Acquire | Main-App.py:221-239 | an acquired camera index is between 1 and 9; index 0 is never used |
| CameraDevice.AcquireSearching | Main-App.py:222-239 | the scan is still searching after the rounds given exactly when no round cancelled it or found an index that opens |
| CameraDevice.FirstSettlingRoundDecides | Main-App.py:222-233 | the first round that clears `running` or finds an opening index decides the outcome, the calls made are those before it followed by its own, and later rounds are never looked at |
| CameraDevice.WaitsOnlyWithoutUsb | Main-App.py:237-239 | the scan waits exactly once for each round without a USB camera before it settles, never while trying indices, and every wait lasts five seconds |
| CameraDevice.HealthCheck | Main-App.py:249-253 | a check without a usable camera notifies and sets the flag; a check with one does neither |
| CameraDevice.HealthChecks | Main-App.py:249-253 | a series of checks shows one notification per check that finds no usable camera, and leaves the flag set exactly when it was already set or some check found none |
| CameraDevice.HealthChecksNotLatched | Main-App.py:249-253 | every check that finds no usable camera notifies with the same message whatever the flag holds, so n such checks show n notifications |
| NotificationSignal.WriteLog | WindowApp.py:74-82 | the switch leaves the file holding exactly one character: "1" when checked and "0" when not |
| NotificationSignal.ProcessLogLine | Main-App.py:144-152 | "0" turns notifications off, "1" turns them on, and any other line leaves the flag as it was |
| NotificationSignal.Poll | Main-App.py:154-167 | a poll of a live watcher remembers the stripped first line. When that line differs from the last one, the flag becomes what `process_log_line` makes of it. A repeated line changes nothing. A missing file ends the watcher with the flag unchanged, and a dead watcher changes nothing |
| NotificationSignal.PollConsistent | Main-App.py:158-162 | after any poll, the flag agrees with the last line handled whenever that line was "0" or "1" |
| NotificationSignal.Follow | Main-App.py:157-166 | the follower stays alive exactly when every poll found the file; while alive, the last line kept is the stripped first line of the latest poll |
| NotificationSignal.DeadFollowerFrozen | Main-App.py:164-165 | once the file went missing, later polls change nothing |
| NotificationSignal.FollowProcessesAll | Main-App.py:157-163 | skipping repeated lines loses nothing: the flag is what handing every line read to `process_log_line` would give |
| NotificationSignal.ProcessAllIsLastSignal | Main-App.py:144-152 | handing lines in order leaves the flag of the last "0" or "1" among them, or the flag as it was |
| NotificationSignal.FlagIsLastSignal | Main-App.py:130-132 | from the monitor's start, `notifications_enabled` is the last "0" or "1" the watcher read, or off if none |
| NotificationSignal.SwitchRoundTrip | WindowApp.py:79-80 | after the switch writes the file, the next poll of a running watcher sets `notifications_enabled` to the switch's state |
| LogViewer.ClassifyEntry | WindowApp.py:212-242 | the correct panel is highlighted exactly when the entry contains "Correct hand posture"; the incorrect panel exactly when it does not but contains "Incorrect hand posture"; otherwise both stay neutral |
| LogViewer.StatusForLog | WindowApp.py:206-211 | no panel is drawn exactly when the file is missing or empty |
| LogViewer.LastLineDecides | WindowApp.py:209-211 | after a line is appended to a log of whole lines, the panel depends on that stripped line alone |
| LogViewer.IncorrectIsNotCorrect | WindowApp.py:212-223 | the monitor's incorrect-posture message fails the case-sensitive first test and highlights the incorrect panel |
| LogViewer.ReadNew | WindowApp.py:128-137 | a poll emits the text past the remembered position exactly when the file exists and has some, and then moves the position to the end; a missing file or nothing new changes nothing; the position never goes back |
| LogViewer.ReadAll | WindowApp.py:129-138 | a run of polls never moves the position back, emits at most one chunk per poll, and never emits an empty chunk |
| LogViewer.StreamIsFaithful | WindowApp.py:128-138 | on a file that only grows, what was read before followed by all chunks emitted is the latest file, and the position is its end |
| LogViewer.FreshStreamIsFaithful | WindowApp.py:125 | from the reader's start at offset 0, the chunks emitted put together are exactly the latest file |
| ControlPanel.StartApplication | WindowApp.py:300-308 | without the executable nothing happens; with it the monitor is launched and recorded, and starting the window's thread raises exactly when it was started before |
| ControlPanel.StopApplication | WindowApp.py:310-320 | with no process recorded nothing happens; otherwise taskkill runs and the process is forgotten only when taskkill succeeds |
| ControlPanel.Toggle | WindowApp.py:294-298 | switching on only starts, switching off only stops, and the recorded process changes only through a launch or a successful kill |
| ControlPanel.StartsCleanlyOnce | WindowApp.py:175-176 | a window starts the monitor cleanly at most once in its life, because its one thread can be started only once |
| ControlPanel.SecondLaunchRaises | WindowApp.py:294-320 | from the initial window, the click sequence on, off, on launches the monitor, runs `taskkill` (stopped or failed, as it reports), launches a second monitor and then raises on re-starting the one-shot thread; the window ends with a process handle and a started thread |
| CrossProcess.RecordBodyShape | Main-App.py:42 | a detection record is one line: stamp, " - ", message, newline; stripping gives the line back, and the stamp part holds neither marker's first letter |
| CrossProcess.MessagePanels | WindowApp.py:212-223 | correct posture's message highlights the correct panel, incorrect posture's the incorrect one, and the no-hands and one-hand messages leave both neutral |
| CrossProcess.RecordDrivesPanel | WindowApp.py:206-242 | on a log of whole lines that ends with the record of a logged verdict, `updateStatusLabel` computes that verdict's panel |
| CrossProcess.PanelAfterRun | WindowApp.py:202-242 | on the log after the capture loop has appended its records, `updateStatusLabel` computes the panel of the last verdict logged, or the panel of the log before the run if nothing was logged |
| Text.Strip | WindowApp.py:211 | `strip()` keeps a contiguous slice, drops only whitespace, and leaves no whitespace at either end |
| Text.Contains | WindowApp.py:212 | `p in s` holds exactly when `p` occurs in `s` at some position, case-sensitively |
| Text.FirstLineShape | Main-App.py:159 | `readline()` returns a prefix with no newline before its end, which is the whole text or ends in a newline |
| Text.LinesShape | WindowApp.py:209 | `readlines()` returns no empty line, a newline ends every line but the last, and no line holds a newline before its end |
| Text.LinesJoin | WindowApp.py:209 | joining the lines `readlines()` returns gives back the whole text |
| Text.LinesAppendLine | WindowApp.py:209-211 | appending one whole line to a text of whole lines adds exactly that line at the end of `readlines()` |
| Text.Pad | Main-App.py:350 | a zero-padded field of width w is exactly w digits spelling the number |
| Text.PadInjective | Main-App.py:350 | two fields of the same width are equal exactly when their numbers are |
| Text.MicrosToMillis | Main-App.py:350 | cutting three characters off the six-digit microsecond field leaves the three-digit millisecond field |

## Left out

- Camera, MediaPipe detector, classifier and WMI device listing are inputs: the hands found, an `Option<real>` probability (`None` when `predict_proba` raises), whether a USB camera is listed, and which indices open.
- Threads, the `schedule` library, the thread pool in `save_image_and_log` and `time.sleep` are not modelled as concurrency. Sleeps and alert threads are effects in issue order. The image write is placed before its log line.
- Loops that run forever (`start`, `initialize_camera`, `follow_log`, `LogReaderThread.run`, the health-check schedule) are modelled over any finite prefix of their passes. The loop's observations (camera state, frame, clock, flag, key) are per-pass inputs, including changes made by other threads.
- The break reminders (`check_break_time`, `break_duration`, `notify_take_break`) are wall-clock timing with no decision in them. `check_break_time` is never called.
- `show_notification`, the camera-missing dialog (Main-App.py:255-266), is defined but never called, so it is not modelled.
- The start dialog enters the model only through its effect: Cancel leaves `running` false, which `CameraLoop.Start` takes as an input. The start notification carries no decision.
- GUI layout and styling are not modelled: squares, labels, pixmaps, tray icon, button styles, mute and volume control through pycaw, and the log dialog's text widget.
- `find_executable`'s walk of the disk is an input (found or not). Launching and killing the monitor are returned as commands. Whether `taskkill` succeeds is an input.
- Path helpers (`get_appdata_path`, `resource_path`, `get_log_directory`, the detection-log path) and the diagnostics written to camera.log and to the console are left out. They depend on the file system, and nothing reads them.
- Exceptions other than those the code names are not modelled:
  - the outer handler of `start`, which calls `stop` twice;
  - the catch-all in `follow_log`;
  - write errors in `write_log`;
  - read errors in `updateStatusLabel`.
  `start` is modelled calling `stop` once.
- Qt's handling of an exception raised inside a slot is not modelled. `SecondLaunchRaises` stops at the raise.
- CameraLoop.Tick: one clock reading per frame serves as both the image name's time (`datetime.now()` in the image worker, Main-App.py:350) and the record's `asctime` (the creation time of the log record, Main-App.py:356). The two reads are not told apart, so two stamps a few microseconds apart appear as one.
- CrossProcess.PanelAfterRun: states what `updateStatusLabel` would compute on the log after a run. The GUI calls it only at start-up (WindowApp.py:189), so it does not redraw the panel after a run.
- Detection.AscTime: the year is printed with four digits. Years below 1000 are not modelled differently.
- Detection.VerdictOf: probabilities are exact reals, not floats. The threshold test is the same comparison.
- LogViewer.ReadNew: the value of `tell()` is taken to be the character offset. The file is the text after newline translation.
- LogViewer.ReadNew: the race between `os.path.exists` and `open` is not modelled. A file is present or absent for the whole poll.
- ControlPanel.Clicks: states only that there is one outcome per click. What the clicks do is stated by `Toggle` and `StartsCleanlyOnce`.
