# ControllerPy: button edge detection and event ingestion

ControllerPy turns game-controller input into mouse input. Each controller has an event loop
that keeps a snapshot of its axis values and button states. After every event the loop calls
the edge detector. The detector compares the buttons with the list it saw last time and reacts
to at most one gesture per pass:

1. a primary press or release when button 0 changed;
2. otherwise, a secondary press or release when button 1 changed;
3. otherwise, a primary double click while button 2 is held;
4. otherwise, a secondary double click while button 3 is held;
5. otherwise, toggling the on-screen keyboard while button 7 is held.

After the chain the detector stores the current lists as the previous ones and counts the pass.

This project models that core in Dafny:

- `events.dfy`: the snapshot and the update one event makes to it. `Update` is the
  specification. `ApplyEvent` changes the two lists in place, as arrays.
- `edge_detection.dfy`: the priority chain (`Decide`) and one whole pass (`Pass`), both as
  functions. The class `EdgeDetector` holds the four module globals (`previous_values`,
  `previous_axes`, `keyboard_visible`, `value_counter`) as fields. Its `Step` method runs the
  if/elif chain imperatively and is proved equal to `Pass`.
- `event_loop.dfy`: the per-device loop. `Run` is the specification. `JoystickEventLoop`
  runs the `while keep_alive` loop over arrays and is proved equal to `Run`.

The pointer and process calls become emitted `Action` values: `Press`, `Release`, `Click`,
`ShowKeyboard` and `HideKeyboard`. The mouse buttons are `Left` and `Right`, PyMouse's
buttons 1 and 2.

Behaviour of the code that the model keeps:

- The detector does not require eight buttons. It reads `buttons[7]` only when no earlier
  branch fires. A missing entry raises IndexError. The loop catches only KeyboardInterrupt,
  so the error ends that device's loop. This is modelled as `Raised` (one pass) and `Crashed`
  (the loop). On the first call the previous lists are set before the error, so a pass that
  raises can still leave them set.
- `previous_values` is shared by every device's loop, so its length can differ from the
  current button list. Only its entries 0 and 1 are read.
- A quit event stops the loop, but the detector still runs one last pass for that event.
- Button-up and button-down events both flip the stored entry. Neither one sets it.
- Button 7 acts on the level, not the edge: the keyboard flag flips on every pass while the
  button is held.

## Model

| member | source | states |
|---|---|---|
| `Events.Initial` | run.py:69-70 | a loop starts with one 0.0 per reported axis and one released flag per reported button |
| `Events.Update` | run.py:76-81 | an axis event sets only that axis; a button event (up or down) flips only that button; quit and other events change nothing; an index out of range is an error that changes nothing; the list lengths never change |
| `Events.FlipTwice` | run.py:80-81 | two button events on the same button, in either direction, restore the original snapshot |
| `Events.ApplyEvent` | run.py:76-81 | the in-place update of the axis and button arrays equals `Update`, and an out-of-range index leaves both arrays unchanged |
| `EdgeDetection.Decide` | run.py:152-187 | the chain emits the actions of one branch at most (nothing, one press, one release, a double click of one button, or one keyboard request); the keyboard flag changes exactly when the toggle action for its old value is emitted; with eight buttons and at least two previous entries it never raises |
| `EdgeDetection.Pass` | run.py:140-209 | a finished pass leaves the previous buttons and axes equal to the current ones and adds exactly 1 to the counter; a pass that raises leaves the counter and the keyboard flag alone and changes the previous lists only on the first call |
| `EdgeDetection.PassTotal` | run.py:152-181 | a pass on eight or more buttons, with a previous list of at least two entries, always finishes |
| `EdgeDetection.ShortControllerRaises` | run.py:169-181 | a controller with four to seven buttons raises when buttons 0 and 1 are unchanged and 2 and 3 are up, and that pass is not counted |
| `EdgeDetection.FirstPassNoEdge` | run.py:140-168 | on the first pass no press and no release is emitted |
| `EdgeDetection.PrimaryEdge` | run.py:152-161 | a change of button 0 gives exactly one primary press if the button is now down, or one primary release if it is now up, and leaves the keyboard flag unchanged |
| `EdgeDetection.SecondaryEdge` | run.py:162-168 | with button 0 unchanged, a change of button 1 gives exactly one secondary press or release, following the button's new state |
| `EdgeDetection.HeldDoubleClick` | run.py:169-180 | with buttons 0 and 1 unchanged, a held button 2 gives two primary clicks; failing that, a held button 3 gives two secondary clicks |
| `EdgeDetection.KeyboardBranch` | run.py:181-187 | with no earlier branch taken, a held button 7 flips the keyboard flag and emits hide if it was visible and show otherwise; with button 7 up nothing is emitted |
| `EdgeDetection.EdgeOnlyOnChange` | run.py:152-168 | a finished pass emits a press or release if and only if button 0 or button 1 changed, and a press only for a button that is now down, a release only for one now up |
| `EdgeDetection.KeyboardOnlyWhenHeld` | run.py:181-187 | a finished pass changes the keyboard flag if and only if buttons 0 and 1 are unchanged, 2 and 3 are up and 7 is held, and exactly then emits the toggle action |
| `EdgeDetection.RepeatPass` | run.py:152-202 | a second pass on the same buttons emits no press or release, and emits nothing when buttons 2, 3 and 7 are up |
| `EdgeDetection.KeyboardTwiceRestores` | run.py:181-187 | two passes that take the keyboard branch on the same held buttons emit opposite requests and end with the original flag |
| `EdgeDetection.EdgeDetector.constructor` | run.py:14-18 | the globals start with no previous lists, the keyboard hidden and the counter at 0 |
| `EdgeDetection.EdgeDetector.Step` | run.py:134-209 | one call on the current arrays returns what `Pass` gives for the old globals and leaves the globals equal to that result |
| `EventLoop.Run` | run.py:68-85 | the loop never takes more events than it is given, and it takes all of them when it ends up waiting |
| `EventLoop.RunConsumes` | run.py:72-83 | the loop takes events up to and including the first quit event; each event it takes adds one to the counter, except the event that crashed it |
| `EventLoop.RunKeepsShape` | run.py:69-81 | the axis and button lists keep the lengths the device reported |
| `EventLoop.RunHandsOver` | run.py:73-83 | after a run that took an event and did not crash, the previous lists equal the snapshot's lists |
| `EventLoop.RunWithoutCrash` | run.py:73-85 | a device with eight or more buttons whose events are in range never crashes, provided any previous list has at least two entries |
| `EventLoop.QuitRunsFinalPass` | run.py:76-83 | a quit event leaves the snapshot unchanged, runs one final pass, then stops the loop |
| `EventLoop.JoystickEventLoop` | run.py:68-85 | the imperative loop over arrays emits the actions of `Run`, ends the same way, takes the same number of events and leaves the detector in the same state |

## Left out

- `_mouse_movement_loop` (run.py:88-131): the fifth-power response curve, the dead zone and the `int()` truncation work on floating-point values, inside an endless polling loop around `time.sleep`.
- Device enumeration and `pygame.event.wait` (run.py:21-32, run.py:75) are I/O. The event stream is a parameter, so a loop that runs out of events ends as `Waiting`. Events are not filtered by device in the source, and the model takes the stream as given.
- Threads (run.py:41-65, run.py:212-219): the detector object is shared by every device's loop, but interleaving between loops is not modelled. Each loop is one sequential run.
- The `except KeyboardInterrupt` branch (run.py:84-85): Python delivers that signal only to the main thread, and these loops run in other threads.
- PyMouse calls, `mouse.position()`, `time.sleep(.005)` and `subprocess.Popen` (run.py:155-186) are side effects. They appear only as emitted actions. Pointer positions, the 5 ms pause between the two clicks, and failures of these calls (for example a missing `onboard` program) are not modelled.
- The `axes_string` and `buttons_string` formatting and the `print` calls (run.py:144-153) are debug output whose values are never used.
- Axis values are Dafny `real`, not floats. The detector and the loop only store and copy them.
- setup.py is packaging only.
