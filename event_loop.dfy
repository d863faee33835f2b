/**
  The event loop of one device (run.py, `_joystick_event_loop`): wait for an event, apply it
  to the device's snapshot, run the edge detector, until a quit event or an uncaught error.
  The blocking wait is replaced by a finite list of the events the queue delivers.
 */
module EventLoop {
  import opened Wrappers
  import opened Events
  import opened EdgeDetection

  /**
    How the loop stands once the given events are used up: stopped by a quit event, killed
    by an IndexError, or still waiting for the next event.
   */
  datatype Ending = Quitted | Crashed | Waiting

  /**
    What a run of the loop produced: every action emitted, how it ended, how many events it
    took from the queue, and the snapshot and detector globals it left behind.
   */
  datatype Trace = Trace(
    actions: seq<Action>,
    ending: Ending,
    consumed: nat,
    snapshot: Snapshot,
    detector: Detector)

  /** A trace that comes after `consumed` earlier events which emitted `actions`. */
  function After(actions: seq<Action>, consumed: nat, t: Trace): Trace
  {
    t.(actions := actions + t.actions, consumed := consumed + t.consumed)
  }

  /** Two prefixes in a row are one prefix. */
  lemma AfterAfter(a: seq<Action>, n: nat, b: seq<Action>, m: nat, t: Trace)
    ensures After(a, n, After(b, m, t)) == After(a + b, n + m, t)
  {
    assert a + (b + t.actions) == (a + b) + t.actions;
  }

  /**
    The loop over a stream of events. Each event updates the snapshot and then runs one
    detector pass, a quit event included; the loop stops after the quit event's pass, or at
    the first IndexError, which nothing catches.
   */
  function Run(events: seq<Event>, s: Snapshot, d: Detector): (t: Trace)
    ensures t.consumed <= |events|
    ensures t.ending.Waiting? ==> t.consumed == |events|
    decreases |events|
  {
    if events == [] then Trace([], Waiting, 0, s, d)
    else match Update(s, events[0])
      case None => Trace([], Crashed, 1, s, d)
      case Some(s1) =>
        match Pass(d, s1.axes, s1.buttons)
        case Raised(d1) => Trace([], Crashed, 1, s1, d1)
        case Done(acts, d1) =>
          if events[0].Quit? then Trace(acts, Quitted, 1, s1, d1)
          else After(acts, 1, Run(events[1..], s1, d1))
  }

  /** True when no event in the list is a quit event. */
  predicate NoQuit(events: seq<Event>)
  {
    forall k :: 0 <= k < |events| ==> !events[k].Quit?
  }

  /**
    The loop takes events up to and including the first quit event and no further; every
    event it takes runs one counted pass, except the one that crashed it.
   */
  lemma {:induction false} RunConsumes(events: seq<Event>, s: Snapshot, d: Detector)
    ensures var t := Run(events, s, d);
      (t.ending.Crashed? ==> t.consumed >= 1 && t.detector.counter == d.counter + t.consumed - 1) &&
      (!t.ending.Crashed? ==> t.detector.counter == d.counter + t.consumed)
    ensures var t := Run(events, s, d);
      t.ending.Quitted? ==>
        t.consumed >= 1 && events[t.consumed - 1].Quit? && NoQuit(events[..t.consumed - 1])
    ensures var t := Run(events, s, d);
      t.ending.Waiting? ==> NoQuit(events)
    decreases |events|
  {
    if events != [] {
      match Update(s, events[0])
      case None =>
      case Some(s1) =>
        match Pass(d, s1.axes, s1.buttons)
        case Raised(d1) =>
        case Done(acts, d1) =>
          if !events[0].Quit? {
            RunConsumes(events[1..], s1, d1);
            var t := Run(events[1..], s1, d1);
            if t.ending.Quitted? {
              assert events[..t.consumed] == [events[0]] + events[1..][..t.consumed - 1];
            }
            if t.ending.Waiting? {
              assert events == [events[0]] + events[1..];
            }
          }
    }
  }

  /** The snapshot keeps the axis and button counts the device reported at start-up. */
  lemma {:induction false} RunKeepsShape(events: seq<Event>, s: Snapshot, d: Detector)
    ensures |Run(events, s, d).snapshot.axes| == |s.axes|
    ensures |Run(events, s, d).snapshot.buttons| == |s.buttons|
    decreases |events|
  {
    if events != [] {
      match Update(s, events[0])
      case None =>
      case Some(s1) =>
        match Pass(d, s1.axes, s1.buttons)
        case Raised(d1) =>
        case Done(acts, d1) =>
          if !events[0].Quit? {
            RunKeepsShape(events[1..], s1, d1);
          }
    }
  }

  /**
    After a run that took at least one event and did not crash, the detector's previous
    lists are the snapshot's lists.
   */
  lemma {:induction false} RunHandsOver(events: seq<Event>, s: Snapshot, d: Detector)
    requires Run(events, s, d).consumed >= 1 && !Run(events, s, d).ending.Crashed?
    ensures Run(events, s, d).detector.prev == Some(Run(events, s, d).snapshot.buttons)
    ensures Run(events, s, d).detector.prevAxes == Some(Run(events, s, d).snapshot.axes)
    decreases |events|
  {
    var s1 := Update(s, events[0]).value;
    var d1 := Pass(d, s1.axes, s1.buttons).after;
    if !events[0].Quit? && Run(events[1..], s1, d1).consumed >= 1 {
      RunHandsOver(events[1..], s1, d1);
    }
  }

  /** True when every event names an axis or a button the snapshot has. */
  predicate InRange(s: Snapshot, events: seq<Event>)
  {
    forall k :: 0 <= k < |events| ==> !OutOfRange(s, events[k])
  }

  /**
    A device with at least eight buttons whose events stay in range never crashes, provided
    the previous list left by any other device has at least two entries.
   */
  lemma {:induction false} RunWithoutCrash(events: seq<Event>, s: Snapshot, d: Detector)
    requires |s.buttons| >= 8 && InRange(s, events)
    requires d.prev.None? || |d.prev.value| >= 2
    ensures !Run(events, s, d).ending.Crashed?
    decreases |events|
  {
    if events != [] {
      assert !OutOfRange(s, events[0]);
      var s1 := Update(s, events[0]).value;
      PassTotal(d, s1.axes, s1.buttons);
      var d1 := Pass(d, s1.axes, s1.buttons).after;
      if !events[0].Quit? {
        assert InRange(s1, events[1..]) by {
          forall k | 0 <= k < |events[1..]|
            ensures !OutOfRange(s1, events[1..][k])
          {
            assert events[1..][k] == events[k + 1];
          }
        }
        RunWithoutCrash(events[1..], s1, d1);
      }
    }
  }

  /**
    A quit event still runs one detector pass on the unchanged lists, then stops the loop
    (unless that pass raises).
   */
  lemma QuitRunsFinalPass(events: seq<Event>, s: Snapshot, d: Detector)
    requires events != [] && events[0].Quit?
    ensures var t := Run(events, s, d);
      t.consumed == 1 && t.snapshot == s &&
      match Pass(d, s.axes, s.buttons)
      case Done(acts, d1) => t.ending == Quitted && t.actions == acts && t.detector == d1
      case Raised(d1) => t.ending == Crashed && t.actions == [] && t.detector == d1
  {
  }

  /** One step of Run, the first event's case made explicit. */
  lemma RunFirstEvent(events: seq<Event>, s: Snapshot, d: Detector)
    requires events != []
    ensures Update(s, events[0]).None? ==> Run(events, s, d) == Trace([], Crashed, 1, s, d)
    ensures Update(s, events[0]).Some? ==>
      var s1 := Update(s, events[0]).value;
      var r := Pass(d, s1.axes, s1.buttons);
      Run(events, s, d) ==
        if r.Raised? then Trace([], Crashed, 1, s1, r.after)
        else if events[0].Quit? then Trace(r.actions, Quitted, 1, s1, r.after)
        else After(r.actions, 1, Run(events[1..], s1, r.after))
  {
  }

  /**
    The loop of one device with `numAxes` axes and `numButtons` buttons, fed the events the
    queue delivers, sharing the detector `d` with the other devices' loops.
   */
  method JoystickEventLoop(d: EdgeDetector, numAxes: nat, numButtons: nat, events: seq<Event>)
    returns (actions: seq<Action>, ending: Ending, consumed: nat)
    modifies d
    ensures var t := Run(events, Initial(numAxes, numButtons), old(d.State()));
      actions == t.actions && ending == t.ending && consumed == t.consumed && d.State() == t.detector
  {
    var axes := new real[numAxes](_ => 0.0);
    var buttons := new bool[numButtons](_ => false);
    assert Snapshot(axes[..], buttons[..]) == Initial(numAxes, numButtons);
    ghost var whole := Run(events, Initial(numAxes, numButtons), d.State());
    actions, ending, consumed := [], Waiting, 0;
    var keepAlive := true;
    while keepAlive && consumed < |events|
      invariant consumed <= |events|
      invariant keepAlive ==> ending == Waiting
      invariant keepAlive ==>
        whole == After(actions, consumed, Run(events[consumed..], Snapshot(axes[..], buttons[..]), d.State()))
      invariant !keepAlive ==> whole == Trace(actions, ending, consumed, Snapshot(axes[..], buttons[..]), d.State())
      decreases |events| - consumed, keepAlive
    {
      var event := events[consumed];
      ghost var rest := events[consumed..];
      ghost var s0 := Snapshot(axes[..], buttons[..]);
      ghost var d0 := d.State();
      assert rest[0] == event && rest[1..] == events[consumed + 1..];
      RunFirstEvent(rest, s0, d0);
      consumed := consumed + 1;
      var raised := false;
      if event.Quit? {
        keepAlive := false;
      } else {
        raised := ApplyEvent(axes, buttons, event);
      }
      assert raised <==> Update(s0, event).None?;
      if raised {
        keepAlive, ending := false, Crashed;
      } else {
        assert Snapshot(axes[..], buttons[..]) == Update(s0, event).value;
        var r := d.Step(axes, buttons);
        if r.Raised? {
          keepAlive, ending := false, Crashed;
        } else {
          ghost var tail := Run(events[consumed..], Snapshot(axes[..], buttons[..]), d.State());
          AfterAfter(actions, consumed - 1, r.actions, 1, tail);
          actions := actions + r.actions;
          if !keepAlive {
            ending := Quitted;
          }
        }
      }
    }
  }
}
