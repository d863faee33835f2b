/**
  The axis and button snapshot kept by one device's event loop (run.py, `_joystick_event_loop`)
  and the update one device event makes to it.
 */
module Events {
  import opened Wrappers

  /**
    A device event as the event queue delivers it. `Button` stands for both JOYBUTTONDOWN
    (`down`) and JOYBUTTONUP (not `down`); the loop treats the two alike. `Other` is every
    event type the loop does not test for (hats, balls, device added, ...).
   */
  datatype Event =
    | Quit
    | AxisMotion(axis: nat, value: real)
    | Button(button: nat, down: bool)
    | Other

  /** One value per axis and one pressed flag per button, as the loop keeps them. */
  datatype Snapshot = Snapshot(axes: seq<real>, buttons: seq<bool>)

  /** The snapshot a loop starts from: every axis at 0.0, every button up. */
  function Initial(numAxes: nat, numButtons: nat): (s: Snapshot)
    ensures |s.axes| == numAxes && |s.buttons| == numButtons
    ensures forall i :: 0 <= i < numAxes ==> s.axes[i] == 0.0
    ensures forall i :: 0 <= i < numButtons ==> !s.buttons[i]
  {
    Snapshot(seq(numAxes, _ => 0.0), seq(numButtons, _ => false))
  }

  /** True when the event names an axis or a button the snapshot does not have. */
  predicate OutOfRange(s: Snapshot, e: Event)
  {
    (e.AxisMotion? && e.axis >= |s.axes|) || (e.Button? && e.button >= |s.buttons|)
  }

  /**
    The snapshot after one event. None is the IndexError that an index out of range raises;
    the assignment that raises it changes nothing.
   */
  function Update(s: Snapshot, e: Event): (r: Option<Snapshot>)
    ensures r.None? <==> OutOfRange(s, e)
    ensures r.Some? ==> |r.value.axes| == |s.axes| && |r.value.buttons| == |s.buttons|
    ensures r.Some? && e.AxisMotion? ==>
      r.value.buttons == s.buttons && r.value.axes[e.axis] == e.value &&
      forall j :: 0 <= j < |s.axes| && j != e.axis ==> r.value.axes[j] == s.axes[j]
    ensures r.Some? && e.Button? ==>
      r.value.axes == s.axes && r.value.buttons[e.button] == !s.buttons[e.button] &&
      forall j :: 0 <= j < |s.buttons| && j != e.button ==> r.value.buttons[j] == s.buttons[j]
    ensures e.Quit? || e.Other? ==> r == Some(s)
  {
    match e
    case AxisMotion(i, v) =>
      if i < |s.axes| then Some(s.(axes := s.axes[i := v])) else None
    case Button(i, _) =>
      if i < |s.buttons| then Some(s.(buttons := s.buttons[i := !s.buttons[i]])) else None
    case _ => Some(s)
  }

  /** Two button events on the same button, up or down in any order, give back the original snapshot. */
  lemma FlipTwice(s: Snapshot, i: nat, first: bool, second: bool)
    requires i < |s.buttons|
    ensures Update(s, Button(i, first)).Some?
    ensures Update(Update(s, Button(i, first)).value, Button(i, second)) == Some(s)
  {
    var s1 := Update(s, Button(i, first)).value;
    assert s1.buttons[i := !s1.buttons[i]] == s.buttons;
  }

  /**
    The body of one loop iteration on the two lists: an axis event stores its value, a
    button event flips its entry, anything else leaves both lists alone. `raised` reports
    the IndexError of an index out of range, in which case nothing was written.
   */
  method ApplyEvent(axes: array<real>, buttons: array<bool>, e: Event) returns (raised: bool)
    modifies axes, buttons
    ensures var r := Update(Snapshot(old(axes[..]), old(buttons[..])), e);
      raised == r.None? &&
      (r.Some? ==> axes[..] == r.value.axes && buttons[..] == r.value.buttons)
    ensures raised ==> axes[..] == old(axes[..]) && buttons[..] == old(buttons[..])
  {
    raised := false;
    match e {
      case AxisMotion(i, v) =>
        if i < axes.Length {
          axes[i] := v;
        } else {
          raised := true;
        }
      case Button(i, _) =>
        if i < buttons.Length {
          buttons[i] := !buttons[i];
        } else {
          raised := true;
        }
      case _ =>
    }
  }
}
