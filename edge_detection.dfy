/**
  The button edge detector of run.py (`_print_values`): four module globals, compared and
  overwritten on every pass, and a priority chain that reacts to at most one gesture.
  The pointer and process calls it makes are represented by the actions it emits.
 */
module EdgeDetection {
  import opened Wrappers

  /** PyMouse's button 1 (primary) and button 2 (secondary). */
  datatype MouseButton = Left | Right

  /**
    What a pass asks of the outside world: a press, release or click of a mouse button at
    the current pointer position, or launching (`ShowKeyboard`) or killing (`HideKeyboard`)
    the on-screen keyboard process.
   */
  datatype Action =
    | Press(button: MouseButton)
    | Release(button: MouseButton)
    | Click(button: MouseButton)
    | ShowKeyboard
    | HideKeyboard

  /** The output of the priority chain: the actions and the new keyboard flag. */
  datatype Reaction = Reaction(actions: seq<Action>, keyboardVisible: bool)

  /** The four module globals: `previous_values`, `previous_axes`, `keyboard_visible`, `value_counter`. */
  datatype Detector = Detector(
    prev: Option<seq<bool>>,
    prevAxes: Option<seq<real>>,
    keyboardVisible: bool,
    counter: nat)

  /** The globals as the module defines them before any event arrives. */
  const Startup: Detector := Detector(None, None, false, 0)

  /**
    One pass: it either finishes (`Done`) or stops at an IndexError (`Raised`); either way
    `after` holds the globals as the pass leaves them.
   */
  datatype PassResult = Done(actions: seq<Action>, after: Detector) | Raised(after: Detector)

  /** The actions of a single branch of the chain: none, one press, one release, a double click or one keyboard request. */
  predicate SingleGesture(acts: seq<Action>)
  {
    acts == [] ||
    (|acts| == 1 && !acts[0].Click?) ||
    (|acts| == 2 && acts[0].Click? && acts[1] == acts[0])
  }

  /** The keyboard action a toggle emits: hide it when it is visible, show it otherwise. */
  function ToggleAction(keyboardVisible: bool): Action
  {
    if keyboardVisible then HideKeyboard else ShowKeyboard
  }

  /**
    The if/elif chain on the current and the previous button lists. None is the IndexError
    raised when one of the entries it reads is missing (a controller with fewer than eight
    buttons, or a shorter previous list left by another device).
   */
  function Decide(prev: seq<bool>, buttons: seq<bool>, keyboardVisible: bool): (r: Option<Reaction>)
    ensures r.Some? ==> SingleGesture(r.value.actions)
    ensures r.Some? ==>
      (r.value.keyboardVisible != keyboardVisible <==> r.value.actions == [ToggleAction(keyboardVisible)])
    ensures |buttons| >= 8 && |prev| >= 2 ==> r.Some?
  {
    if |buttons| < 1 || |prev| < 1 then None
    else if buttons[0] != prev[0] then
      Some(Reaction(if buttons[0] then [Press(Left)] else [Release(Left)], keyboardVisible))
    else if |buttons| < 2 || |prev| < 2 then None
    else if buttons[1] != prev[1] then
      Some(Reaction(if buttons[1] then [Press(Right)] else [Release(Right)], keyboardVisible))
    else if |buttons| < 3 then None
    else if buttons[2] then Some(Reaction([Click(Left), Click(Left)], keyboardVisible))
    else if |buttons| < 4 then None
    else if buttons[3] then Some(Reaction([Click(Right), Click(Right)], keyboardVisible))
    else if |buttons| < 8 then None
    else if buttons[7] then Some(Reaction([ToggleAction(keyboardVisible)], !keyboardVisible))
    else Some(Reaction([], keyboardVisible))
  }

  /** The list the chain compares against: the stored one, or the current one on the first pass. */
  function Baseline(s: Detector, buttons: seq<bool>): seq<bool>
  {
    if s.prev.None? then buttons else s.prev.value
  }

  /**
    One call of `_print_values`: initialise the globals on the first call, run the chain,
    then hand the current lists over as the previous ones and count the pass.
   */
  function Pass(s: Detector, axes: seq<real>, buttons: seq<bool>): (r: PassResult)
    ensures r.Done? ==>
      r.after.prev == Some(buttons) && r.after.prevAxes == Some(axes) && r.after.counter == s.counter + 1
    ensures r.Raised? ==>
      r.after.counter == s.counter && r.after.keyboardVisible == s.keyboardVisible &&
      r.after.prev == Some(Baseline(s, buttons))
    ensures r.Raised? && s.prev.Some? ==> r.after == s
  {
    var s1 := if s.prev.None? then s.(prev := Some(buttons), prevAxes := Some(axes)) else s;
    match Decide(s1.prev.value, buttons, s.keyboardVisible)
    case None => Raised(s1)
    case Some(reaction) =>
      Done(reaction.actions,
           Detector(Some(buttons), Some(axes), reaction.keyboardVisible, s.counter + 1))
  }

  /** With eight buttons and a previous list of at least two, a pass never raises. */
  lemma PassTotal(s: Detector, axes: seq<real>, buttons: seq<bool>)
    requires |buttons| >= 8 && |Baseline(s, buttons)| >= 2
    ensures Pass(s, axes, buttons).Done?
  {
  }

  /**
    A controller with four to seven buttons raises when none of buttons 0-3 triggers,
    because the chain then reads button 7; the pass is not counted.
   */
  lemma ShortControllerRaises(s: Detector, axes: seq<real>, buttons: seq<bool>)
    requires 4 <= |buttons| < 8 && |Baseline(s, buttons)| >= 2
    requires buttons[0] == Baseline(s, buttons)[0] && buttons[1] == Baseline(s, buttons)[1]
    requires !buttons[2] && !buttons[3]
    ensures Pass(s, axes, buttons).Raised?
    ensures Pass(s, axes, buttons).after.counter == s.counter
  {
  }

  /** On the first pass the previous list is the current one, so no press or release is emitted. */
  lemma FirstPassNoEdge(s: Detector, axes: seq<real>, buttons: seq<bool>)
    requires s.prev.None?
    ensures var r := Pass(s, axes, buttons);
      r.Done? ==> forall k :: 0 <= k < |r.actions| ==> !r.actions[k].Press? && !r.actions[k].Release?
  {
  }

  /**
    A change of button 0 emits exactly one primary press when it is now down and exactly
    one primary release when it is now up, and leaves the keyboard flag alone.
   */
  lemma PrimaryEdge(s: Detector, axes: seq<real>, buttons: seq<bool>)
    requires |buttons| >= 1 && |Baseline(s, buttons)| >= 1
    requires buttons[0] != Baseline(s, buttons)[0]
    ensures Pass(s, axes, buttons) ==
      Done(if buttons[0] then [Press(Left)] else [Release(Left)],
           Detector(Some(buttons), Some(axes), s.keyboardVisible, s.counter + 1))
  {
  }

  /** The same for button 1 and the secondary mouse button, when button 0 did not change. */
  lemma SecondaryEdge(s: Detector, axes: seq<real>, buttons: seq<bool>)
    requires |buttons| >= 2 && |Baseline(s, buttons)| >= 2
    requires buttons[0] == Baseline(s, buttons)[0] && buttons[1] != Baseline(s, buttons)[1]
    ensures Pass(s, axes, buttons) ==
      Done(if buttons[1] then [Press(Right)] else [Release(Right)],
           Detector(Some(buttons), Some(axes), s.keyboardVisible, s.counter + 1))
  {
  }

  /**
    With buttons 0 and 1 unchanged, a held button 2 emits two primary clicks, and otherwise
    a held button 3 emits two secondary clicks, on every pass it is held.
   */
  lemma HeldDoubleClick(s: Detector, axes: seq<real>, buttons: seq<bool>)
    requires |buttons| >= 3 && |Baseline(s, buttons)| >= 2
    requires buttons[0] == Baseline(s, buttons)[0] && buttons[1] == Baseline(s, buttons)[1]
    requires buttons[2] || (|buttons| >= 4 && buttons[3])
    ensures Pass(s, axes, buttons) ==
      Done(if buttons[2] then [Click(Left), Click(Left)] else [Click(Right), Click(Right)],
           Detector(Some(buttons), Some(axes), s.keyboardVisible, s.counter + 1))
  {
  }

  /**
    With no earlier branch taken, a held button 7 flips the keyboard flag and asks for the
    keyboard to be hidden when it was visible and shown otherwise; with button 7 up as well
    the pass emits nothing.
   */
  lemma KeyboardBranch(s: Detector, axes: seq<real>, buttons: seq<bool>)
    requires |buttons| >= 8 && |Baseline(s, buttons)| >= 2
    requires buttons[0] == Baseline(s, buttons)[0] && buttons[1] == Baseline(s, buttons)[1]
    requires !buttons[2] && !buttons[3]
    ensures Pass(s, axes, buttons) ==
      if buttons[7] then
        Done([ToggleAction(s.keyboardVisible)],
             Detector(Some(buttons), Some(axes), !s.keyboardVisible, s.counter + 1))
      else
        Done([], Detector(Some(buttons), Some(axes), s.keyboardVisible, s.counter + 1))
  {
  }

  /**
    The converse of PrimaryEdge and SecondaryEdge: a finished pass emits a press or a release
    exactly when button 0 or button 1 differs from the previous list, and then the direction
    follows the button's new state.
   */
  lemma EdgeOnlyOnChange(s: Detector, axes: seq<real>, buttons: seq<bool>)
    requires Pass(s, axes, buttons).Done?
    ensures var acts := Pass(s, axes, buttons).actions; var p := Baseline(s, buttons);
      |buttons| >= 1 && |p| >= 1 &&
      ((|acts| == 1 && (acts[0].Press? || acts[0].Release?)) <==>
        (buttons[0] != p[0] || (|buttons| >= 2 && |p| >= 2 && buttons[1] != p[1])))
    ensures var acts := Pass(s, axes, buttons).actions;
      |acts| == 1 && acts[0].Press? ==> (if acts[0].button == Left then buttons[0] else buttons[1])
    ensures var acts := Pass(s, axes, buttons).actions;
      |acts| == 1 && acts[0].Release? ==> (if acts[0].button == Left then !buttons[0] else !buttons[1])
  {
  }

  /**
    The converse of KeyboardBranch: a finished pass changes the keyboard flag exactly when
    buttons 0 and 1 are unchanged, buttons 2 and 3 are up and button 7 is held.
   */
  lemma KeyboardOnlyWhenHeld(s: Detector, axes: seq<real>, buttons: seq<bool>)
    requires Pass(s, axes, buttons).Done?
    ensures var r := Pass(s, axes, buttons); var p := Baseline(s, buttons);
      r.after.keyboardVisible != s.keyboardVisible <==>
        (|buttons| >= 8 && |p| >= 2 && buttons[0] == p[0] && buttons[1] == p[1] &&
         !buttons[2] && !buttons[3] && buttons[7])
    ensures var r := Pass(s, axes, buttons);
      r.after.keyboardVisible != s.keyboardVisible <==> r.actions == [ToggleAction(s.keyboardVisible)]
  {
  }

  /**
    A pass after a finished pass, with the same button list, sees no change: it emits no
    press or release, only what the held buttons 2, 3 and 7 ask for, and nothing at all
    when those are up.
   */
  lemma RepeatPass(s: Detector, axes: seq<real>, buttons: seq<bool>, axes2: seq<real>)
    requires Pass(s, axes, buttons).Done?
    ensures var r := Pass(Pass(s, axes, buttons).after, axes2, buttons);
      r.Done? ==> forall k :: 0 <= k < |r.actions| ==> !r.actions[k].Press? && !r.actions[k].Release?
    ensures |buttons| >= 8 && !buttons[2] && !buttons[3] && !buttons[7] ==>
      Pass(Pass(s, axes, buttons).after, axes2, buttons).Done? &&
      Pass(Pass(s, axes, buttons).after, axes2, buttons).actions == []
  {
  }

  /**
    Button 7 is level-triggered: two passes that both take the keyboard branch, the second
    with the same buttons, emit show then hide (or hide then show) and end with the flag
    as it started.
   */
  lemma KeyboardTwiceRestores(s: Detector, axes: seq<real>, axes2: seq<real>, buttons: seq<bool>)
    requires Pass(s, axes, buttons).Done?
    requires Pass(s, axes, buttons).after.keyboardVisible != s.keyboardVisible
    ensures var r2 := Pass(Pass(s, axes, buttons).after, axes2, buttons);
      r2.Done? && r2.actions == [ToggleAction(!s.keyboardVisible)] &&
      r2.after.keyboardVisible == s.keyboardVisible
  {
  }

  /**
    The module globals of run.py as one object. Step is one call of `_print_values` with the
    current axis and button lists, which it reads and copies but does not change.
   */
  class EdgeDetector {
    var prev: Option<seq<bool>>
    var prevAxes: Option<seq<real>>
    var keyboardVisible: bool
    var counter: nat

    /** The globals as a value. */
    function State(): Detector
      reads this
    {
      Detector(prev, prevAxes, keyboardVisible, counter)
    }

    constructor ()
      ensures State() == Startup
    {
      prev, prevAxes, keyboardVisible, counter := None, None, false, 0;
    }

    method Step(axes: array<real>, buttons: array<bool>) returns (r: PassResult)
      modifies this
      ensures r == Pass(old(State()), axes[..], buttons[..])
      ensures State() == r.after
    {
      if prev.None? {
        prev := Some(buttons[..]);
        prevAxes := Some(axes[..]);
      }
      var p := prev.value;
      var actions: seq<Action> := [];
      if buttons.Length < 1 || |p| < 1 {
        return Raised(State());
      }
      if buttons[0] != p[0] {
        if buttons[0] {
          actions := [Press(Left)];
        } else {
          actions := [Release(Left)];
        }
      } else {
        if buttons.Length < 2 || |p| < 2 {
          return Raised(State());
        }
        if buttons[1] != p[1] {
          if buttons[1] {
            actions := [Press(Right)];
          } else {
            actions := [Release(Right)];
          }
        } else {
          if buttons.Length < 3 {
            return Raised(State());
          }
          if buttons[2] {
            actions := [Click(Left), Click(Left)];
          } else {
            if buttons.Length < 4 {
              return Raised(State());
            }
            if buttons[3] {
              actions := [Click(Right), Click(Right)];
            } else {
              if buttons.Length < 8 {
                return Raised(State());
              }
              if buttons[7] {
                if keyboardVisible {
                  actions := [HideKeyboard];
                  keyboardVisible := false;
                } else {
                  actions := [ShowKeyboard];
                  keyboardVisible := true;
                }
              }
            }
          }
        }
      }
      prev := Some(buttons[..]);
      prevAxes := Some(axes[..]);
      counter := counter + 1;
      r := Done(actions, State());
    }
  }
}
