/**
  The dark-mode switch: a click flips it, a drag moves the thumb inside the
  track and its release decides the new state from where the thumb ended.
  The state is kept in two class flags (`active` on the switch, `dark-mode`
  on the body) and persisted under one storage key.
 */
module DarkMode {
  import opened Wrappers

  /** The storage key the preference lives under. */
  const STORAGE_KEY: string := "darkMode"
  const THUMB_WIDTH: int := 18
  /** Track border allowance subtracted from the travel. */
  const TRACK_BORDERS: int := 2
  /** Thumb offset written by a click towards "on", also the drag origin when on. */
  const ON_OFFSET: int := 21
  /** Thumb offset written by a release on the "on" side. */
  const SNAP_ON_OFFSET: int := 23

  /** JavaScript's Boolean.prototype.toString. */
  function BoolString(b: bool): (s: string)
    ensures (s == "true") == b
    ensures b ==> s == "true"
    ensures !b ==> s == "false"
  {
    if b then "true" else "false"
  }

  /** Everything the switch's handlers read or write. */
  datatype Toggle = Toggle(
    active: bool,             // `active` class on the switch
    darkBody: bool,           // `dark-mode` class on the body
    stored: Option<string>,   // value under the key STORAGE_KEY, None when absent
    writes: nat,              // number of storage writes so far
    isDragging: bool,
    startX: int,
    startLeft: int,
    thumbX: Option<int>,      // last inline translateX of the thumb, None before any
    transitionOff: bool)      // inline transition disabled by a drag move

  /** The two class flags agree. */
  predicate Consistent(t: Toggle)
  {
    t.active == t.darkBody
  }

  /** Reloading the page would restore the current state. */
  predicate ReloadAgrees(t: Toggle)
  {
    (t.stored == Some("true")) == t.active
  }

  /** Page load: dark exactly when the stored value is the string "true". */
  function Load(saved: Option<string>): (t: Toggle)
    ensures t.active <==> saved == Some("true")
    ensures Consistent(t) && ReloadAgrees(t)
    ensures t.stored == saved && t.writes == 0 && !t.isDragging && t.thumbX == None
    ensures t.startX == 0 && t.startLeft == 0 && !t.transitionOff
  {
    var on := saved == Some("true");
    Toggle(on, on, saved, 0, false, 0, 0, None, false)
  }

  /** Flip both flags and persist the body flag, but only when the requested state differs. */
  function UpdateMode(t: Toggle, shouldBeActive: bool): (r: Toggle)
    ensures shouldBeActive == t.active ==> r == t
    ensures shouldBeActive != t.active ==>
      r.active == shouldBeActive && r.darkBody == !t.darkBody &&
      r.stored == Some(BoolString(r.darkBody)) && r.writes == t.writes + 1
    ensures r.isDragging == t.isDragging && r.startX == t.startX && r.startLeft == t.startLeft
    ensures r.thumbX == t.thumbX && r.transitionOff == t.transitionOff
  {
    if shouldBeActive != t.active then
      var dark := !t.darkBody;
      t.(darkBody := dark, active := !t.active, stored := Some(BoolString(dark)), writes := t.writes + 1)
    else
      t
  }

  /** Requesting the current state changes nothing and writes nothing. */
  lemma UpdateSameIsNoOp(t: Toggle)
    ensures UpdateMode(t, t.active) == t
  {
  }

  /** Requesting the other state flips both flags and writes the new body flag once. */
  lemma UpdateOtherFlips(t: Toggle)
    ensures var r := UpdateMode(t, !t.active);
      r.active == !t.active && r.darkBody == !t.darkBody &&
      r.stored == Some(BoolString(r.darkBody)) && r.writes == t.writes + 1 &&
      r.isDragging == t.isDragging && r.startX == t.startX && r.startLeft == t.startLeft &&
      r.thumbX == t.thumbX && r.transitionOff == t.transitionOff
  {
  }

  /** On a consistent switch the result is the requested state, persisted when it changed. */
  lemma UpdateReachesRequest(t: Toggle, shouldBeActive: bool)
    requires Consistent(t) && ReloadAgrees(t)
    ensures var r := UpdateMode(t, shouldBeActive);
      r.active == shouldBeActive && Consistent(r) && ReloadAgrees(r) &&
      r.writes == t.writes + (if shouldBeActive == t.active then 0 else 1) &&
      (shouldBeActive != t.active ==> r.stored == Some(BoolString(shouldBeActive)))
  {
  }

  /** Click: ignored while dragging; otherwise move the thumb to the other end and flip. */
  function Click(t: Toggle): (r: Toggle)
    ensures t.isDragging ==> r == t
    ensures !t.isDragging ==>
      r.active == !t.active && r.darkBody == !t.darkBody && r.writes == t.writes + 1 &&
      r.stored == Some(BoolString(r.darkBody)) &&
      r.thumbX == Some(if r.active then ON_OFFSET else 0) && !r.isDragging &&
      r.startX == t.startX && r.startLeft == t.startLeft && r.transitionOff == t.transitionOff
  {
    if t.isDragging then t
    else
      var shouldBeActive := !t.active;
      UpdateMode(t.(thumbX := Some(if shouldBeActive then ON_OFFSET else 0)), shouldBeActive)
  }

  lemma ClickWhileDraggingIsNoOp(t: Toggle)
    requires t.isDragging
    ensures Click(t) == t
  {
  }

  /** A click that is not ignored flips the state with exactly one storage write. */
  lemma ClickFlips(t: Toggle)
    requires !t.isDragging && Consistent(t)
    ensures var r := Click(t);
      r.active == !t.active && Consistent(r) && r.writes == t.writes + 1 &&
      r.stored == Some(BoolString(r.active)) &&
      r.thumbX == Some(if r.active then ON_OFFSET else 0) && !r.isDragging
  {
  }

  /**
    Two clicks give back the original state, and the original stored value
    when that value already matched the state.
   */
  lemma ClickTwiceRestores(t: Toggle)
    requires !t.isDragging && Consistent(t)
    ensures Click(Click(t)).active == t.active && Click(Click(t)).darkBody == t.darkBody
    ensures Click(Click(t)).writes == t.writes + 2
    ensures Click(Click(t)).stored == Some(BoolString(t.active))
    ensures t.stored == Some(BoolString(t.active)) ==> Click(Click(t)).stored == t.stored
    ensures Click(Click(t)).thumbX == Some(if t.active then ON_OFFSET else 0)
    ensures t.thumbX == Some(if t.active then ON_OFFSET else 0) ==> Click(Click(t)).thumbX == t.thumbX
  {
    ClickFlips(t);
    ClickFlips(Click(t));
  }

  /**
    Two clicks do not give back a stored value that did not match the mode:
    from a load with nothing stored, they leave "false" where nothing was.
   */
  lemma ClickTwiceFromEmptyStorage()
    ensures Click(Click(Load(None))).stored == Some("false")
    ensures Click(Click(Load(None))).stored != Load(None).stored
    ensures Click(Click(Load(None))).active == Load(None).active
  {
  }

  /** Pressing the thumb (mouse or touch) starts a drag from the thumb's rest offset. */
  function PressThumb(t: Toggle, x: int): (r: Toggle)
    ensures r.isDragging && r.startX == x && r.startLeft == (if t.active then ON_OFFSET else 0)
    ensures r.active == t.active && r.darkBody == t.darkBody && r.stored == t.stored && r.writes == t.writes
    ensures r.thumbX == t.thumbX && r.transitionOff == t.transitionOff
  {
    t.(isDragging := true, startX := x, startLeft := if t.active then ON_OFFSET else 0)
  }

  /** Math.max(0, Math.min(newLeft, maxLeft)). */
  function ClampThumb(newLeft: int, maxLeft: int): (r: int)
    ensures 0 <= r
    ensures maxLeft >= 0 ==> r <= maxLeft
    ensures maxLeft < 0 ==> r == 0
    ensures 0 <= newLeft <= maxLeft ==> r == newLeft
    ensures newLeft <= 0 ==> r == 0
    ensures 0 <= maxLeft <= newLeft ==> r == maxLeft
  {
    var m := if newLeft <= maxLeft then newLeft else maxLeft;
    if 0 >= m then 0 else m
  }

  /** The thumb's travel inside a track of the given width. */
  function MaxLeft(trackWidth: int): int
  {
    trackWidth - THUMB_WIDTH - TRACK_BORDERS
  }

  /** Pointer move anywhere on the page: follow the pointer, clamped to the track, while dragging. */
  function MovePointer(t: Toggle, x: int, trackWidth: int): (r: Toggle)
    ensures !t.isDragging ==> r == t
    ensures t.isDragging ==>
      r.thumbX == Some(ClampThumb(t.startLeft + (x - t.startX), MaxLeft(trackWidth))) &&
      r.transitionOff && r == t.(thumbX := r.thumbX, transitionOff := true)
  {
    if !t.isDragging then t
    else t.(thumbX := Some(ClampThumb(t.startLeft + (x - t.startX), MaxLeft(trackWidth))), transitionOff := true)
  }

  /** A drag move keeps the thumb in [0, MaxLeft(trackWidth)], that is [0, trackWidth - 20], and leaves the mode alone. */
  lemma DragStaysInTrack(t: Toggle, x: int, trackWidth: int)
    requires t.isDragging && MaxLeft(trackWidth) >= 0
    ensures var r := MovePointer(t, x, trackWidth);
      r.thumbX.Some? && 0 <= r.thumbX.value <= MaxLeft(trackWidth) &&
      (0 <= t.startLeft + (x - t.startX) <= MaxLeft(trackWidth) ==> r.thumbX == Some(t.startLeft + (x - t.startX))) &&
      r.active == t.active && r.darkBody == t.darkBody && r.stored == t.stored &&
      r.writes == t.writes && r.isDragging
  {
  }

  lemma MoveWithoutDragIsNoOp(t: Toggle, x: int, trackWidth: int)
    requires !t.isDragging
    ensures MovePointer(t, x, trackWidth) == t
  {
  }

  /** Release: end the drag and settle on the side the thumb's centre is on. */
  function ReleasePointer(t: Toggle, thumbCenter: int, trackCenter: int): (r: Toggle)
    ensures !t.isDragging ==> r == t
    ensures t.isDragging ==>
      !r.isDragging && !r.transitionOff &&
      r.thumbX == Some(if thumbCenter > trackCenter then SNAP_ON_OFFSET else 0) &&
      (r.active != t.active <==> (thumbCenter > trackCenter) != t.active) &&
      r.writes == t.writes + (if r.active == t.active then 0 else 1) &&
      r.darkBody == (if r.active == t.active then t.darkBody else !t.darkBody) &&
      r.stored == (if r.active == t.active then t.stored else Some(BoolString(r.darkBody))) &&
      r.startX == t.startX && r.startLeft == t.startLeft
  {
    if !t.isDragging then t
    else
      var shouldBeActive := thumbCenter > trackCenter;
      var settled := t.(isDragging := false, transitionOff := false,
                        thumbX := Some(if shouldBeActive then SNAP_ON_OFFSET else 0));
      UpdateMode(settled, shouldBeActive)
  }

  lemma ReleaseWithoutDragIsNoOp(t: Toggle, thumbCenter: int, trackCenter: int)
    requires !t.isDragging
    ensures ReleasePointer(t, thumbCenter, trackCenter) == t
  {
  }

  /** A release ends the drag on the thumb's side, writing storage only if the state changed. */
  lemma ReleaseSettles(t: Toggle, thumbCenter: int, trackCenter: int)
    requires t.isDragging && Consistent(t) && ReloadAgrees(t)
    ensures var r := ReleasePointer(t, thumbCenter, trackCenter);
      !r.isDragging && r.active == (thumbCenter > trackCenter) && Consistent(r) && ReloadAgrees(r) &&
      r.writes == t.writes + (if r.active == t.active then 0 else 1) &&
      r.stored == (if r.active == t.active then t.stored else Some(BoolString(r.active))) &&
      r.thumbX == Some(if r.active then SNAP_ON_OFFSET else 0)
  {
    UpdateReachesRequest(t.(isDragging := false, transitionOff := false,
                            thumbX := Some(if thumbCenter > trackCenter then SNAP_ON_OFFSET else 0)),
                         thumbCenter > trackCenter);
  }

  /**
    From a fresh load with nothing stored, a drag released left of the
    midpoint stays off and writes nothing; released right of it turns on
    with one write of "true".
   */
  lemma DragFromOff(pressX: int, moveX: int, trackWidth: int, thumbCenter: int, trackCenter: int)
    ensures var t := MovePointer(PressThumb(Load(None), pressX), moveX, trackWidth);
      var r := ReleasePointer(t, thumbCenter, trackCenter);
      (thumbCenter <= trackCenter ==> !r.active && r.writes == 0 && r.stored == None) &&
      (thumbCenter > trackCenter ==> r.active && r.writes == 1 && r.stored == Some("true"))
  {
  }

  /** The gestures the switch reacts to; mouse and touch produce the same ones. */
  datatype Gesture =
    | Tap
    | Press(x: int)
    | Drag(x: int, trackWidth: int)
    | Lift(thumbCenter: int, trackCenter: int)

  function Step(t: Toggle, g: Gesture): Toggle
  {
    match g
    case Tap => Click(t)
    case Press(x) => PressThumb(t, x)
    case Drag(x, w) => MovePointer(t, x, w)
    case Lift(thumbCenter, trackCenter) => ReleasePointer(t, thumbCenter, trackCenter)
  }

  function Replay(t: Toggle, gs: seq<Gesture>): Toggle
    decreases |gs|
  {
    if gs == [] then t else Replay(Step(t, gs[0]), gs[1..])
  }

  /**
    Each gesture keeps the flags in agreement and the stored value in step
    with them, and writes storage exactly when it changes the mode; presses
    and drag moves never change the mode.
   */
  lemma StepKeepsInvariant(t: Toggle, g: Gesture)
    requires Consistent(t) && ReloadAgrees(t)
    ensures var r := Step(t, g);
      Consistent(r) && ReloadAgrees(r) &&
      r.writes == t.writes + (if r.active == t.active then 0 else 1) &&
      ((g.Press? || g.Drag?) ==> r.active == t.active && r.stored == t.stored)
  {
    match g
    case Tap =>
      if !t.isDragging { ClickFlips(t); }
    case Press(_) =>
    case Drag(_, _) =>
    case Lift(thumbCenter, trackCenter) =>
      if t.isDragging { ReleaseSettles(t, thumbCenter, trackCenter); }
  }

  /**
    After any gestures since page load the flags agree, a reload would
    restore the mode, and there were no more writes than mode changes allow.
   */
  lemma {:induction false} ReplayKeepsInvariant(t: Toggle, gs: seq<Gesture>)
    requires Consistent(t) && ReloadAgrees(t)
    ensures var r := Replay(t, gs);
      Consistent(r) && ReloadAgrees(r) && Load(r.stored).active == r.active &&
      t.writes <= r.writes <= t.writes + |gs|
    decreases |gs|
  {
    if gs != [] {
      StepKeepsInvariant(t, gs[0]);
      ReplayKeepsInvariant(Step(t, gs[0]), gs[1..]);
    }
  }

  /**
    A click event that follows a release is never ignored: the release has
    already cleared `isDragging`.
   */
  lemma ClickAfterReleaseFlips(t: Toggle, thumbCenter: int, trackCenter: int)
    requires t.isDragging && Consistent(t) && ReloadAgrees(t)
    ensures var r := ReleasePointer(t, thumbCenter, trackCenter);
      Click(r).active == !r.active
  {
    ReleaseSettles(t, thumbCenter, trackCenter);
  }

  /** The switch's closure state and the page state it touches, updated in place. */
  class DarkModeToggle {
    var active: bool
    var darkBody: bool
    var stored: Option<string>
    var writes: nat
    var isDragging: bool
    var startX: int
    var startLeft: int
    var thumbX: Option<int>
    var transitionOff: bool

    function State(): Toggle
      reads this
    {
      Toggle(active, darkBody, stored, writes, isDragging, startX, startLeft, thumbX, transitionOff)
    }

    ghost predicate Valid()
      reads this
    {
      Consistent(State()) && ReloadAgrees(State())
    }

    /** Page load with `saved` read from storage. */
    constructor (saved: Option<string>)
      ensures Valid()
      ensures State() == Load(saved)
    {
      active, darkBody := false, false;
      if saved == Some("true") {
        darkBody := true;
        active := true;
      }
      stored := saved;
      writes := 0;
      isDragging := false;
      startX, startLeft := 0, 0;
      thumbX := None;
      transitionOff := false;
    }

    method UpdateDarkMode(shouldBeActive: bool)
      modifies this
      ensures State() == UpdateMode(old(State()), shouldBeActive)
    {
      var isActive := active;
      if shouldBeActive != isActive {
        darkBody := !darkBody;
        active := !active;
        var isDark := darkBody;
        stored := Some(BoolString(isDark));
        writes := writes + 1;
      }
    }

    method OnClick()
      requires Valid()
      modifies this
      ensures Valid()
      ensures State() == Click(old(State()))
    {
      if !isDragging {
        var shouldBeActive := !active;
        if shouldBeActive {
          thumbX := Some(ON_OFFSET);
        } else {
          thumbX := Some(0);
        }
        UpdateDarkMode(shouldBeActive);
        ClickFlips(old(State()));
      }
    }

    /** mousedown / touchstart on the thumb, with the pointer's x. */
    method OnPress(x: int)
      requires Valid()
      modifies this
      ensures Valid()
      ensures State() == PressThumb(old(State()), x)
    {
      isDragging := true;
      startX := x;
      startLeft := if active then ON_OFFSET else 0;
    }

    /** mousemove / touchmove on the document, with the pointer's x and the track's width. */
    method OnMove(x: int, trackWidth: int)
      requires Valid()
      modifies this
      ensures Valid()
      ensures State() == MovePointer(old(State()), x, trackWidth)
    {
      if !isDragging {
        return;
      }
      var maxLeft := trackWidth - THUMB_WIDTH - TRACK_BORDERS;
      var deltaX := x - startX;
      var newLeft := startLeft + deltaX;
      newLeft := ClampThumb(newLeft, maxLeft);
      thumbX := Some(newLeft);
      transitionOff := true;
    }

    /** mouseup / touchend on the document, with the measured centres of thumb and track. */
    method OnRelease(thumbCenter: int, trackCenter: int)
      requires Valid()
      modifies this
      ensures Valid()
      ensures State() == ReleasePointer(old(State()), thumbCenter, trackCenter)
    {
      if !isDragging {
        return;
      }
      isDragging := false;
      transitionOff := false;
      var shouldBeActive := thumbCenter > trackCenter;
      if shouldBeActive {
        thumbX := Some(SNAP_ON_OFFSET);
      } else {
        thumbX := Some(0);
      }
      UpdateDarkMode(shouldBeActive);
      ReleaseSettles(old(State()), thumbCenter, trackCenter);
    }
  }
}
