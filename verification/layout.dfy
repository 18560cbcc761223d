/** The page frame: the two draggable panel widths, each clamped to a fixed
    pixel range, and the "command key held" flag that shows the `⌘n`
    shortcuts in the sidebar. Pointer deltas are whole pixels here. */
module Layout {
  import opened Base

  const LeftMin := 200
  const LeftMax := 500
  const RightMin := 300
  const RightMax := 600
  const LeftDefault := 288
  const RightDefault := 384

  /** `Math.max(lo, Math.min(hi, x))` */
  function Clamp(lo: int, hi: int, x: int): (r: int)
    requires lo <= hi
    ensures lo <= r <= hi
    ensures lo <= x <= hi ==> r == x
    ensures x < lo ==> r == lo
    ensures x > hi ==> r == hi
  {
    if x < lo then lo else if x > hi then hi else x
  }

  /** Clamping never reverses the order of two values. */
  lemma ClampMonotone(lo: int, hi: int, x: int, y: int)
    requires lo <= hi && x <= y
    ensures Clamp(lo, hi, x) <= Clamp(lo, hi, y)
  {
  }

  /** Dragging the left handle by `delta` pixels widens the sidebar by that
      much, within 200..500. */
  function ResizeLeft(width: int, delta: int): (r: int)
    ensures LeftMin <= r <= LeftMax
    ensures LeftMin <= width + delta <= LeftMax ==> r == width + delta
  {
    Clamp(LeftMin, LeftMax, width + delta)
  }

  /** Dragging the right handle by `delta` pixels narrows the right panel by
      that much: the width moves against the pointer delta, within 300..600. */
  function ResizeRight(width: int, delta: int): (r: int)
    ensures RightMin <= r <= RightMax
    ensures RightMin <= width - delta <= RightMax ==> r == width - delta
  {
    Clamp(RightMin, RightMax, width - delta)
  }

  /** Moving a handle further right never makes the sidebar narrower nor the
      right panel wider. */
  lemma ResizeDirections(width: int, d1: int, d2: int)
    requires d1 <= d2
    ensures ResizeLeft(width, d1) <= ResizeLeft(width, d2)
    ensures ResizeRight(width, d1) >= ResizeRight(width, d2)
  {
    ClampMonotone(LeftMin, LeftMax, width + d1, width + d2);
    ClampMonotone(RightMin, RightMax, width - d2, width - d1);
  }

  /** A drag and the opposite drag cancel out unless the first one hit a
      limit; a width already in range is a fixed point of a zero drag. */
  lemma ResizeUndo(width: int, delta: int)
    requires LeftMin <= width + delta <= LeftMax && LeftMin <= width <= LeftMax
    ensures ResizeLeft(ResizeLeft(width, delta), -delta) == width
    ensures ResizeLeft(width, 0) == width
  {
  }

  /** Both defaults lie inside their ranges, so the first drag is exact. */
  lemma DefaultsInRange()
    ensures LeftMin <= LeftDefault <= LeftMax && RightMin <= RightDefault <= RightMax
    ensures ResizeLeft(LeftDefault, 12) == 300 && ResizeRight(RightDefault, 84) == 300
    ensures ResizeLeft(LeftDefault, 1000) == LeftMax && ResizeRight(RightDefault, -1000) == RightMax
  {
  }

  // ---------------------------------------------------------------------------
  // The command-key flag
  // ---------------------------------------------------------------------------

  datatype KeyEvent =
    | KeyDown(meta: bool, ctrl: bool, key: string)
    | KeyUp(meta: bool, ctrl: bool)
    | Blur

  /** The flag after one window event: a key pressed with Command or Control
      held sets it, a key released with neither held clears it, and losing
      focus clears it; anything else leaves it. */
  function OnKey(pressed: bool, e: KeyEvent): (r: bool)
    ensures e.KeyDown? && (e.meta || e.ctrl) ==> r
    ensures e.Blur? ==> !r
    ensures e.KeyUp? && !e.meta && !e.ctrl ==> !r
    ensures e.KeyDown? && !e.meta && !e.ctrl ==> r == pressed
    ensures e.KeyUp? && (e.meta || e.ctrl) ==> r == pressed
  {
    match e
    case KeyDown(meta, ctrl, _) => if meta || ctrl then true else pressed
    case KeyUp(meta, ctrl) => if !meta && !ctrl then false else pressed
    case Blur => false
  }

  /** A Command/Control press of `n` or `N` has its default action prevented. */
  predicate SuppressesDefault(e: KeyEvent) {
    e.KeyDown? && (e.meta || e.ctrl) && (e.key == "n" || e.key == "N")
  }

  /** The value an event forces the flag to, if any. */
  function Forces(e: KeyEvent): (v: Option<bool>)
    ensures v.Some? <==> !(e.KeyDown? && !e.meta && !e.ctrl) && !(e.KeyUp? && (e.meta || e.ctrl))
  {
    match e
    case KeyDown(meta, ctrl, _) => if meta || ctrl then Some(true) else None
    case KeyUp(meta, ctrl) => if !meta && !ctrl then Some(false) else None
    case Blur => Some(false)
  }

  function Run(pressed: bool, events: seq<KeyEvent>): bool
    decreases |events|
  {
    if |events| == 0 then pressed else OnKey(Run(pressed, events[..|events| - 1]), events[|events| - 1])
  }

  /** The value forced by the last event that forces one, if any. */
  function LastForced(events: seq<KeyEvent>): Option<bool>
    decreases |events|
  {
    if |events| == 0 then None
    else if Forces(events[|events| - 1]).Some? then Forces(events[|events| - 1])
    else LastForced(events[..|events| - 1])
  }

  /** The flag is whatever the last decisive event said, or its starting
      value when no event was decisive: it never drifts on its own. */
  lemma {:induction false} RunIsLastForced(pressed: bool, events: seq<KeyEvent>)
    ensures Run(pressed, events)
      == match LastForced(events) case Some(v) => v case None => pressed
    decreases |events|
  {
    if |events| > 0 {
      RunIsLastForced(pressed, events[..|events| - 1]);
    }
  }
}
