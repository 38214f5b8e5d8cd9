/**
 * The virtual desktop (src/components/OS/Desktop.jsx): scales the monitor's
 * cursor to the virtual screen, highlights and hit-tests the "My Pictures"
 * icon, and mounts the Window while `isWindowOpen` holds.
 */
module OSDesktop {
  import opened Wrappers
  import opened Strings
  import opened OSWindow

  /** A point of the monitor's cursor space or of the virtual screen. */
  datatype Point = Point(x: real, y: real)

  const ScreenWidth: real := 6.5
  const ScreenHeight: real := 5.0

  /** The virtual cursor: the monitor cursor scaled by half the screen size. */
  function VirtualCursor(cursor: Point): (v: Point)
    ensures -1.0 <= cursor.x <= 1.0 ==> -3.25 <= v.x <= 3.25
    ensures -1.0 <= cursor.y <= 1.0 ==> -2.5 <= v.y <= 2.5
    ensures v.x / 3.25 == cursor.x && v.y / 2.5 == cursor.y
  {
    Point(cursor.x * (ScreenWidth / 2.0), cursor.y * (ScreenHeight / 2.0))
  }

  /** The icon's click disk: centre (-2.5, 1.8), radius 0.5, strict. */
  predicate OnIcon(x: real, y: real)
  {
    (x + 2.5) * (x + 2.5) + (y - 1.8) * (y - 1.8) < 0.5 * 0.5
  }

  /** The icon's highlight square: within 0.4 of its centre on both axes, strict. */
  predicate IconHighlighted(x: real, y: real)
    ensures IconHighlighted(x, y) <==> -2.9 < x < -2.1 && 1.4 < y < 2.2
  {
    Abs(x - (-2.5)) < 0.4 && Abs(y - 1.8) < 0.4
  }

  /** The two screen states: no window, or the window with its selection. */
  datatype DesktopState = Closed | Open(selected: Option<string>)

  /**
   * One click on the desktop, against the virtual cursor. Closed: the icon
   * opens the window, with nothing selected. Open: the window's effect
   * decides, and its `onClose` is the only way back to Closed.
   */
  function Step(s: DesktopState, x: real, y: real, trigger: int, images: Option<seq<string>>): (r: DesktopState)
    ensures trigger == 0 ==> r == s
    ensures s.Closed? ==> r == Closed || r == Open(None)
    ensures r.Open? && r.selected.Some? && (s.Closed? || r.selected != s.selected) ==>
              images.Some? && r.selected.value in images.value
  {
    match s
    case Closed => if trigger != 0 && OnIcon(x, y) then Open(None) else Closed
    case Open(selected) =>
      var r := ClickEffect(selected, x, y, trigger, images);
      if r.close then Closed else Open(r.selected)
  }

  /** A zero trigger changes nothing. */
  lemma ZeroTriggerKeepsState(s: DesktopState, x: real, y: real, images: Option<seq<string>>)
    ensures Step(s, x, y, 0, images) == s
  {}

  /** From Closed, a click opens the window exactly when it lands in the icon's disk. */
  lemma OpensIffOnIcon(x: real, y: real, trigger: int, images: Option<seq<string>>)
    ensures Step(Closed, x, y, trigger, images).Open? <==> trigger != 0 && OnIcon(x, y)
    ensures Step(Closed, x, y, trigger, images) in {Closed, Open(None)}
  {}

  /** From Open, a click closes the window exactly when it is the close button with nothing shown. */
  lemma ClosesOnlyViaCloseButton(selected: Option<string>, x: real, y: real, trigger: int,
                                 images: Option<seq<string>>)
    ensures Step(Open(selected), x, y, trigger, images).Closed? <==>
              trigger != 0 && !Truthy(selected) && OnCloseButton(x, y)
  {}

  /** The icon's disk and the close button's disk do not meet. */
  lemma IconClearOfCloseButton(x: real, y: real)
    ensures !(OnIcon(x, y) && OnCloseButton(x, y))
  {
    if OnIcon(x, y) && OnCloseButton(x, y) {
      DiskBound(x + 2.5, y - 1.8, 0.5);
      DiskBound(x - 2.2, y - 1.5, 0.2);
    }
  }

  /** The icon's disk lies above every image box. */
  lemma IconClearOfGrid(i: nat, x: real, y: real)
    ensures !(OnIcon(x, y) && InCell(i, x, y))
  {
    if OnIcon(x, y) {
      DiskBound(x + 2.5, y - 1.8, 0.5);
    }
  }

  /** While the window is open, clicking the icon neither closes nor reopens it: the window stays open. */
  lemma IconInertWhileOpen(selected: Option<string>, x: real, y: real, trigger: int,
                           images: Option<seq<string>>)
    requires OnIcon(x, y)
    ensures Step(Open(selected), x, y, trigger, images).Open?
  {
    IconClearOfCloseButton(x, y);
  }

  /**
   * The click that opens the window is replayed to the freshly mounted
   * window (its effect runs on mount with the same trigger); it misses the
   * close button and every image, so the window opens with nothing selected.
   */
  lemma OpeningClickInertInWindow(x: real, y: real, trigger: int, images: Option<seq<string>>)
    requires OnIcon(x, y)
    ensures ClickEffect(None, x, y, trigger, images) == ClickResult(None, false)
  {
    IconClearOfCloseButton(x, y);
    if trigger != 0 && images.Some? {
      forall i: nat | i < |images.value| ensures !InCell(i, x, y) { IconClearOfGrid(i, x, y); }
      MissKeepsSelection(None, x, y, trigger, images);
    }
  }

  /** Every point within distance 0.4 of the icon's centre is both highlighted and clickable. */
  lemma IconCoreHighlightedAndClickable(x: real, y: real)
    requires (x + 2.5) * (x + 2.5) + (y - 1.8) * (y - 1.8) < 0.4 * 0.4
    ensures IconHighlighted(x, y) && OnIcon(x, y)
  {
    DiskBound(x + 2.5, y - 1.8, 0.4);
  }

  /** A corner of the highlight square is highlighted but a click there does not open the window. */
  lemma HighlightedCornerMissesIcon()
    ensures IconHighlighted(-2.11, 2.19) && !OnIcon(-2.11, 2.19)
  {}

  /** The rim of the icon's disk opens the window without being highlighted. */
  lemma ClickableRimNotHighlighted()
    ensures OnIcon(-2.05, 1.8) && !IconHighlighted(-2.05, 1.8)
  {}

  /** The desktop component; `window` is the mounted Window, present exactly while open. */
  class Desktop {
    var isWindowOpen: bool
    var window: Window?

    ghost predicate Valid()
      reads this
    {
      isWindowOpen <==> window != null
    }

    function State(): DesktopState
      requires Valid()
      reads this, window
    {
      if isWindowOpen then Open(window.selected) else Closed
    }

    /** Mounting starts with the window closed. */
    constructor ()
      ensures Valid() && State() == Closed
    {
      isWindowOpen := false;
      window := null;
    }

    /**
     * One change of the click trigger, with the monitor's cursor. The
     * window's effect runs first (a child's effects run before its
     * parent's); the desktop's own effect then sees the window still open
     * and returns. When closed, the desktop's effect may open the window,
     * whose mount effect sees the same trigger.
     */
    method Click(cursor: Point, trigger: int, images: Option<seq<string>>)
      requires Valid()
      modifies this, window
      ensures Valid()
      ensures State() == Step(old(State()), VirtualCursor(cursor).x, VirtualCursor(cursor).y, trigger, images)
      ensures window == null || window == old(window) || fresh(window)
    {
      var v := VirtualCursor(cursor);
      if isWindowOpen {
        var close := window.Click(v.x, v.y, trigger, images);
        if close {
          isWindowOpen := false;
          window := null;
        }
      } else if trigger != 0 && OnIcon(v.x, v.y) {
        isWindowOpen := true;
        var w := new Window();
        window := w;
        var close := w.Click(v.x, v.y, trigger, images);
        OpeningClickInertInWindow(v.x, v.y, trigger, images);
        assert !close;  // the mount effect never calls onClose
      }
    }
  }
}
