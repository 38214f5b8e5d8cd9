/**
 * The monitor's pointer handling (src/components/CRTMonitor.jsx): the
 * cursor, click trigger and scroll state, and the two Desktop copies (the
 * glass surface and the shader overlay) that both receive them.
 */
module CRTMonitor {
  import opened Wrappers
  import opened OSDesktop

  /** Texture coordinates of a pointer event on the screen mesh. */
  datatype Uv = Uv(u: real, v: real)

  datatype ScrollData = ScrollData(deltaY: real, timestamp: int)

  /** A pointer position on the screen mesh, mapped to the cursor space [-1, 1]². */
  function UvToCursor(uv: Uv): (c: Point)
    ensures 0.0 <= uv.u <= 1.0 ==> -1.0 <= c.x <= 1.0
    ensures 0.0 <= uv.v <= 1.0 ==> -1.0 <= c.y <= 1.0
    ensures uv == Uv(0.5, 0.5) ==> c == Point(0.0, 0.0)
    ensures CursorToUv(c) == uv
  {
    Point((uv.u - 0.5) * 2.0, (uv.v - 0.5) * 2.0)
  }

  /** The inverse mapping, from the cursor space back to texture coordinates. */
  function CursorToUv(c: Point): (uv: Uv)
    ensures -1.0 <= c.x <= 1.0 ==> 0.0 <= uv.u <= 1.0
    ensures -1.0 <= c.y <= 1.0 ==> 0.0 <= uv.v <= 1.0
  {
    Uv(c.x / 2.0 + 0.5, c.y / 2.0 + 0.5)
  }

  /** Every cursor position is reached by exactly one texture coordinate. */
  lemma UvToCursorBijective(c: Point, uv: Uv)
    ensures UvToCursor(uv) == c <==> uv == CursorToUv(c)
  {}

  /** A pointer on the screen mesh lands on the virtual screen [-3.25, 3.25] × [-2.5, 2.5]. */
  lemma PointerLandsOnVirtualScreen(uv: Uv)
    requires 0.0 <= uv.u <= 1.0 && 0.0 <= uv.v <= 1.0
    ensures var v := VirtualCursor(UvToCursor(uv)); -3.25 <= v.x <= 3.25 && -2.5 <= v.y <= 2.5
  {}

  class Monitor {
    var cursor: Point
    var clickTrigger: int
    var scroll: ScrollData
    /** The Desktop rendered into the glass surface's emissive map. */
    const surface: Desktop
    /** The Desktop rendered into the shader overlay's texture. */
    const overlay: Desktop

    /** The two copies are separate components showing the same state. */
    ghost predicate Valid()
      reads this, surface, overlay, surface.window, overlay.window
    {
      && surface != overlay
      && surface.Valid() && overlay.Valid()
      && (surface.window == null || surface.window != overlay.window)
      && surface.State() == overlay.State()
    }

    /** Initial state: cursor (0, 0), trigger 0, scroll (0, 0), both desktops closed. */
    constructor ()
      ensures Valid()
      ensures cursor == Point(0.0, 0.0) && clickTrigger == 0 && scroll == ScrollData(0.0, 0)
      ensures surface.State() == Closed
      ensures fresh(surface) && fresh(overlay) && surface.window == null && overlay.window == null
    {
      cursor := Point(0.0, 0.0);
      clickTrigger := 0;
      scroll := ScrollData(0.0, 0);
      surface := new Desktop();
      overlay := new Desktop();
    }

    /** A pointer move sets the cursor from its texture coordinates; one without them changes nothing. */
    method PointerMove(uv: Option<Uv>)
      requires Valid()
      modifies this
      ensures Valid()
      ensures cursor == (if uv.Some? then UvToCursor(uv.value) else old(cursor))
      ensures clickTrigger == old(clickTrigger) && scroll == old(scroll)
    {
      if uv.Some? {
        cursor := UvToCursor(uv.value);
      }
    }

    /**
     * A pointer press sets the trigger to the current time. When that
     * changes the trigger, both desktops rerun their click effects with it;
     * a press in the same millisecond as the last one changes nothing else.
     */
    method PointerDown(now: int, images: Option<seq<string>>)
      requires Valid()
      modifies this, surface, surface.window, overlay, overlay.window
      ensures Valid()
      ensures clickTrigger == now && cursor == old(cursor) && scroll == old(scroll)
      ensures surface.State() ==
                if old(clickTrigger) == now then old(surface.State())
                else Step(old(surface.State()), VirtualCursor(cursor).x, VirtualCursor(cursor).y, now, images)
      ensures surface.window == null || surface.window == old(surface.window) || fresh(surface.window)
      ensures overlay.window == null || overlay.window == old(overlay.window) || fresh(overlay.window)
    {
      var changed := now != clickTrigger;
      clickTrigger := now;
      if changed {
        surface.Click(cursor, now, images);
        overlay.Click(cursor, now, images);
      }
    }

    /** A wheel event records its delta and the time; cursor and trigger are untouched. */
    method Wheel(deltaY: real, now: int)
      requires Valid()
      modifies this
      ensures Valid()
      ensures scroll == ScrollData(deltaY, now)
      ensures cursor == old(cursor) && clickTrigger == old(clickTrigger)
    {
      scroll := ScrollData(deltaY, now);
    }
  }
  /** Texture coordinates of the folder icon, the first gallery cell and the close button. */
  const IconUv: Uv := Uv(3.0 / 26.0, 0.86)
  const FirstCellUv: Uv := Uv(7.0 / 26.0, 0.62)
  const CloseUv: Uv := Uv(109.0 / 130.0, 0.8)

  /**
   * A visit on the monitor: press on the folder icon, on the first image
   * of the gallery, then twice on the close button. The first press on it
   * only dismisses the enlarged image, the second closes the window.
   */
  method OpenSelectClose(images: seq<string>)
    returns (afterOpen: DesktopState, afterPick: DesktopState, afterDismiss: DesktopState, afterClose: DesktopState)
    requires |images| > 0 && images[0] != ""
    ensures afterOpen == Open(None)
    ensures afterPick == Open(Some(images[0]))
    ensures afterDismiss == Open(None)
    ensures afterClose == Closed
  {
    var m := new Monitor();
    assert VirtualCursor(UvToCursor(IconUv)) == Point(-2.5, 1.8);
    m.PointerMove(Some(IconUv));
    m.PointerDown(1, Some(images));
    afterOpen := m.surface.State();
    assert VirtualCursor(UvToCursor(FirstCellUv)) == Point(-1.5, 0.6);
    m.PointerMove(Some(FirstCellUv));
    m.PointerDown(2, Some(images));
    afterPick := m.surface.State();
    assert VirtualCursor(UvToCursor(CloseUv)) == Point(2.2, 1.5);
    m.PointerMove(Some(CloseUv));
    m.PointerDown(3, Some(images));
    afterDismiss := m.surface.State();
    m.PointerDown(4, Some(images));
    afterClose := m.surface.State();
  }
}
