/**
 * The "My Pictures" window of the virtual desktop (src/components/OS/Window.jsx).
 *
 * Coordinates are virtual-screen units (the desktop's scaled cursor), as
 * exact reals. A distance test `sqrt(dx² + dy²) < d` is written as the
 * equivalent `dx² + dy² < d²`, since sqrt is monotone.
 */
module OSWindow {
  import opened Wrappers
  import opened Strings

  function Abs(r: real): real { if r < 0.0 then -r else r }

  /** The close button's hit disk: centre (2.2, 1.5), radius 0.2. */
  predicate OnCloseButton(x: real, y: real)
  {
    (x - 2.2) * (x - 2.2) + (y - 1.5) * (y - 1.5) < 0.2 * 0.2
  }

  /** Grid layout: image i is in row i / 3 and column i % 3. */
  function CellX(i: nat): real { -1.5 + (i % 3) as real * 1.5 }
  function CellY(i: nat): real { 0.6 - (i / 3) as real * 1.2 }

  /** The hit box of image i: half-width 0.6, half-height 0.5 around its centre. */
  predicate InCell(i: nat, x: real, y: real)
  {
    Abs(x - CellX(i)) < 0.6 && Abs(y - CellY(i)) < 0.5
  }

  /**
   * Where each image of the list is drawn; the render pass uses the same
   * row/column formula as the hit test.
   */
  function GalleryLayout(images: seq<string>): (r: seq<(real, real)>)
    ensures |r| == |images|
    ensures forall i :: 0 <= i < |r| ==> InCell(i, r[i].0, r[i].1)
  {
    seq(|images|, i requires 0 <= i => (CellX(i), CellY(i)))
  }

  /**
   * A closed-form reference for the grid hit test: round the cursor to the
   * nearest column and row, then check the box. No scan over the images.
   */
  function CellAt(x: real, y: real): Option<nat>
  {
    var col := ((x + 1.5) / 1.5 + 0.5).Floor;
    var row := ((0.6 - y) / 1.2 + 0.5).Floor;
    if 0 <= col < 3 && 0 <= row
       && Abs(x - (-1.5 + col as real * 1.5)) < 0.6
       && Abs(y - (0.6 - row as real * 1.2)) < 0.5
    then Some(3 * row + col)
    else None
  }

  lemma ColumnOf(c: int, x: real)
    requires Abs(x - (-1.5 + c as real * 1.5)) < 0.6
    ensures ((x + 1.5) / 1.5 + 0.5).Floor == c
  {}

  lemma RowOf(r: int, y: real)
    requires Abs(y - (0.6 - r as real * 1.2)) < 0.5
    ensures ((0.6 - y) / 1.2 + 0.5).Floor == r
  {}

  /** The scan's per-cell box test and the closed form agree on every cell. */
  lemma CellAtExact(i: nat, x: real, y: real)
    ensures InCell(i, x, y) <==> CellAt(x, y) == Some(i)
  {
    if InCell(i, x, y) {
      ColumnOf(i % 3, x);
      RowOf(i / 3, y);
    }
    if CellAt(x, y) == Some(i) {
      var col := ((x + 1.5) / 1.5 + 0.5).Floor;
      var row := ((0.6 - y) / 1.2 + 0.5).Floor;
      assert i % 3 == col && i / 3 == row;
    }
  }

  /** The hit boxes are pairwise disjoint: a point lies in at most one. */
  lemma CellsDisjoint(i: nat, j: nat, x: real, y: real)
    requires InCell(i, x, y) && InCell(j, x, y)
    ensures i == j
  {
    CellAtExact(i, x, y);
    CellAtExact(j, x, y);
  }

  /** No two images are drawn at the same place. */
  lemma LayoutInjective(i: nat, j: nat)
    requires CellX(i) == CellX(j) && CellY(i) == CellY(j)
    ensures i == j
  {
    assert InCell(i, CellX(i), CellY(i));
    CellsDisjoint(i, j, CellX(i), CellY(i));
  }

  lemma SquareBound(d: real, r: real)
    requires r > 0.0 && d * d < r * r
    ensures -r < d < r
  {}

  /** Inside a disk of radius r, each coordinate offset is below r. */
  lemma DiskBound(dx: real, dy: real, r: real)
    requires r > 0.0 && dx * dx + dy * dy < r * r
    ensures -r < dx < r && -r < dy < r
  {
    assert dx * dx >= 0.0 && dy * dy >= 0.0;
    SquareBound(dx, r);
    SquareBound(dy, r);
  }

  /** The close button's disk lies above every image box. */
  lemma CloseButtonClearOfGrid(i: nat, x: real, y: real)
    ensures !(OnCloseButton(x, y) && InCell(i, x, y))
  {
    if OnCloseButton(x, y) {
      DiskBound(x - 2.2, y - 1.5, 0.2);
    }
  }

  /** The absent or empty list shows the "No images uploaded" placeholder. */
  predicate ShowsPlaceholder(images: Option<seq<string>>)
  {
    images.None? || |images.value| == 0
  }

  /** What one click effect leaves behind: the selection and whether `onClose` was called. */
  datatype ClickResult = ClickResult(selected: Option<string>, close: bool)

  /** The grid part of the effect: the image under the cursor, if any, else no change. */
  function GridPick(images: Option<seq<string>>, x: real, y: real, current: Option<string>): Option<string>
  {
    match images
    case None => current
    case Some(list) =>
      match CellAt(x, y)
      case Some(i) => if i < |list| then Some(list[i]) else current
      case None => current
  }

  /**
   * One click effect, in its priority order: a zero trigger does nothing;
   * a shown image is dismissed; the close button closes; otherwise the
   * grid picks.
   */
  function ClickEffect(selected: Option<string>, x: real, y: real, trigger: int,
                       images: Option<seq<string>>): (r: ClickResult)
    ensures r.close ==> trigger != 0 && r.selected == selected
    ensures r.selected != selected && r.selected.Some? ==> images.Some? && r.selected.value in images.value
    ensures r.selected != selected && r.selected.None? ==> Truthy(selected)
  {
    if trigger == 0 then ClickResult(selected, false)
    else if Truthy(selected) then ClickResult(None, false)
    else if OnCloseButton(x, y) then ClickResult(selected, true)
    else ClickResult(GridPick(images, x, y, selected), false)
  }

  /** A zero trigger changes neither the selection nor the open state. */
  lemma ZeroTriggerInert(selected: Option<string>, x: real, y: real, images: Option<seq<string>>)
    ensures ClickEffect(selected, x, y, 0, images) == ClickResult(selected, false)
  {}

  /** With an image shown, any click only clears it: no close, no new selection. */
  lemma DismissTakesWholeClick(selected: Option<string>, x: real, y: real, trigger: int,
                               images: Option<seq<string>>)
    requires trigger != 0 && Truthy(selected)
    ensures ClickEffect(selected, x, y, trigger, images) == ClickResult(None, false)
  {}

  /** With nothing shown, a click on the close button closes and selects nothing. */
  lemma CloseButtonCloses(selected: Option<string>, x: real, y: real, trigger: int,
                          images: Option<seq<string>>)
    requires trigger != 0 && !Truthy(selected)
    ensures ClickEffect(selected, x, y, trigger, images).close <==> OnCloseButton(x, y)
    ensures ClickEffect(selected, x, y, trigger, images).close ==>
              ClickEffect(selected, x, y, trigger, images).selected == selected
  {}

  /** With nothing shown, a click inside image i's box selects exactly that image. */
  lemma SelectsImageUnderCursor(selected: Option<string>, x: real, y: real, trigger: int,
                                images: seq<string>, i: nat)
    requires trigger != 0 && !Truthy(selected)
    requires i < |images| && InCell(i, x, y)
    ensures ClickEffect(selected, x, y, trigger, Some(images)) == ClickResult(Some(images[i]), false)
  {
    CloseButtonClearOfGrid(i, x, y);
    CellAtExact(i, x, y);
  }

  /** A click that hits no image's box leaves the selection as it was. */
  lemma MissKeepsSelection(selected: Option<string>, x: real, y: real, trigger: int,
                           images: Option<seq<string>>)
    requires trigger != 0 && !Truthy(selected) && !OnCloseButton(x, y)
    requires images.Some? ==> forall i: nat :: i < |images.value| ==> !InCell(i, x, y)
    ensures ClickEffect(selected, x, y, trigger, images) == ClickResult(selected, false)
  {
    if images.Some? && CellAt(x, y).Some? {
      var i := CellAt(x, y).value;
      CellAtExact(i, x, y);
    }
  }

  /** With the placeholder showing, no click can select an image. */
  lemma PlaceholderSelectsNothing(selected: Option<string>, x: real, y: real, trigger: int,
                                  images: Option<seq<string>>)
    requires ShowsPlaceholder(images)
    ensures ClickEffect(selected, x, y, trigger, images).selected in {selected, None}
  {}

  /**
   * The selection after scanning the first `i` boxes: the box under the
   * cursor, once it has been scanned, else the selection before the scan.
   */
  function ScannedPick(list: seq<string>, x: real, y: real, before: Option<string>, i: nat): Option<string>
    requires i <= |list|
  {
    match CellAt(x, y)
    case Some(k) => if k < i then Some(list[k]) else before
    case None => before
  }

  /** The window component; `selected` is its `selectedImage` state. */
  class Window {
    var selected: Option<string>

    /** Mounting starts with nothing selected. */
    constructor ()
      ensures selected == None
    {
      selected := None;
    }

    /**
     * The click effect: early returns for a zero trigger, a dismiss and the
     * close button, then a scan over every image that overwrites the
     * selection for each box containing the cursor. Returns whether it
     * called `onClose`.
     */
    method Click(x: real, y: real, trigger: int, images: Option<seq<string>>) returns (close: bool)
      modifies this
      ensures ClickResult(selected, close) == ClickEffect(old(selected), x, y, trigger, images)
    {
      close := false;
      if trigger == 0 {
        return;
      }
      if Truthy(selected) {
        selected := None;
        return;
      }
      if OnCloseButton(x, y) {
        close := true;
        return;
      }
      if images.Some? {
        var list := images.value;
        var i := 0;
        while i < |list|
          invariant 0 <= i <= |list|
          invariant selected == ScannedPick(list, x, y, old(selected), i)
        {
          var row := i / 3;
          var col := i % 3;
          var cx := -1.5 + col as real * 1.5;
          var cy := 0.6 - row as real * 1.2;
          CellAtExact(i, x, y);
          if Abs(x - cx) < 0.6 && Abs(y - cy) < 0.5 {
            assert InCell(i, x, y);
            selected := Some(list[i]);
          } else {
            assert !InCell(i, x, y);
          }
          i := i + 1;
        }
      }
    }
  }
}
