/**
  The project thumbnail preview: shown while the pointer is over a project
  item, placed 50 pixels right of and below the pointer, and flipped to 350
  pixels before it on an axis where a 300-pixel panel would pass the
  viewport's far edge.
 */
module HoverPreview {
  import opened Wrappers

  const OFFSET: int := 50
  const PANEL_SIZE: int := 300
  const FLIP_OFFSET: int := 350

  /** The panel's coordinate on one axis for a pointer coordinate and the viewport size on that axis. */
  function PreviewCoord(pointer: int, viewport: int): (r: int)
    ensures r == pointer + OFFSET || r == pointer - FLIP_OFFSET
    ensures r == pointer + OFFSET <==> pointer + OFFSET + PANEL_SIZE <= viewport
  {
    var p := pointer + OFFSET;
    if p + PANEL_SIZE > viewport then pointer - FLIP_OFFSET else p
  }

  /** The panel never lies under the pointer: it ends 50 before it or starts 50 after it. */
  lemma PreviewAvoidsPointer(pointer: int, viewport: int)
    ensures var r := PreviewCoord(pointer, viewport);
      r >= pointer + OFFSET || r + PANEL_SIZE <= pointer - OFFSET
  {
  }

  /**
    The panel fits the viewport when the pointer is inside it and either
    side has room: 350 after the pointer, or 350 before it.
   */
  lemma PreviewFitsWhenRoom(pointer: int, viewport: int)
    requires 0 <= pointer <= viewport
    requires pointer + FLIP_OFFSET <= viewport || pointer >= FLIP_OFFSET
    ensures 0 <= PreviewCoord(pointer, viewport)
    ensures PreviewCoord(pointer, viewport) + PANEL_SIZE <= viewport
  {
  }

  /** With neither side roomy the flip leaves the viewport: a 400-wide view, pointer at 200. */
  lemma PreviewCanLeaveViewport()
    ensures PreviewCoord(200, 400) == -150
  {
  }

  /** Both coordinates of the panel for a pointer position and the viewport size. */
  function Place(x: int, y: int, innerWidth: int, innerHeight: int): (r: (int, int))
    ensures r.0 == x + OFFSET || r.0 == x - FLIP_OFFSET
    ensures r.0 == x + OFFSET <==> x + OFFSET + PANEL_SIZE <= innerWidth
    ensures r.1 == y + OFFSET || r.1 == y - FLIP_OFFSET
    ensures r.1 == y + OFFSET <==> y + OFFSET + PANEL_SIZE <= innerHeight
  {
    (PreviewCoord(x, innerWidth), PreviewCoord(y, innerHeight))
  }

  /** The single preview panel: its inline left/top (None before any write) and `visible` class. */
  class Preview {
    var left: Option<int>
    var top: Option<int>
    var visible: bool

    constructor ()
      ensures left == None && top == None && !visible
    {
      left, top, visible := None, None, false;
    }

    /**
      mouseenter on any item, placed from the last position the page-wide
      move handler recorded; whatever was shown before, the one panel now
      shows for the entered item.
     */
    method OnEnter(mouseX: int, mouseY: int, innerWidth: int, innerHeight: int)
      modifies this
      ensures visible
      ensures left == Some(Place(mouseX, mouseY, innerWidth, innerHeight).0)
      ensures top == Some(Place(mouseX, mouseY, innerWidth, innerHeight).1)
    {
      var previewX := mouseX + OFFSET;
      var previewY := mouseY + OFFSET;
      if previewX + PANEL_SIZE > innerWidth {
        previewX := mouseX - FLIP_OFFSET;
      }
      if previewY + PANEL_SIZE > innerHeight {
        previewY := mouseY - FLIP_OFFSET;
      }
      left := Some(previewX);
      top := Some(previewY);
      visible := true;
    }

    method OnLeave()
      modifies this
      ensures !visible && left == old(left) && top == old(top)
    {
      visible := false;
    }

    /** mousemove inside an item: re-place the panel from the event's position; visibility unchanged. */
    method OnMove(clientX: int, clientY: int, innerWidth: int, innerHeight: int)
      modifies this
      ensures visible == old(visible)
      ensures left == Some(Place(clientX, clientY, innerWidth, innerHeight).0)
      ensures top == Some(Place(clientX, clientY, innerWidth, innerHeight).1)
    {
      var previewX := clientX + OFFSET;
      var previewY := clientY + OFFSET;
      if previewX + PANEL_SIZE > innerWidth {
        previewX := clientX - FLIP_OFFSET;
      }
      if previewY + PANEL_SIZE > innerHeight {
        previewY := clientY - FLIP_OFFSET;
      }
      left := Some(previewX);
      top := Some(previewY);
    }
  }
}
