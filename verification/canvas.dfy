/** The design canvas: element drag with the position clamped to
    [10, 90] percent, background click and the zoom buttons. Box
    measurements of the page are parameters. */
module Canvas {
  import opened Common
  import opened Types
  import Designer

  datatype Point = Point(x: real, y: real)

  /** A measured box: `getBoundingClientRect()` of an element. */
  datatype Box = Box(left: real, top: real, width: real, height: real)

  /** The drag state of the canvas: the flag and the pointer's offset from
      the centre of the dragged element. */
  datatype DragState = DragState(isDragging: bool, offset: Point)

  const InitialDrag: DragState := DragState(false, Point(0.0, 0.0))

  const MinPos: real := 10.0
  const MaxPos: real := 90.0

  /** `handleMouseDown` on an element: it becomes the selection, dragging
      starts, and the pointer's offset from the element's centre is kept. */
  function MouseDown(elementId: string, elementBox: Box, pointer: Point): (r: (DragState, Option<string>))
    ensures r.0.isDragging && r.1 == Some(elementId)
    ensures elementBox.left + elementBox.width / 2.0 + r.0.offset.x == pointer.x
    ensures elementBox.top + elementBox.height / 2.0 + r.0.offset.y == pointer.y
  {
    (DragState(true, Point(pointer.x - elementBox.left - elementBox.width / 2.0,
                           pointer.y - elementBox.top - elementBox.height / 2.0)),
     Some(elementId))
  }

  /** The pointer, less the grab offset, as a percentage of the canvas. */
  function PointerPercent(pointer: Point, offset: Point, canvas: Box): (p: Point)
    requires canvas.width > 0.0 && canvas.height > 0.0
    ensures canvas.left + offset.x + p.x * canvas.width / 100.0 == pointer.x
    ensures canvas.top + offset.y + p.y * canvas.height / 100.0 == pointer.y
  {
    Point((pointer.x - canvas.left - offset.x) / canvas.width * 100.0,
          (pointer.y - canvas.top - offset.y) / canvas.height * 100.0)
  }

  /** An id is truthy unless absent or the empty string. */
  predicate Selected(selected: Option<string>) {
    selected.Some? && selected.value != ""
  }

  /** `handleMouseMove`: the update sent for the selected element, if any.
      Only `x` and `y` are written, each clamped to [10, 90]. */
  function MouseMove(s: DragState, selected: Option<string>, canvas: Option<Box>, pointer: Point)
    : (r: Option<(string, Patch)>)
    requires canvas.Some? ==> canvas.value.width > 0.0 && canvas.value.height > 0.0
    ensures r.Some? <==> s.isDragging && Selected(selected) && canvas.Some?
    ensures r.Some? ==> r.value.0 == selected.value
    ensures r.Some? ==> var p := r.value.1;
              && p.x.Some? && MinPos <= p.x.value <= MaxPos
              && p.y.Some? && MinPos <= p.y.value <= MaxPos
              && p == NoChange.(x := p.x, y := p.y)
    ensures r.Some? ==> var raw := PointerPercent(pointer, s.offset, canvas.value);
              && (MinPos <= raw.x <= MaxPos ==> r.value.1.x == Some(raw.x))
              && (MinPos <= raw.y <= MaxPos ==> r.value.1.y == Some(raw.y))
              && (raw.x < MinPos ==> r.value.1.x == Some(MinPos)) && (raw.x > MaxPos ==> r.value.1.x == Some(MaxPos))
              && (raw.y < MinPos ==> r.value.1.y == Some(MinPos)) && (raw.y > MaxPos ==> r.value.1.y == Some(MaxPos))
  {
    if !s.isDragging || !Selected(selected) || canvas.None? then None
    else
      var raw := PointerPercent(pointer, s.offset, canvas.value);
      var x := ClampLow(raw.x, MinPos, MaxPos);
      var y := ClampLow(raw.y, MinPos, MaxPos);
      Some((selected.value, NoChange.(x := Some(x), y := Some(y))))
  }

  /** A pointer move applied to the element list: the canvas's
      `onUpdateElement` prop, taken to be `Designer.UpdateElement`. */
  function Drag(elements: seq<DesignElement>, s: DragState, selected: Option<string>,
                canvas: Option<Box>, pointer: Point): (r: seq<DesignElement>)
    requires canvas.Some? ==> canvas.value.width > 0.0 && canvas.value.height > 0.0
    ensures |r| == |elements|
  {
    match MouseMove(s, selected, canvas, pointer)
    case None => elements
    case Some((id, p)) => Designer.UpdateElement(elements, id, p)
  }

  /** A move changes only `x` and `y` of the elements carrying the selected
      id, leaves them in [10, 90], and leaves every other element alone.
      The element's lock flag is not consulted. */
  lemma DragMovesOnlySelected(elements: seq<DesignElement>, s: DragState, selected: Option<string>,
                              canvas: Option<Box>, pointer: Point)
    requires canvas.Some? ==> canvas.value.width > 0.0 && canvas.value.height > 0.0
    ensures var r := Drag(elements, s, selected, canvas, pointer);
            forall i :: 0 <= i < |elements| ==>
              if s.isDragging && Selected(selected) && canvas.Some? && elements[i].id == selected.value
              then r[i] == elements[i].(x := r[i].x, y := r[i].y)
                   && MinPos <= r[i].x <= MaxPos && MinPos <= r[i].y <= MaxPos
              else r[i] == elements[i]
  {
  }

  /** Dragging moves a locked element like any other. */
  lemma DragIgnoresLock(e: DesignElement, s: DragState, canvas: Box, pointer: Point)
    requires e.isLocked == Some(true) && e.id != "" && s.isDragging
    requires canvas.width > 0.0 && canvas.height > 0.0
    ensures var r := Drag([e], s, Some(e.id), Some(canvas), pointer);
            r[0].x == ClampLow(PointerPercent(pointer, s.offset, canvas).x, MinPos, MaxPos)
  {
  }

  /** `handleMouseUp`, also bound to leaving the surface: dragging stops. */
  function MouseUp(s: DragState): (r: DragState)
    ensures !r.isDragging && r.offset == s.offset
  {
    s.(isDragging := false)
  }

  /** A move after the gesture ended sends nothing. */
  lemma NoMoveAfterMouseUp(s: DragState, selected: Option<string>, canvas: Option<Box>, pointer: Point)
    requires canvas.Some? ==> canvas.value.width > 0.0 && canvas.value.height > 0.0
    ensures MouseMove(MouseUp(s), selected, canvas, pointer).None?
  {
  }

  /** `handleCanvasClick`: a click on the background itself clears the
      selection; a click that bubbled up from a child keeps it. */
  function CanvasClick(targetIsBackground: bool, selected: Option<string>): (r: Option<string>)
    ensures targetIsBackground ==> r.None?
    ensures !targetIsBackground ==> r == selected
  {
    if targetIsBackground then None else selected
  }

  const MinZoom: real := 50.0
  const MaxZoom: real := 200.0
  const ZoomStep: real := 10.0

  function ZoomOut(zoom: real): (r: real)
    ensures r >= MinZoom
    ensures zoom >= MinZoom ==> r <= zoom
    ensures zoom - ZoomStep >= MinZoom ==> r == zoom - ZoomStep
    ensures zoom - ZoomStep < MinZoom ==> r == MinZoom
  {
    Max(MinZoom, zoom - ZoomStep)
  }

  function ZoomIn(zoom: real): (r: real)
    ensures r <= MaxZoom
    ensures zoom <= MaxZoom ==> r >= zoom
    ensures zoom + ZoomStep <= MaxZoom ==> r == zoom + ZoomStep
    ensures zoom + ZoomStep > MaxZoom ==> r == MaxZoom
  {
    Min(MaxZoom, zoom + ZoomStep)
  }

  /** The zoom the reset button restores: actual size. */
  const DefaultZoom: real := 100.0

  function ZoomReset(): (r: real)
    ensures MinZoom <= r <= MaxZoom
    ensures r == DefaultZoom
  {
    DefaultZoom
  }

  /** The buttons keep a zoom in [50, 200] there. */
  lemma ZoomStaysInRange(zoom: real)
    requires MinZoom <= zoom <= MaxZoom
    ensures MinZoom <= ZoomOut(zoom) <= MaxZoom
    ensures MinZoom <= ZoomIn(zoom) <= MaxZoom
  {
  }

  /** Away from the bounds, zooming in undoes zooming out and vice versa. */
  lemma ZoomInOutRoundTrip(zoom: real)
    requires MinZoom + ZoomStep <= zoom <= MaxZoom - ZoomStep
    ensures ZoomIn(ZoomOut(zoom)) == zoom && ZoomOut(ZoomIn(zoom)) == zoom
  {
  }

  /** A worked drag on a 400 by 400 canvas: grab element "1" at its centre
      (50%, 45%), move by 15% and 5% to (65%, 50%), then push 60% further
      right, where `x` stops at 90. */
  lemma DragScenario()
    ensures var canvas := Box(0.0, 0.0, 400.0, 400.0);
            var (s, sel) := MouseDown("1", Box(190.0, 170.0, 20.0, 20.0), Point(200.0, 180.0));
            var first := MouseMove(s, sel, Some(canvas), Point(260.0, 200.0));
            var second := MouseMove(s, sel, Some(canvas), Point(500.0, 200.0));
            && first == Some(("1", NoChange.(x := Some(65.0), y := Some(50.0))))
            && second == Some(("1", NoChange.(x := Some(90.0), y := Some(50.0))))
  {
  }
}
