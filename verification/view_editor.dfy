/** The admin print-area editor of one product view: the area is dragged
    by its body and resized by its corner handle, in whole percentages of
    the mockup image, and a new mockup image can be uploaded. The storage
    service, the clock and the measured container are parameters. */
module ViewEditor {
  import opened Common
  import opened Types
  import opened Strings
  import Canvas

  /** Where a drag began: the pointer and the area's top-left corner. */
  datatype DragStart = DragStart(x: real, y: real, top: real, left: real)

  /** Where a resize began: the pointer and the area's size. */
  datatype ResizeStart = ResizeStart(x: real, y: real, width: real, height: real)

  /** The editor's state: the edited copy of the view and the two gesture
      flags with their start records. */
  datatype EditorState = EditorState(
    view: ProductView,
    isDragging: bool,
    isResizing: bool,
    dragStart: DragStart,
    resizeStart: ResizeStart)

  function Open(view: ProductView): (st: EditorState)
    ensures st.view == view && !st.isDragging && !st.isResizing
  {
    EditorState(view, false, false, DragStart(0.0, 0.0, 0.0, 0.0), ResizeStart(0.0, 0.0, 0.0, 0.0))
  }

  datatype Handle = AreaBody | CornerHandle

  /** `handleMouseDown`: the body starts a drag, the corner a resize; each
      records the pointer and the current geometry. The other flag is left
      as it is. */
  function MouseDown(st: EditorState, handle: Handle, pointer: Canvas.Point): (r: EditorState)
    ensures r.view == st.view
    ensures handle == AreaBody ==>
              && r.isDragging && r.isResizing == st.isResizing && r.resizeStart == st.resizeStart
              && r.dragStart == DragStart(pointer.x, pointer.y, st.view.area.top, st.view.area.left)
    ensures handle == CornerHandle ==>
              && r.isResizing && r.isDragging == st.isDragging && r.dragStart == st.dragStart
              && r.resizeStart == ResizeStart(pointer.x, pointer.y, st.view.area.width, st.view.area.height)
  {
    match handle
    case AreaBody =>
      st.(isDragging := true, dragStart := DragStart(pointer.x, pointer.y, st.view.area.top, st.view.area.left))
    case CornerHandle =>
      st.(isResizing := true,
          resizeStart := ResizeStart(pointer.x, pointer.y, st.view.area.width, st.view.area.height))
  }

  /** The pointer's travel as a percentage of the container. */
  function Delta(from: real, to: real, extent: real): (d: real)
    requires extent > 0.0
    ensures from + d * extent / 100.0 == to
  {
    (to - from) / extent * 100.0
  }

  /** The drag branch of `handleMouseMove`: the corner follows the pointer
      by `dx`, `dy` percent, kept inside the image by the area's current
      size and rounded to a whole percentage; the size is left alone. */
  function DragTo(a: Area, s: DragStart, dx: real, dy: real): (r: Area)
    ensures r.width == a.width && r.height == a.height
    ensures IsInt(r.left) && IsInt(r.top) && 0.0 <= r.left && 0.0 <= r.top
    ensures IsInt(a.width) && a.width <= 100.0 ==> r.left + a.width <= 100.0
    ensures IsInt(a.height) && a.height <= 100.0 ==> r.top + a.height <= 100.0
    ensures 0.0 <= s.left + dx <= 100.0 - a.width ==> s.left + dx - 0.5 < r.left <= s.left + dx + 0.5
    ensures 0.0 <= s.top + dy <= 100.0 - a.height ==> s.top + dy - 0.5 < r.top <= s.top + dy + 0.5
    ensures s.left + dx < 0.0 || a.width > 100.0 ==> r.left == 0.0
    ensures s.top + dy < 0.0 || a.height > 100.0 ==> r.top == 0.0
    ensures 0.0 <= 100.0 - a.width < s.left + dx ==> r.left == Round(100.0 - a.width) as real
    ensures 0.0 <= 100.0 - a.height < s.top + dy ==> r.top == Round(100.0 - a.height) as real
  {
    var left := ClampLow(s.left + dx, 0.0, 100.0 - a.width);
    var top := ClampLow(s.top + dy, 0.0, 100.0 - a.height);
    ClampRoundWithin(s.left + dx, 0, 100 - a.width.Floor);
    ClampRoundWithin(s.top + dy, 0, 100 - a.height.Floor);
    a.(left := Round(left) as real, top := Round(top) as real)
  }

  /** The resize branch: the size follows the pointer, at least 10 and kept
      inside the image by the area's current corner, rounded to a whole
      percentage; the corner is left alone. */
  function ResizeTo(a: Area, s: ResizeStart, dx: real, dy: real): (r: Area)
    ensures r.left == a.left && r.top == a.top
    ensures IsInt(r.width) && IsInt(r.height) && 10.0 <= r.width && 10.0 <= r.height
    ensures IsInt(a.left) && a.left <= 90.0 ==> a.left + r.width <= 100.0
    ensures IsInt(a.top) && a.top <= 90.0 ==> a.top + r.height <= 100.0
    ensures 10.0 <= s.width + dx <= 100.0 - a.left ==> s.width + dx - 0.5 < r.width <= s.width + dx + 0.5
    ensures 10.0 <= s.height + dy <= 100.0 - a.top ==> s.height + dy - 0.5 < r.height <= s.height + dy + 0.5
    ensures s.width + dx < 10.0 || a.left > 90.0 ==> r.width == 10.0
    ensures s.height + dy < 10.0 || a.top > 90.0 ==> r.height == 10.0
    ensures 10.0 <= 100.0 - a.left < s.width + dx ==> r.width == Round(100.0 - a.left) as real
    ensures 10.0 <= 100.0 - a.top < s.height + dy ==> r.height == Round(100.0 - a.top) as real
  {
    var width := ClampLow(s.width + dx, 10.0, 100.0 - a.left);
    var height := ClampLow(s.height + dy, 10.0, 100.0 - a.top);
    ClampRoundWithin(s.width + dx, 10, 100 - a.left.Floor);
    ClampRoundWithin(s.height + dy, 10, 100 - a.top.Floor);
    a.(width := Round(width) as real, height := Round(height) as real)
  }

  /** `handleMouseMove`. Each raised flag applies its branch to the area as
      it was before the move; without a container nothing happens. */
  function MouseMove(st: EditorState, container: Option<Canvas.Box>, pointer: Canvas.Point): (r: EditorState)
    requires container.Some? ==> container.value.width > 0.0 && container.value.height > 0.0
    ensures r.isDragging == st.isDragging && r.isResizing == st.isResizing
    ensures r.dragStart == st.dragStart && r.resizeStart == st.resizeStart
    ensures r.view == st.view.(area := r.view.area)
    ensures container.None? ==> r == st
    ensures !st.isDragging ==> r.view.area.top == st.view.area.top && r.view.area.left == st.view.area.left
    ensures !st.isResizing ==> r.view.area.width == st.view.area.width && r.view.area.height == st.view.area.height
  {
    if container.None? then st
    else
      var box := container.value;
      var prev := st.view.area;
      var dragged :=
        if st.isDragging
        then DragTo(prev, st.dragStart, Delta(st.dragStart.x, pointer.x, box.width),
                    Delta(st.dragStart.y, pointer.y, box.height))
        else prev;
      var resized :=
        if st.isResizing
        then ResizeTo(prev, st.resizeStart, Delta(st.resizeStart.x, pointer.x, box.width),
                      Delta(st.resizeStart.y, pointer.y, box.height))
        else prev;
      st.(view := st.view.(area := Area(dragged.top, dragged.left, resized.width, resized.height)))
  }

  /** `handleMouseUp`, also bound to leaving the image: both gestures end. */
  function MouseUp(st: EditorState): (r: EditorState)
    ensures !r.isDragging && !r.isResizing
    ensures r.view == st.view
  {
    st.(isDragging := false, isResizing := false)
  }

  /** After the gestures end, moving the pointer changes nothing. */
  lemma NoMoveAfterMouseUp(st: EditorState, container: Option<Canvas.Box>, pointer: Canvas.Point)
    requires container.Some? ==> container.value.width > 0.0 && container.value.height > 0.0
    ensures MouseMove(MouseUp(st), container, pointer) == MouseUp(st)
  {
  }

  /** A print area in whole percentages, at least 10 wide and high, that
      lies inside the image. */
  predicate Inside(a: Area) {
    && IsInt(a.top) && IsInt(a.left) && IsInt(a.width) && IsInt(a.height)
    && 0.0 <= a.top && 0.0 <= a.left && 10.0 <= a.width && 10.0 <= a.height
    && a.left + a.width <= 100.0 && a.top + a.height <= 100.0
  }

  /** The clamp-then-round of one coordinate stays in an integer interval. */
  lemma ClampRoundWithin(v: real, lo: int, hi: int)
    ensures lo <= hi ==> lo as real <= Round(ClampLow(v, lo as real, hi as real)) as real <= hi as real
  {
    if lo <= hi {
      RoundWithin(ClampLow(v, lo as real, hi as real), lo, hi);
    }
  }

  /** One gesture at a time keeps a well-placed area well placed: a drag
      cannot push it past the image's edges and a resize cannot make it
      smaller than 10 or reach past the edges. */
  lemma MoveKeepsInside(st: EditorState, container: Option<Canvas.Box>, pointer: Canvas.Point)
    requires container.Some? ==> container.value.width > 0.0 && container.value.height > 0.0
    requires Inside(st.view.area)
    requires !(st.isDragging && st.isResizing)
    ensures Inside(MouseMove(st, container, pointer).view.area)
  {
  }

  /** With both flags raised, the two branches use each other's old values,
      so the area can end up reaching past the right edge. */
  lemma BothGesturesCanOverflow()
    ensures var view := ProductView("v", "p", "Front", 0, None, Area(0.0, 40.0, 50.0, 50.0));
            var st := EditorState(view, true, true, DragStart(0.0, 0.0, 0.0, 40.0), ResizeStart(0.0, 0.0, 50.0, 50.0));
            && Inside(view.area)
            && !Inside(MouseMove(st, Some(Canvas.Box(0.0, 0.0, 100.0, 100.0)), Canvas.Point(100.0, 0.0)).view.area)
  {
    var a := Area(0.0, 40.0, 50.0, 50.0);
    var d := DragTo(a, DragStart(0.0, 0.0, 0.0, 40.0), 100.0, 0.0);
    var z := ResizeTo(a, ResizeStart(0.0, 0.0, 50.0, 50.0), 100.0, 0.0);
    assert d.left == 50.0 by { RoundInt(50); }
    assert z.width == 60.0 by { RoundInt(60); }
  }

  /** The move as evidently intended: the resize is clamped against the
      corner the drag has just placed, so the area stays inside the image
      whichever gestures are active. With at most one gesture it is the
      move as written. */
  function MouseMoveFixed(st: EditorState, container: Option<Canvas.Box>, pointer: Canvas.Point): (r: EditorState)
    requires container.Some? ==> container.value.width > 0.0 && container.value.height > 0.0
    ensures !(st.isDragging && st.isResizing) ==> r == MouseMove(st, container, pointer)
    ensures Inside(st.view.area) ==> Inside(r.view.area)
  {
    if container.None? then st
    else
      var box := container.value;
      var prev := st.view.area;
      var dragged :=
        if st.isDragging
        then DragTo(prev, st.dragStart, Delta(st.dragStart.x, pointer.x, box.width),
                    Delta(st.dragStart.y, pointer.y, box.height))
        else prev;
      var resized :=
        if st.isResizing
        then ResizeTo(dragged, st.resizeStart, Delta(st.resizeStart.x, pointer.x, box.width),
                      Delta(st.resizeStart.y, pointer.y, box.height))
        else dragged;
      st.(view := st.view.(area := resized))
  }

  /** The move that overflows as written stays inside once corrected: the
      area is dragged to 50 and its width held at 50. */
  lemma BothGesturesFixed()
    ensures var view := ProductView("v", "p", "Front", 0, None, Area(0.0, 40.0, 50.0, 50.0));
            var st := EditorState(view, true, true, DragStart(0.0, 0.0, 0.0, 40.0), ResizeStart(0.0, 0.0, 50.0, 50.0));
            MouseMoveFixed(st, Some(Canvas.Box(0.0, 0.0, 100.0, 100.0)), Canvas.Point(100.0, 0.0)).view.area
              == Area(0.0, 50.0, 50.0, 50.0)
  {
    var a := Area(0.0, 40.0, 50.0, 50.0);
    var d := DragTo(a, DragStart(0.0, 0.0, 0.0, 40.0), 100.0, 0.0);
    assert d == Area(0.0, 50.0, 50.0, 50.0) by { RoundInt(0); RoundInt(50); }
    var z := ResizeTo(d, ResizeStart(0.0, 0.0, 50.0, 50.0), 100.0, 0.0);
    assert z == d by { RoundInt(50); }
  }

  /** The accepted mockup types and why a file was refused. */
  const MockupTypes: seq<string> := ["image/png", "image/jpeg", "image/jpg"]

  /** The checks before an upload: the type first, then the size. */
  function CheckMockup(file: UploadFile): (r: Option<Rejection>)
    ensures r == Some(WrongType) <==> file.mimeType !in MockupTypes
    ensures r == Some(TooLarge) <==> file.mimeType in MockupTypes && file.size > MaxUploadBytes
    ensures r.None? <==> file.mimeType in MockupTypes && file.size <= MaxUploadBytes
  {
    if file.mimeType !in MockupTypes then Some(WrongType)
    else if file.size > MaxUploadBytes then Some(TooLarge)
    else None
  }

  /** `mockups/<time>-<view id>.<extension>`, the extension being the text
      after the file name's last dot. */
  function MockupPath(now: nat, viewId: string, fileName: string): string {
    "mockups/" + NatToString(now) + "-" + viewId + ['.'] + LastSegment(fileName, '.')
  }

  /** The stored file lies in the mockups folder. */
  lemma MockupPathInFolder(now: nat, viewId: string, fileName: string)
    ensures MockupPath(now, viewId, fileName)[..8] == "mockups/"
  {
    var ext := LastSegment(fileName, '.');
    Regroup("mockups/", NatToString(now), "-", viewId, ['.'], ext);
    PrefixOf("mockups/", NatToString(now) + "-" + (viewId + ['.'] + ext));
  }

  /** The stored file keeps the extension of the picked file. */
  lemma MockupPathKeepsExtension(now: nat, viewId: string, fileName: string)
    ensures LastSegment(MockupPath(now, viewId, fileName), '.') == LastSegment(fileName, '.')
  {
    LastSegmentAfterSeparator("mockups/" + NatToString(now) + "-" + viewId, '.', LastSegment(fileName, '.'));
  }

  /** Uploads at different times go to different paths. */
  lemma MockupPathsDiffer(a: nat, b: nat, viewId: string, fileName: string)
    requires a != b
    ensures MockupPath(a, viewId, fileName) != MockupPath(b, viewId, fileName)
  {
    var ext := LastSegment(fileName, '.');
    var rest := viewId + ['.'] + ext;
    Regroup("mockups/", NatToString(a), "-", viewId, ['.'], ext);
    Regroup("mockups/", NatToString(b), "-", viewId, ['.'], ext);
    if MockupPath(a, viewId, fileName) == MockupPath(b, viewId, fileName) {
      DropPrefix("mockups/", NatToString(a) + "-" + rest, NatToString(b) + "-" + rest);
      StampInjective(a, b, '-', rest, rest);
    }
  }

  /** `handleImageUpload`: the path it stores to, when the file passes the
      checks, and the new state. `publicUrl` is the storage service's answer:
      the public address of the stored file, or `None` when the upload
      failed. Only a stored file changes the view's mockup image. */
  function UploadImage(st: EditorState, file: UploadFile, now: nat, publicUrl: Option<string>)
    : (r: (EditorState, Option<string>))
    ensures CheckMockup(file).Some? ==> r == (st, None)
    ensures CheckMockup(file).None? ==> r.1 == Some(MockupPath(now, st.view.id, file.name))
    ensures CheckMockup(file).None? && publicUrl.Some? ==>
              r.0 == st.(view := st.view.(mockupImageUrl := publicUrl))
    ensures publicUrl.None? ==> r.0 == st
  {
    if CheckMockup(file).Some? then (st, None)
    else
      var path := MockupPath(now, st.view.id, file.name);
      if publicUrl.None? then (st, Some(path))
      else (st.(view := st.view.(mockupImageUrl := publicUrl)), Some(path))
  }

  /** The columns a save sends: the mockup image and the four area values. */
  datatype ViewUpdate = ViewUpdate(mockupImageUrl: Option<string>, area: Area)

  function SavePayload(view: ProductView): ViewUpdate {
    ViewUpdate(view.mockupImageUrl, view.area)
  }

  /** The row after the database applies an update. */
  function ApplyUpdate(row: ProductView, u: ViewUpdate): (r: ProductView)
    ensures r.id == row.id && r.productId == row.productId
    ensures r.viewName == row.viewName && r.viewOrder == row.viewOrder
  {
    row.(mockupImageUrl := u.mockupImageUrl, area := u.area)
  }

  /** `handleSave`: saving the edited copy makes the stored row equal to it;
      nothing else of the row is sent. */
  lemma SaveRoundTrip(row: ProductView, st: EditorState)
    requires st.view.id == row.id && st.view.productId == row.productId
    requires st.view.viewName == row.viewName && st.view.viewOrder == row.viewOrder
    ensures ApplyUpdate(row, SavePayload(st.view)) == st.view
  {
  }
}
