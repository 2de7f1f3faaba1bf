/** The attributes panel: width and height in pixels or centimetres with
    an optional linked aspect ratio, rotation and position inputs, and the
    print-resolution notice for images. Parsing is a parameter (`None` for
    `NaN`). */
module Attributes {
  import opened Common
  import opened Types

  /** Pixels per centimetre at 96 pixels per inch. */
  const PxPerCm: real := 37.795275591

  /** `cmToPx`: the nearest whole number of pixels. */
  function CmToPx(cm: real): (px: int)
    ensures cm * PxPerCm - 0.5 < px as real <= cm * PxPerCm + 0.5
  {
    Round(cm * PxPerCm)
  }

  /** `pxToCm`: centimetres to two decimals, as `toFixed(2)` writes them
      and the number input reads them back. The rounding moves the value
      by at most half a hundredth of a centimetre, less than a fifth of a
      pixel. */
  function PxToCm(px: real): (cm: real)
    ensures IsInt(cm * 100.0)
    ensures px / PxPerCm - 0.005 < cm <= px / PxPerCm + 0.005
    ensures px - 0.19 < cm * PxPerCm < px + 0.19
  {
    var n := Round(px / PxPerCm * 100.0);
    assert (n as real / 100.0) * 100.0 == n as real;
    n as real / 100.0
  }

  /** A whole number of pixels survives the trip to centimetres and back:
      the two-decimal rounding is too small to move the nearest pixel. */
  lemma PxCmRoundTrip(px: int)
    ensures CmToPx(PxToCm(px as real)) == px
  {
    var x := PxToCm(px as real) * PxPerCm;
    assert px as real - 0.5 <= x < px as real + 0.5;
  }

  datatype Unit = Px | Cm

  /** The panel's own state: the ratio link (on at first) and the unit
      (pixels at first). */
  datatype PanelState = PanelState(linkRatio: bool, unit: Unit)

  const InitialPanel: PanelState := PanelState(true, Px)

  function ToggleLink(st: PanelState): (r: PanelState)
    ensures r.linkRatio == !st.linkRatio && r.unit == st.unit
  {
    st.(linkRatio := !st.linkRatio)
  }

  /** A typed size in pixels: centimetres are converted and rounded, pixels
      are used as typed. */
  function ToPx(unit: Unit, v: real): (px: real)
    ensures unit == Px ==> px == v
    ensures unit == Cm ==> px == CmToPx(v) as real
  {
    if unit == Cm then CmToPx(v) as real else v
  }

  /** The ratio is kept when the link is on and both sizes are truthy. */
  predicate Linked(st: PanelState, e: DesignElement) {
    st.linkRatio && Truthy(e.width) && Truthy(e.height)
  }

  /** `v` is `x` rounded to a whole number. */
  predicate Near(v: real, x: real) {
    IsInt(v) && x - 0.5 < v <= x + 0.5
  }

  /** `Math.round(px * ratio)`. */
  function Scale(px: real, ratio: real): (r: real)
    ensures Near(r, px * ratio)
  {
    Round(px * ratio) as real
  }

  lemma ScaleUnfold(px: real, ratio: real)
    ensures Scale(px, ratio) == Round(px * ratio) as real
  {
  }

  /** `handleWidthChange`: nothing when the text is not a number; otherwise
      the new width, and with the link the height scaled by the old ratio
      and rounded. */
  function WidthChange(st: PanelState, e: DesignElement, parsed: Option<real>): (r: Option<Patch>)
    ensures r.None? <==> parsed.None?
    ensures r.Some? ==> r.value.width == Some(ToPx(st.unit, parsed.value))
    ensures r.Some? && !Linked(st, e) ==> r.value == NoChange.(width := r.value.width)
    ensures r.Some? && Linked(st, e) ==>
              && r.value == NoChange.(width := r.value.width, height := r.value.height)
              && r.value.height.Some?
              && Near(r.value.height.value, r.value.width.value * (e.height.value / e.width.value))
  {
    if parsed.None? then None
    else
      var px := ToPx(st.unit, parsed.value);
      if Linked(st, e) then Some(NoChange.(width := Some(px), height := Some(Scale(px, e.height.value / e.width.value))))
      else Some(NoChange.(width := Some(px)))
  }

  /** `handleHeightChange`, the mirror image of the width handler. */
  function HeightChange(st: PanelState, e: DesignElement, parsed: Option<real>): (r: Option<Patch>)
    ensures r.None? <==> parsed.None?
    ensures r.Some? ==> r.value.height == Some(ToPx(st.unit, parsed.value))
    ensures r.Some? && !Linked(st, e) ==> r.value == NoChange.(height := r.value.height)
    ensures r.Some? && Linked(st, e) ==>
              && r.value == NoChange.(width := r.value.width, height := r.value.height)
              && r.value.width.Some?
              && Near(r.value.width.value, r.value.height.value * (e.width.value / e.height.value))
  {
    if parsed.None? then None
    else
      var px := ToPx(st.unit, parsed.value);
      if Linked(st, e) then Some(NoChange.(height := Some(px), width := Some(Scale(px, e.width.value / e.height.value))))
      else Some(NoChange.(height := Some(px)))
  }

  /** Retyping the current width in pixels changes nothing when the height
      is a whole number: the linked height comes back as it was. */
  lemma WidthRetypeKeepsElement(st: PanelState, e: DesignElement)
    requires st.unit == Px && Truthy(e.width)
    requires e.height.Some? ==> IsInt(e.height.value)
    ensures var r := WidthChange(st, e, Some(e.width.value));
            r.Some? && Apply(e, r.value) == e
  {
    if Linked(st, e) {
      ScaleBack(e.width.value, e.height.value);
    }
  }

  /** Scaling by `h / w` brings `w` back to a whole `h`. */
  lemma ScaleBack(w: real, h: real)
    requires w != 0.0 && IsInt(h)
    ensures Scale(w, h / w) == h
  {
    var ratio := h / w;
    assert w * ratio == h;
    RoundWhole(h);
    ScaleUnfold(w, ratio);
  }


  /** The size shown: the field or 100, converted to centimetres in that
      unit. */
  function ShownSize(st: PanelState, size: Option<real>): (v: real)
    ensures st.unit == Px ==> v == OrDefault(size, 100.0)
    ensures st.unit == Cm ==> IsInt(v * 100.0)
    ensures st.unit == Cm ==> OrDefault(size, 100.0) - 0.19 < v * PxPerCm < OrDefault(size, 100.0) + 0.19
    ensures st.unit == Cm ==> OrDefault(size, 100.0) / PxPerCm - 0.005 < v <= OrDefault(size, 100.0) / PxPerCm + 0.005
    ensures st.unit == Cm ==> v == PxToCm(OrDefault(size, 100.0))
  {
    var px := OrDefault(size, 100.0);
    if st.unit == Cm then PxToCm(px) else px
  }

  /** Typing the shown width back, in either unit, gives the same width when
      it is a whole number of pixels. */
  lemma ShownWidthRoundTrip(st: PanelState, e: DesignElement)
    requires Truthy(e.width) && IsInt(e.width.value)
    ensures var r := WidthChange(st, e, Some(ShownSize(st, e.width)));
            r.Some? && r.value.width == e.width
  {
    PxCmRoundTrip(e.width.value.Floor);
  }

  /** A missing width or height is shown as 100 pixels. */
  lemma MissingSizeShownAsHundred(st: PanelState)
    ensures st.unit == Px ==> ShownSize(st, None) == 100.0
    ensures CmToPx(ShownSize(st.(unit := Cm), None)) == 100
  {
    PxCmRoundTrip(100);
  }

  /** The rotation input: `parseInt(..) || 0`. */
  function RotationChange(parsed: Option<int>): (p: Patch)
    ensures p == NoChange.(rotation := p.rotation) && p.rotation.Some?
    ensures parsed.Some? ==> p.rotation.value == parsed.value as real
    ensures parsed.None? ==> p.rotation.value == 0.0
  {
    NoChange.(rotation := Some(IntOr(parsed, 0) as real))
  }

  /** The rotation slider, kept in [-180, 180] by the slider itself. */
  function RotationSlide(v: real): (p: Patch)
    requires -180.0 <= v <= 180.0
    ensures p == NoChange.(rotation := p.rotation)
    ensures p.rotation == Some(v) && -180.0 <= p.rotation.value <= 180.0
  {
    NoChange.(rotation := Some(v))
  }

  datatype Axis = XAxis | YAxis

  /** The position inputs: `parseFloat(..) || 0`, unclamped. */
  function PositionChange(axis: Axis, parsed: Option<real>): (p: Patch)
    ensures axis == XAxis ==> p == NoChange.(x := p.x) && p.x.Some?
    ensures axis == YAxis ==> p == NoChange.(y := p.y) && p.y.Some?
    ensures var v := if axis == XAxis then p.x else p.y;
            v.Some? && (parsed.Some? ==> v.value == parsed.value) && (parsed.None? ==> v.value == 0.0)
  {
    var v := RealOr(parsed, 0.0);
    if axis == XAxis then NoChange.(x := Some(v)) else NoChange.(y := Some(v))
  }

  /** The font-size input of text elements: `parseInt(..) || 24`. */
  function FontSizeChange(parsed: Option<int>): (p: Patch)
    ensures p == NoChange.(fontSize := p.fontSize) && p.fontSize.Some?
    ensures parsed.Some? && parsed.value != 0 ==> p.fontSize.value == parsed.value as real
    ensures parsed.None? || parsed.value == 0 ==> p.fontSize.value == 24.0
  {
    NoChange.(fontSize := Some(IntOr(parsed, 24) as real))
  }

  /** The resolution at which print quality is considered sufficient. */
  const PrintDpi: real := 300.0

  /** The resolution notice: absent unless the element is an image with a
      truthy DPI; when present, whether it carries the low-resolution
      warning. */
  function DpiNotice(e: DesignElement): (r: Option<bool>)
    ensures r.Some? <==> e.kind == ImageElement && Truthy(e.dpi)
    ensures r == Some(true) <==> e.kind == ImageElement && Truthy(e.dpi) && e.dpi.value < PrintDpi
  {
    if e.kind == ImageElement && Truthy(e.dpi) then Some(e.dpi.value < PrintDpi) else None
  }

  /** Text elements and images without a DPI never show the warning. */
  lemma NoWarningWithoutImageDpi(e: DesignElement)
    requires e.kind == TextElement || e.dpi.None? || e.dpi == Some(0.0)
    ensures DpiNotice(e).None?
  {
  }
}
