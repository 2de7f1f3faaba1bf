/** The property inspector of the selected element: the bold / italic /
    underline toggle group, the alignment group, the numeric inputs with
    their `parseInt(..) || fallback` defaults, and rotation reset. The
    parse itself is a parameter (`None` for `NaN`). */
module Inspector {
  import opened Common
  import opened Types

  const BoldFlag: string := "bold"
  const ItalicFlag: string := "italic"
  const UnderlineFlag: string := "underline"

  /** `getStyleValues`: the pressed toggles, in the order bold, italic,
      underline. */
  function StyleValues(e: DesignElement): (r: seq<string>)
    ensures BoldFlag in r <==> e.fontWeight == Some(Bold)
    ensures ItalicFlag in r <==> e.fontStyle == Some(Italic)
    ensures UnderlineFlag in r <==> e.textDecoration == Some(Underline)
    ensures forall v :: v in r ==> v == BoldFlag || v == ItalicFlag || v == UnderlineFlag
    ensures forall i, j :: 0 <= i < j < |r| ==> r[i] != r[j]
  {
    (if e.fontWeight == Some(Bold) then [BoldFlag] else [])
    + (if e.fontStyle == Some(Italic) then [ItalicFlag] else [])
    + (if e.textDecoration == Some(Underline) then [UnderlineFlag] else [])
  }

  /** `handleStyleChange`: all three style fields are written, each from
      the membership of its flag; nothing else is. */
  function StyleChange(values: seq<string>): (p: Patch)
    ensures p == NoChange.(fontWeight := p.fontWeight, fontStyle := p.fontStyle,
                           textDecoration := p.textDecoration)
    ensures p.fontWeight == Some(if BoldFlag in values then Bold else WeightNormal)
    ensures p.fontStyle == Some(if ItalicFlag in values then Italic else StyleNormal)
    ensures p.textDecoration == Some(if UnderlineFlag in values then Underline else DecorationNone)
  {
    NoChange.(fontWeight := Some(if BoldFlag in values then Bold else WeightNormal),
              fontStyle := Some(if ItalicFlag in values then Italic else StyleNormal),
              textDecoration := Some(if UnderlineFlag in values then Underline else DecorationNone))
  }

  /** The style of an element with absent fields written out as their
      plain values. */
  function NormalStyle(e: DesignElement): (r: DesignElement)
    ensures r == e.(fontWeight := r.fontWeight, fontStyle := r.fontStyle, textDecoration := r.textDecoration)
    ensures r.fontWeight.Some? && r.fontStyle.Some? && r.textDecoration.Some?
    ensures r.fontWeight.value == Bold <==> e.fontWeight == Some(Bold)
    ensures r.fontStyle.value == Italic <==> e.fontStyle == Some(Italic)
    ensures r.textDecoration.value == Underline <==> e.textDecoration == Some(Underline)
  {
    e.(fontWeight := Some(if e.fontWeight == Some(Bold) then Bold else WeightNormal),
       fontStyle := Some(if e.fontStyle == Some(Italic) then Italic else StyleNormal),
       textDecoration := Some(if e.textDecoration == Some(Underline) then Underline else DecorationNone))
  }

  /** Feeding the shown toggles back into the change handler normalises
      the element's style and changes nothing else. */
  lemma StyleRoundTrip(e: DesignElement)
    ensures Apply(e, StyleChange(StyleValues(e))) == NormalStyle(e)
  {
  }

  /** After a change, the shown toggles are exactly the flags that were
      pressed. */
  lemma StyleValuesAfterChange(e: DesignElement, values: seq<string>)
    ensures forall v :: v in StyleValues(Apply(e, StyleChange(values))) <==>
              v in values && (v == BoldFlag || v == ItalicFlag || v == UnderlineFlag)
  {
  }

  /** The alignment shown: centre when absent. */
  function AlignShown(e: DesignElement): (a: TextAlign)
    ensures e.textAlign.Some? ==> a == e.textAlign.value
    ensures e.textAlign.None? ==> a == AlignCenter
  {
    e.textAlign.GetOr(AlignCenter)
  }

  /** The alignment group's change: pressing the active item again reports
      the empty value (`None`), which produces no update. */
  function AlignChange(value: Option<TextAlign>): (r: Option<Patch>)
    ensures r.None? <==> value.None?
    ensures r.Some? ==> r.value == NoChange.(textAlign := value)
  {
    if value.None? then None else Some(NoChange.(textAlign := value))
  }

  /** Choosing the shown alignment leaves a shown alignment unchanged. */
  lemma AlignChangeKeepsShown(e: DesignElement, value: TextAlign)
    ensures var r := AlignChange(Some(value));
            r.Some? && AlignShown(Apply(e, r.value)) == value
  {
  }

  /** The numeric inputs of the inspector. */
  datatype NumberField = WidthInput | HeightInput | FontSizeInput | RotationInput | XInput | YInput

  /** The value an input falls back to when its text parses to `NaN` or 0. */
  function Fallback(f: NumberField): (d: int)
    ensures f == WidthInput || f == HeightInput ==> d == 100
    ensures f == FontSizeInput ==> d == 24
    ensures f == RotationInput ==> d == 0
    ensures f == XInput || f == YInput ==> d == 50
  {
    match f
    case WidthInput => 100
    case HeightInput => 100
    case FontSizeInput => 24
    case RotationInput => 0
    case XInput => 50
    case YInput => 50
  }

  /** The update object with only the field of `f` set to `v`. */
  function SetField(f: NumberField, v: real): (p: Patch)
    ensures f == WidthInput ==> p == NoChange.(width := Some(v))
    ensures f == HeightInput ==> p == NoChange.(height := Some(v))
    ensures f == FontSizeInput ==> p == NoChange.(fontSize := Some(v))
    ensures f == RotationInput ==> p == NoChange.(rotation := Some(v))
    ensures f == XInput ==> p == NoChange.(x := Some(v))
    ensures f == YInput ==> p == NoChange.(y := Some(v))
  {
    match f
    case WidthInput => NoChange.(width := Some(v))
    case HeightInput => NoChange.(height := Some(v))
    case FontSizeInput => NoChange.(fontSize := Some(v))
    case RotationInput => NoChange.(rotation := Some(v))
    case XInput => NoChange.(x := Some(v))
    case YInput => NoChange.(y := Some(v))
  }

  /** The field's value as the element holds it. */
  function FieldOf(f: NumberField, e: DesignElement): Option<real> {
    match f
    case WidthInput => e.width
    case HeightInput => e.height
    case FontSizeInput => e.fontSize
    case RotationInput => e.rotation
    case XInput => Some(e.x)
    case YInput => Some(e.y)
  }

  /** An input's `onChange`: the parsed integer, or the fallback when the
      parse gives `NaN` or 0. */
  function NumberChange(f: NumberField, parsed: Option<int>): (p: Patch)
    ensures parsed.Some? && parsed.value != 0 ==> p == SetField(f, parsed.value as real)
    ensures parsed.None? || parsed.value == 0 ==> p == SetField(f, Fallback(f) as real)
  {
    SetField(f, IntOr(parsed, Fallback(f)) as real)
  }

  /** Whatever is typed, the edited field is set and it is the only one. */
  lemma NumberChangeSetsOnlyItsField(e: DesignElement, f: NumberField, g: NumberField, parsed: Option<int>)
    requires f != g
    ensures var r := Apply(e, NumberChange(f, parsed));
            && FieldOf(f, r) == Some(IntOr(parsed, Fallback(f)) as real)
            && FieldOf(g, r) == FieldOf(g, e)
            && r.id == e.id && r.content == e.content && r.color == e.color
  {
  }

  /** Typing 0 into the position inputs moves the element to 50. */
  lemma ZeroPositionBecomesFifty(f: NumberField)
    requires f == XInput || f == YInput
    ensures NumberChange(f, Some(0)) == SetField(f, 50.0)
  {
  }

  /** The value the input shows: the size inputs show the field or 100, the
      font size the field or 24, the rotation the field or 0, and the
      position inputs the rounded position. */
  function Shown(f: NumberField, e: DesignElement): (v: real)
    ensures f == XInput ==> v == Round(e.x) as real
    ensures f == YInput ==> v == Round(e.y) as real
    ensures f != XInput && f != YInput && Truthy(FieldOf(f, e)) ==> v == FieldOf(f, e).value
    ensures f != XInput && f != YInput && !Truthy(FieldOf(f, e)) ==> v == Fallback(f) as real
  {
    match f
    case XInput => Round(e.x) as real
    case YInput => Round(e.y) as real
    case _ => OrDefault(FieldOf(f, e), Fallback(f) as real)
  }

  /** Entering the shown value again changes nothing when the field holds a
      nonzero whole number. */
  lemma ShownValueRoundTrip(f: NumberField, e: DesignElement, n: int)
    requires n != 0 && FieldOf(f, e) == Some(n as real)
    ensures Shown(f, e) == n as real
    ensures Apply(e, NumberChange(f, Some(n))) == e
  {
    RoundInt(n);
  }

  /** A position in (-0.5, 0.5) shows as 0, so retyping the shown value
      moves the element to 50. */
  lemma ShownZeroPositionJumps(e: DesignElement)
    requires -0.5 <= e.x < 0.5
    ensures Shown(XInput, e) == 0.0
    ensures Apply(e, NumberChange(XInput, Some(Round(Shown(XInput, e))))).x == 50.0
  {
    RoundInt(0);
  }

  const MinFontSize: real := 8.0
  const MaxFontSize: real := 120.0
  const MinRotation: real := -180.0
  const MaxRotation: real := 180.0

  /** The font-size slider writes its value, which the slider keeps in
      [8, 120]. */
  function FontSizeSlide(v: real): (p: Patch)
    requires MinFontSize <= v <= MaxFontSize
    ensures p.fontSize == Some(v) && MinFontSize <= p.fontSize.value <= MaxFontSize
    ensures p == NoChange.(fontSize := p.fontSize)
  {
    NoChange.(fontSize := Some(v))
  }

  /** The rotation slider writes its value, which the slider keeps in
      [-180, 180]. */
  function RotationSlide(v: real): (p: Patch)
    requires MinRotation <= v <= MaxRotation
    ensures p.rotation == Some(v) && MinRotation <= p.rotation.value <= MaxRotation
    ensures p == NoChange.(rotation := p.rotation)
  {
    NoChange.(rotation := Some(v))
  }

  /** The reset button: rotation back to 0, nothing else touched. */
  function ResetRotation(): (p: Patch)
    ensures p.rotation == Some(0.0) && p == NoChange.(rotation := p.rotation)
  {
    NoChange.(rotation := Some(0.0))
  }

  /** A reset element shows rotation 0, and resetting twice is resetting
      once. */
  lemma ResetRotationShowsZero(e: DesignElement)
    ensures Shown(RotationInput, Apply(e, ResetRotation())) == 0.0
    ensures Apply(Apply(e, ResetRotation()), ResetRotation()) == Apply(e, ResetRotation())
  {
  }

  /** The colour swatches offered next to the colour inputs. */
  const ColorPresets: seq<string> := [
    "#000000", "#FFFFFF", "#EF4444", "#F97316", "#EAB308",
    "#22C55E", "#3B82F6", "#8B5CF6", "#EC4899", "#6B7280"]

  /** The fonts of the font menu. */
  const Fonts: seq<string> := ["Inter", "Arial", "Georgia", "Times New Roman", "Courier New", "Comic Sans MS"]

  /** The colour shown: the element's colour, or black when it is absent
      or empty (`color || "#000000"`). */
  function ColorShown(e: DesignElement): (c: string)
    ensures c != ""
    ensures e.color.Some? && e.color.value != "" ==> c == e.color.value
    ensures e.color.None? || e.color.value == "" ==> c == ColorPresets[0]
  {
    if e.color.Some? && e.color.value != "" then e.color.value else "#000000"
  }

  /** The font shown: the element's font, or Inter when it is absent or
      empty (`fontFamily || "Inter"`). */
  function FontShown(e: DesignElement): (c: string)
    ensures c != ""
    ensures e.fontFamily.Some? && e.fontFamily.value != "" ==> c == e.fontFamily.value
    ensures e.fontFamily.None? || e.fontFamily.value == "" ==> c == Fonts[0]
  {
    if e.fontFamily.Some? && e.fontFamily.value != "" then e.fontFamily.value else "Inter"
  }

  /** A swatch click, the colour inputs, the font menu and the content box
      each write their one field. */
  datatype TextEdit = PickPreset(index: nat) | TypeColor(color: string) | PickFont(font: string)
                    | TypeContent(content: string)

  function TextChange(edit: TextEdit): (p: Patch)
    requires edit.PickPreset? ==> edit.index < |ColorPresets|
    ensures edit.PickPreset? ==> p == NoChange.(color := Some(ColorPresets[edit.index]))
    ensures edit.TypeColor? ==> p == NoChange.(color := Some(edit.color))
    ensures edit.PickFont? ==> p == NoChange.(fontFamily := Some(edit.font))
    ensures edit.TypeContent? ==> p == NoChange.(content := Some(edit.content))
  {
    match edit
    case PickPreset(i) => NoChange.(color := Some(ColorPresets[i]))
    case TypeColor(c) => NoChange.(color := Some(c))
    case PickFont(f) => NoChange.(fontFamily := Some(f))
    case TypeContent(s) => NoChange.(content := Some(s))
  }

  /** A picked preset is the colour shown afterwards. */
  lemma PresetIsShown(e: DesignElement, i: nat)
    requires i < |ColorPresets|
    ensures ColorShown(Apply(e, TextChange(PickPreset(i)))) == ColorPresets[i]
  {
  }
}
