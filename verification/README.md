# Product designer: a Dafny model

This project models the core of a browser-based product designer, a React
and TypeScript application. Customers place text and images on a product
mockup, and administrators maintain the product catalogue behind it. The
model covers these parts of the application:

- the undo/redo history hook (`useDesignHistory`) and the design
  persistence hook (`useDesignPersistence`);
- the designer page's element collection (update, delete, add text);
- the canvas drag and zoom;
- the layers, property and attribute panels;
- the colour preview, colour picker, product list, gallery and upload
  panels;
- the administrator's catalogue, product and print-area editors.

Each source file becomes one Dafny module:

| module | models |
|---|---|
| `Common` | optional values, `Math.round`, the `Math.max(lo, Math.min(hi, v))` clamp, the `value \|\| fallback` defaults for numbers, and `[...new Set(s)]` |
| `Strings` | `trim`, `split(sep).pop()` and decimal rendering |
| `Types` | the records of `types.ts` and the object spread `{ ...e, ...p }` |
| `History` | `useDesignHistory.ts` |
| `Persistence` | `useDesignPersistence.ts`, over local storage modelled as a map |
| `Designer` | `ProductDesigner.tsx` |
| `Canvas` | `DesignCanvas.tsx` |
| `Layers` | `LayersPanel.tsx` |
| `Inspector` | `PropertyInspector.tsx` |
| `Attributes` | `AttributesPanel.tsx` |
| `ColorPreview` | `ColorPreviewPanel.tsx` |
| `ColorPicker` | `ColorPickerPopover.tsx` |
| `ProductPanel` | `ProductPanel.tsx` |
| `Gallery` | `ImageGallery.tsx` |
| `Uploads` | `UploadPanel.tsx` |
| `AdminCatalog` | `AdminCatalogPanel.tsx` |
| `AdminProduct` | `AdminProductPanel.tsx` |
| `ViewEditor` | `AdminViewEditor.tsx` |

React state handling is modelled as follows:

- Every event handler is a pure function from the component's state to its
  next state, or to the update it sends to its parent.
- A functional `setState(prev => …)` is one transition on `prev`.
- Values read from the closure are the values of the render in which the
  handler was created.
- The database, storage, clock and random numbers are parameters: a handler
  receives what the outside world answered (a row, a public URL, a failure).

Numbers are Dafny reals. `NaN` and `undefined` are `None`. The JavaScript
idioms the code relies on are written out:

- `Math.round` rounds halves up;
- `x || d` replaces `0`, `NaN` and `undefined`;
- arrays are always truthy;
- `parseInt(s, 16)` reads the longest run of hex digits after leading
  white space.

Notes on the code as written:

- **Designer page.** It keeps its elements in plain `useState`, not in the
  history hook. It mounts the canvas without the `onUpdateElement` and
  `currentProduct` props the canvas declares, and the layers panel
  without its `onUpdateElement` prop. The model follows each panel's
  declared props (see `Canvas.Drag` and `Layers.ToggleVisibleOnRow` under
  "## Left out").
- **Element editing.** It has no resize or rotate handles on the canvas and
  no minimum size. Dragging ignores the element lock.
- **History.** It evicts the oldest snapshot at 50 entries. It does not
  reset the history when a design is loaded.
- **User uploads.** The panel accepts PNG only. The administrator's mockup
  upload also accepts JPEG.
- **Catalogue and product forms.** The catalogue form trims the product
  name before the empty check. The product form checks only for an empty
  name, and it checks neither file type nor size.

## Model

| member | source | states |
|---|---|---|
| History.Init | src/hooks/useDesignHistory.ts:9-10 | the hook starts with one snapshot, the initial elements, under the cursor; that state is reachable and displays the initial elements |
| History.Current | src/hooks/useDesignHistory.ts:12 | the displayed elements are the snapshot under the cursor, and `[]` when the cursor is past the end |
| History.Resolve | src/hooks/useDesignHistory.ts:16-17 | a commit records the given array, or the updater applied to the displayed elements |
| History.Kept | src/hooks/useDesignHistory.ts:20 | `slice(0, cursor + 1)` keeps the snapshots up to and including the cursor, never more than exist |
| History.CommitSnapshots | src/hooks/useDesignHistory.ts:20-27 | the new list ends with the committed array; below the cap it is the kept prefix plus that array, and at the cap the oldest kept snapshot is dropped |
| History.Commit | src/hooks/useDesignHistory.ts:14-32 | `setElements` as written: the snapshot list of `CommitSnapshots`, and the cursor moved one forward but never past 50 |
| History.CommitFixed | src/hooks/useDesignHistory.ts:14-32 | the corrected commit: the cursor is on the newest snapshot, the state stays reachable and the committed array is displayed |
| History.Undo | src/hooks/useDesignHistory.ts:34-38 | undo moves the cursor one back exactly when it is above 0, and otherwise changes nothing; the snapshots never change |
| History.Redo | src/hooks/useDesignHistory.ts:40-44 | redo moves the cursor one forward exactly when a later snapshot exists, and otherwise changes nothing |
| History.ReachableIsInvariant | src/hooks/useDesignHistory.ts:14-44 | commit, undo and redo keep 1 to 50 snapshots with the cursor at most one past the end |
| History.CommitBelowCap | src/hooks/useDesignHistory.ts:20-21 | below the cap a commit drops the redo branch, appends one snapshot and displays it |
| History.CommitAtCapOverflows | src/hooks/useDesignHistory.ts:23-31 | at the cap the oldest snapshot is dropped, the cursor lands one past the end, and the display falls back to `[]` |
| History.CommitAtCapLosesCurrent | src/hooks/useDesignHistory.ts:12-31 | a concrete 50-snapshot history whose commit is not displayed, while the corrected commit displays it |
| History.UndoAfterCommit | src/hooks/useDesignHistory.ts:14-38 | below the cap, undo right after a commit restores the previous display |
| History.UndoAfterCommitFixed | src/hooks/useDesignHistory.ts:14-38 | with the corrected commit, undo right after a commit restores the previous display in every reachable state |
| History.CommitClearsRedo | src/hooks/useDesignHistory.ts:19-21 | after a commit there is nothing to redo |
| History.RedoAfterUndo | src/hooks/useDesignHistory.ts:34-44 | redo undoes an undo while the cursor is on a snapshot |
| History.RedoAfterUndoPastEnd | src/hooks/useDesignHistory.ts:31-44 | in the overflow state, undo followed by redo does not return to the starting state |
| History.HandleKey | src/hooks/useDesignHistory.ts:51-63 | with Ctrl or Cmd held, key `z` undoes, key `z` with Shift held and key `y` redo, the default action is prevented exactly for those keys, and other keys change nothing |
| Designer.IndexOfId | src/components/designer/ProductDesigner.tsx:47 | the first position carrying the id, or none exactly when no element carries it |
| Designer.SelectedElement | src/components/designer/ProductDesigner.tsx:47 | an element is selected exactly when the selected id is carried by some element, and it is one of the elements |
| Designer.UpdateElement | src/components/designer/ProductDesigner.tsx:49-53 | every element with the id gets the update spread over it, all others are unchanged, and the length is kept |
| Designer.RemoveId | src/components/designer/ProductDesigner.tsx:56 | the survivors are exactly the elements with a different id |
| Designer.DeleteElement | src/components/designer/ProductDesigner.tsx:55-60 | the id's elements are removed, and the selection is cleared exactly when it was that id |
| Designer.AddText | src/components/designer/ProductDesigner.tsx:62-75 | one text element reading "New Text" at (50, 45), 24 px, black, Inter, with no other field set, is appended after the unchanged elements and selected |
| Designer.InitialElementsShape | src/components/designer/ProductDesigner.tsx:24-45 | the page starts with two text elements with ids "1" and "2" |
| Designer.RemoveIdAppend | src/components/designer/ProductDesigner.tsx:56 | the filter distributes over concatenation, so survivors keep their order |
| Designer.RemoveAbsentId | src/components/designer/ProductDesigner.tsx:56 | deleting an id that no element carries changes nothing |
| Designer.DeleteUndoesAddText | src/components/designer/ProductDesigner.tsx:55-75 | deleting the text just added with a fresh id restores the collection and clears the selection |
| Designer.RemoveOwnSingleton | src/components/designer/ProductDesigner.tsx:56 | an element alone is removed by its own id |
| Designer.RemoveIdIdempotent | src/components/designer/ProductDesigner.tsx:56 | deleting the same id twice is deleting it once |
| Designer.AddTextSelectsNewElement | src/components/designer/ProductDesigner.tsx:47-75 | after adding text with a fresh id, the selected element is the new text |
| Designer.SelectedAfterUpdate | src/components/designer/ProductDesigner.tsx:47-53 | an update that keeps the id shows up in the selected element |
| Types.Override | src/components/designer/ProductDesigner.tsx:51 | in `{ ...el, ...updates }` a key the update carries wins, and an absent key keeps the element's value |
| Types.ApplyNoChange | src/components/designer/ProductDesigner.tsx:51 | spreading `{}` leaves an element unchanged |
| Types.ApplyIdempotent | src/components/designer/ProductDesigner.tsx:51 | spreading the same update twice equals spreading it once |
| Types.ApplyMerge | src/components/designer/ProductDesigner.tsx:51 | two successive updates equal one merged update in which the later keys win |
| Common.Min | src/components/designer/DesignCanvas.tsx:56 | `Math.min` is one of its arguments and no larger than either |
| Common.Max | src/components/designer/DesignCanvas.tsx:56 | `Math.max` is one of its arguments and no smaller than either |
| Common.ClampLow | src/components/designer/DesignCanvas.tsx:56-57 | `Math.max(lo, Math.min(hi, v))` is `v` inside `[lo, hi]`, otherwise the nearer bound; the lower bound wins when the interval is empty |
| Common.Round | src/components/designer/AdminViewEditor.tsx:135-136 | `Math.round` gives an integer within one half of its argument, rounding halves up |
| Common.RoundWithin | src/components/designer/AdminViewEditor.tsx:130-136 | rounding never leaves an interval with integer end points |
| Common.RoundInt | src/components/designer/AdminViewEditor.tsx:135-136 | rounding an integer gives it back |
| Common.RoundWhole | src/components/designer/AdminViewEditor.tsx:135-136 | rounding a whole-valued real gives it back |
| Common.OrDefault | src/components/designer/AttributesPanel.tsx:60-61 | `o \|\| d` keeps a present nonzero number and otherwise gives `d` |
| Common.IntOr | src/components/designer/PropertyInspector.tsx:106-107 | `parseInt(text) \|\| d` keeps a nonzero parse and gives `d` for `NaN` or 0 |
| Common.RealOr | src/components/designer/AttributesPanel.tsx:151-152 | `parseFloat(text) \|\| d` keeps a nonzero parse and gives `d` for `NaN` or 0 |
| Common.FirstPos | src/components/designer/ImageGallery.tsx:29 | the position of a member's first occurrence: it holds the member and nothing before it does |
| Common.FirstPosUnique | src/components/designer/ImageGallery.tsx:29 | the first occurrence is the only position that holds the member with no earlier copy |
| Common.FirstPosInPrefix | src/components/designer/ImageGallery.tsx:29 | a member of a prefix is first found at the same place in the whole sequence |
| Common.Distinct | src/components/designer/ImageGallery.tsx:29 | `[...new Set(s)]` has the same members as `s`, no repeats, and keeps them in order of first occurrence |
| Strings.TrimStart | src/components/designer/UploadPanel.tsx:153 | the result is a suffix that does not start with white space, and everything removed is white space |
| Strings.TrimEnd | src/components/designer/UploadPanel.tsx:153 | the result is a prefix that does not end with white space, and everything removed is white space |
| Strings.Trim | src/components/designer/UploadPanel.tsx:153 | `trim()` is the text between a white-space-only start and a white-space-only end, with no white space left at either end |
| Strings.BlankIffAllSpace | src/components/designer/UploadPanel.tsx:153 | `!name.trim()` holds exactly when every character is white space |
| Strings.LastSegment | src/components/designer/UploadPanel.tsx:106 | `split('.').pop()` is the suffix after the last separator, holds no separator, and is the whole string when there is none |
| Strings.LastSegmentAfterSeparator | src/components/designer/UploadPanel.tsx:106-107 | the segment after a final separator is exactly the text that follows it |
| Strings.LastSegmentOfSuffixFree | src/components/designer/UploadPanel.tsx:106-107 | a separator-free text after a separator or at the start is the last segment |
| Strings.DigitChar | src/components/designer/UploadPanel.tsx:106 | a decimal digit value renders as a digit character |
| Strings.NatToString | src/components/designer/UploadPanel.tsx:106 | `${Date.now()}` renders as decimal digits with no leading zero |
| Strings.DecimalRoundTrip | src/components/designer/UploadPanel.tsx:106 | reading back a rendered number gives the number |
| Strings.NatToStringInjective | src/components/designer/UploadPanel.tsx:106 | different numbers render differently |
| Strings.LeadingDigits | src/components/designer/UploadPanel.tsx:106 | the length of the run of digits a text starts with |
| Strings.LeadingDigitsOfStamp | src/components/designer/UploadPanel.tsx:106 | a rendered number followed by a non-digit separator starts with exactly that many digits |
| Strings.StampInjective | src/components/designer/UploadPanel.tsx:106 | equal texts `<a>-…` and `<b>-…` carry equal numbers |
| Canvas.MouseDown | src/components/designer/DesignCanvas.tsx:35-45 | pressing an element selects it, starts a drag, and stores the pointer's offset from the element's centre |
| Canvas.PointerPercent | src/components/designer/DesignCanvas.tsx:53-54 | the computed percentages, scaled back by the canvas size and shifted by the offset, give the pointer position |
| Canvas.MouseMove | src/components/designer/DesignCanvas.tsx:47-60 | an update is sent exactly while dragging with a selection and a canvas; it writes only `x` and `y`: a pointer inside [10, 90] is followed exactly, and one outside it gives the nearer bound |
| Canvas.Drag | src/components/designer/DesignCanvas.tsx:47-60 | a pointer move passed to the canvas's `onUpdateElement` prop, modelled by `Designer.UpdateElement`, keeps the list's length |
| Canvas.DragMovesOnlySelected | src/components/designer/DesignCanvas.tsx:56-59 | a move changes only `x` and `y` of elements carrying the selected id, and nothing else |
| Canvas.DragIgnoresLock | src/components/designer/DesignCanvas.tsx:47-60 | a locked element is moved like any other |
| Canvas.MouseUp | src/components/designer/DesignCanvas.tsx:62-64 | releasing or leaving the surface stops the drag |
| Canvas.NoMoveAfterMouseUp | src/components/designer/DesignCanvas.tsx:48-64 | a move after the gesture ended sends nothing |
| Canvas.CanvasClick | src/components/designer/DesignCanvas.tsx:29-33 | a click on the background clears the selection, and a click on anything else keeps it |
| Canvas.ZoomOut | src/components/designer/DesignCanvas.tsx:79 | zooming out goes 10 down, and to exactly 50 when that would go below 50 |
| Canvas.ZoomIn | src/components/designer/DesignCanvas.tsx:90 | zooming in goes 10 up, and to exactly 200 when that would go above 200 |
| Canvas.ZoomReset | src/components/designer/DesignCanvas.tsx:99 | the reset button sets the zoom to 100, inside [50, 200] |
| Canvas.ZoomStaysInRange | src/components/designer/DesignCanvas.tsx:79-99 | the zoom buttons keep a zoom in [50, 200] inside it |
| Canvas.ZoomInOutRoundTrip | src/components/designer/DesignCanvas.tsx:79-90 | away from the bounds, zooming in undoes zooming out and the other way round |
| Canvas.DragScenario | src/components/designer/DesignCanvas.tsx:35-60 | a worked drag on a 400 by 400 canvas follows the pointer to (65, 50), then stops at `x` = 90 |
| Layers.Reverse | src/components/designer/LayersPanel.tsx:48 | `[...s].reverse()` holds the same items, last first |
| Layers.ReverseInvolution | src/components/designer/LayersPanel.tsx:48 | reversing twice gives the list back |
| Layers.Rows | src/components/designer/LayersPanel.tsx:48-51 | one row per element, topmost (last) element first, each with its own effective flags |
| Layers.RowsHighlightSelected | src/components/designer/LayersPanel.tsx:49 | a row is highlighted exactly when its element carries the selected id, and none without a selection |
| Layers.ToggleVisible | src/components/designer/LayersPanel.tsx:50-81 | the eye button writes only `isVisible` and flips the visibility the row shows |
| Layers.ToggleLocked | src/components/designer/LayersPanel.tsx:51-92 | the lock button writes only `isLocked` and flips the lock the row shows |
| Layers.ToggleTwice | src/components/designer/LayersPanel.tsx:50-92 | two presses restore what is shown, and the flag is then stored explicitly |
| Layers.ToggleVisibleOnRow | src/components/designer/LayersPanel.tsx:79-82 | a press on a row, passed to the panel's `onUpdateElement` prop modelled by `Designer.UpdateElement`, flips that element's visibility and leaves elements with other ids unchanged |
| Layers.UpdateSelected | src/components/designer/LayersPanel.tsx:25-29 | through the panel's `onUpdateElement` prop, attribute edits reach the elements with the selected id only when a selection exists |
| Layers.UpdateSelectedIsShown | src/components/designer/LayersPanel.tsx:23-29 | an edit that keeps the id shows up in the panel's selected element |
| Inspector.StyleValues | src/components/designer/PropertyInspector.tsx:54-60 | a style toggle is shown pressed exactly when the element is bold, italic or underlined, and each at most once |
| Inspector.StyleChange | src/components/designer/PropertyInspector.tsx:62-68 | a change writes all three style fields and nothing else, each switched on exactly when its flag is among the pressed values |
| Inspector.NormalStyle | src/components/designer/PropertyInspector.tsx:54-68 | an element's style with absent fields written out as their normal values, everything else unchanged |
| Inspector.StyleRoundTrip | src/components/designer/PropertyInspector.tsx:54-68 | feeding the shown toggles back into the change handler only writes out the normal values |
| Inspector.StyleValuesAfterChange | src/components/designer/PropertyInspector.tsx:54-68 | after a change the pressed toggles are exactly the known flags that were pressed |
| Inspector.AlignShown | src/components/designer/PropertyInspector.tsx:190 | the alignment shown is the element's own, and centre when it has none |
| Inspector.AlignChange | src/components/designer/PropertyInspector.tsx:191 | pressing the active item again (an empty value) sends nothing; otherwise only the alignment is written |
| Inspector.AlignChangeKeepsShown | src/components/designer/PropertyInspector.tsx:190-191 | choosing an alignment makes it the one shown |
| Inspector.Fallback | src/components/designer/PropertyInspector.tsx:106-287 | a number input falls back to 100 for width and height, 24 for font size, 0 for rotation and 50 for position |
| Inspector.SetField | src/components/designer/PropertyInspector.tsx:106-287 | each number input writes its own field and no other |
| Inspector.NumberChange | src/components/designer/PropertyInspector.tsx:107 | `parseInt(text) \|\| fallback`: a nonzero parse is written, `NaN` and 0 write the input's fallback |
| Inspector.NumberChangeSetsOnlyItsField | src/components/designer/PropertyInspector.tsx:106-287 | whatever is typed, the edited field is set and every other field is unchanged |
| Inspector.ZeroPositionBecomesFifty | src/components/designer/PropertyInspector.tsx:278 | typing 0 into a position input moves the element to 50 |
| Inspector.Shown | src/components/designer/PropertyInspector.tsx:106-286 | the position inputs show the rounded position; the others show the field when truthy and the fallback otherwise |
| Inspector.ShownValueRoundTrip | src/components/designer/PropertyInspector.tsx:106-116 | when a field holds a nonzero whole number, the input shows it and entering it again changes nothing |
| Inspector.ShownZeroPositionJumps | src/components/designer/PropertyInspector.tsx:277-278 | a position near 0 shows 0, and typing that shown value back moves the element to 50 |
| Inspector.FontSizeSlide | src/components/designer/PropertyInspector.tsx:150-154 | the font-size slider writes its own value as the font size, within [8, 120], and nothing else |
| Inspector.RotationSlide | src/components/designer/PropertyInspector.tsx:245-249 | the rotation slider writes its own value as the rotation, within [-180, 180], and nothing else |
| Inspector.ResetRotation | src/components/designer/PropertyInspector.tsx:263 | the reset button writes rotation 0 and nothing else |
| Inspector.ResetRotationShowsZero | src/components/designer/PropertyInspector.tsx:254-263 | a reset element shows rotation 0, and resetting twice is resetting once |
| Inspector.ColorShown | src/components/designer/PropertyInspector.tsx:222 | `color \|\| "#000000"`: the element's colour unless it is absent or empty, then black (the first preset) |
| Inspector.FontShown | src/components/designer/PropertyInspector.tsx:130 | `fontFamily \|\| "Inter"`: the element's font unless it is absent or empty, then Inter (the first menu entry) |
| Inspector.TextChange | src/components/designer/PropertyInspector.tsx:91-228 | a swatch click, the colour inputs, the font menu and the content box each write only their own field, with the chosen value |
| Inspector.PresetIsShown | src/components/designer/PropertyInspector.tsx:213-222 | a picked preset is the colour shown afterwards |
| Attributes.CmToPx | src/components/designer/AttributesPanel.tsx:28 | centimetres become the nearest whole number of pixels at 37.795275591 pixels per centimetre |
| Attributes.PxToCm | src/components/designer/AttributesPanel.tsx:27 | pixels become centimetres with two decimals, within half a hundredth of the exact quotient |
| Attributes.PxCmRoundTrip | src/components/designer/AttributesPanel.tsx:27-28 | a whole number of pixels survives the trip to centimetres with two decimals and back |
| Attributes.ToggleLink | src/components/designer/AttributesPanel.tsx:97 | the link button flips the ratio lock and keeps the unit |
| Attributes.ToPx | src/components/designer/AttributesPanel.tsx:34 | a typed size is taken as pixels, or converted from centimetres and rounded |
| Attributes.Scale | src/components/designer/AttributesPanel.tsx:39 | `Math.round(px * ratio)` is a whole number within one half of the scaled size |
| Attributes.ScaleUnfold | src/components/designer/AttributesPanel.tsx:39 | the scaled size is `Math.round` of the product |
| Attributes.WidthChange | src/components/designer/AttributesPanel.tsx:30-43 | nothing for `NaN`; otherwise the new width in pixels, and with the link on and both sizes truthy the height scaled by the old ratio and rounded, nothing else |
| Attributes.HeightChange | src/components/designer/AttributesPanel.tsx:45-58 | the mirror image of the width handler |
| Attributes.WidthRetypeKeepsElement | src/components/designer/AttributesPanel.tsx:30-43 | retyping the current width in pixels leaves the element unchanged when the height is a whole number |
| Attributes.ScaleBack | src/components/designer/AttributesPanel.tsx:38-39 | scaling a width by `height / width` gives back a whole-number height |
| Attributes.ShownSize | src/components/designer/AttributesPanel.tsx:60-61 | the size shown is the field or 100 in pixels, or in centimetres the one hundredth within half a hundredth of that size, which is `PxToCm` of it |
| Attributes.ShownWidthRoundTrip | src/components/designer/AttributesPanel.tsx:30-61 | typing the shown width back, in either unit, gives the same whole-pixel width |
| Attributes.MissingSizeShownAsHundred | src/components/designer/AttributesPanel.tsx:60-61 | a missing size shows as 100 pixels, and its centimetre text converts back to 100 pixels |
| Attributes.RotationChange | src/components/designer/AttributesPanel.tsx:125-126 | the rotation input writes only the rotation: the parsed integer, or 0 for `NaN` |
| Attributes.RotationSlide | src/components/designer/AttributesPanel.tsx:134-139 | the rotation slider writes its own value as the rotation, within [-180, 180], and nothing else |
| Attributes.PositionChange | src/components/designer/AttributesPanel.tsx:151-161 | a position input writes only its own axis: the parsed number, unclamped, or 0 for `NaN` |
| Attributes.FontSizeChange | src/components/designer/AttributesPanel.tsx:189-190 | the font-size input writes only the font size: a nonzero parse, or 24 |
| Attributes.DpiNotice | src/components/designer/AttributesPanel.tsx:169-179 | the resolution notice shows exactly for images with a truthy DPI, and warns exactly when that DPI is below 300 |
| Attributes.NoWarningWithoutImageDpi | src/components/designer/AttributesPanel.tsx:169 | text elements and images without a DPI never show the notice |
| Persistence.Mount | src/hooks/useDesignPersistence.ts:12-21 | on mount the list is the stored list, and stays empty when the key is absent or its text does not parse; storage is not written |
| Persistence.FindName | src/hooks/useDesignPersistence.ts:31 | the first position holding the name, or none exactly when no design has it |
| Persistence.Save | src/hooks/useDesignPersistence.ts:23-41 | a design of the same name is replaced where it stands and every other entry is kept, otherwise the design is appended; the new list is written under the list key and nothing else is written |
| Persistence.Load | src/hooks/useDesignPersistence.ts:49-59 | the state of the first design with the name, or nothing exactly when no design has it |
| Persistence.RemoveName | src/hooks/useDesignPersistence.ts:63 | the survivors are exactly the designs with another name |
| Persistence.Delete | src/hooks/useDesignPersistence.ts:61-66 | every design with the name goes and the remaining list is written under the list key |
| Persistence.LoadAfterSave | src/hooks/useDesignPersistence.ts:23-59 | loading a name right after saving it gives the saved state, whether it replaced or appended |
| Persistence.FindNameOfPrefix | src/hooks/useDesignPersistence.ts:31-35 | replacing an entry in place keeps the position at which its name is first found |
| Persistence.LoadAfterDelete | src/hooks/useDesignPersistence.ts:49-66 | after a delete the name loads nothing |
| Persistence.SaveKeepsNamesUnique | src/hooks/useDesignPersistence.ts:30-38 | saving keeps each name at most once in the list |
| Persistence.DeleteKeepsNamesUnique | src/hooks/useDesignPersistence.ts:63 | deleting keeps each name at most once in the list |
| Persistence.RemoveNameAppend | src/hooks/useDesignPersistence.ts:63 | the filter distributes over concatenation, so the other designs keep their order |
| Persistence.MountAfterWrite | src/hooks/useDesignPersistence.ts:12-66 | reloading after a save or a delete reads back the same list the hook holds |
| Persistence.AutoSave | src/hooks/useDesignPersistence.ts:75-78 | the current design is written under the autosave key, every other key and the list are unchanged |
| Persistence.LoadAutoSave | src/hooks/useDesignPersistence.ts:80-90 | the stored autosave state, and nothing when the key is absent or its text does not parse |
| Persistence.AutoSaveRoundTrip | src/hooks/useDesignPersistence.ts:23-90 | the last autosave is what comes back, even after saving a design to the list in between |
| ColorPreview.ShouldFetchMockups | src/components/designer/ColorPreviewPanel.tsx:44-47 | the mockups are fetched exactly for an active view and a non-empty colour selection |
| ColorPreview.LastIndex | src/components/designer/ColorPreviewPanel.tsx:106-108 | the last fetched row carrying the colour |
| ColorPreview.MockupMap | src/components/designer/ColorPreviewPanel.tsx:104-109 | the map has a key exactly for each fetched colour, with the URL of that colour's last row |
| ColorPreview.MockupKeysStep | src/components/designer/ColorPreviewPanel.tsx:106-108 | one more `forEach` step adds exactly the row's colour to the keys |
| ColorPreview.MockupValuesStep | src/components/designer/ColorPreviewPanel.tsx:106-108 | one more `forEach` step keeps every colour mapped to its last row's URL |
| ColorPreview.LastRowWins | src/components/designer/ColorPreviewPanel.tsx:106-108 | a row fetched after all others decides its colour's URL, and the other colours keep theirs |
| ColorPreview.CurrentView | src/components/designer/ColorPreviewPanel.tsx:113 | the first view with the active id, or none exactly when no view has it |
| ColorPreview.CurrentElements | src/components/designer/ColorPreviewPanel.tsx:114 | the active view's elements, or `[]` when it has no entry |
| ColorPreview.VisibleElements | src/components/designer/ColorPreviewPanel.tsx:215 | the overlay draws exactly the elements not hidden by `isVisible === false` |
| ColorPreview.VisibleElementsAppend | src/components/designer/ColorPreviewPanel.tsx:215 | the filter distributes over concatenation, so the overlay keeps the list's order and repeats, which is the stacking order |
| ColorPreview.VisibleElementsOfOne | src/components/designer/ColorPreviewPanel.tsx:215 | a single element is drawn exactly when it is not hidden |
| ColorPreview.EyeButtonHidesFromPreview | src/components/designer/ColorPreviewPanel.tsx:215 | a layer's eye button takes a shown element off the colour cards and puts a hidden one back |
| ColorPreview.Collapsed | src/components/designer/ColorPreviewPanel.tsx:128-144 | the collapsed panel shows the first eight colours, and a "+n" label exactly when there are more, the two adding up to all colours |
| ColorPreview.CardOf | src/components/designer/ColorPreviewPanel.tsx:172-215 | a card shows the mockup exactly when its colour has a truthy URL, otherwise the hex fill; it is active or expanded exactly for the matching id, and it overlays the print area exactly when the view exists |
| ColorPreview.Cards | src/components/designer/ColorPreviewPanel.tsx:172-201 | one card per colour, in order, each the colour's card over the fetched mockups and the active view's elements, and only cards of the same colour are active |
| ColorPreview.NoMockupMeansFill | src/components/designer/ColorPreviewPanel.tsx:190-200 | a colour with no row, or only empty URLs, is drawn with its hex fill |
| ColorPicker.IndexOf | src/components/designer/ColorPickerPopover.tsx:122 | the first position of a character, or none exactly when it does not occur |
| ColorPicker.RemoveFirst | src/components/designer/ColorPickerPopover.tsx:122 | `replace("#", "")` with a string pattern removes only the first occurrence and leaves a string without one unchanged |
| ColorPicker.RemoveLeading | src/components/designer/ColorPickerPopover.tsx:122 | a leading `#` is the one removed |
| ColorPicker.Substring | src/components/designer/ColorPickerPopover.tsx:123-125 | `substring(a, b)` is the slice when it fits and empty when it starts past the end, never longer than `b - a` |
| ColorPicker.HexDigit | src/components/designer/ColorPickerPopover.tsx:123-125 | the value of a hexadecimal digit of either case, below 16 |
| ColorPicker.SkipSpaces | src/components/designer/ColorPickerPopover.tsx:123-125 | `parseInt` skips exactly the leading white space |
| ColorPicker.HexRunEnd | src/components/designer/ColorPickerPopover.tsx:123-125 | `parseInt(s, 16)` reads the longest run of hexadecimal digits and stops at the first other character |
| ColorPicker.HexRunToEnd | src/components/designer/ColorPickerPopover.tsx:123-125 | a run of digits up to the end is read whole |
| ColorPicker.ParseHexDigits | src/components/designer/ColorPickerPopover.tsx:123-125 | a non-empty string of hexadecimal digits parses to its value |
| ColorPicker.HexPair | src/components/designer/ColorPickerPopover.tsx:123-125 | two hexadecimal digits parse to the byte `16 * high + low` |
| ColorPicker.IsLightColor | src/components/designer/ColorPickerPopover.tsx:121-128 | a colour is light only when all three channels parse |
| ColorPicker.LuminanceInIntegers | src/components/designer/ColorPickerPopover.tsx:126-127 | `(0.299 r + 0.587 g + 0.114 b) / 255 > 0.5` holds exactly when `299 r + 587 g + 114 b > 127500` |
| ColorPicker.WellFormedDigits | src/components/designer/ColorPickerPopover.tsx:122-125 | each channel of `#` plus six hexadecimal digits is two hexadecimal digits |
| ColorPicker.Byte | src/components/designer/ColorPickerPopover.tsx:123-125 | a channel's two digits are a value in [0, 255] |
| ColorPicker.ChannelIsByte | src/components/designer/ColorPickerPopover.tsx:123-125 | the substring of a channel with two hexadecimal digits parses to its byte |
| ColorPicker.PairAt | src/components/designer/ColorPickerPopover.tsx:123-125 | two hexadecimal digits taken out of a longer string parse to their byte |
| ColorPicker.WellFormedChannels | src/components/designer/ColorPickerPopover.tsx:122-125 | for `#` plus six hexadecimal digits the three channels are its three bytes |
| ColorPicker.WellFormedIsLight | src/components/designer/ColorPickerPopover.tsx:121-128 | a well-formed colour is light exactly when `299 r + 587 g + 114 b > 127500` over its bytes |
| ColorPicker.IsLightOfBytes | src/components/designer/ColorPickerPopover.tsx:126-127 | three parsed channels are light exactly when the weighted sum exceeds 127500 |
| ColorPicker.WhiteAndBlack | src/components/designer/ColorPickerPopover.tsx:121-128 | `#FFFFFF` is light and `#000000` is not |
| ColorPicker.DoubledHashIsNotLight | src/components/designer/ColorPickerPopover.tsx:122-125 | with a doubled `#` only the first is removed, the first channel does not parse, and the colour is not light |
| ColorPicker.NoDigitsIsNaN | src/components/designer/ColorPickerPopover.tsx:123-125 | text that starts with no white space, sign or hexadecimal digit parses to `NaN` |
| ColorPicker.ShortCodeIsNotLight | src/components/designer/ColorPickerPopover.tsx:121-128 | a three-digit short code has no third channel, so it is never light |
| ColorPicker.SwatchOf | src/components/designer/ColorPickerPopover.tsx:86-106 | a swatch is selected exactly when its id is among the selected ids, carries a check mark exactly then, and the mark is dark exactly when the colour is also light |
| ColorPicker.Swatches | src/components/designer/ColorPickerPopover.tsx:60-106 | nothing is rendered exactly when the colour list is empty, otherwise one swatch per colour, in order |
| ColorPicker.MarkedAreSelected | src/components/designer/ColorPickerPopover.tsx:86-100 | the swatch at a position is marked exactly when that colour is selected |
| ProductPanel.ViewsOf | src/components/designer/ProductPanel.tsx:54-59 | a product's group holds exactly the fetched views of that product |
| ProductPanel.ViewsOfAppend | src/components/designer/ProductPanel.tsx:54-59 | grouping distributes over concatenation, so a view fetched later lands later in its group |
| ProductPanel.GroupViews | src/components/designer/ProductPanel.tsx:53-59 | `viewsByProduct` has a key exactly for each product with a fetched view, mapped to that product's views in fetched order |
| ProductPanel.GroupKeysStep | src/components/designer/ProductPanel.tsx:55-57 | one `forEach` step adds exactly the view's product to the keys |
| ProductPanel.GroupValuesStep | src/components/designer/ProductPanel.tsx:55-58 | one `forEach` step keeps every group equal to its product's views so far |
| ProductPanel.HasViewsStep | src/components/designer/ProductPanel.tsx:54-58 | a product has a view among all views exactly when it has one among the earlier views or is the last view's product |
| ProductPanel.ViewsOfStep | src/components/designer/ProductPanel.tsx:58 | the `push` appends the last view to its own product's group only |
| ProductPanel.NoViewsOf | src/components/designer/ProductPanel.tsx:54-59 | a product without fetched views has an empty group |
| ProductPanel.ViewsShown | src/components/designer/ProductPanel.tsx:108 | `productViews[id] \|\| []`: the product's group, or nothing when it has no key |
| ProductPanel.ShownViewsAreFetchedViews | src/components/designer/ProductPanel.tsx:53-108 | every product's button lists exactly its fetched views, in fetched order |
| ProductPanel.ProductIds | src/components/designer/ProductPanel.tsx:53-59 | the keys of `viewsByProduct`, once each |
| ProductPanel.TotalCons | src/components/designer/ProductPanel.tsx:54-59 | one more view adds one to the summed group sizes when its product is counted |
| ProductPanel.TotalCoversAll | src/components/designer/ProductPanel.tsx:54-59 | over distinct product ids covering every view, the group sizes add up to the number of views |
| ProductPanel.TotalOfNothing | src/components/designer/ProductPanel.tsx:53 | no views give empty groups |
| ProductPanel.GroupingKeepsEveryView | src/components/designer/ProductPanel.tsx:53-59 | grouping loses and duplicates no view: the group sizes add up to the number of fetched views |
| ProductPanel.SelectProduct | src/components/designer/ProductPanel.tsx:70-75 | the product becomes the selection, and its views are forwarded exactly when it has a group |
| ProductPanel.ForwardSelected | src/components/designer/ProductPanel.tsx:26-30 | the effect forwards the selected product's group exactly when the id is non-empty and has a group |
| ProductPanel.SelectForwardsFetchedViews | src/components/designer/ProductPanel.tsx:53-75 | after the fetch, selecting a product forwards exactly its fetched views when it has any, never an empty list, and nothing otherwise |
| ProductPanel.CategoryOf | src/components/designer/ProductPanel.tsx:78 | `category \|\| "Other"`: the product's category unless absent or empty, then "Other" |
| ProductPanel.InCategory | src/components/designer/ProductPanel.tsx:79-82 | a section holds exactly the products of its category |
| ProductPanel.InCategoryAppend | src/components/designer/ProductPanel.tsx:77-84 | the section filter distributes over concatenation, so products keep their list order |
| ProductPanel.Categories | src/components/designer/ProductPanel.tsx:78 | the category of each product, in list order |
| ProductPanel.CategoryIsInhabited | src/components/designer/ProductPanel.tsx:77-84 | a category some product carries has at least that product |
| ProductPanel.CategoryListed | src/components/designer/ProductPanel.tsx:77-84 | every product's category is among the categories |
| ProductPanel.Headings | src/components/designer/ProductPanel.tsx:97-100 | the section headings are the groups' categories, top to bottom |
| ProductPanel.GroupProducts | src/components/designer/ProductPanel.tsx:77-97 | one section per category some product carries, no heading twice, in order of first occurrence, each with exactly its products in list order |
| ProductPanel.Sections | src/components/designer/ProductPanel.tsx:97-103 | one section per heading, each with the products of its category |
| ProductPanel.NoEmptySection | src/components/designer/ProductPanel.tsx:101-103 | every section shows at least one product, so no badge reads 0 |
| ProductPanel.ProductListedOnce | src/components/designer/ProductPanel.tsx:77-107 | each product is listed in exactly one section, the one of its own category |
| ProductPanel.GroupingScenario | src/components/designer/ProductPanel.tsx:77-97 | a product with a category, one without and one with an empty category give the sections "Apparel" and then "Other" with the last two |
| ProductPanel.SectionsOfTwo | src/components/designer/ProductPanel.tsx:97-103 | two headings give two sections in order |
| ProductPanel.ScenarioCategories | src/components/designer/ProductPanel.tsx:78 | a missing and an empty category both read "Other" |
| ProductPanel.ScenarioDistinct | src/components/designer/ProductPanel.tsx:77-84 | a repeated category keeps only its first place |
| ProductPanel.ScenarioApparel | src/components/designer/ProductPanel.tsx:79-82 | the "Apparel" section of the scenario holds the one apparel product |
| ProductPanel.ScenarioOther | src/components/designer/ProductPanel.tsx:79-82 | the "Other" section of the scenario holds the two uncategorised products in list order |
| Gallery.TruthyCategories | src/components/designer/ImageGallery.tsx:29 | `map(t => t.category).filter(Boolean)`: exactly the non-empty categories of the templates |
| Gallery.Categories | src/components/designer/ImageGallery.tsx:29 | the tabs are the non-empty categories, each once, in order of first occurrence |
| Gallery.Filtered | src/components/designer/ImageGallery.tsx:34-37 | "all" shows every template; any other tab shows exactly the templates of that category |
| Gallery.OfCategory | src/components/designer/ImageGallery.tsx:36 | the templates whose category equals the tab |
| Gallery.OfCategoryAppend | src/components/designer/ImageGallery.tsx:36 | the filter distributes over concatenation, so the grid keeps the fetched order |
| Gallery.EveryTemplateHasATab | src/components/designer/ImageGallery.tsx:29-48 | a template with a category is shown under that tab and under no other, except "all"; one without a category appears only under "all" |
| Gallery.ShowTabs | src/components/designer/ImageGallery.tsx:48 | the tab bar shows exactly when some template has a category |
| Gallery.TileOf | src/components/designer/ImageGallery.tsx:71-74 | a tile shows the thumbnail unless absent or empty, then the full image, and a click selects the full image |
| Gallery.Grid | src/components/designer/ImageGallery.tsx:67-79 | one tile per template of the tab, in order, each that template's tile: its thumbnail or else its image shown, selecting its image |
| Gallery.EmptyNotice | src/components/designer/ImageGallery.tsx:82 | the empty notice shows exactly when the grid is empty, and under "all" exactly when there are no templates |
| Uploads.CheckUpload | src/components/designer/UploadPanel.tsx:94-104 | a file is refused as the wrong type exactly when it is not `image/png`, as too large exactly when it is PNG and over 50 MB, and passes otherwise |
| Uploads.SizeBoundIsInclusive | src/components/designer/UploadPanel.tsx:101 | a PNG of exactly 50 MB passes and one byte more is refused |
| Uploads.PanelIsStricterThanMockupUpload | src/components/designer/UploadPanel.tsx:95 | every file this panel accepts the mockup upload accepts too, but a JPEG only the mockup upload accepts |
| Uploads.StoragePathInUserFolder | src/components/designer/UploadPanel.tsx:107 | the stored file lies in the user's own folder |
| Uploads.StoragePathKeepsExtension | src/components/designer/UploadPanel.tsx:106-107 | the stored file keeps the extension of the picked file |
| Uploads.ProcessFile | src/components/designer/UploadPanel.tsx:94-142 | a file is rejected exactly when a check fails, and otherwise sent to storage under its user, time, suffix and name; a failed upload is skipped, a stored file that never loads stalls, and a loaded one is recorded with the user, folder, name, public URL, size and type |
| Uploads.HandleFiles | src/components/designer/UploadPanel.tsx:81-145 | nothing without files, a sign-in error without a user, otherwise the files in order, each processed as `ProcessFile` says, and the batch either completes with no stalled file or hangs at its first stalled file |
| Uploads.HangsIffSomeFileStalls | src/components/designer/UploadPanel.tsx:93-145 | a signed-in batch hangs exactly when one of its files stalls, and completes exactly when none does |
| Uploads.CreateFolder | src/components/designer/UploadPanel.tsx:152-173 | a blank name or a missing user inserts nothing; otherwise the name as typed goes under the current folder, and the dialog closes and clears exactly when the insert succeeds |
| Uploads.SpacesCreateNoFolder | src/components/designer/UploadPanel.tsx:153 | a name of spaces only creates no folder, whoever is signed in |
| ViewEditor.Open | src/components/designer/AdminViewEditor.tsx:33-39 | the editor starts on a copy of the view with neither gesture active |
| ViewEditor.MouseDown | src/components/designer/AdminViewEditor.tsx:99-120 | pressing the area starts a drag from the pointer and the area's corner, pressing the handle starts a resize from the pointer and the area's size; the other gesture and the view are untouched |
| ViewEditor.Delta | src/components/designer/AdminViewEditor.tsx:127-128 | the pointer's travel as a percentage of the container: scaled back, it leads from the start to the pointer |
| ViewEditor.DragTo | src/components/designer/AdminViewEditor.tsx:126-137 | a drag keeps the size and puts the corner on the whole percentage nearest the pointer's travel when that is in range, at 0 below it, and at the rounded far limit past it |
| ViewEditor.ResizeTo | src/components/designer/AdminViewEditor.tsx:140-152 | a resize keeps the corner and gives the whole size nearest the pointer's travel when that is in range, 10 below it, and the rounded room left past it |
| ViewEditor.MouseMove | src/components/designer/AdminViewEditor.tsx:122-153 | a move changes only the area; without a container nothing; the corner changes only while dragging and the size only while resizing |
| ViewEditor.MouseUp | src/components/designer/AdminViewEditor.tsx:155-158 | releasing or leaving the image ends both gestures and keeps the view |
| ViewEditor.NoMoveAfterMouseUp | src/components/designer/AdminViewEditor.tsx:122-158 | after the gestures end, moving the pointer changes nothing |
| ViewEditor.ClampRoundWithin | src/components/designer/AdminViewEditor.tsx:130-136 | clamping into an integer interval and rounding stays in that interval |
| ViewEditor.MoveKeepsInside | src/components/designer/AdminViewEditor.tsx:122-153 | with one gesture at a time, an area in whole percentages, at least 10 by 10 and inside the image, stays so |
| ViewEditor.BothGesturesCanOverflow | src/components/designer/AdminViewEditor.tsx:126-152 | with both gestures active an area inside the image can be moved past its right edge |
| ViewEditor.MouseMoveFixed | src/components/designer/AdminViewEditor.tsx:122-153 | the corrected move equals the written one with at most one gesture, and keeps every well-placed area inside the image whatever is active |
| ViewEditor.BothGesturesFixed | src/components/designer/AdminViewEditor.tsx:126-152 | the overflowing case as corrected: the area is dragged to 50 and its width held at 50 |
| ViewEditor.CheckMockup | src/components/designer/AdminViewEditor.tsx:62-72 | a file is refused as the wrong type exactly when it is not PNG or JPEG, as too large exactly when it is one of those and over 50 MB, and passes otherwise |
| ViewEditor.MockupPathInFolder | src/components/designer/AdminViewEditor.tsx:76-78 | the stored file lies in the `mockups/` folder |
| ViewEditor.MockupPathKeepsExtension | src/components/designer/AdminViewEditor.tsx:76-78 | the stored file keeps the extension of the picked file |
| ViewEditor.MockupPathsDiffer | src/components/designer/AdminViewEditor.tsx:77 | uploads at different times go to different paths |
| ViewEditor.UploadImage | src/components/designer/AdminViewEditor.tsx:62-97 | a refused file is neither stored nor applied; an accepted one is stored under its path, and only a successful upload sets the view's mockup image to the public URL |
| ViewEditor.ApplyUpdate | src/components/designer/AdminViewEditor.tsx:160-168 | an update changes only the mockup image and the area, never the row's identity, product, name or order |
| ViewEditor.SaveRoundTrip | src/components/designer/AdminViewEditor.tsx:160-168 | saving the edited copy makes the stored row equal to it |
| AdminCatalog.DefaultViewsFit | src/components/designer/AdminCatalogPanel.tsx:26-31 | every default print area lies inside the mockup and is one the print-area editor keeps inside |
| AdminCatalog.CreateProduct | src/components/designer/AdminCatalogPanel.tsx:83-101 | a product is created exactly when the name has a non-blank character and nothing is pending; it carries the trimmed name, which has no white space at its ends, and starts inactive |
| AdminCatalog.DefaultViewRows | src/components/designer/AdminCatalogPanel.tsx:93-101 | the four default views are inserted for the new product, each with its position as order, its own name and area, and no mockup |
| AdminCatalog.DefaultViewRowsOrdered | src/components/designer/AdminCatalogPanel.tsx:93-101 | the inserted views are ordered without ties and all lie inside their mockup |
| AdminCatalog.MaxOrder | src/components/designer/AdminCatalogPanel.tsx:227 | 0 when the colours are not loaded, otherwise at least every colour's order, and a positive result is some colour's order |
| AdminCatalog.MaxOf | src/components/designer/AdminCatalogPanel.tsx:227 | the fold from 0 is at least every order, and a positive result is attained |
| AdminCatalog.CreateColor | src/components/designer/AdminCatalogPanel.tsx:225-231 | a colour is created exactly when the name is not blank and nothing is pending; it keeps the name as typed and the picked hex, is active, and sorts after every loaded colour |
| AdminCatalog.NewColorSortsLast | src/components/designer/AdminCatalogPanel.tsx:227-230 | a new colour sorts after every existing one, also past missing or negative orders |
| AdminCatalog.NextOrderScenario | src/components/designer/AdminCatalogPanel.tsx:227-230 | colours with orders 3, none and 7 give the next colour the order 8 |
| AdminProduct.InitialForms | src/components/designer/AdminProductPanel.tsx:37-39 | the form starts with the four default views, in order, each with its name and area and no mockup |
| AdminProduct.SetArea | src/components/designer/AdminProductPanel.tsx:194 | `{ ...v, [field]: value }` sets the named area field and keeps the other three |
| AdminProduct.SetAreaUnchanged | src/components/designer/AdminProductPanel.tsx:194 | setting a field to the value it has changes nothing |
| AdminProduct.ChangeArea | src/components/designer/AdminProductPanel.tsx:192-196 | only the named field of the view at the index changes; every other view, and everything for an index outside the list, stays as it was |
| AdminProduct.UploadPathKeepsExtension | src/components/designer/AdminProductPanel.tsx:166-168 | the stored file keeps the extension of the picked file |
| AdminProduct.UploadPathsDiffer | src/components/designer/AdminProductPanel.tsx:166-168 | uploads differing in time or in view index go to different paths |
| AdminProduct.UploadToForm | src/components/designer/AdminProductPanel.tsx:163-190 | a failed upload changes nothing; a stored file sets the mockup of the view at the index only |
| AdminProduct.CreateProduct | src/components/designer/AdminProductPanel.tsx:69-78 | a product is created exactly when the name is non-empty and nothing is pending; it keeps the name as typed, is active, and has no category exactly when the category field is empty |
| AdminProduct.ViewsToInsert | src/components/designer/AdminProductPanel.tsx:85-94 | the form's views in order, each with its position as order, its name and area, and no mockup exactly when its URL is empty |
| AdminProduct.UploadThenInsert | src/components/designer/AdminProductPanel.tsx:85-94 | a mockup uploaded for one view is inserted with that view only, and a failed upload inserts what was there before |
| AdminProduct.UntouchedFormInsertsDefaults | src/components/designer/AdminProductPanel.tsx:24-94 | the untouched form inserts four views without mockups whose areas lie inside the image |
| AdminProduct.ResetForm | src/components/designer/AdminProductPanel.tsx:156-161 | after a creation the name and category are empty, the views are the defaults, nothing is being edited, and the create button is disabled |
| AdminProduct.OpenEditor | src/components/designer/AdminProductPanel.tsx:458-460 | the view editor starts on a copy of the stored view with no changes |
| AdminProduct.EditorChange | src/components/designer/AdminProductPanel.tsx:463-466 | a change sets only the named area field of the copy and marks it changed |
| AdminProduct.EditorUploadPathKeepsExtension | src/components/designer/AdminProductPanel.tsx:481-483 | the stored file keeps the extension of the picked file |
| AdminProduct.EditorUpload | src/components/designer/AdminProductPanel.tsx:479-502 | a failed upload changes nothing; a stored file replaces the copy's mockup and marks it changed |
| AdminProduct.EditorSave | src/components/designer/AdminProductPanel.tsx:468-477 | a save sends the copy's area and mockup for the view's id and clears the changed mark |
| AdminProduct.EditThenSaveRoundTrip | src/components/designer/AdminProductPanel.tsx:458-477 | an edit and an upload followed by a save make the stored row equal to the local copy |

## Left out

- Canvas.PointerPercent: the container's measured width and height are required to be positive; a zero-size container makes the source divide by zero and yield `NaN`/`Infinity`, which reals cannot represent.
- Canvas.Drag: the canvas is modelled as its props declare it, with `onUpdateElement` standing for `Designer.UpdateElement`; the designer page mounts it without `onUpdateElement` and without `currentProduct` (ProductDesigner.tsx lines 126-132), so as written the toolbar reads `name` of an undefined product when it first renders (DesignCanvas.tsx line 71) and a drag would call an undefined handler (line 59). Rendering failures are outside this model.
- Layers.ToggleVisibleOnRow: the layers panel is modelled as its props declare it, with `onUpdateElement` standing for `Designer.UpdateElement`; the designer page mounts it without `onUpdateElement` (ProductDesigner.tsx lines 117-122), so as written the eye button (LayersPanel.tsx line 81) calls an undefined handler.
- Layers.ToggleLocked: as for `Layers.ToggleVisibleOnRow`, the lock button (LayersPanel.tsx line 92) calls the `onUpdateElement` prop the designer page does not pass (ProductDesigner.tsx lines 117-122).
- Layers.UpdateSelected: `handleUpdateSelected` (LayersPanel.tsx line 27), which the panel hands to the attributes panel, calls the `onUpdateElement` prop the designer page does not pass (ProductDesigner.tsx lines 117-122); the model takes it to be `Designer.UpdateElement`.
- Layers.UpdateSelectedIsShown: rests on the same reading of the missing `onUpdateElement` prop as `Layers.UpdateSelected` (ProductDesigner.tsx lines 117-122).
- Canvas.MouseMove: requires a positive container size for the same reason as `Canvas.PointerPercent`.
- Canvas.Drag: requires a positive container size for the same reason as `Canvas.PointerPercent`.
- Canvas.DragMovesOnlySelected: requires a positive container size for the same reason as `Canvas.PointerPercent`.
- Canvas.NoMoveAfterMouseUp: requires a positive container size for the same reason as `Canvas.PointerPercent`.
- ViewEditor.Delta: requires a positive container size; the source divides by the container's width and height.
- ViewEditor.MouseMove: requires a positive container size for the same reason as `ViewEditor.Delta`.
- ViewEditor.MouseMoveFixed: requires a positive container size for the same reason as `ViewEditor.Delta`.
- ViewEditor.NoMoveAfterMouseUp: requires a positive container size for the same reason as `ViewEditor.Delta`.
- ViewEditor.MoveKeepsInside: requires a positive container size for the same reason as `ViewEditor.Delta`.
- Persistence.Mount: a stored value that parses as JSON but is not an array of saved designs is treated like an unparsable one (an empty list); the source keeps whatever `JSON.parse` returns, and its later behaviour depends on JavaScript's handling of that foreign value.
- Persistence.LoadAutoSave: a stored auto-save that parses but is not a list of elements is treated as absent, for the same reason as `Persistence.Mount`.
- ProductPanel.GroupProducts: sections come in the order their category first occurs; `Object.entries` lists integer-like keys first in ascending order, and a category named like an `Object.prototype` member (`constructor`, `__proto__`) makes `acc[cat]` start from that member instead of from nothing. Both are JavaScript object-key rules outside this model.
- ProductPanel.GroupViews: keys are product ids and the same object-key rules as in `ProductPanel.GroupProducts` are not modelled.
- Attributes.PxToCm: `toFixed(2)` is modelled as rounding to hundredths with ties up on exact reals; JavaScript rounds the binary double, so a value such as 1.005 can come out as 1.00.
- Common.Round: `Math.round` is modelled on exact reals; rounding effects of binary doubles, `-0` and `NaN` are not modelled.
- Numbers in general: doubles are modelled as exact reals; `parseInt`/`parseFloat` results outside the hex colour parser are taken as parameters (`None` for `NaN`), because the string-to-number conversion is not part of the logic being modelled.
- Network: every Supabase query, insert, update, storage upload and the signed-in user are parameters (the rows they return, a success flag, the public URL); authentication, retries and the request order are not modelled.
- Feedback and loading: toasts, loading and saving flags, spinners and React Query cache invalidation are not modelled; the admin form's success toast that reads `viewsData[viewIndex]` is one of them.
- The colour list refresh (`fetchColors`) and the product list fetch are not modelled beyond their results, which are parameters.
- Time and randomness: `Date.now()` and `Math.random()` are parameters; the decoded image's size is a parameter of the upload.
- Rendering: layout, styling, icons and the JSX structure beyond what each panel shows (values, rows, tiles, cards) are not modelled.
- Components and hooks outside the designer core (authentication pages, routing, the UI kit) are not part of this model.

## Findings

| source | as written | input that shows it | evidently intended | confidence | as-written member | corrected member |
|---|---|---|---|---|---|---|
| src/hooks/useDesignHistory.ts:31 | after dropping the oldest snapshot at the 50-entry cap the cursor becomes `min(cursor + 1, 50)`, one past the last entry | 50 snapshots with the cursor at 49, then a commit: the cursor is 50 on a 50-entry list, so the current snapshot is missing and the hook's `elements` is `[]` | the cursor points at the snapshot just committed (index 49) | high; not executed | History.CommitAtCapLosesCurrent | History.UndoAfterCommitFixed |
| src/components/designer/AdminViewEditor.tsx:126-152 | with both the drag and the resize flag set, one move clamps the new left against the old width and the new width against the old left | an area with left 40 and width 50, both flags set, pointer moved right by the full container width: the area becomes left 50 and width 60, reaching 110% | the resize is clamped against the moved corner so the area stays inside the image | low; not executed | ViewEditor.BothGesturesCanOverflow | ViewEditor.BothGesturesFixed |
