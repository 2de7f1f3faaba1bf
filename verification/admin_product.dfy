/** The product admin panel: the new-product form with one entry per view,
    its upload and area handlers, the rows it inserts, and the per-view
    editor of an existing product. */
module AdminProduct {
  import opened Common
  import opened Types
  import opened Strings
  import ViewEditor

  /** One view of the new-product form; an empty URL means no mockup yet. */
  datatype ViewForm = ViewForm(viewName: string, mockupImageUrl: string, area: Area)

  const DefaultViews: seq<ViewTemplate> := [
    ViewTemplate("Front", Area(25.0, 25.0, 50.0, 40.0)),
    ViewTemplate("Back", Area(25.0, 25.0, 50.0, 40.0)),
    ViewTemplate("Left Sleeve", Area(30.0, 30.0, 40.0, 50.0)),
    ViewTemplate("Right Sleeve", Area(30.0, 30.0, 40.0, 50.0))
  ]

  /** `DEFAULT_VIEWS.map(v => ({ ...v, mockup_image_url: "" }))`. */
  function InitialForms(): (r: seq<ViewForm>)
    ensures |r| == |DefaultViews|
    ensures forall i :: 0 <= i < |r| ==> r[i] == ViewForm(DefaultViews[i].name, "", DefaultViews[i].area)
  {
    seq(|DefaultViews|, i requires 0 <= i < |DefaultViews| => ViewForm(DefaultViews[i].name, "", DefaultViews[i].area))
  }

  /** The four area sliders. */
  datatype AreaField = Top | Left | Width | Height

  function AreaValue(a: Area, f: AreaField): real {
    match f
    case Top => a.top
    case Left => a.left
    case Width => a.width
    case Height => a.height
  }

  /** `{ ...v, [field]: value }` on an area field. */
  function SetArea(a: Area, f: AreaField, value: real): (r: Area)
    ensures AreaValue(r, f) == value
    ensures forall g :: g != f ==> AreaValue(r, g) == AreaValue(a, g)
  {
    match f
    case Top => a.(top := value)
    case Left => a.(left := value)
    case Width => a.(width := value)
    case Height => a.(height := value)
  }

  /** Setting a field to the value it has changes nothing. */
  lemma SetAreaUnchanged(a: Area, f: AreaField)
    ensures SetArea(a, f, AreaValue(a, f)) == a
  {
  }

  /** `handleViewAreaChange`: only the given field of the view at the given
      index changes; an index outside the list changes nothing. */
  function ChangeArea(forms: seq<ViewForm>, index: int, f: AreaField, value: real): (r: seq<ViewForm>)
    ensures |r| == |forms|
    ensures forall i :: 0 <= i < |r| && i != index ==> r[i] == forms[i]
    ensures 0 <= index < |forms| ==>
              && r[index].viewName == forms[index].viewName
              && r[index].mockupImageUrl == forms[index].mockupImageUrl
              && AreaValue(r[index].area, f) == value
              && forall g :: g != f ==> AreaValue(r[index].area, g) == AreaValue(forms[index].area, g)
  {
    seq(|forms|, i requires 0 <= i < |forms| =>
      if i == index then forms[i].(area := SetArea(forms[i].area, f, value)) else forms[i])
  }

  /** `mockups/<time>-<index>.<extension>`. */
  function UploadPath(now: nat, index: nat, fileName: string): string {
    "mockups/" + NatToString(now) + "-" + NatToString(index) + ['.'] + LastSegment(fileName, '.')
  }

  /** The stored file keeps the extension of the picked file. */
  lemma UploadPathKeepsExtension(now: nat, index: nat, fileName: string)
    ensures LastSegment(UploadPath(now, index, fileName), '.') == LastSegment(fileName, '.')
  {
    LastSegmentAfterSeparator("mockups/" + NatToString(now) + "-" + NatToString(index), '.', LastSegment(fileName, '.'));
  }

  /** Two uploads differing in time or in view index go to different
      paths, whatever the file names. */
  lemma UploadPathsDiffer(now1: nat, index1: nat, name1: string, now2: nat, index2: nat, name2: string)
    requires now1 != now2 || index1 != index2
    ensures UploadPath(now1, index1, name1) != UploadPath(now2, index2, name2)
  {
    var e1 := LastSegment(name1, '.');
    var e2 := LastSegment(name2, '.');
    var r1 := NatToString(index1) + ['.'] + e1;
    var r2 := NatToString(index2) + ['.'] + e2;
    Regroup("mockups/", NatToString(now1), "-", NatToString(index1), ['.'], e1);
    Regroup("mockups/", NatToString(now2), "-", NatToString(index2), ['.'], e2);
    if UploadPath(now1, index1, name1) == UploadPath(now2, index2, name2) {
      DropPrefix("mockups/", NatToString(now1) + "-" + r1, NatToString(now2) + "-" + r2);
      StampInjective(now1, now2, '-', r1, r2);
      DropPrefix(NatToString(now1) + "-", r1, r2);
      StampInjective(index1, index2, '.', e1, e2);
    }
  }

  /** `handleImageUpload` of the form: `publicUrl` is the storage service's
      answer, `None` when the upload failed, in which case nothing changes.
      The form does not check the file's type or size. */
  function UploadToForm(forms: seq<ViewForm>, index: int, publicUrl: Option<string>): (r: seq<ViewForm>)
    ensures publicUrl.None? ==> r == forms
    ensures |r| == |forms|
    ensures forall i :: 0 <= i < |r| && i != index ==> r[i] == forms[i]
    ensures publicUrl.Some? && 0 <= index < |forms| ==>
              r[index] == forms[index].(mockupImageUrl := publicUrl.value)
  {
    if publicUrl.None? then forms
    else
      seq(|forms|, i requires 0 <= i < |forms| =>
        if i == index then forms[i].(mockupImageUrl := publicUrl.value) else forms[i])
  }

  /** The `products` row the dialog inserts. */
  datatype NewProduct = NewProduct(name: string, category: Option<string>, isActive: bool)

  /** The create button is enabled for a non-empty name (not trimmed here)
      while no creation is pending. */
  predicate CanCreate(name: string, pending: bool) {
    name != "" && !pending
  }

  /** The product row: the name as typed, `category || null`, active. */
  function CreateProduct(name: string, category: string, pending: bool): (r: Option<NewProduct>)
    ensures r.Some? <==> CanCreate(name, pending)
    ensures r.Some? ==> r.value.name == name && r.value.isActive
    ensures r.Some? ==> (r.value.category.None? <==> category == "")
    ensures r.Some? && category != "" ==> r.value.category == Some(category)
  {
    if CanCreate(name, pending) then
      Some(NewProduct(name, if category == "" then None else Some(category), true))
    else None
  }

  /** `viewsToInsert`: the form's views in order, each with its index as
      order, an empty URL stored as null, and its area copied. */
  function ViewsToInsert(productId: string, forms: seq<ViewForm>): (r: seq<NewView>)
    ensures |r| == |forms|
    ensures forall i :: 0 <= i < |r| ==>
              && r[i].productId == productId && r[i].viewOrder == i
              && r[i].viewName == forms[i].viewName && r[i].area == forms[i].area
              && (r[i].mockupImageUrl.None? <==> forms[i].mockupImageUrl == "")
              && (forms[i].mockupImageUrl != "" ==> r[i].mockupImageUrl == Some(forms[i].mockupImageUrl))
  {
    seq(|forms|, i requires 0 <= i < |forms| =>
      NewView(productId, forms[i].viewName, i,
              if forms[i].mockupImageUrl == "" then None else Some(forms[i].mockupImageUrl),
              forms[i].area))
  }

  /** A mockup uploaded for one view is inserted with that view only, and
      a failed upload inserts what was there before. */
  lemma UploadThenInsert(productId: string, forms: seq<ViewForm>, index: nat, url: string)
    requires index < |forms| && url != ""
    ensures var r := ViewsToInsert(productId, UploadToForm(forms, index, Some(url)));
            && r[index].mockupImageUrl == Some(url)
            && forall i :: 0 <= i < |r| && i != index ==> r[i] == ViewsToInsert(productId, forms)[i]
    ensures ViewsToInsert(productId, UploadToForm(forms, index, None)) == ViewsToInsert(productId, forms)
  {
  }

  /** Inserting the untouched form gives the default views: no mockups, and
      areas the print area editor keeps. */
  lemma UntouchedFormInsertsDefaults(productId: string)
    ensures var r := ViewsToInsert(productId, InitialForms());
            && |r| == 4
            && forall i :: 0 <= i < |r| ==> r[i].mockupImageUrl.None? && ViewEditor.Inside(r[i].area)
  {
    RoundInt(25);
    RoundInt(30);
    RoundInt(40);
    RoundInt(50);
    assert IsInt(25.0) && IsInt(30.0) && IsInt(40.0) && IsInt(50.0);
  }

  /** The dialog's form: name, category, the views and the product being
      edited. */
  datatype Form = Form(name: string, category: string, views: seq<ViewForm>, editing: Option<Product>)

  /** `resetForm`, run after a successful creation. */
  function ResetForm(): (r: Form)
    ensures r.name == "" && r.category == "" && r.editing.None?
    ensures r.views == InitialForms()
    ensures !CanCreate(r.name, false)
  {
    Form("", "", InitialForms(), None)
  }

  /** The editor of one stored view: a local copy and whether it differs
      from what was last saved. */
  datatype EditorState = EditorState(local: ProductView, hasChanges: bool)

  function OpenEditor(view: ProductView): (r: EditorState)
    ensures r.local == view && !r.hasChanges
  {
    EditorState(view, false)
  }

  /** `handleChange`: one area field of the local copy, and the save button
      appears. */
  function EditorChange(st: EditorState, f: AreaField, value: real): (r: EditorState)
    ensures r.hasChanges
    ensures r.local == st.local.(area := r.local.area)
    ensures AreaValue(r.local.area, f) == value
    ensures forall g :: g != f ==> AreaValue(r.local.area, g) == AreaValue(st.local.area, g)
  {
    EditorState(st.local.(area := SetArea(st.local.area, f, value)), true)
  }

  /** `mockups/<view id>-<time>.<extension>`: the editor puts the id first,
      unlike the form's upload. */
  function EditorUploadPath(viewId: string, now: nat, fileName: string): string {
    "mockups/" + viewId + "-" + NatToString(now) + ['.'] + LastSegment(fileName, '.')
  }

  lemma EditorUploadPathKeepsExtension(viewId: string, now: nat, fileName: string)
    ensures LastSegment(EditorUploadPath(viewId, now, fileName), '.') == LastSegment(fileName, '.')
  {
    LastSegmentAfterSeparator("mockups/" + viewId + "-" + NatToString(now), '.', LastSegment(fileName, '.'));
  }

  /** The editor's `handleImageUpload`: a stored file replaces the local
      mockup URL and marks a change; a failed upload changes nothing. */
  function EditorUpload(st: EditorState, publicUrl: Option<string>): (r: EditorState)
    ensures publicUrl.None? ==> r == st
    ensures publicUrl.Some? ==> r == EditorState(st.local.(mockupImageUrl := publicUrl), true)
  {
    if publicUrl.None? then st else EditorState(st.local.(mockupImageUrl := publicUrl), true)
  }

  /** `handleSave`: the update sent for the view's id, and the save button
      disappears. */
  function EditorSave(st: EditorState, viewId: string): (r: (EditorState, string, ViewEditor.ViewUpdate))
    ensures !r.0.hasChanges && r.0.local == st.local && r.1 == viewId
    ensures r.2.mockupImageUrl == st.local.mockupImageUrl && r.2.area == st.local.area
  {
    (st.(hasChanges := false), viewId, ViewEditor.SavePayload(st.local))
  }

  /** One area change and one upload, then a save, make the stored row equal
      to the local copy: only the area and mockup can differ, and both are
      sent. */
  lemma EditThenSaveRoundTrip(view: ProductView, f: AreaField, value: real, url: Option<string>)
    ensures var st := EditorUpload(EditorChange(OpenEditor(view), f, value), url);
            var (saved, id, update) := EditorSave(st, view.id);
            && id == view.id
            && ViewEditor.ApplyUpdate(view, update) == saved.local
            && !saved.hasChanges
  {
  }
}
