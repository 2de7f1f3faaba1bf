/** The designer's records: design elements, catalog rows, saved designs,
    and `Patch`, the partial element an update handler spreads over an
    element (`{ ...el, ...updates }`). */
module Types {
  import opened Common

  datatype ElementKind = TextElement | ImageElement
  datatype FontWeight = WeightNormal | Bold
  datatype FontStyle = StyleNormal | Italic
  datatype TextDecoration = DecorationNone | Underline
  datatype TextAlign = AlignLeft | AlignCenter | AlignRight

  /** A placed text or image. `x` and `y` are percentages of the canvas;
      every other attribute may be absent. */
  datatype DesignElement = DesignElement(
    id: string,
    kind: ElementKind,
    content: string,
    x: real,
    y: real,
    width: Option<real>,
    height: Option<real>,
    fontSize: Option<real>,
    color: Option<string>,
    fontFamily: Option<string>,
    imageUrl: Option<string>,
    fontWeight: Option<FontWeight>,
    fontStyle: Option<FontStyle>,
    textDecoration: Option<TextDecoration>,
    textAlign: Option<TextAlign>,
    rotation: Option<real>,
    isLocked: Option<bool>,
    isVisible: Option<bool>,
    dpi: Option<real>)

  /** A partial element: `Some` for every key the update object carries. */
  datatype Patch = Patch(
    id: Option<string>,
    kind: Option<ElementKind>,
    content: Option<string>,
    x: Option<real>,
    y: Option<real>,
    width: Option<real>,
    height: Option<real>,
    fontSize: Option<real>,
    color: Option<string>,
    fontFamily: Option<string>,
    imageUrl: Option<string>,
    fontWeight: Option<FontWeight>,
    fontStyle: Option<FontStyle>,
    textDecoration: Option<TextDecoration>,
    textAlign: Option<TextAlign>,
    rotation: Option<real>,
    isLocked: Option<bool>,
    isVisible: Option<bool>,
    dpi: Option<real>)

  /** The empty update object `{}`. */
  const NoChange: Patch := Patch(None, None, None, None, None, None, None, None, None, None,
                                 None, None, None, None, None, None, None, None, None)

  /** A key of the update wins over the element's own value. */
  function Override<T>(update: Option<T>, current: Option<T>): (r: Option<T>)
    ensures update.Some? ==> r == update
    ensures update.None? ==> r == current
  {
    if update.Some? then update else current
  }

  /** `{ ...e, ...p }`. */
  function Apply(e: DesignElement, p: Patch): DesignElement {
    DesignElement(
      p.id.GetOr(e.id),
      p.kind.GetOr(e.kind),
      p.content.GetOr(e.content),
      p.x.GetOr(e.x),
      p.y.GetOr(e.y),
      Override(p.width, e.width),
      Override(p.height, e.height),
      Override(p.fontSize, e.fontSize),
      Override(p.color, e.color),
      Override(p.fontFamily, e.fontFamily),
      Override(p.imageUrl, e.imageUrl),
      Override(p.fontWeight, e.fontWeight),
      Override(p.fontStyle, e.fontStyle),
      Override(p.textDecoration, e.textDecoration),
      Override(p.textAlign, e.textAlign),
      Override(p.rotation, e.rotation),
      Override(p.isLocked, e.isLocked),
      Override(p.isVisible, e.isVisible),
      Override(p.dpi, e.dpi))
  }

  /** `{ ...p, ...q }`: two updates in a row as one. */
  function Merge(p: Patch, q: Patch): Patch {
    Patch(
      Override(q.id, p.id), Override(q.kind, p.kind), Override(q.content, p.content),
      Override(q.x, p.x), Override(q.y, p.y), Override(q.width, p.width),
      Override(q.height, p.height), Override(q.fontSize, p.fontSize), Override(q.color, p.color),
      Override(q.fontFamily, p.fontFamily), Override(q.imageUrl, p.imageUrl),
      Override(q.fontWeight, p.fontWeight), Override(q.fontStyle, p.fontStyle),
      Override(q.textDecoration, p.textDecoration), Override(q.textAlign, p.textAlign),
      Override(q.rotation, p.rotation), Override(q.isLocked, p.isLocked),
      Override(q.isVisible, p.isVisible), Override(q.dpi, p.dpi))
  }

  /** Spreading `{}` changes nothing. */
  lemma ApplyNoChange(e: DesignElement)
    ensures Apply(e, NoChange) == e
  {
  }

  /** Spreading the same update twice is spreading it once. */
  lemma ApplyIdempotent(e: DesignElement, p: Patch)
    ensures Apply(Apply(e, p), p) == Apply(e, p)
  {
  }

  /** Two successive updates equal one update with the later keys winning. */
  lemma ApplyMerge(e: DesignElement, p: Patch, q: Patch)
    ensures Apply(Apply(e, p), q) == Apply(e, Merge(p, q))
  {
  }

  /** A print area, in percentages of the mockup image. */
  datatype Area = Area(top: real, left: real, width: real, height: real)

  datatype ProductView = ProductView(
    id: string,
    productId: string,
    viewName: string,
    viewOrder: int,
    mockupImageUrl: Option<string>,
    area: Area)

  /** `sortOrder` may be null in the database, which the catalog code
      defends against. */
  datatype ProductColor = ProductColor(
    id: string, name: string, hexCode: string, sortOrder: Option<int>, isActive: bool)

  datatype Product = Product(
    id: string,
    name: string,
    description: Option<string>,
    category: Option<string>,
    isActive: bool,
    views: Option<seq<ProductView>>)

  /** A view every new product starts with: its name and print area. */
  datatype ViewTemplate = ViewTemplate(name: string, area: Area)

  /** A `product_views` row about to be inserted. */
  datatype NewView = NewView(productId: string, viewName: string, viewOrder: nat,
                             mockupImageUrl: Option<string>, area: Area)

  datatype ProductMockup = ProductMockup(id: string, name: string, image: string, designArea: Area)

  datatype UserFolder = UserFolder(
    id: string, userId: string, name: string, parentFolderId: Option<string>, createdAt: string)

  datatype UserUpload = UserUpload(
    id: string, userId: string, folderId: Option<string>, fileName: string,
    originalUrl: string, compressedUrl: Option<string>, fileSize: Option<int>,
    mimeType: Option<string>, width: Option<real>, height: Option<real>, createdAt: string)

  datatype DesignTemplate = DesignTemplate(
    id: string, name: string, category: Option<string>, imageUrl: string,
    thumbnailUrl: Option<string>, isActive: bool)

  /** A saved design's data maps a view id to that view's elements. */
  datatype SavedDesign = SavedDesign(
    id: string, userId: string, productId: Option<string>, name: string,
    designData: map<string, seq<DesignElement>>, thumbnailUrl: Option<string>,
    createdAt: string, updatedAt: string)

  datatype DesignState = DesignState(elements: seq<DesignElement>, productId: string)

  /** A file picked in an upload input: its name, MIME type and size in
      bytes. */
  datatype UploadFile = UploadFile(name: string, mimeType: string, size: nat)

  /** The 50 MB upper bound both upload forms apply. */
  const MaxUploadBytes: nat := 50 * 1024 * 1024

  /** Why an upload form refuses a file. */
  datatype Rejection = WrongType | TooLarge

  datatype ActiveTab = MockupTab | UploadTab | ImageTab | TextTab | ProductTab | SavedTab | LayersTab
  datatype ActiveTool = SelectTool | TextTool | UploadTool
}
