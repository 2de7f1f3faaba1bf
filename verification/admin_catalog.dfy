/** The catalogue admin panel: product creation with its four default
    views, and colour creation with the next sort order. */
module AdminCatalog {
  import opened Common
  import opened Types
  import opened Strings
  import ViewEditor

  /** The four views a product created here starts with: front, back and the
      two sleeves, areas in percent. */
  const DefaultViews: seq<ViewTemplate> := [
    ViewTemplate("Ön", Area(25.0, 25.0, 50.0, 40.0)),
    ViewTemplate("Arka", Area(25.0, 25.0, 50.0, 40.0)),
    ViewTemplate("Sol Kol", Area(30.0, 30.0, 40.0, 50.0)),
    ViewTemplate("Sağ Kol", Area(30.0, 30.0, 40.0, 50.0))
  ]

  /** Every default print area lies inside the mockup and is one the print
      area editor keeps. */
  lemma DefaultViewsFit()
    ensures forall i :: 0 <= i < |DefaultViews| ==>
              && DefaultViews[i].area.left + DefaultViews[i].area.width <= 100.0
              && DefaultViews[i].area.top + DefaultViews[i].area.height <= 100.0
              && ViewEditor.Inside(DefaultViews[i].area)
  {
    RoundInt(25);
    RoundInt(30);
    RoundInt(40);
    RoundInt(50);
    assert IsInt(25.0) && IsInt(30.0) && IsInt(40.0) && IsInt(50.0);
  }

  /** The `products` row inserted for a new product. */
  datatype NewProduct = NewProduct(name: string, isActive: bool)

  /** The add button is enabled for a name with some non-blank character,
      while no creation is pending. */
  predicate CanAddProduct(newName: string, pending: bool) {
    !IsBlank(newName) && !pending
  }

  /** Pressing the add button: the trimmed name, inactive until an admin
      switches it on; nothing for a blank name. */
  function CreateProduct(newName: string, pending: bool): (r: Option<NewProduct>)
    ensures r.Some? <==> CanAddProduct(newName, pending)
    ensures r.Some? ==> r.value.name == Trim(newName) && r.value.name != "" && !r.value.isActive
    ensures r.Some? ==> !IsSpace(r.value.name[0]) && !IsSpace(r.value.name[|r.value.name| - 1])
  {
    if CanAddProduct(newName, pending) then Some(NewProduct(Trim(newName), false)) else None
  }

  /** The default views inserted for a created product. */
  function DefaultViewRows(productId: string): (r: seq<NewView>)
    ensures |r| == |DefaultViews|
    ensures forall i :: 0 <= i < |r| ==>
              && r[i].productId == productId && r[i].viewOrder == i
              && r[i].viewName == DefaultViews[i].name && r[i].area == DefaultViews[i].area
              && r[i].mockupImageUrl.None?
  {
    seq(|DefaultViews|, i requires 0 <= i < |DefaultViews| =>
      NewView(productId, DefaultViews[i].name, i, None, DefaultViews[i].area))
  }

  /** The inserted views are ordered without ties and all fit their
      mockup. */
  lemma DefaultViewRowsOrdered(productId: string)
    ensures var r := DefaultViewRows(productId);
            && (forall i, j :: 0 <= i < j < |r| ==> r[i].viewOrder < r[j].viewOrder)
            && (forall i :: 0 <= i < |r| ==> ViewEditor.Inside(r[i].area))
  {
    DefaultViewsFit();
  }

  /** `c.sort_order || 0`. */
  function OrderOf(c: ProductColor): int {
    if c.sortOrder.Some? then c.sortOrder.value else 0
  }

  /** `colors?.reduce((max, c) => Math.max(max, c.sort_order || 0), 0) || 0`:
      zero when the list is not loaded, otherwise the largest order, at
      least zero. */
  function MaxOrder(colors: Option<seq<ProductColor>>): (m: nat)
    ensures colors.None? ==> m == 0
    ensures colors.Some? ==> forall c :: c in colors.value ==> OrderOf(c) <= m
    ensures colors.Some? && m > 0 ==> exists c :: c in colors.value && OrderOf(c) == m
  {
    if colors.None? then 0 else MaxOf(colors.value)
  }

  /** The fold itself, from the seed 0. */
  function MaxOf(colors: seq<ProductColor>): (m: nat)
    ensures forall c :: c in colors ==> OrderOf(c) <= m
    ensures m > 0 ==> exists c :: c in colors && OrderOf(c) == m
  {
    if colors == [] then 0
    else
      var rest := MaxOf(colors[..|colors| - 1]);
      var last := colors[|colors| - 1];
      assert colors == colors[..|colors| - 1] + [last];
      if OrderOf(last) > rest then OrderOf(last) else rest
  }

  /** The `product_colors` row inserted for a new colour. */
  datatype NewColor = NewColor(name: string, hexCode: string, sortOrder: int, isActive: bool)

  /** The colour picker's initial value, restored after each creation. */
  const DefaultHex: string := "#3B82F6"

  /** Pressing the colour add button: the name as typed (untrimmed), active
      at once, ordered after every existing colour. */
  function CreateColor(newName: string, newHex: string, pending: bool, colors: Option<seq<ProductColor>>)
    : (r: Option<NewColor>)
    ensures r.Some? <==> !IsBlank(newName) && !pending
    ensures r.Some? ==> r.value.name == newName && r.value.hexCode == newHex && r.value.isActive
    ensures r.Some? ==> r.value.sortOrder >= 1
    ensures r.Some? && colors.Some? ==> forall c :: c in colors.value ==> OrderOf(c) < r.value.sortOrder
  {
    if IsBlank(newName) || pending then None
    else Some(NewColor(newName, newHex, MaxOrder(colors) + 1, true))
  }

  /** A new colour sorts after every existing one, also past colours with
      a missing or negative order. */
  lemma NewColorSortsLast(colors: seq<ProductColor>, newName: string, newHex: string)
    requires !IsBlank(newName)
    ensures var r := CreateColor(newName, newHex, false, Some(colors));
            && r.Some?
            && forall c :: c in colors && c.sortOrder.Some? ==> c.sortOrder.value < r.value.sortOrder
  {
    var r := CreateColor(newName, newHex, false, Some(colors));
    forall c | c in colors && c.sortOrder.Some? ensures c.sortOrder.value < r.value.sortOrder {
      assert OrderOf(c) == c.sortOrder.value;
    }
  }

  /** A worked case: orders 3, none and 7 give the next order 8. */
  lemma NextOrderScenario()
    ensures var cs := [ProductColor("a", "Red", "#FF0000", Some(3), true),
                       ProductColor("b", "Blue", "#0000FF", None, true),
                       ProductColor("c", "Lime", "#00FF00", Some(7), false)];
            CreateColor("Black", "#000000", false, Some(cs)).value.sortOrder == 8
  {
    var cs := [ProductColor("a", "Red", "#FF0000", Some(3), true),
               ProductColor("b", "Blue", "#0000FF", None, true),
               ProductColor("c", "Lime", "#00FF00", Some(7), false)];
    assert cs[..2][..1] == [cs[0]];
    assert MaxOf(cs[..2][..1]) == 3;
    assert MaxOf(cs[..2]) == 3;
    assert MaxOf(cs) == 7;
    assert !IsBlank("Black") by {
      BlankIffAllSpace("Black");
      assert !IsSpace("Black"[0]);
    }
  }
}
