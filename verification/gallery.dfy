/** The gallery of ready-made designs: category tabs and the filtered
    template grid. */
module Gallery {
  import opened Common
  import opened Types

  /** A category is truthy when present and non-empty. */
  predicate HasCategory(t: DesignTemplate) {
    t.category.Some? && t.category.value != ""
  }

  /** `data.map(t => t.category).filter(Boolean)`. */
  function TruthyCategories(templates: seq<DesignTemplate>): (r: seq<string>)
    ensures forall c :: c in r ==> c != ""
    ensures forall c :: c in r <==> exists t :: t in templates && t.category == Some(c) && c != ""
  {
    if templates == [] then []
    else
      var t := templates[0];
      var rest := TruthyCategories(templates[1..]);
      assert templates == [t] + templates[1..];
      (if HasCategory(t) then [t.category.value] else []) + rest
  }

  /** `[...new Set(...)]`: the distinct truthy categories, in the order they
      first occur. */
  function Categories(templates: seq<DesignTemplate>): (r: seq<string>)
    ensures forall i, j :: 0 <= i < j < |r| ==> r[i] != r[j]
    ensures forall c :: c in r <==> exists t :: t in templates && t.category == Some(c) && c != ""
    ensures forall i, j :: 0 <= i < j < |r| ==>
              && r[i] in TruthyCategories(templates) && r[j] in TruthyCategories(templates)
              && FirstPos(TruthyCategories(templates), r[i]) < FirstPos(TruthyCategories(templates), r[j])
  {
    Distinct(TruthyCategories(templates))
  }

  /** The tab value that shows every template. */
  const All: string := "all"

  /** `filteredTemplates`. A template without a category matches no tab but
      "all". */
  function Filtered(templates: seq<DesignTemplate>, selected: string): (r: seq<DesignTemplate>)
    ensures selected == All ==> r == templates
    ensures selected != All ==> forall t :: t in r <==> t in templates && t.category == Some(selected)
    ensures |r| <= |templates|
  {
    if selected == All then templates else OfCategory(templates, selected)
  }

  /** `templates.filter(t => t.category === selected)`. */
  function OfCategory(templates: seq<DesignTemplate>, category: string): (r: seq<DesignTemplate>)
    ensures |r| <= |templates|
    ensures forall t :: t in r <==> t in templates && t.category == Some(category)
  {
    if templates == [] then []
    else
      (if templates[0].category == Some(category) then [templates[0]] else [])
      + OfCategory(templates[1..], category)
  }

  /** The filter distributes over concatenation, so the grid keeps the
      fetched order. */
  lemma {:induction false} OfCategoryAppend(a: seq<DesignTemplate>, b: seq<DesignTemplate>, category: string)
    ensures OfCategory(a + b, category) == OfCategory(a, category) + OfCategory(b, category)
  {
    if a == [] {
      assert a + b == b;
    } else {
      assert (a + b)[1..] == a[1..] + b;
      OfCategoryAppend(a[1..], b, category);
    }
  }

  /** Each template with a category is reachable through exactly one tab
      besides "all" (unless its category is itself "all"); a template
      without one is shown only under "all". */
  lemma EveryTemplateHasATab(templates: seq<DesignTemplate>, t: DesignTemplate)
    requires t in templates
    ensures HasCategory(t) ==> t.category.value in Categories(templates)
                               && t in Filtered(templates, t.category.value)
    ensures forall c :: c in Categories(templates) && c != All && t in Filtered(templates, c)
                        ==> t.category == Some(c)
    ensures !HasCategory(t) ==> forall c :: c in Categories(templates) && c != All ==> t !in Filtered(templates, c)
  {
  }

  /** `categories.length > 0`: the tab bar shows exactly when some template
      has a category. */
  function ShowTabs(templates: seq<DesignTemplate>): (r: bool)
    ensures r <==> exists t :: t in templates && HasCategory(t)
  {
    var cs := Categories(templates);
    if |cs| > 0 then
      assert cs[0] in cs;
      true
    else
      false
  }

  /** A grid tile: the image shown and the URL a click passes on. */
  datatype Tile = Tile(src: string, selects: string)

  /** `template.thumbnail_url || template.image_url` and the click handler's
      `template.image_url`. */
  function TileOf(t: DesignTemplate): (r: Tile)
    ensures r.selects == t.imageUrl
    ensures t.thumbnailUrl.Some? && t.thumbnailUrl.value != "" ==> r.src == t.thumbnailUrl.value
    ensures t.thumbnailUrl.None? || t.thumbnailUrl.value == "" ==> r.src == t.imageUrl
  {
    Tile(if t.thumbnailUrl.Some? && t.thumbnailUrl.value != "" then t.thumbnailUrl.value else t.imageUrl,
         t.imageUrl)
  }

  /** The grid for a selected tab: one tile per matching template, in order,
      each selecting the full image. */
  function Grid(templates: seq<DesignTemplate>, selected: string): (r: seq<Tile>)
    ensures |r| == |Filtered(templates, selected)|
    ensures forall i :: 0 <= i < |r| ==> r[i].selects == Filtered(templates, selected)[i].imageUrl
    ensures forall i :: 0 <= i < |r| ==> r[i] == TileOf(Filtered(templates, selected)[i])
  {
    var f := Filtered(templates, selected);
    seq(|f|, i requires 0 <= i < |f| => TileOf(f[i]))
  }

  /** "No designs available" shows exactly when the grid is empty. */
  function EmptyNotice(templates: seq<DesignTemplate>, selected: string): (r: bool)
    ensures r <==> Grid(templates, selected) == []
    ensures selected == All ==> (r <==> templates == [])
  {
    |Filtered(templates, selected)| == 0
  }
}
