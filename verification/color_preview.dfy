/** The colour preview panel: the per-colour mockup map, the design overlay
    of the active view and the collapsed dot list. */
module ColorPreview {
  import opened Common
  import opened Types
  import Layers

  /** A `product_view_color_mockups` row as the panel reads it. */
  datatype MockupRow = MockupRow(colorId: string, mockupImageUrl: string)

  /** The mockups are fetched only for an active view and a non-empty colour
      selection. */
  function ShouldFetchMockups(activeViewId: string, selectedColorIds: seq<string>): (r: bool)
    ensures r ==> activeViewId != "" && selectedColorIds != []
    ensures activeViewId != "" && selectedColorIds != [] ==> r
  {
    activeViewId != "" && |selectedColorIds| > 0
  }

  /** Some row carries the colour. */
  predicate HasRow(rows: seq<MockupRow>, colorId: string) {
    exists row :: row in rows && row.colorId == colorId
  }

  /** The position of the last row carrying the colour. */
  function LastIndex(rows: seq<MockupRow>, colorId: string): (i: nat)
    requires HasRow(rows, colorId)
    ensures i < |rows| && rows[i].colorId == colorId
    ensures forall j :: i < j < |rows| ==> rows[j].colorId != colorId
  {
    var last := rows[|rows| - 1];
    if last.colorId == colorId then |rows| - 1
    else
      var init := rows[..|rows| - 1];
      assert HasRow(init, colorId) by {
        var row :| row in rows && row.colorId == colorId;
        assert rows == init + [last];
        assert row in init;
      }
      LastIndex(init, colorId)
  }

  /** `mockupMap` after the `forEach`: each colour maps to the URL of its
      last row, since a later write replaces an earlier one. */
  function MockupMap(rows: seq<MockupRow>): (r: map<string, string>)
    ensures forall c :: c in r <==> HasRow(rows, c)
    ensures forall c :: c in r ==> r[c] == rows[LastIndex(rows, c)].mockupImageUrl
  {
    if rows == [] then map[]
    else
      var last := rows[|rows| - 1];
      var m := MockupMap(rows[..|rows| - 1]);
      MockupKeysStep(rows, m);
      MockupValuesStep(rows, m);
      m[last.colorId := last.mockupImageUrl]
  }

  lemma MockupKeysStep(rows: seq<MockupRow>, m: map<string, string>)
    requires rows != []
    requires forall c :: c in m <==> HasRow(rows[..|rows| - 1], c)
    ensures forall c :: c in m[rows[|rows| - 1].colorId := ""] <==> HasRow(rows, c)
  {
    var init := rows[..|rows| - 1];
    var last := rows[|rows| - 1];
    assert rows == init + [last];
    forall c ensures c in m || c == last.colorId <==> HasRow(rows, c) {
      if c in m {
        var row :| row in init && row.colorId == c;
        assert row in rows;
      }
      assert last in rows;
      if c != last.colorId && HasRow(rows, c) {
        var row :| row in rows && row.colorId == c;
        assert row in init;
      }
    }
  }

  lemma MockupValuesStep(rows: seq<MockupRow>, m: map<string, string>)
    requires rows != []
    requires forall c :: c in m ==> HasRow(rows[..|rows| - 1], c)
    requires forall c :: c in m ==> m[c] == rows[..|rows| - 1][LastIndex(rows[..|rows| - 1], c)].mockupImageUrl
    ensures var last := rows[|rows| - 1];
            forall c :: c in m[last.colorId := last.mockupImageUrl] ==>
              HasRow(rows, c) && m[last.colorId := last.mockupImageUrl][c] == rows[LastIndex(rows, c)].mockupImageUrl
  {
    var init := rows[..|rows| - 1];
    var last := rows[|rows| - 1];
    forall c | c in m[last.colorId := last.mockupImageUrl]
      ensures HasRow(rows, c) && m[last.colorId := last.mockupImageUrl][c] == rows[LastIndex(rows, c)].mockupImageUrl
    {
      if c == last.colorId {
        assert last in rows;
      } else {
        var k := LastIndex(init, c);
        assert rows[k] == init[k];
        assert HasRow(rows, c) by {
          assert rows[k] in rows;
        }
        var i := LastIndex(rows, c);
        assert i < |init|;
        assert init[i] == rows[i];
        assert i == k;
      }
    }
  }

  /** A row fetched after all others decides its colour's URL, and the
      other colours keep theirs. */
  lemma LastRowWins(rows: seq<MockupRow>, row: MockupRow)
    ensures var m := MockupMap(rows + [row]);
            && m[row.colorId] == row.mockupImageUrl
            && forall c :: c in MockupMap(rows) && c != row.colorId ==> c in m && m[c] == MockupMap(rows)[c]
  {
    assert (rows + [row])[..|rows + [row]| - 1] == rows;
    assert (rows + [row])[|rows + [row]| - 1] == row;
  }

  /** `views.find(v => v.id === activeViewId)`. */
  function CurrentView(views: seq<ProductView>, activeViewId: string): (r: Option<ProductView>)
    ensures r.None? <==> forall v :: v in views ==> v.id != activeViewId
    ensures r.Some? ==> exists i :: && 0 <= i < |views| && views[i] == r.value && r.value.id == activeViewId
                                    && forall j :: 0 <= j < i ==> views[j].id != activeViewId
  {
    if views == [] then None
    else if views[0].id == activeViewId then
      Some(views[0])
    else
      var r := CurrentView(views[1..], activeViewId);
      assert forall v :: v in views ==> v == views[0] || v in views[1..];
      assert r.Some? ==> exists i :: && 0 <= i < |views| && views[i] == r.value
                                    && forall j :: 0 <= j < i ==> views[j].id != activeViewId by {
        if r.Some? {
          var i :| && 0 <= i < |views[1..]| && views[1..][i] == r.value && r.value.id == activeViewId
                   && forall j :: 0 <= j < i ==> views[1..][j].id != activeViewId;
          assert views[i + 1] == r.value;
          forall j | 0 <= j < i + 1 ensures views[j].id != activeViewId {
            if j > 0 {
              assert views[j] == views[1..][j - 1];
            }
          }
        }
      }
      r
  }

  /** `designsByView[activeViewId] || []`. */
  function CurrentElements(designsByView: map<string, seq<DesignElement>>, activeViewId: string)
    : (r: seq<DesignElement>)
    ensures activeViewId in designsByView ==> r == designsByView[activeViewId]
    ensures activeViewId !in designsByView ==> r == []
  {
    if activeViewId in designsByView then designsByView[activeViewId] else []
  }

  /** `currentElements.filter(el => el.isVisible !== false)`: the elements
      the layer list shows as visible. */
  function VisibleElements(elements: seq<DesignElement>): (r: seq<DesignElement>)
    ensures |r| <= |elements|
    ensures forall e :: e in r <==> e in elements && Layers.EffectiveVisible(e)
  {
    if elements == [] then []
    else
      (if elements[0].isVisible != Some(false) then [elements[0]] else [])
      + VisibleElements(elements[1..])
  }

  /** The filter distributes over concatenation, so the overlay draws the
      visible elements in list order, which is their stacking order. */
  lemma {:induction false} VisibleElementsAppend(a: seq<DesignElement>, b: seq<DesignElement>)
    ensures VisibleElements(a + b) == VisibleElements(a) + VisibleElements(b)
  {
    if a == [] {
      assert a + b == b;
    } else {
      assert (a + b)[1..] == a[1..] + b;
      VisibleElementsAppend(a[1..], b);
    }
  }

  /** A single element is drawn exactly when it is visible. */
  lemma VisibleElementsOfOne(e: DesignElement)
    ensures VisibleElements([e]) == if Layers.EffectiveVisible(e) then [e] else []
  {
    assert [e][1..] == [];
  }

  /** Hiding a layer with its eye button takes it off every colour card,
      and showing it again puts it back. */
  lemma EyeButtonHidesFromPreview(e: DesignElement)
    ensures var toggled := Apply(e, Layers.ToggleVisible(e));
            Layers.EffectiveVisible(e) <==> VisibleElements([toggled]) == []
  {
    var toggled := Apply(e, Layers.ToggleVisible(e));
    if VisibleElements([toggled]) != [] {
      assert VisibleElements([toggled])[0] in VisibleElements([toggled]);
    }
  }

  /** How many colour dots the collapsed panel shows. */
  const CollapsedDots: nat := 8

  /** The collapsed panel: `colors.slice(0, 8)` and the "+n" label shown
      only when colours were cut off. */
  function Collapsed(colors: seq<ProductColor>): (r: (seq<ProductColor>, Option<nat>))
    ensures |r.0| == if |colors| < CollapsedDots then |colors| else CollapsedDots
    ensures r.0 == colors[..|r.0|]
    ensures r.1.Some? <==> |colors| > CollapsedDots
    ensures |r.0| + r.1.GetOr(0) == |colors|
  {
    var shown := if |colors| < CollapsedDots then colors else colors[..CollapsedDots];
    (shown, if |colors| > CollapsedDots then Some(|colors| - CollapsedDots) else None)
  }

  /** What fills a colour card: the mockup photo, or the plain hex fill. */
  datatype Background = MockupImage(url: string) | Fill(hexCode: string)

  /** A colour card in the expanded panel. */
  datatype Card = Card(colorId: string, background: Background, isActive: bool, isExpanded: bool,
                       overlay: Option<(Area, seq<DesignElement>)>)

  /** One card: a truthy mockup URL wins over the hex fill; the design
      overlay appears only when the active view is found. */
  function CardOf(color: ProductColor, mockups: map<string, string>, activeColorId: Option<string>,
                  expandedCardId: Option<string>, current: Option<ProductView>,
                  elements: seq<DesignElement>): (r: Card)
    ensures r.colorId == color.id
    ensures r.background.MockupImage? <==> color.id in mockups && mockups[color.id] != ""
    ensures r.background.MockupImage? ==> r.background.url == mockups[color.id]
    ensures r.background.Fill? ==> r.background.hexCode == color.hexCode
    ensures r.isActive <==> activeColorId == Some(color.id)
    ensures r.isExpanded <==> expandedCardId == Some(color.id)
    ensures r.overlay.Some? <==> current.Some?
    ensures r.overlay.Some? ==> r.overlay.value.0 == current.value.area
                                && r.overlay.value.1 == VisibleElements(elements)
  {
    Card(color.id,
         if color.id in mockups && mockups[color.id] != "" then MockupImage(mockups[color.id]) else Fill(color.hexCode),
         activeColorId == Some(color.id),
         expandedCardId == Some(color.id),
         if current.Some? then Some((current.value.area, VisibleElements(elements))) else None)
  }

  /** The expanded panel: a card per colour, each showing the active view's
      visible elements over the view's print area. */
  function Cards(colors: seq<ProductColor>, rows: seq<MockupRow>, activeColorId: Option<string>,
                 expandedCardId: Option<string>, views: seq<ProductView>, activeViewId: string,
                 designsByView: map<string, seq<DesignElement>>): (r: seq<Card>)
    ensures |r| == |colors|
    ensures forall i :: 0 <= i < |r| ==> r[i].colorId == colors[i].id
    ensures forall i, j :: 0 <= i < |r| && 0 <= j < |r| && r[i].isActive && r[j].isActive
                           ==> colors[i].id == colors[j].id
    ensures forall i :: 0 <= i < |r| ==>
              r[i] == CardOf(colors[i], MockupMap(rows), activeColorId, expandedCardId,
                             CurrentView(views, activeViewId), CurrentElements(designsByView, activeViewId))
  {
    var mockups := MockupMap(rows);
    var current := CurrentView(views, activeViewId);
    var elements := CurrentElements(designsByView, activeViewId);
    seq(|colors|, i requires 0 <= i < |colors| =>
      CardOf(colors[i], mockups, activeColorId, expandedCardId, current, elements))
  }

  /** A colour whose mockup rows are all empty URLs, or that has none, is
      drawn with its hex fill. */
  lemma NoMockupMeansFill(color: ProductColor, rows: seq<MockupRow>, activeColorId: Option<string>,
                          expandedCardId: Option<string>, current: Option<ProductView>,
                          elements: seq<DesignElement>)
    requires forall row :: row in rows && row.colorId == color.id ==> row.mockupImageUrl == ""
    ensures CardOf(color, MockupMap(rows), activeColorId, expandedCardId, current, elements).background
            == Fill(color.hexCode)
  {
    var m := MockupMap(rows);
    if color.id in m {
      assert rows[LastIndex(rows, color.id)] in rows;
    }
  }
}
