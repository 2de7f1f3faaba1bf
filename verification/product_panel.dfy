/** The product list: fetched views grouped by product, products grouped by
    category, and the selection handler that forwards a product's views. */
module ProductPanel {
  import opened Common
  import opened Types

  /** The fetched views of one product, in fetched order. */
  function ViewsOf(views: seq<ProductView>, productId: string): (r: seq<ProductView>)
    ensures |r| <= |views|
    ensures forall v :: v in r <==> v in views && v.productId == productId
  {
    if views == [] then []
    else (if views[0].productId == productId then [views[0]] else []) + ViewsOf(views[1..], productId)
  }

  /** Filtering distributes over concatenation: a view fetched later lands
      after every view fetched earlier. */
  lemma {:induction false} ViewsOfAppend(a: seq<ProductView>, b: seq<ProductView>, productId: string)
    ensures ViewsOf(a + b, productId) == ViewsOf(a, productId) + ViewsOf(b, productId)
  {
    if a == [] {
      assert a + b == b;
    } else {
      assert (a + b)[1..] == a[1..] + b;
      ViewsOfAppend(a[1..], b, productId);
    }
  }

  /** Some fetched view belongs to the product. */
  predicate HasViews(views: seq<ProductView>, productId: string) {
    exists v :: v in views && v.productId == productId
  }

  /** `viewsByProduct` as the `forEach` in `fetchProducts` builds it: a
      product id maps to its views exactly when it has some. */
  function GroupViews(views: seq<ProductView>): (groups: map<string, seq<ProductView>>)
    ensures forall productId :: productId in groups <==> HasViews(views, productId)
    ensures forall productId :: productId in groups ==> groups[productId] == ViewsOf(views, productId)
  {
    if views == [] then map[]
    else
      var v := views[|views| - 1];
      var g := GroupViews(views[..|views| - 1]);
      GroupKeysStep(views, g);
      GroupValuesStep(views, g);
      g[v.productId := (if v.productId in g then g[v.productId] else []) + [v]]
  }

  /** One `push` of the `forEach`, keys and values apart: the map built
      from all views but the last, with the last pushed, is the map of all
      views. */
  lemma GroupKeysStep(views: seq<ProductView>, g: map<string, seq<ProductView>>)
    requires views != []
    requires forall productId :: productId in g <==> HasViews(views[..|views| - 1], productId)
    ensures var v := views[|views| - 1];
            forall productId :: productId in g[v.productId := []] <==> HasViews(views, productId)
  {
    forall productId ensures productId in g || productId == views[|views| - 1].productId <==> HasViews(views, productId) {
      HasViewsStep(views, productId);
    }
  }

  lemma GroupValuesStep(views: seq<ProductView>, g: map<string, seq<ProductView>>)
    requires views != []
    requires views[|views| - 1].productId !in g ==> !HasViews(views[..|views| - 1], views[|views| - 1].productId)
    requires forall productId :: productId in g ==> g[productId] == ViewsOf(views[..|views| - 1], productId)
    ensures var v := views[|views| - 1];
            var groups := g[v.productId := (if v.productId in g then g[v.productId] else []) + [v]];
            forall productId :: productId in groups ==> groups[productId] == ViewsOf(views, productId)
  {
    var init := views[..|views| - 1];
    var v := views[|views| - 1];
    var groups := g[v.productId := (if v.productId in g then g[v.productId] else []) + [v]];
    forall productId | productId in groups ensures groups[productId] == ViewsOf(views, productId) {
      ViewsOfStep(views, productId);
      if productId != v.productId {
        assert groups[productId] == g[productId] == ViewsOf(init, productId);
      } else if productId in g {
        assert groups[productId] == ViewsOf(init, productId) + [v];
      } else {
        NoViewsOf(init, productId);
        assert groups[productId] == [] + [v];
      }
    }
  }

  lemma HasViewsStep(views: seq<ProductView>, productId: string)
    requires views != []
    ensures HasViews(views, productId) <==> HasViews(views[..|views| - 1], productId) || views[|views| - 1].productId == productId
  {
    var init := views[..|views| - 1];
    var v := views[|views| - 1];
    assert views == init + [v];
    if HasViews(views, productId) && v.productId != productId {
      var w :| w in views && w.productId == productId;
      assert w in init;
    }
    if v.productId == productId {
      assert v in views;
    }
    if HasViews(init, productId) {
      var w :| w in init && w.productId == productId;
      assert w in views;
    }
  }

  lemma ViewsOfStep(views: seq<ProductView>, productId: string)
    requires views != []
    ensures var v := views[|views| - 1];
            ViewsOf(views, productId) == ViewsOf(views[..|views| - 1], productId) + (if v.productId == productId then [v] else [])
  {
    var init := views[..|views| - 1];
    var v := views[|views| - 1];
    assert views == init + [v];
    ViewsOfAppend(init, [v], productId);
    assert [v][1..] == [];
  }

  lemma NoViewsOf(views: seq<ProductView>, productId: string)
    requires !HasViews(views, productId)
    ensures ViewsOf(views, productId) == []
  {
    if ViewsOf(views, productId) != [] {
      assert ViewsOf(views, productId)[0] in ViewsOf(views, productId);
    }
  }

  /** `productViews[product.id] || []`: the view names shown on a product's
      button. */
  function ViewsShown(groups: map<string, seq<ProductView>>, productId: string): (r: seq<ProductView>)
    ensures productId in groups ==> r == groups[productId]
    ensures productId !in groups ==> r == []
  {
    if productId in groups then groups[productId] else []
  }

  /** Every product's button shows exactly its fetched views, in fetched
      order, whether or not it has any. */
  lemma ShownViewsAreFetchedViews(views: seq<ProductView>, productId: string)
    ensures ViewsShown(GroupViews(views), productId) == ViewsOf(views, productId)
  {
    if !HasViews(views, productId) {
      NoViewsOf(views, productId);
    }
  }

  /** The sum of the group sizes over a list of product ids. */
  function Total(views: seq<ProductView>, productIds: seq<string>): nat {
    if productIds == [] then 0 else |ViewsOf(views, productIds[0])| + Total(views, productIds[1..])
  }

  /** The product ids of the fetched views, once each: the keys of
      `viewsByProduct`. */
  function ProductIds(views: seq<ProductView>): (r: seq<string>)
    ensures forall productId :: productId in r <==> productId in GroupViews(views)
  {
    var ids := seq(|views|, i requires 0 <= i < |views| => views[i].productId);
    var r := Distinct(ids);
    forall productId ensures productId in ids <==> HasViews(views, productId) {
      if productId in ids {
        var i :| 0 <= i < |ids| && ids[i] == productId;
        assert views[i] in views;
      }
      if HasViews(views, productId) {
        var v :| v in views && v.productId == productId;
        var i :| 0 <= i < |views| && views[i] == v;
        assert ids[i] == productId;
      }
    }
    r
  }

  /** Adding one view in front adds one to the total of a duplicate-free
      id list that holds its product. */
  lemma {:induction false} TotalCons(v: ProductView, rest: seq<ProductView>, productIds: seq<string>)
    requires forall i, j :: 0 <= i < j < |productIds| ==> productIds[i] != productIds[j]
    ensures Total([v] + rest, productIds) == Total(rest, productIds) + (if v.productId in productIds then 1 else 0)
  {
    if productIds != [] {
      var p := productIds[0];
      assert ([v] + rest)[1..] == rest;
      assert ViewsOf([v] + rest, p) == (if v.productId == p then [v] else []) + ViewsOf(rest, p);
      TotalCons(v, rest, productIds[1..]);
      if v.productId == p {
        assert v.productId !in productIds[1..] by {
          forall k | 0 <= k < |productIds[1..]| ensures productIds[1..][k] != p {
            assert productIds[1..][k] == productIds[k + 1];
          }
        }
      } else {
        assert v.productId in productIds <==> v.productId in productIds[1..] by {
          assert productIds == [p] + productIds[1..];
        }
      }
    }
  }

  /** Over a duplicate-free list of ids covering every view, the group sizes
      add up to the number of views. */
  lemma {:induction false} TotalCoversAll(views: seq<ProductView>, productIds: seq<string>)
    requires forall i, j :: 0 <= i < j < |productIds| ==> productIds[i] != productIds[j]
    requires forall v :: v in views ==> v.productId in productIds
    ensures Total(views, productIds) == |views|
  {
    if views == [] {
      TotalOfNothing(productIds);
    } else {
      assert views == [views[0]] + views[1..];
      TotalCoversAll(views[1..], productIds);
      TotalCons(views[0], views[1..], productIds);
    }
  }

  lemma {:induction false} TotalOfNothing(productIds: seq<string>)
    ensures Total([], productIds) == 0
  {
    if productIds != [] {
      TotalOfNothing(productIds[1..]);
    }
  }

  /** Grouping loses and duplicates no view: the group sizes, summed over
      the map's keys, equal the number of fetched views. */
  lemma GroupingKeepsEveryView(views: seq<ProductView>)
    ensures Total(views, ProductIds(views)) == |views|
  {
    var ids := ProductIds(views);
    forall v | v in views ensures v.productId in ids {
      assert HasViews(views, v.productId);
    }
    TotalCoversAll(views, ids);
  }

  /** `handleProductSelect`: the product becomes the selection, and its views
      are forwarded only when they were loaded. A loaded array is truthy even
      when empty, so presence of the key decides. */
  function SelectProduct(groups: map<string, seq<ProductView>>, productId: string)
    : (r: (string, Option<seq<ProductView>>))
    ensures r.0 == productId
    ensures r.1.Some? <==> productId in groups
    ensures r.1.Some? ==> r.1.value == groups[productId]
  {
    (productId, if productId in groups then Some(groups[productId]) else None)
  }

  /** The views the effect forwards for the current selection (the same test
      runs right after the fetch): only for a non-empty selected id with
      loaded views. */
  function ForwardSelected(groups: map<string, seq<ProductView>>, selectedProductId: string)
    : (r: Option<seq<ProductView>>)
    ensures r.Some? <==> selectedProductId != "" && selectedProductId in groups
    ensures r.Some? ==> r.value == groups[selectedProductId]
  {
    if selectedProductId != "" && selectedProductId in groups then Some(groups[selectedProductId]) else None
  }

  /** After the fetch, selecting a product forwards its fetched views when it
      has any and nothing otherwise; what is forwarded is never empty. */
  lemma SelectForwardsFetchedViews(views: seq<ProductView>, productId: string)
    ensures var r := SelectProduct(GroupViews(views), productId);
            && (r.1.Some? <==> HasViews(views, productId))
            && (r.1.Some? ==> r.1.value == ViewsOf(views, productId) && r.1.value != [])
  {
    if HasViews(views, productId) {
      var v :| v in views && v.productId == productId;
      assert v in ViewsOf(views, productId);
    }
  }

  /** `product.category || "Other"`. */
  function CategoryOf(p: Product): (c: string)
    ensures c != ""
    ensures p.category.Some? && p.category.value != "" ==> c == p.category.value
    ensures p.category.None? || p.category.value == "" ==> c == "Other"
  {
    if p.category.Some? && p.category.value != "" then p.category.value else "Other"
  }

  /** The products of one category, in list order. */
  function InCategory(products: seq<Product>, category: string): (r: seq<Product>)
    ensures |r| <= |products|
    ensures forall p :: p in r <==> p in products && CategoryOf(p) == category
  {
    if products == [] then []
    else (if CategoryOf(products[0]) == category then [products[0]] else []) + InCategory(products[1..], category)
  }

  lemma {:induction false} InCategoryAppend(a: seq<Product>, b: seq<Product>, category: string)
    ensures InCategory(a + b, category) == InCategory(a, category) + InCategory(b, category)
  {
    if a == [] {
      assert a + b == b;
    } else {
      assert (a + b)[1..] == a[1..] + b;
      InCategoryAppend(a[1..], b, category);
    }
  }

  /** A category section: its heading, and its products whose count the
      badge shows. */
  datatype Group = Group(category: string, products: seq<Product>)

  function Badge(g: Group): nat {
    |g.products|
  }

  /** The category of each product, in list order. */
  function Categories(products: seq<Product>): (r: seq<string>)
    ensures |r| == |products|
    ensures forall i :: 0 <= i < |r| ==> r[i] == CategoryOf(products[i])
  {
    seq(|products|, i requires 0 <= i < |products| => CategoryOf(products[i]))
  }

  /** A category some product carries has at least that product. */
  lemma CategoryIsInhabited(products: seq<Product>, c: string)
    requires c in Categories(products)
    ensures InCategory(products, c) != []
  {
    var k :| 0 <= k < |products| && Categories(products)[k] == c;
    assert products[k] in InCategory(products, c);
  }

  lemma CategoryListed(products: seq<Product>, p: Product)
    requires p in products
    ensures CategoryOf(p) in Categories(products)
  {
    var k :| 0 <= k < |products| && products[k] == p;
    assert Categories(products)[k] == CategoryOf(p);
  }

  /** The section headings, top to bottom. */
  function Headings(groups: seq<Group>): (r: seq<string>)
    ensures |r| == |groups|
    ensures forall i :: 0 <= i < |r| ==> r[i] == groups[i].category
  {
    seq(|groups|, i requires 0 <= i < |groups| => groups[i].category)
  }

  /** `groupedProducts`, as `Object.entries` lists it: one section per
      category some product carries, in the order categories first occur,
      each with the products of that category in list order. */
  function GroupProducts(products: seq<Product>): (r: seq<Group>)
    ensures forall c :: c in Headings(r) <==> c in Categories(products)
    ensures forall i, j :: 0 <= i < j < |r| ==> r[i].category != r[j].category
    ensures forall i, j :: 0 <= i < j < |r| ==>
              && r[i].category in Categories(products) && r[j].category in Categories(products)
              && FirstPos(Categories(products), r[i].category) < FirstPos(Categories(products), r[j].category)
    ensures forall i :: 0 <= i < |r| ==> r[i].products == InCategory(products, r[i].category)
  {
    var r := Sections(products, Distinct(Categories(products)));
    assert Headings(r) == Distinct(Categories(products));
    r
  }

  /** One section per heading, each with the products of its category. */
  function Sections(products: seq<Product>, headings: seq<string>): (r: seq<Group>)
    ensures |r| == |headings|
    ensures forall i :: 0 <= i < |r| ==> r[i] == Group(headings[i], InCategory(products, headings[i]))
  {
    seq(|headings|, i requires 0 <= i < |headings| => Group(headings[i], InCategory(products, headings[i])))
  }

  /** Every section shows at least one product, so no badge reads 0. */
  lemma NoEmptySection(products: seq<Product>, i: nat)
    requires i < |GroupProducts(products)|
    ensures Badge(GroupProducts(products)[i]) >= 1
  {
    var r := GroupProducts(products);
    assert r[i].category in Headings(r);
    CategoryIsInhabited(products, r[i].category);
  }

  /** Each product is listed exactly once, under its own category. */
  lemma ProductListedOnce(products: seq<Product>, p: Product)
    requires p in products
    ensures var r := GroupProducts(products);
            exists i :: && 0 <= i < |r| && r[i].category == CategoryOf(p) && p in r[i].products
                        && forall j :: 0 <= j < |r| && j != i ==> p !in r[j].products
  {
    var r := GroupProducts(products);
    CategoryListed(products, p);
    var i :| 0 <= i < |r| && Headings(r)[i] == CategoryOf(p);
    assert p in r[i].products;
  }

  /** A worked grouping: a missing and an empty category both land in
      "Other", after "Apparel", which occurs first. */
  lemma GroupingScenario()
    ensures GroupProducts([Tee, Mug, Cap]) == [Group("Apparel", [Tee]), Group("Other", [Mug, Cap])]
  {
    var ps := [Tee, Mug, Cap];
    ScenarioCategories();
    ScenarioDistinct();
    ScenarioApparel();
    ScenarioOther();
    SectionsOfTwo(ps, "Apparel", "Other");
  }

  lemma SectionsOfTwo(products: seq<Product>, c1: string, c2: string)
    ensures Sections(products, [c1, c2]) == [Group(c1, InCategory(products, c1)), Group(c2, InCategory(products, c2))]
  {
  }

  const Tee := Product("a", "Tee", None, Some("Apparel"), true, None)
  const Mug := Product("b", "Mug", None, None, true, None)
  const Cap := Product("c", "Cap", None, Some(""), true, None)

  lemma ScenarioCategories()
    ensures Categories([Tee, Mug, Cap]) == ["Apparel", "Other", "Other"]
  {
  }

  lemma ScenarioDistinct()
    ensures Distinct(["Apparel", "Other", "Other"]) == ["Apparel", "Other"]
  {
    var s: seq<string> := ["Apparel", "Other", "Other"];
    var two: seq<string> := ["Apparel", "Other"];
    var one: seq<string> := ["Apparel"];
    assert s[..2] == two && two[..1] == one && one[..0] == [];
    assert Distinct(one) == one;
    assert Distinct(two) == two;
  }

  lemma ScenarioApparel()
    ensures InCategory([Tee, Mug, Cap], "Apparel") == [Tee]
  {
    var ps := [Tee, Mug, Cap];
    assert ps[1..] == [Mug, Cap] && [Mug, Cap][1..] == [Cap] && [Cap][1..] == [];
    assert InCategory([Cap], "Apparel") == [];
    assert InCategory([Mug, Cap], "Apparel") == [];
  }

  lemma ScenarioOther()
    ensures InCategory([Tee, Mug, Cap], "Other") == [Mug, Cap]
  {
    var ps := [Tee, Mug, Cap];
    assert ps[1..] == [Mug, Cap] && [Mug, Cap][1..] == [Cap] && [Cap][1..] == [];
    assert InCategory([Cap], "Other") == [Cap];
    assert InCategory([Mug, Cap], "Other") == [Mug, Cap];
  }
}
