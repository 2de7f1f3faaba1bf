/** The element collection of the designer page: update, delete, add text
    and the selected-element lookup. */
module Designer {
  import opened Common
  import opened Types

  /** The ids of a collection, as a set. */
  function Ids(elements: seq<DesignElement>): set<string> {
    set i | 0 <= i < |elements| :: elements[i].id
  }

  /** `elements.findIndex(el => el.id === id)` as an optional index. */
  function IndexOfId(elements: seq<DesignElement>, id: string): (k: Option<nat>)
    ensures k.Some? ==> k.value < |elements| && elements[k.value].id == id
    ensures k.Some? ==> forall j :: 0 <= j < k.value ==> elements[j].id != id
    ensures k.None? <==> id !in Ids(elements)
  {
    if elements == [] then None
    else if elements[0].id == id then Some(0)
    else
      var k := IndexOfId(elements[1..], id);
      assert Ids(elements) == {elements[0].id} + Ids(elements[1..]) by {
        forall s | s in Ids(elements) ensures s in {elements[0].id} + Ids(elements[1..]) {
          var i :| 0 <= i < |elements| && elements[i].id == s;
          if i > 0 { assert elements[1..][i - 1].id == s; }
        }
        forall s | s in Ids(elements[1..]) ensures s in Ids(elements) {
          var i :| 0 <= i < |elements[1..]| && elements[1..][i].id == s;
          assert elements[i + 1].id == s;
        }
      }
      if k.None? then None else Some(k.value + 1)
  }

  /** `elements.find(el => el.id === selectedId) || null`: the first element
      carrying the selected id; nothing when no id is selected. */
  function SelectedElement(elements: seq<DesignElement>, selected: Option<string>): (r: Option<DesignElement>)
    ensures r.Some? <==> selected.Some? && selected.value in Ids(elements)
    ensures r.Some? ==> exists i :: 0 <= i < |elements| && elements[i] == r.value
                          && r.value.id == selected.value
                          && forall j :: 0 <= j < i ==> elements[j].id != selected.value
  {
    if selected.None? then None
    else
      match IndexOfId(elements, selected.value)
      case None => None
      case Some(k) => Some(elements[k])
  }

  /** `handleUpdateElement`: every element with the id gets the update
      spread over it, in place. */
  function UpdateElement(elements: seq<DesignElement>, id: string, p: Patch): (r: seq<DesignElement>)
    ensures |r| == |elements|
    ensures forall i :: 0 <= i < |elements| && elements[i].id == id ==> r[i] == Apply(elements[i], p)
    ensures forall i :: 0 <= i < |elements| && elements[i].id != id ==> r[i] == elements[i]
  {
    if elements == [] then []
    else
      [if elements[0].id == id then Apply(elements[0], p) else elements[0]]
      + UpdateElement(elements[1..], id, p)
  }

  /** `prev.filter(el => el.id !== id)`. */
  function RemoveId(elements: seq<DesignElement>, id: string): (r: seq<DesignElement>)
    ensures |r| <= |elements|
    ensures forall i :: 0 <= i < |r| ==> r[i].id != id
    ensures forall e :: e in r <==> e in elements && e.id != id
  {
    if elements == [] then []
    else if elements[0].id == id then RemoveId(elements[1..], id)
    else [elements[0]] + RemoveId(elements[1..], id)
  }

  /** `handleDeleteElement`: the elements without the id, and a selection
      that is cleared only when it was the deleted id. */
  function DeleteElement(elements: seq<DesignElement>, selected: Option<string>, id: string)
    : (r: (seq<DesignElement>, Option<string>))
    ensures r.0 == RemoveId(elements, id)
    ensures selected == Some(id) ==> r.1.None?
    ensures selected != Some(id) ==> r.1 == selected
  {
    (RemoveId(elements, id), if selected == Some(id) then None else selected)
  }

  /** The text element `handleAddText` creates; its id is the current time
      rendered as text, given here. */
  function NewText(id: string): DesignElement {
    DesignElement(id, TextElement, "New Text", 50.0, 45.0, None, None, Some(24.0), Some("#000000"),
                  Some("Inter"), None, None, None, None, None, None, None, None, None)
  }

  /** `handleAddText`: one text element appended and selected. */
  function AddText(elements: seq<DesignElement>, newId: string): (r: (seq<DesignElement>, Option<string>))
    ensures |r.0| == |elements| + 1 && r.0[..|elements|] == elements
    ensures r.0[|elements|].id == newId && r.0[|elements|].kind == TextElement
    ensures r.0[|elements|].x == 50.0 && r.0[|elements|].y == 45.0
    ensures r.0[|elements|].fontSize == Some(24.0) && r.0[|elements|].color == Some("#000000")
    ensures r.0[|elements|].fontFamily == Some("Inter") && r.0[|elements|].content == "New Text"
    ensures var e := r.0[|elements|];
            && e.width.None? && e.height.None? && e.imageUrl.None? && e.fontWeight.None?
            && e.fontStyle.None? && e.textDecoration.None? && e.textAlign.None? && e.rotation.None?
            && e.isLocked.None? && e.isVisible.None? && e.dpi.None?
    ensures r.1 == Some(newId)
  {
    (elements + [NewText(newId)], Some(newId))
  }

  /** The two text elements the page starts with. */
  const InitialElements: seq<DesignElement> := [
    DesignElement("1", TextElement, "Your Design", 50.0, 40.0, None, None, Some(32.0), Some("#3B82F6"),
                  Some("Inter"), None, None, None, None, None, None, None, None, None),
    DesignElement("2", TextElement, "Here", 50.0, 50.0, None, None, Some(24.0), Some("#000000"),
                  Some("Inter"), None, None, None, None, None, None, None, None, None)
  ]

  lemma InitialElementsShape()
    ensures |InitialElements| == 2 && Ids(InitialElements) == {"1", "2"}
    ensures forall i :: 0 <= i < 2 ==> InitialElements[i].kind == TextElement
  {
    assert InitialElements[0].id == "1" && InitialElements[1].id == "2";
  }

  /** Removing distributes over concatenation, so the survivors keep their
      relative order. */
  lemma {:induction false} RemoveIdAppend(a: seq<DesignElement>, b: seq<DesignElement>, id: string)
    ensures RemoveId(a + b, id) == RemoveId(a, id) + RemoveId(b, id)
  {
    if a == [] {
      assert a + b == b;
    } else {
      assert (a + b)[1..] == a[1..] + b;
      RemoveIdAppend(a[1..], b, id);
    }
  }

  /** Removing an id no element carries changes nothing. */
  lemma {:induction false} RemoveAbsentId(elements: seq<DesignElement>, id: string)
    requires id !in Ids(elements)
    ensures RemoveId(elements, id) == elements
  {
    if elements != [] {
      assert elements[0].id in Ids(elements);
      assert Ids(elements[1..]) <= Ids(elements) by {
        forall s | s in Ids(elements[1..]) ensures s in Ids(elements) {
          var i :| 0 <= i < |elements[1..]| && elements[1..][i].id == s;
          assert elements[i + 1].id == s;
        }
      }
      RemoveAbsentId(elements[1..], id);
    }
  }

  /** Deleting the text just added, with a fresh id, restores the collection
      and clears the selection the addition made. */
  lemma DeleteUndoesAddText(elements: seq<DesignElement>, newId: string)
    requires newId !in Ids(elements)
    ensures var (added, sel) := AddText(elements, newId);
            DeleteElement(added, sel, newId) == (elements, None)
  {
    var t := NewText(newId);
    var added := elements + [t];
    assert AddText(elements, newId) == (added, Some(newId));
    RemoveIdAppend(elements, [t], newId);
    RemoveAbsentId(elements, newId);
    RemoveOwnSingleton(t);
    assert elements + [] == elements;
    assert RemoveId(added, newId) == elements;
    assert DeleteElement(added, Some(newId), newId) == (elements, None);
  }

  lemma RemoveOwnSingleton(e: DesignElement)
    ensures RemoveId([e], e.id) == []
  {
    assert [e][1..] == [];
  }

  /** Deleting is idempotent. */
  lemma {:induction false} RemoveIdIdempotent(elements: seq<DesignElement>, id: string)
    ensures RemoveId(RemoveId(elements, id), id) == RemoveId(elements, id)
  {
    if elements != [] {
      RemoveIdIdempotent(elements[1..], id);
    }
  }

  /** After adding text with a fresh id, the selection shows that element. */
  lemma AddTextSelectsNewElement(elements: seq<DesignElement>, newId: string)
    requires newId !in Ids(elements)
    ensures var (added, sel) := AddText(elements, newId);
            SelectedElement(added, sel) == Some(NewText(newId))
  {
    var added := elements + [NewText(newId)];
    assert added[|elements|].id == newId;
    forall j | 0 <= j < |elements| ensures added[j].id != newId {
      assert added[j] == elements[j];
      assert elements[j].id in Ids(elements);
    }
    var k := IndexOfId(added, Some(newId).value);
    assert k.Some?;
  }

  /** An update that keeps the id is seen through the selection. */
  lemma SelectedAfterUpdate(elements: seq<DesignElement>, id: string, p: Patch)
    requires p.id.None?
    ensures SelectedElement(UpdateElement(elements, id, p), Some(id))
            == (match SelectedElement(elements, Some(id))
                case None => None
                case Some(e) => Some(Apply(e, p)))
  {
    var updated := UpdateElement(elements, id, p);
    forall i | 0 <= i < |elements| ensures updated[i].id == elements[i].id { }
    assert Ids(updated) == Ids(elements) by {
      forall s | s in Ids(updated) ensures s in Ids(elements) {
        var i :| 0 <= i < |updated| && updated[i].id == s;
      }
      forall s | s in Ids(elements) ensures s in Ids(updated) {
        var i :| 0 <= i < |elements| && elements[i].id == s;
        assert updated[i].id == s;
      }
    }
    var k := IndexOfId(elements, id);
    var k' := IndexOfId(updated, id);
    assert k.Some? ==> k'.Some?;
  }
}
