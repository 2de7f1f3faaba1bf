/** The layers panel: the element list shown topmost first, each row with
    its visibility and lock toggles, and attribute edits forwarded for the
    selected element. */
module Layers {
  import opened Common
  import opened Types
  import Designer
  import Canvas

  /** `[...s].reverse()`. */
  function Reverse<T>(s: seq<T>): (r: seq<T>)
    ensures |r| == |s|
    ensures forall i :: 0 <= i < |s| ==> r[i] == s[|s| - 1 - i]
  {
    if s == [] then [] else Reverse(s[1..]) + [s[0]]
  }

  /** Reversing twice gives the list back. */
  lemma ReverseInvolution<T>(s: seq<T>)
    ensures Reverse(Reverse(s)) == s
  {
  }

  /** A layer row: visibility is on unless explicitly false, the lock is on
      only when explicitly true. */
  predicate EffectiveVisible(e: DesignElement) {
    e.isVisible != Some(false)
  }

  predicate EffectiveLocked(e: DesignElement) {
    e.isLocked == Some(true)
  }

  datatype LayerRow = LayerRow(id: string, kind: ElementKind, isSelected: bool, isVisible: bool, isLocked: bool)

  function RowOf(e: DesignElement, selected: Option<string>): LayerRow {
    LayerRow(e.id, e.kind, selected == Some(e.id), EffectiveVisible(e), EffectiveLocked(e))
  }

  /** The rows, last element (drawn on top) first. */
  function Rows(elements: seq<DesignElement>, selected: Option<string>): (r: seq<LayerRow>)
    ensures |r| == |elements|
    ensures forall i :: 0 <= i < |r| ==> r[i] == RowOf(elements[|elements| - 1 - i], selected)
  {
    var rev := Reverse(elements);
    seq(|rev|, i requires 0 <= i < |rev| => RowOf(rev[i], selected))
  }

  /** At most the rows of one id are highlighted, and exactly those. */
  lemma RowsHighlightSelected(elements: seq<DesignElement>, id: string)
    ensures forall i :: 0 <= i < |elements| ==>
              (Rows(elements, Some(id))[i].isSelected <==> elements[|elements| - 1 - i].id == id)
    ensures forall i :: 0 <= i < |elements| ==> !Rows(elements, None)[i].isSelected
  {
  }

  /** The eye button: visibility set to the opposite of what is shown. */
  function ToggleVisible(e: DesignElement): (p: Patch)
    ensures p == NoChange.(isVisible := p.isVisible) && p.isVisible.Some?
    ensures EffectiveVisible(Apply(e, p)) == !EffectiveVisible(e)
  {
    NoChange.(isVisible := Some(!EffectiveVisible(e)))
  }

  /** The lock button: the lock set to the opposite of what is shown. */
  function ToggleLocked(e: DesignElement): (p: Patch)
    ensures p == NoChange.(isLocked := p.isLocked) && p.isLocked.Some?
    ensures EffectiveLocked(Apply(e, p)) == !EffectiveLocked(e)
  {
    NoChange.(isLocked := Some(!EffectiveLocked(e)))
  }

  /** Two presses of a toggle restore what is shown, now stored explicitly. */
  lemma ToggleTwice(e: DesignElement)
    ensures var v := Apply(Apply(e, ToggleVisible(e)), ToggleVisible(Apply(e, ToggleVisible(e))));
            EffectiveVisible(v) == EffectiveVisible(e) && v.isVisible == Some(EffectiveVisible(e))
    ensures var l := Apply(Apply(e, ToggleLocked(e)), ToggleLocked(Apply(e, ToggleLocked(e))));
            EffectiveLocked(l) == EffectiveLocked(e) && l.isLocked == Some(EffectiveLocked(e))
  {
  }

  /** A press of a row's eye button goes through the panel's
      `onUpdateElement` prop, taken to be `Designer.UpdateElement`, with
      that row's id: every element carrying it flips. */
  lemma ToggleVisibleOnRow(elements: seq<DesignElement>, k: nat)
    requires k < |elements|
    ensures var e := elements[k];
            var r := Designer.UpdateElement(elements, e.id, ToggleVisible(e));
            && EffectiveVisible(r[k]) == !EffectiveVisible(e)
            && forall i :: 0 <= i < |elements| && elements[i].id != e.id ==> r[i] == elements[i]
  {
  }

  /** `handleUpdateSelected`: attribute edits reach the selected element,
      through the panel's `onUpdateElement` prop taken to be
      `Designer.UpdateElement`, only when a selection exists. */
  function UpdateSelected(elements: seq<DesignElement>, selected: Option<string>, p: Patch)
    : (r: seq<DesignElement>)
    ensures |r| == |elements|
    ensures !Canvas.Selected(selected) ==> r == elements
    ensures Canvas.Selected(selected) ==>
              forall i :: 0 <= i < |elements| ==>
                r[i] == (if elements[i].id == selected.value then Apply(elements[i], p) else elements[i])
  {
    if Canvas.Selected(selected) then Designer.UpdateElement(elements, selected.value, p) else elements
  }

  /** An edit that keeps the id shows up in the panel's selected element. */
  lemma UpdateSelectedIsShown(elements: seq<DesignElement>, id: string, p: Patch)
    requires id != "" && p.id.None?
    ensures Designer.SelectedElement(UpdateSelected(elements, Some(id), p), Some(id))
            == (match Designer.SelectedElement(elements, Some(id))
                case None => None
                case Some(e) => Some(Apply(e, p)))
  {
    Designer.SelectedAfterUpdate(elements, id, p);
  }
}
