/** Click-to-select in the NPC and PC lists: clicking the selected item
    deselects it, clicking another item moves the selection (and its
    'selected' style) there. */
module Selection {
  import opened Common

  /** A list item element of the page. */
  datatype ItemId = ItemId(n: nat)

  /** The selected item and the items that carry the 'selected' style. */
  datatype SelectState = SelectState(selected: Option<ItemId>, marked: set<ItemId>)

  const NoneSelected: SelectState := SelectState(None, {})

  /** Exactly the selected item is styled as selected. */
  predicate Coherent(s: SelectState) {
    s.marked == AsSet(s.selected)
  }

  function Toggle(s: SelectState, item: ItemId): (s': SelectState)
    ensures s'.selected == Some(item) <==> s.selected != Some(item)
    ensures s'.selected == None || s'.selected == Some(item)
    ensures Coherent(s) ==> Coherent(s') && |s'.marked| <= 1
    ensures s.selected.Some? && s.selected != Some(item) ==> s.selected.value !in s'.marked
  {
    if s.selected == Some(item) then
      SelectState(None, s.marked - {item})
    else
      var unmarked := if s.selected.Some? then s.marked - {s.selected.value} else s.marked;
      SelectState(Some(item), unmarked + {item})
  }

  /** Clicking an unselected item twice leaves nothing selected or styled. */
  lemma ToggleTwiceDeselects(s: SelectState, item: ItemId)
    requires Coherent(s) && s.selected != Some(item)
    ensures Toggle(Toggle(s, item), item).selected == None
    ensures Toggle(Toggle(s, item), item).marked == {}
  {
  }

  /** After any sequence of clicks, at most one item is selected and it is the only one styled. */
  lemma {:induction false} SelectionExclusive(s: SelectState, clicks: seq<ItemId>)
    requires Coherent(s)
    ensures Coherent(Clicks(s, clicks)) && |Clicks(s, clicks).marked| <= 1
  {
    if clicks != [] {
      SelectionExclusive(s, clicks[..|clicks| - 1]);
    }
  }

  /** The state after clicking `clicks` in order. */
  function Clicks(s: SelectState, clicks: seq<ItemId>): SelectState {
    if clicks == [] then s else Toggle(Clicks(s, clicks[..|clicks| - 1]), clicks[|clicks| - 1])
  }
}
