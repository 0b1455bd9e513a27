/** Pointer hover over the dice canvas: which die mesh is hovered and which
    meshes carry the highlight (enlarged scale and grey emissive tint). */
module Hover {
  import opened Common

  datatype HoverState = HoverState(hoveredDie: Option<ObjId>, highlighted: set<ObjId>)

  /** The nearest object under the pointer, as the ray cast reports it. */
  datatype Pick = NoHit | Hit(obj: ObjId)

  const Unhovered: HoverState := HoverState(None, {})

  /** Exactly the hovered mesh is highlighted. */
  predicate Coherent(h: HoverState) {
    h.highlighted == AsSet(h.hoveredDie)
  }

  function Highlight(h: HoverState, mesh: ObjId): HoverState {
    h.(highlighted := h.highlighted + {mesh})
  }

  function Unhighlight(h: HoverState, mesh: ObjId): HoverState {
    h.(highlighted := h.highlighted - {mesh})
  }

  /** The hover handler. `dieMeshes` are the meshes of the registered dice: a
      hit on any other object is not a die. */
  function OnHover(h: HoverState, dieMeshes: set<ObjId>, pick: Pick): (h': HoverState)
    ensures Coherent(h) ==> Coherent(h') && |h'.highlighted| <= 1
    ensures pick.NoHit? ==> h'.hoveredDie == None
    ensures pick.NoHit? && Coherent(h) ==> h'.highlighted == {}
    ensures pick.Hit? && pick.obj in dieMeshes && h.hoveredDie != Some(pick.obj) ==>
      h'.hoveredDie == Some(pick.obj) && pick.obj in h'.highlighted &&
      (h.hoveredDie.Some? ==> h.hoveredDie.value !in h'.highlighted)
    ensures pick.Hit? && (pick.obj !in dieMeshes || h.hoveredDie == Some(pick.obj)) ==> h' == h
  {
    match pick
    case Hit(obj) =>
      if obj in dieMeshes && h.hoveredDie != Some(obj) then
        var h1 := if h.hoveredDie.Some? then Unhighlight(h, h.hoveredDie.value) else h;
        Highlight(h1.(hoveredDie := Some(obj)), obj)
      else h
    case NoHit =>
      var h1 := if h.hoveredDie.Some? then Unhighlight(h, h.hoveredDie.value) else h;
      h1.(hoveredDie := None)
  }

  /** Moving the pointer again to the same place changes nothing more. */
  lemma OnHoverIdempotent(h: HoverState, dieMeshes: set<ObjId>, pick: Pick)
    ensures OnHover(OnHover(h, dieMeshes, pick), dieMeshes, pick) == OnHover(h, dieMeshes, pick)
  {
  }

  /** Along any sequence of pointer moves, with the registry changing in
      between, at most one mesh is highlighted and it is the hovered one. */
  lemma {:induction false} HoverExclusive(h: HoverState, registries: seq<set<ObjId>>, picks: seq<Pick>)
    requires Coherent(h) && |registries| == |picks|
    ensures var h' := Replay(h, registries, picks); Coherent(h') && |h'.highlighted| <= 1
  {
    if picks != [] {
      var n := |picks| - 1;
      HoverExclusive(h, registries[..n], picks[..n]);
    }
  }

  /** The state after handling `picks` in order, the i-th against the dice registered at that time. */
  function Replay(h: HoverState, registries: seq<set<ObjId>>, picks: seq<Pick>): HoverState
    requires |registries| == |picks|
  {
    if picks == [] then h
    else
      var n := |picks| - 1;
      OnHover(Replay(h, registries[..n], picks[..n]), registries[n], picks[n])
  }
}
