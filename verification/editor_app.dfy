/**
 * The arrow editor's component state (react-router/src/Editor.tsx) and its event
 * handlers, as a class whose fields the handlers update.
 */
module EditorApp {
  import opened Basics
  import opened EditorGraph
  import opened EditorEdits

  datatype Mode = Normal | AddPlayer | AddStraight | AddCurve

  /**
   * `collectDescendantIds` (and `collectDescendantArrowIds`, which filters the same
   * children, since only arrows carry a parent id): for each direct child in list order,
   * its id followed by its own descendants.
   */
  method CollectDescendantIds(es: seq<Element>, id: string) returns (ids: seq<string>)
    requires WellFormed(es)
    ensures ids == DescendantArrowIds(es, id)
    decreases |es| - IndexOf(es, id)
  {
    var children := ChildArrows(es, id);
    ids := [];
    for k := 0 to |children|
      invariant ids == DescendantsThrough(es, id, children[..k])
    {
      var child := children[k];
      FindMember(es, child);
      var below := CollectDescendantIds(es, child.id);
      DescendantsThroughStep(es, id, children, k);
      ids := ids + [child.id] + below;
    }
    assert children[..|children|] == children;
  }

  class Editor {
    var elements: seq<Element>
    var mode: Mode
    var nextId: nat
    var arrowStartId: Option<string>
    var selectedId: Option<string>

    /** The list is a forest hung off players, and the counter is above every `P<n>` in it. */
    ghost predicate Valid()
      reads this
    {
      WellFormed(elements) && NumbersBelow(elements, nextId)
    }

    constructor()
      ensures Valid()
      ensures elements == [] && mode == Normal && nextId == 1
      ensures arrowStartId == None && selectedId == None
    {
      elements := [];
      mode := Normal;
      nextId := 1;
      arrowStartId := None;
      selectedId := None;
    }

    /** The loaded players replace the list and the counter is seeded one past their largest `P<n>`. */
    method LoadPlayers(players: seq<Element>)
      requires WellFormed(players) && forall p :: p in players ==> p.Player?
      modifies this
      ensures Valid()
      ensures elements == players && nextId == NextIdFrom(players)
      ensures mode == old(mode) && arrowStartId == old(arrowStartId) && selectedId == old(selectedId)
    {
      NextIdAboveLoaded(players);
      elements := players;
      nextId := NextIdFrom(players);
    }

    /** The mode radio buttons: normal or add-player. The arrow start is left as it was. */
    method ChooseMode(addPlayer: bool)
      modifies this
      ensures mode == if addPlayer then AddPlayer else Normal
      ensures elements == old(elements) && nextId == old(nextId)
      ensures arrowStartId == old(arrowStartId) && selectedId == old(selectedId)
    {
      mode := if addPlayer then AddPlayer else Normal;
    }

    /** The arrow buttons: with a selection, enter add-straight or add-curve mode starting from it. */
    method BeginArrow(curve: bool)
      modifies this
      ensures Truthy(old(selectedId)) ==>
                mode == (if curve then AddCurve else AddStraight) && arrowStartId == old(selectedId)
      ensures !Truthy(old(selectedId)) ==> mode == old(mode) && arrowStartId == old(arrowStartId)
      ensures elements == old(elements) && nextId == old(nextId) && selectedId == old(selectedId)
    {
      if Truthy(selectedId) {
        mode := if curve then AddCurve else AddStraight;
        arrowStartId := selectedId;
      }
    }

    /** `handlePlayerClick` / `handleArrowClick`: select in normal mode, ignore in the add modes. */
    method ClickElement(id: string)
      modifies this
      ensures selectedId == if old(mode) == Normal then Some(id) else old(selectedId)
      ensures elements == old(elements) && mode == old(mode) && nextId == old(nextId)
      ensures arrowStartId == old(arrowStartId)
    {
      if mode == Normal {
        selectedId := Some(id);
      }
    }

    /** The add-player click: `P<nextId>` is appended at the pointer and the counter moves on. */
    method PlacePlayer(pointer: Point)
      requires Valid()
      modifies this
      ensures Valid()
      ensures var id := PlayerIdFor(old(nextId));
              && id !in Ids(old(elements))
              && elements == old(elements) + [Player(id, pointer, id)]
              && nextId == old(nextId) + 1
      ensures mode == old(mode) && arrowStartId == old(arrowStartId) && selectedId == old(selectedId)
    {
      var id := PlayerIdFor(nextId);
      AddPlayerKeepsNumbering(elements, nextId, pointer);
      elements := elements + [Player(id, pointer, id)];
      nextId := nextId + 1;
    }

    /**
     * An add-arrow click from the element `s`: an arrow ending at the pointer is appended;
     * a straight arrow becomes the start of the next one, a curve ends the mode selected.
     */
    method PlaceArrow(s: string, pointer: Point, id: string, curve: bool)
      requires Valid() && s in Ids(elements)
      requires id !in Ids(elements) && !IsNumberedPlayerId(id)
      modifies this
      ensures Valid()
      ensures && elements == old(elements) + [NewArrow(old(elements), s, pointer, id, curve)]
              && Anchor(elements, id) == pointer
              && IsTerminal(elements, id)
              && (!curve ==> mode == old(mode) && arrowStartId == Some(id) && selectedId == old(selectedId))
              && (curve ==> mode == Normal && arrowStartId == None && selectedId == Some(id))
      ensures nextId == old(nextId)
    {
      if !curve {
        arrowStartId := Some(id);
      } else {
        mode := Normal;
        selectedId := Some(id);
        arrowStartId := None;
      }
      elements := elements + [NewArrow(elements, s, pointer, id, curve)];
      AddArrowKeepsNumbering(old(elements), nextId, s, pointer, id, curve);
    }

    /**
     * `handleStageClick` at `pointer`; `now` is the clock reading that names a new arrow.
     * Add-player appends `P<nextId>`; the arrow modes append an arrow from the start
     * element ending at the pointer (a straight one keeps chaining from itself, a curve
     * returns to normal mode selected); any other click clears the selection.
     */
    method StageClick(pointer: Point, now: nat)
      requires Valid()
      requires (mode == AddStraight || mode == AddCurve) && Truthy(arrowStartId) ==> ArrowIdFor(now) !in Ids(elements)
      modifies this
      ensures Valid()
      ensures old(mode) == AddPlayer ==>
                var id := PlayerIdFor(old(nextId));
                && id !in Ids(old(elements))
                && elements == old(elements) + [Player(id, pointer, id)]
                && nextId == old(nextId) + 1
                && mode == old(mode) && arrowStartId == old(arrowStartId) && selectedId == old(selectedId)
      ensures (old(mode) == AddStraight || old(mode) == AddCurve) && Truthy(old(arrowStartId)) ==>
                var s := old(arrowStartId).value;
                var id := ArrowIdFor(now);
                if s !in Ids(old(elements)) then
                  && elements == old(elements) && nextId == old(nextId) && mode == old(mode)
                  && arrowStartId == old(arrowStartId) && selectedId == old(selectedId)
                else
                  && elements == old(elements) + [NewArrow(old(elements), s, pointer, id, old(mode) == AddCurve)]
                  && Anchor(elements, id) == pointer
                  && IsTerminal(elements, id)
                  && nextId == old(nextId)
                  && (old(mode) == AddStraight ==>
                        mode == AddStraight && arrowStartId == Some(id) && selectedId == old(selectedId))
                  && (old(mode) == AddCurve ==>
                        mode == Normal && arrowStartId == None && selectedId == Some(id))
      ensures old(mode) == Normal || (old(mode) != AddPlayer && !Truthy(old(arrowStartId))) ==>
                && elements == old(elements) && nextId == old(nextId) && mode == old(mode)
                && arrowStartId == old(arrowStartId) && selectedId == None
    {
      if mode == AddPlayer {
        PlacePlayer(pointer);
      } else if (mode == AddStraight || mode == AddCurve) && Truthy(arrowStartId) {
        var s := arrowStartId.value;
        if Find(elements, s).None? {
          return;
        }
        ArrowIdNotNumbered(now);
        PlaceArrow(s, pointer, ArrowIdFor(now), mode == AddCurve);
      } else {
        selectedId := None;
      }
    }

    /**
     * `handleDeleteElement`: the selected element goes together with every arrow hung
     * below it, and the selection is cleared; nothing happens without a selection or when
     * the selected id is not in the list.
     */
    method DeleteSelected()
      requires Valid()
      modifies this
      ensures Valid()
      ensures Truthy(old(selectedId)) && old(selectedId).value in Ids(old(elements)) ==>
                var sel := old(selectedId).value;
                && elements == RemoveIds(old(elements), [sel] + DescendantArrowIds(old(elements), sel))
                && selectedId == None
      ensures !(Truthy(old(selectedId)) && old(selectedId).value in Ids(old(elements))) ==>
                elements == old(elements) && selectedId == old(selectedId)
      ensures mode == old(mode) && nextId == old(nextId) && arrowStartId == old(arrowStartId)
    {
      if !Truthy(selectedId) {
        return;
      }
      var sel := selectedId.value;
      if Find(elements, sel).None? {
        return;
      }
      var below := CollectDescendantIds(elements, sel);
      DeleteSubtree(elements, sel);
      elements := RemoveIds(elements, [sel] + below);
      selectedId := None;
    }

    /** `handlePlayerDragMove`; a player is not draggable in add-player mode. */
    method DragPlayer(id: string, pos: Point)
      requires Valid()
      modifies this
      ensures Valid()
      ensures elements == if old(mode) == AddPlayer then old(elements) else MovePlayer(old(elements), id, pos)
      ensures mode == old(mode) && nextId == old(nextId)
      ensures arrowStartId == old(arrowStartId) && selectedId == old(selectedId)
    {
      if mode != AddPlayer {
        var moved := MovePlayer(elements, id, pos);
        assert SameLinks(elements, moved);
        SameLinksWellFormed(elements, moved, nextId);
        elements := moved;
      }
    }

    /** Dragging the end handle of arrow `id` to `pointer`: its offset becomes `pointer - from`. */
    method DragArrowEnd(id: string, pointer: Point)
      requires Valid() && IsArrowId(elements, id)
      modifies this
      ensures Valid()
      ensures elements == SetOffset(old(elements), id, pointer.Minus(Anchor(old(elements), Find(old(elements), id).value.parentId)))
      ensures Anchor(elements, id) == pointer
      ensures mode == old(mode) && nextId == old(nextId)
      ensures arrowStartId == old(arrowStartId) && selectedId == old(selectedId)
    {
      var a := Find(elements, id).value;
      elements := SetOffset(elements, id, pointer.Minus(Anchor(elements, a.parentId)));
      DragEndMovesSubtree(old(elements), id, pointer, id);
      SetOffsetShifts(old(elements), id, pointer);
      SameLinksWellFormed(old(elements), elements, nextId);
    }

    /** Dragging the control handle of curve `id` to `pointer`: its control point becomes `pointer - from`. */
    method DragControlPoint(id: string, pointer: Point)
      requires Valid() && IsArrowId(elements, id) && Find(elements, id).value.kind.Curve?
      modifies this
      ensures Valid()
      ensures elements == SetControl(old(elements), id, pointer.Minus(Anchor(old(elements), Find(old(elements), id).value.parentId)))
      ensures IsArrowId(elements, id) && Find(elements, id).value.kind.Curve?
      ensures ControlHandle(elements, Find(elements, id).value) == pointer
      ensures mode == old(mode) && nextId == old(nextId)
      ensures arrowStartId == old(arrowStartId) && selectedId == old(selectedId)
    {
      var a := Find(elements, id).value;
      var cp := pointer.Minus(Anchor(elements, a.parentId));
      elements := SetControl(elements, id, cp);
      DragControlKeepsEnds(old(elements), id, pointer, id);
      SetControlShifts(old(elements), id, cp);
      SameLinksWellFormed(old(elements), elements, nextId);
    }
  }
}
