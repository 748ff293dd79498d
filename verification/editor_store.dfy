/**
 * The editor store (src/stores/editorStore.ts): the players and lines being edited, one
 * selected element with its kind and segment path, the current tool and a pending
 * route-drawing request. Every action replaces some of these fields.
 */
module EditorStore {
  import opened Basics
  import opened PlayTypes

  datatype ElementKind = PlayerKind | LineKind

  class Store {
    var players: seq<Player>
    var lines: seq<Line>
    var selectedElementId: Option<string>
    var selectedElementType: Option<ElementKind>
    var selectedSegmentPath: Option<seq<nat>>
    var currentTool: Tool
    var startRouteDrawing: Option<RouteDrawingState>

    /** The initial state: nothing on the field, nothing selected, the select tool. */
    constructor()
      ensures players == [] && lines == []
      ensures selectedElementId == None && selectedElementType == None && selectedSegmentPath == None
      ensures currentTool == SelectTool && startRouteDrawing == None
    {
      players := [];
      lines := [];
      selectedElementId := None;
      selectedElementType := None;
      selectedSegmentPath := None;
      currentTool := SelectTool;
      startRouteDrawing := None;
    }

    /** `getSelectedPlayer`: the selected player when the selection is a player id that is on the field. */
    function SelectedPlayer(): (r: Option<Player>)
      reads this
      ensures r.Some? <==>
                selectedElementType == Some(PlayerKind) && Truthy(selectedElementId)
                && HasPlayer(players, selectedElementId.value)
      ensures r.Some? ==> r.value in players && r.value.id == selectedElementId.value
    {
      if selectedElementType != Some(PlayerKind) || !Truthy(selectedElementId) then None
      else FindPlayer(players, selectedElementId.value)
    }

    /** `getSelectedLine`: the selected line when the selection is a line id that is on the field. */
    function SelectedLine(): (r: Option<Line>)
      reads this
      ensures r.Some? <==>
                selectedElementType == Some(LineKind) && Truthy(selectedElementId)
                && HasLine(lines, selectedElementId.value)
      ensures r.Some? ==> r.value in lines && r.value.id == selectedElementId.value
    {
      if selectedElementType != Some(LineKind) || !Truthy(selectedElementId) then None
      else FindLine(lines, selectedElementId.value)
    }

    /** `addPlayer`: appended at the end, stored as given. */
    method AddPlayer(p: Player)
      modifies this
      ensures players == old(players) + [p]
      ensures lines == old(lines) && selectedElementId == old(selectedElementId)
      ensures selectedElementType == old(selectedElementType) && selectedSegmentPath == old(selectedSegmentPath)
      ensures currentTool == old(currentTool) && startRouteDrawing == old(startRouteDrawing)
    {
      players := players + [p];
    }

    /** `updatePlayer`: the updates are merged into the players with that id only. */
    method UpdatePlayer(id: string, u: PlayerPatch)
      modifies this
      ensures players == UpdatePlayers(old(players), id, u)
      ensures lines == old(lines) && selectedElementId == old(selectedElementId)
      ensures selectedElementType == old(selectedElementType) && selectedSegmentPath == old(selectedSegmentPath)
      ensures currentTool == old(currentTool) && startRouteDrawing == old(startRouteDrawing)
    {
      players := UpdatePlayers(players, id, u);
    }

    /**
     * `deletePlayer`: the player goes together with its lines; the selected id and kind
     * are cleared exactly when the selected id is the deleted one, and the segment path
     * is left as it was.
     */
    method DeletePlayer(id: string)
      modifies this
      ensures players == WithoutPlayer(old(players), id)
      ensures lines == WithoutLinesOf(old(lines), id)
      ensures selectedElementId == if old(selectedElementId) == Some(id) then None else old(selectedElementId)
      ensures selectedElementType == if old(selectedElementId) == Some(id) then None else old(selectedElementType)
      ensures selectedSegmentPath == old(selectedSegmentPath)
      ensures currentTool == old(currentTool) && startRouteDrawing == old(startRouteDrawing)
    {
      players := WithoutPlayer(players, id);
      lines := WithoutLinesOf(lines, id);
      if selectedElementId == Some(id) {
        selectedElementId := None;
        selectedElementType := None;
      }
    }

    /** `setPlayers`: the list is replaced. */
    method SetPlayers(ps: seq<Player>)
      modifies this
      ensures players == ps
      ensures lines == old(lines) && selectedElementId == old(selectedElementId)
      ensures selectedElementType == old(selectedElementType) && selectedSegmentPath == old(selectedSegmentPath)
      ensures currentTool == old(currentTool) && startRouteDrawing == old(startRouteDrawing)
    {
      players := ps;
    }

    /** `addLine`: appended at the end, stored as given. */
    method AddLine(l: Line)
      modifies this
      ensures lines == old(lines) + [l]
      ensures players == old(players) && selectedElementId == old(selectedElementId)
      ensures selectedElementType == old(selectedElementType) && selectedSegmentPath == old(selectedSegmentPath)
      ensures currentTool == old(currentTool) && startRouteDrawing == old(startRouteDrawing)
    {
      lines := lines + [l];
    }

    /** `updateLine`: the updates are merged into the lines with that id only. */
    method UpdateLine(id: string, u: LinePatch)
      modifies this
      ensures lines == UpdateLines(old(lines), id, u)
      ensures players == old(players) && selectedElementId == old(selectedElementId)
      ensures selectedElementType == old(selectedElementType) && selectedSegmentPath == old(selectedSegmentPath)
      ensures currentTool == old(currentTool) && startRouteDrawing == old(startRouteDrawing)
    {
      lines := UpdateLines(lines, id, u);
    }

    /** `deleteLine`: the lines with that id go; the selection is cleared exactly when it was that id. */
    method DeleteLine(id: string)
      modifies this
      ensures lines == WithoutLine(old(lines), id)
      ensures players == old(players)
      ensures selectedElementId == if old(selectedElementId) == Some(id) then None else old(selectedElementId)
      ensures selectedElementType == if old(selectedElementId) == Some(id) then None else old(selectedElementType)
      ensures selectedSegmentPath == old(selectedSegmentPath)
      ensures currentTool == old(currentTool) && startRouteDrawing == old(startRouteDrawing)
    {
      lines := WithoutLine(lines, id);
      if selectedElementId == Some(id) {
        selectedElementId := None;
        selectedElementType := None;
      }
    }

    /** `setLines`: the list is replaced. */
    method SetLines(ls: seq<Line>)
      modifies this
      ensures lines == ls
      ensures players == old(players) && selectedElementId == old(selectedElementId)
      ensures selectedElementType == old(selectedElementType) && selectedSegmentPath == old(selectedSegmentPath)
      ensures currentTool == old(currentTool) && startRouteDrawing == old(startRouteDrawing)
    {
      lines := ls;
    }

    /** `selectElement`: id, kind and segment path are set together. */
    method SelectElement(id: Option<string>, kind: Option<ElementKind>, segmentPath: Option<seq<nat>>)
      modifies this
      ensures selectedElementId == id && selectedElementType == kind && selectedSegmentPath == segmentPath
      ensures players == old(players) && lines == old(lines)
      ensures currentTool == old(currentTool) && startRouteDrawing == old(startRouteDrawing)
    {
      selectedElementId := id;
      selectedElementType := kind;
      selectedSegmentPath := segmentPath;
    }

    /** `clearSelection`: id, kind and segment path are all cleared. */
    method ClearSelection()
      modifies this
      ensures selectedElementId == None && selectedElementType == None && selectedSegmentPath == None
      ensures SelectedPlayer() == None && SelectedLine() == None
      ensures players == old(players) && lines == old(lines)
      ensures currentTool == old(currentTool) && startRouteDrawing == old(startRouteDrawing)
    {
      selectedElementId := None;
      selectedElementType := None;
      selectedSegmentPath := None;
    }

    /** `setTool`. */
    method SetTool(tool: Tool)
      modifies this
      ensures currentTool == tool
      ensures players == old(players) && lines == old(lines) && selectedElementId == old(selectedElementId)
      ensures selectedElementType == old(selectedElementType) && selectedSegmentPath == old(selectedSegmentPath)
      ensures startRouteDrawing == old(startRouteDrawing)
    {
      currentTool := tool;
    }

    /** `startDrawingRoute`: the request is stored for the field to act on. */
    method StartDrawingRoute(request: RouteDrawingState)
      modifies this
      ensures startRouteDrawing == Some(request)
      ensures players == old(players) && lines == old(lines) && selectedElementId == old(selectedElementId)
      ensures selectedElementType == old(selectedElementType) && selectedSegmentPath == old(selectedSegmentPath)
      ensures currentTool == old(currentTool)
    {
      startRouteDrawing := Some(request);
    }

    /** `stopDrawingRoute`: the request is dropped. */
    method StopDrawingRoute()
      modifies this
      ensures startRouteDrawing == None
      ensures players == old(players) && lines == old(lines) && selectedElementId == old(selectedElementId)
      ensures selectedElementType == old(selectedElementType) && selectedSegmentPath == old(selectedSegmentPath)
      ensures currentTool == old(currentTool)
    {
      startRouteDrawing := None;
    }

    /**
     * `deleteSelected`: nothing happens without a (non-empty) selected id; a selected
     * player is deleted with its lines and a selected line alone, and in both cases
     * the selected id and kind are cleared; a selected id without a kind stays.
     */
    method DeleteSelected()
      modifies this
      ensures !Truthy(old(selectedElementId)) || old(selectedElementType) == None ==>
                && players == old(players) && lines == old(lines)
                && selectedElementId == old(selectedElementId) && selectedElementType == old(selectedElementType)
      ensures Truthy(old(selectedElementId)) && old(selectedElementType) == Some(PlayerKind) ==>
                && players == WithoutPlayer(old(players), old(selectedElementId).value)
                && lines == WithoutLinesOf(old(lines), old(selectedElementId).value)
                && selectedElementId == None && selectedElementType == None
      ensures Truthy(old(selectedElementId)) && old(selectedElementType) == Some(LineKind) ==>
                && players == old(players)
                && lines == WithoutLine(old(lines), old(selectedElementId).value)
                && selectedElementId == None && selectedElementType == None
      ensures Truthy(old(selectedElementId)) && old(selectedElementType).Some? ==>
                SelectedPlayer() == None && SelectedLine() == None
      ensures selectedSegmentPath == old(selectedSegmentPath)
      ensures currentTool == old(currentTool) && startRouteDrawing == old(startRouteDrawing)
    {
      if !Truthy(selectedElementId) {
        return;
      }
      var id := selectedElementId.value;
      if selectedElementType == Some(PlayerKind) {
        DeletePlayer(id);
      } else if selectedElementType == Some(LineKind) {
        DeleteLine(id);
      }
    }

    /** `deleteAll`: the field and the selection are emptied; the tool and any route request are kept. */
    method DeleteAll()
      modifies this
      ensures players == [] && lines == []
      ensures selectedElementId == None && selectedElementType == None && selectedSegmentPath == None
      ensures currentTool == old(currentTool) && startRouteDrawing == old(startRouteDrawing)
    {
      players := [];
      lines := [];
      selectedElementId := None;
      selectedElementType := None;
      selectedSegmentPath := None;
    }
  }
}
