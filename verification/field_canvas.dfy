/**
 * The field component's state (src/components/Field.tsx) and the handlers that change
 * it: changing a segment's type, starting a route or a branch, pressing, moving and
 * releasing the mouse, and the Delete key.
 */
module FieldCanvas {
  import opened Basics
  import opened PlayTypes
  import opened FieldGeometry
  import opened FieldRoutes
  import opened FieldHit

  /** `player-${Date.now()}`, with the clock reading as a parameter. */
  function NewPlayerId(now: nat): string
  {
    "player-" + DecimalString(now)
  }

  /** `line-${Date.now()}`. */
  function NewLineId(now: nat): string
  {
    "line-" + DecimalString(now)
  }

  /** A new route or branch: a single point `gutLength` above `from`, in the requested style, with no branches. */
  function GutSegment(from: Point, gutLength: real, t: LineType): LineSegment
  {
    LineSegment([Point(from.x, from.y - gutLength)], t, [])
  }

  /** The patch a player drag applies: a new position and nothing else. */
  function MovedTo(p: Point): PlayerPatch
  {
    PlayerPatch(None, Some(p.x), Some(p.y), None, None, None, None)
  }

  // ---------------------------------------------------------------------------
  // The four updates of a line's segments

  function TypeChanged(ls: seq<Line>, lineId: string, path: seq<nat>, t: LineType): seq<Line>
  {
    WithSegmentsOf(ls, lineId, EditSegment(path, SetType(t)))
  }

  function BranchAdded(ls: seq<Line>, lineId: string, path: seq<nat>, b: LineSegment): seq<Line>
  {
    WithSegmentsOf(ls, lineId, EditSegment(path, AppendBranch(b)))
  }

  function LineMoved(ls: seq<Line>, lineId: string, d: Point): seq<Line>
  {
    WithSegmentsOf(ls, lineId, MoveBy(d))
  }

  function PointMoved(ls: seq<Line>, lineId: string, k: nat, p: Point): seq<Line>
  {
    WithSegmentsOf(ls, lineId, MovePoint(k, p))
  }

  /**
   * `changeSegmentType`: other lines are kept; in a line with id `lineId` a path that
   * names no segment changes nothing, and otherwise every path names a segment exactly
   * when it did before and only the segment at `path` shows a different type.
   */
  lemma ChangeSegmentTypeOnlyThere(ls: seq<Line>, lineId: string, path: seq<nat>, t: LineType, i: nat, q: seq<nat>)
    requires i < |ls|
    ensures var r := TypeChanged(ls, lineId, path, t);
            && |r| == |ls|
            && (ls[i].id != lineId || SegmentAt(ls[i].segments, path).None? ==> r[i] == ls[i])
            && (ls[i].id == lineId && SegmentAt(ls[i].segments, path).Some? ==>
                  && r[i].id == ls[i].id && r[i].playerId == ls[i].playerId
                  && SegmentAt(r[i].segments, q).Some? == SegmentAt(ls[i].segments, q).Some?
                  && (SegmentAt(ls[i].segments, q).Some? ==>
                        var before := SegmentAt(ls[i].segments, q).value;
                        Node(SegmentAt(r[i].segments, q).value) ==
                        Node(before).(lineType := if q == path then t else before.lineType)))
  {
    WithSegmentsOfAt(ls, lineId, EditSegment(path, SetType(t)));
    if ls[i].id == lineId {
      if SegmentAt(ls[i].segments, path).Some? {
        ChangeTypeOnlyAt(ls[i].segments, path, t, q);
      } else {
        EditAtUnresolved(ls[i].segments, path, SetType(t));
      }
    }
  }

  /**
   * Adding a branch from the end of the segment at `path` of line `lineId`: in the first
   * line with that id the new path `path + [n]`, `n` the old branch count, names the new
   * branch; every line with another id is kept.
   */
  lemma AddBranchSelectsNewBranch(ls: seq<Line>, lineId: string, path: seq<nat>, b: LineSegment)
    requires HasLine(ls, lineId)
    requires SegmentAt(FindLine(ls, lineId).value.segments, path).Some?
    ensures var r := BranchAdded(ls, lineId, path, b);
            var n := |SegmentAt(FindLine(ls, lineId).value.segments, path).value.branches|;
            && HasLine(r, lineId)
            && SegmentAt(FindLine(r, lineId).value.segments, path + [n]) == Some(b)
            && forall i :: 0 <= i < |ls| && ls[i].id != lineId ==> r[i] == ls[i]
  {
    var segs := FindLine(ls, lineId).value.segments;
    WithSegmentsOfAt(ls, lineId, EditSegment(path, AppendBranch(b)));
    FindLineWithSegments(ls, lineId, EditSegment(path, AppendBranch(b)));
    AppendBranchOnlyAt(segs, path, b, path);
  }

  /** Line drag: every numbered point of a dragged line moves by exactly `d`, its shape kept; other lines are kept. */
  lemma DragLineShifts(ls: seq<Line>, lineId: string, d: Point, i: nat)
    requires i < |ls|
    ensures var r := LineMoved(ls, lineId, d);
            && |r| == |ls|
            && (ls[i].id != lineId ==> r[i] == ls[i])
            && (ls[i].id == lineId ==>
                  && r[i].id == ls[i].id && r[i].playerId == ls[i].playerId
                  && FlattenAll(r[i].segments) == ShiftPoints(FlattenAll(ls[i].segments), d)
                  && SameShapes(ls[i].segments, r[i].segments))
  {
    WithSegmentsOfAt(ls, lineId, MoveBy(d));
    MoveAllShifts(ls[i].segments, d);
  }

  /** Point drag: in a dragged line only numbered point `k` changes, to the pointer; other lines are kept. */
  lemma DragPointReplacesOne(ls: seq<Line>, lineId: string, k: nat, p: Point, i: nat)
    requires i < |ls|
    ensures var r := PointMoved(ls, lineId, k, p);
            && |r| == |ls|
            && (ls[i].id != lineId ==> r[i] == ls[i])
            && (ls[i].id == lineId ==>
                  && r[i].id == ls[i].id && r[i].playerId == ls[i].playerId
                  && FlattenAll(r[i].segments) == ReplaceAt(FlattenAll(ls[i].segments), k, p)
                  && SameShapes(ls[i].segments, r[i].segments))
  {
    WithSegmentsOfAt(ls, lineId, MovePoint(k, p));
    SetPointAllReplacesOne(ls[i].segments, k, p);
  }

  /**
   * Press, then move: when a press grabs a point handle, a following move with the
   * button held puts exactly that numbered point of that line under the pointer.
   */
  lemma GrabbedPointFollowsPointer(ls: seq<Line>, press: Point, pointer: Point)
    requires FirstPointHit(ls, press).Some?
    ensures var h := FirstPointHit(ls, press).value;
            var r := PointMoved(ls, h.lineId, h.pointIndex, pointer);
            exists i :: 0 <= i < |ls| && ls[i].id == h.lineId
                        && h.pointIndex < |FlattenAll(r[i].segments)|
                        && FlattenAll(r[i].segments)[h.pointIndex] == pointer
  {
    var h := FirstPointHit(ls, press).value;
    PointHitIsNumberedPoint(ls, press);
    var i :| 0 <= i < |ls| && ls[i].id == h.lineId
             && h.pointIndex < |FlattenAll(ls[i].segments)|
             && DistSq(press, FlattenAll(ls[i].segments)[h.pointIndex]) <= ArrowheadTolerance * ArrowheadTolerance;
    DragPointReplacesOne(ls, h.lineId, h.pointIndex, pointer, i);
  }

  /** The `lines.map` of a point drag, running `updateSegmentPoint` over each dragged line with a fresh counter. */
  method DragPointInLines(ls: seq<Line>, lineId: string, k: nat, p: Point) returns (r: seq<Line>)
    ensures r == PointMoved(ls, lineId, k, p)
  {
    r := [];
    for i := 0 to |ls|
      invariant |r| == i
      invariant forall j :: 0 <= j < i ==>
                  r[j] == if ls[j].id == lineId then ls[j].(segments := SetPointAll(ls[j].segments, k, p)) else ls[j]
    {
      if ls[i].id == lineId {
        var segs, _ := UpdateSegmentsPoint(ls[i].segments, k, p, 0);
        r := r + [ls[i].(segments := segs)];
      } else {
        r := r + [ls[i]];
      }
    }
    WithSegmentsOfAt(ls, lineId, MovePoint(k, p));
  }

  /** The segment a branch is added to: the named segment of the first line with that id, when the path names one. */
  function BranchTarget(ls: seq<Line>, lineId: string, path: Option<seq<nat>>): Option<LineSegment>
  {
    if HasLine(ls, lineId) && path.Some? then SegmentAt(FindLine(ls, lineId).value.segments, path.value) else None
  }

  /** What adding a branch from the end changes: the target's path, the new branch, and the path that then names it. */
  datatype BranchPlan = BranchPlan(path: seq<nat>, branch: LineSegment, newPath: seq<nat>)

  /**
   * The add-branch outcome for line `lineId` and the selected path: nothing when the path
   * names no segment or the segment has no points; otherwise a branch one point
   * `gutLength` above the segment's last point, selected at the path extended by the
   * segment's old branch count.
   */
  function PlanBranch(ls: seq<Line>, lineId: string, path: Option<seq<nat>>, gutLength: real, t: LineType): Option<BranchPlan>
  {
    var target := BranchTarget(ls, lineId, path);
    if target.Some? && |target.value.points| > 0 && path.Some? then
      var last := target.value.points[|target.value.points| - 1];
      Some(BranchPlan(path.value, GutSegment(last, gutLength, t), path.value + [|target.value.branches|]))
    else None
  }

  /**
   * A planned branch is reachable: in the first line with that id, the new selected path
   * names exactly the new branch, whose one point lies `gutLength` above the old end.
   */
  lemma PlannedBranchSelected(ls: seq<Line>, lineId: string, path: Option<seq<nat>>, gutLength: real, t: LineType)
    requires PlanBranch(ls, lineId, path, gutLength, t).Some?
    ensures var plan := PlanBranch(ls, lineId, path, gutLength, t).value;
            var target := BranchTarget(ls, lineId, path).value;
            var r := BranchAdded(ls, lineId, plan.path, plan.branch);
            && path == Some(plan.path)
            && plan.branch.points == [Point(target.points[|target.points| - 1].x, target.points[|target.points| - 1].y - gutLength)]
            && plan.branch.lineType == t && plan.branch.branches == []
            && HasLine(r, lineId)
            && SegmentAt(FindLine(r, lineId).value.segments, plan.newPath) == Some(plan.branch)
  {
    var plan := PlanBranch(ls, lineId, path, gutLength, t).value;
    AddBranchSelectsNewBranch(ls, lineId, plan.path, plan.branch);
  }

  /**
   * The lookups and construction of the add-branch path: `lines.find`, the non-empty and
   * selected-path guards, `getSegmentByPath`, then the new branch above the last point.
   */
  method PlanBranchFromEnd(ls: seq<Line>, lineId: string, path: Option<seq<nat>>, gutLength: real, t: LineType)
    returns (plan: Option<BranchPlan>)
    ensures plan == PlanBranch(ls, lineId, path, gutLength, t)
    ensures plan.Some? ==> path == Some(plan.value.path) && |plan.value.newPath| == |plan.value.path| + 1
  {
    var lineToExtend := FindLine(ls, lineId);
    if lineToExtend.None? || |lineToExtend.value.segments| == 0 || path.None? {
      return None;
    }
    var selected := GetSegmentByPath(lineToExtend.value.segments, path.value);
    if selected.None? || |selected.value.points| == 0 {
      return None;
    }
    var last := selected.value.points[|selected.value.points| - 1];
    plan := Some(BranchPlan(path.value, GutSegment(last, gutLength, t), path.value + [|selected.value.branches|]));
  }

  class Field {
    var players: seq<Player>
    var lines: seq<Line>
    var hoveredPlayer: Option<string>
    var draggingPlayer: Option<string>
    var dragOffset: Point
    var selectedLineId: Option<string>
    var selectedSegmentPath: Option<seq<nat>>
    var draggingLine: Option<string>
    var lineDragOffset: Point
    var selectedPoint: Option<PointRef>
    var draggingPoint: bool
    var selectedPlayerId: Option<string>

    /** The component's initial state over the given players and lines: nothing selected, nothing dragged. */
    constructor(initialPlayers: seq<Player>, initialLines: seq<Line>)
      ensures players == initialPlayers && lines == initialLines
      ensures hoveredPlayer == None && draggingPlayer == None && dragOffset == Origin
      ensures selectedLineId == None && selectedSegmentPath == None
      ensures draggingLine == None && lineDragOffset == Origin
      ensures selectedPoint == None && !draggingPoint && selectedPlayerId == None
    {
      players := initialPlayers;
      lines := initialLines;
      hoveredPlayer := None;
      draggingPlayer := None;
      dragOffset := Origin;
      selectedLineId := None;
      selectedSegmentPath := None;
      draggingLine := None;
      lineDragOffset := Origin;
      selectedPoint := None;
      draggingPoint := false;
      selectedPlayerId := None;
    }

    /** `changeSegmentType` (exposed to the parent): only the lines change. */
    method ChangeSegmentType(lineId: string, path: seq<nat>, t: LineType)
      modifies this
      ensures lines == TypeChanged(old(lines), lineId, path, t)
      ensures players == old(players) && hoveredPlayer == old(hoveredPlayer)
      ensures draggingPlayer == old(draggingPlayer) && dragOffset == old(dragOffset)
      ensures selectedLineId == old(selectedLineId) && selectedSegmentPath == old(selectedSegmentPath)
      ensures draggingLine == old(draggingLine) && lineDragOffset == old(lineDragOffset)
      ensures selectedPoint == old(selectedPoint) && draggingPoint == old(draggingPoint)
      ensures selectedPlayerId == old(selectedPlayerId)
    {
      lines := TypeChanged(lines, lineId, path, t);
    }

    /** A new route from player `playerId` (if it exists): one gut segment, selected at path [0]. */
    method AddRoute(playerId: string, now: nat, gutLength: real, t: LineType)
      modifies this
      ensures HasPlayer(old(players), playerId) ==>
                var p := FindPlayer(old(players), playerId).value;
                var l := Line(NewLineId(now), p.id, [GutSegment(Position(p), gutLength, t)]);
                && lines == old(lines) + [l]
                && selectedLineId == Some(l.id) && selectedSegmentPath == Some([0])
                && selectedPoint == None && selectedPlayerId == None
      ensures !HasPlayer(old(players), playerId) ==>
                && lines == old(lines) && selectedLineId == old(selectedLineId)
                && selectedSegmentPath == old(selectedSegmentPath) && selectedPoint == old(selectedPoint)
                && selectedPlayerId == old(selectedPlayerId)
      ensures players == old(players) && hoveredPlayer == old(hoveredPlayer)
      ensures draggingPlayer == old(draggingPlayer) && dragOffset == old(dragOffset)
      ensures draggingLine == old(draggingLine) && lineDragOffset == old(lineDragOffset)
      ensures draggingPoint == old(draggingPoint)
    {
      var player := FindPlayer(players, playerId);
      if player.Some? {
        var p := player.value;
        var l := Line(NewLineId(now), p.id, [GutSegment(Position(p), gutLength, t)]);
        lines := lines + [l];
        selectedLineId := Some(l.id);
        selectedSegmentPath := Some([0]);
        selectedPoint := None;
        selectedPlayerId := None;
      }
    }

    /**
     * A new branch at the end of the selected segment of line `lineId`, selected at the
     * old path extended by its index; nothing changes when the path names no segment or
     * the segment has no points.
     */
    method AddBranchFromEnd(lineId: string, gutLength: real, t: LineType)
      modifies this
      ensures var plan := PlanBranch(old(lines), lineId, old(selectedSegmentPath), gutLength, t);
              plan.Some? ==>
                && lines == BranchAdded(old(lines), lineId, plan.value.path, plan.value.branch)
                && selectedLineId == Some(lineId) && selectedSegmentPath == Some(plan.value.newPath)
                && selectedPoint == None
      ensures PlanBranch(old(lines), lineId, old(selectedSegmentPath), gutLength, t).None? ==>
                && lines == old(lines) && selectedLineId == old(selectedLineId)
                && selectedSegmentPath == old(selectedSegmentPath) && selectedPoint == old(selectedPoint)
      ensures players == old(players) && hoveredPlayer == old(hoveredPlayer)
      ensures draggingPlayer == old(draggingPlayer) && dragOffset == old(dragOffset)
      ensures draggingLine == old(draggingLine) && lineDragOffset == old(lineDragOffset)
      ensures draggingPoint == old(draggingPoint) && selectedPlayerId == old(selectedPlayerId)
    {
      var plan := PlanBranchFromEnd(lines, lineId, selectedSegmentPath, gutLength, t);
      if plan.Some? {
        selectedLineId := Some(lineId);
        selectedSegmentPath := Some(plan.value.newPath);
        selectedPoint := None;
        lines := BranchAdded(lines, lineId, plan.value.path, plan.value.branch);
      }
    }

    /**
     * The route-drawing effect for request `req`, `now` naming a new line and `gutLength`
     * the five-yard rise: a player id starts a new route, else a line id adds a branch.
     */
    method StartRouteDrawing(req: RouteDrawingState, now: nat, gutLength: real)
      requires !(!Truthy(req.playerId) && Truthy(req.lineId) && HasLine(lines, req.lineId.value)
                 && selectedPoint.Some? && selectedPoint.value.lineId == req.lineId.value)
      modifies this
      ensures Truthy(req.playerId) ==>
                var p := FindPlayer(old(players), req.playerId.value);
                if p.Some? then
                  var l := Line(NewLineId(now), p.value.id, [GutSegment(Position(p.value), gutLength, req.routeType)]);
                  && lines == old(lines) + [l]
                  && selectedLineId == Some(l.id) && selectedSegmentPath == Some([0])
                  && selectedPoint == None && selectedPlayerId == None
                else
                  && lines == old(lines) && selectedLineId == old(selectedLineId)
                  && selectedSegmentPath == old(selectedSegmentPath) && selectedPoint == old(selectedPoint)
                  && selectedPlayerId == old(selectedPlayerId)
      ensures !Truthy(req.playerId) && Truthy(req.lineId) ==>
                var plan := PlanBranch(old(lines), req.lineId.value, old(selectedSegmentPath), gutLength, req.routeType);
                if plan.Some? then
                  && lines == BranchAdded(old(lines), req.lineId.value, plan.value.path, plan.value.branch)
                  && selectedLineId == req.lineId && selectedSegmentPath == Some(plan.value.newPath)
                  && selectedPoint == None && selectedPlayerId == old(selectedPlayerId)
                else
                  && lines == old(lines) && selectedLineId == old(selectedLineId)
                  && selectedSegmentPath == old(selectedSegmentPath) && selectedPoint == old(selectedPoint)
                  && selectedPlayerId == old(selectedPlayerId)
      ensures !Truthy(req.playerId) && !Truthy(req.lineId) ==>
                && lines == old(lines) && selectedLineId == old(selectedLineId)
                && selectedSegmentPath == old(selectedSegmentPath) && selectedPoint == old(selectedPoint)
                && selectedPlayerId == old(selectedPlayerId)
      ensures players == old(players) && hoveredPlayer == old(hoveredPlayer)
      ensures draggingPlayer == old(draggingPlayer) && dragOffset == old(dragOffset)
      ensures draggingLine == old(draggingLine) && lineDragOffset == old(lineDragOffset)
      ensures draggingPoint == old(draggingPoint)
    {
      if Truthy(req.playerId) {
        AddRoute(req.playerId.value, now, gutLength, req.routeType);
      } else if Truthy(req.lineId) {
        AddBranchFromEnd(req.lineId.value, gutLength, req.routeType);
      }
    }

    /**
     * `handleMouseDown` at `pos`, with `radius` the player disc radius and `now` naming a
     * new player. The player tool places a player; otherwise the first player under the
     * pointer wins, then the first point handle, then the first line, and a press on
     * nothing clears the selection.
     */
    method MouseDown(pos: Point, tool: Tool, radius: real, now: nat)
      modifies this
      ensures hoveredPlayer == old(hoveredPlayer)
      ensures tool == PlayerTool ==>
                && players == old(players) + [Player(NewPlayerId(now), pos.x, pos.y, Offense, Circle, "#ffffff", Some(""))]
                && lines == old(lines)
                && draggingPlayer == old(draggingPlayer) && dragOffset == old(dragOffset)
                && selectedLineId == old(selectedLineId) && selectedSegmentPath == old(selectedSegmentPath)
                && draggingLine == old(draggingLine) && lineDragOffset == old(lineDragOffset)
                && selectedPoint == old(selectedPoint) && draggingPoint == old(draggingPoint)
                && selectedPlayerId == old(selectedPlayerId)
      ensures tool == SelectTool ==> players == old(players) && lines == old(lines)
      ensures tool == SelectTool && FirstPlayerAt(old(players), pos, radius).Some? ==>
                var p := old(players)[FirstPlayerAt(old(players), pos, radius).value];
                && selectedPlayerId == Some(p.id) && draggingPlayer == Some(p.id)
                && dragOffset == pos.Minus(Position(p))
                && selectedLineId == None && selectedSegmentPath == None && selectedPoint == None
                && draggingLine == None && lineDragOffset == Origin
                && draggingPoint == old(draggingPoint)
      ensures tool == SelectTool && FirstPlayerAt(old(players), pos, radius).None?
              && FirstPointHit(old(lines), pos).Some? ==>
                var h := FirstPointHit(old(lines), pos).value;
                && selectedPoint == Some(h) && draggingPoint
                && selectedLineId == Some(h.lineId) && selectedSegmentPath == None && selectedPlayerId == None
                && draggingPlayer == old(draggingPlayer) && dragOffset == old(dragOffset)
                && draggingLine == old(draggingLine) && lineDragOffset == old(lineDragOffset)
      ensures tool == SelectTool && FirstPlayerAt(old(players), pos, radius).None?
              && FirstPointHit(old(lines), pos).None? && FirstLineHit(old(lines), old(players), pos).Some? ==>
                var h := FirstLineHit(old(lines), old(players), pos).value;
                && selectedLineId == Some(h.lineId) && selectedSegmentPath == Some(h.path)
                && draggingLine == Some(h.lineId) && lineDragOffset == pos
                && selectedPoint == None && selectedPlayerId == None
                && draggingPlayer == old(draggingPlayer) && dragOffset == old(dragOffset)
                && draggingPoint == old(draggingPoint)
      ensures tool == SelectTool && FirstPlayerAt(old(players), pos, radius).None?
              && FirstPointHit(old(lines), pos).None? && FirstLineHit(old(lines), old(players), pos).None? ==>
                && selectedLineId == None && selectedSegmentPath == None
                && selectedPoint == None && selectedPlayerId == None
                && draggingPlayer == old(draggingPlayer) && dragOffset == old(dragOffset)
                && draggingLine == old(draggingLine) && lineDragOffset == old(lineDragOffset)
                && draggingPoint == old(draggingPoint)
    {
      if tool == PlayerTool {
        players := players + [Player(NewPlayerId(now), pos.x, pos.y, Offense, Circle, "#ffffff", Some(""))];
        return;
      }
      var onPlayer := FindPlayerAt(players, pos, radius);
      if onPlayer.Some? {
        var p := players[onPlayer.value];
        selectedPlayerId := Some(p.id);
        draggingPlayer := Some(p.id);
        dragOffset := pos.Minus(Position(p));
        selectedLineId := None;
        selectedSegmentPath := None;
        selectedPoint := None;
        draggingLine := None;
        lineDragOffset := Origin;
        return;
      }
      var onPoint := FindPointHit(lines, pos);
      if onPoint.Some? {
        selectedPoint := onPoint;
        draggingPoint := true;
        selectedLineId := Some(onPoint.value.lineId);
        selectedSegmentPath := None;
        selectedPlayerId := None;
        return;
      }
      var onLine := FindLineHit(lines, players, pos);
      if onLine.Some? {
        selectedLineId := Some(onLine.value.lineId);
        selectedSegmentPath := Some(onLine.value.path);
        draggingLine := Some(onLine.value.lineId);
        lineDragOffset := pos;
        selectedPoint := None;
        selectedPlayerId := None;
        return;
      }
      selectedLineId := None;
      selectedSegmentPath := None;
      selectedPoint := None;
      selectedPlayerId := None;
    }

    /** The hover step of `handleMouseMove`: the hover follows the first player under the pointer, or is cleared. */
    method Hover(pos: Point, radius: real)
      modifies this
      ensures var k := FirstPlayerAt(old(players), pos, radius);
              hoveredPlayer == if k.Some? then Some(old(players)[k.value].id) else None
      ensures players == old(players) && lines == old(lines)
      ensures draggingPlayer == old(draggingPlayer) && dragOffset == old(dragOffset)
      ensures selectedLineId == old(selectedLineId) && selectedSegmentPath == old(selectedSegmentPath)
      ensures draggingLine == old(draggingLine) && lineDragOffset == old(lineDragOffset)
      ensures selectedPoint == old(selectedPoint) && draggingPoint == old(draggingPoint)
      ensures selectedPlayerId == old(selectedPlayerId)
    {
      var over := FindPlayerAt(players, pos, radius);
      hoveredPlayer := if over.Some? then Some(players[over.value].id) else None;
    }

    /** The player step of `handleMouseMove`: a dragged player is placed at the pointer less the grab offset. */
    method DragPlayerTo(pos: Point)
      modifies this
      ensures players == if Truthy(old(draggingPlayer))
                         then UpdatePlayers(old(players), old(draggingPlayer).value, MovedTo(pos.Minus(old(dragOffset))))
                         else old(players)
      ensures lines == old(lines) && hoveredPlayer == old(hoveredPlayer)
      ensures draggingPlayer == old(draggingPlayer) && dragOffset == old(dragOffset)
      ensures selectedLineId == old(selectedLineId) && selectedSegmentPath == old(selectedSegmentPath)
      ensures draggingLine == old(draggingLine) && lineDragOffset == old(lineDragOffset)
      ensures selectedPoint == old(selectedPoint) && draggingPoint == old(draggingPoint)
      ensures selectedPlayerId == old(selectedPlayerId)
    {
      if Truthy(draggingPlayer) {
        players := UpdatePlayers(players, draggingPlayer.value, MovedTo(pos.Minus(dragOffset)));
      }
    }

    /**
     * The route step of `handleMouseMove`: a grabbed point moves to the pointer, or else a
     * dragged line moves by the pointer's travel since the last event.
     */
    method DragRouteTo(pos: Point)
      modifies this
      ensures old(draggingPoint) && old(selectedPoint).Some? ==>
                && lines == PointMoved(old(lines), old(selectedPoint).value.lineId, old(selectedPoint).value.pointIndex, pos)
                && lineDragOffset == old(lineDragOffset)
      ensures !(old(draggingPoint) && old(selectedPoint).Some?) && Truthy(old(draggingLine)) ==>
                && lines == LineMoved(old(lines), old(draggingLine).value, pos.Minus(old(lineDragOffset)))
                && lineDragOffset == pos
      ensures !(old(draggingPoint) && old(selectedPoint).Some?) && !Truthy(old(draggingLine)) ==>
                lines == old(lines) && lineDragOffset == old(lineDragOffset)
      ensures players == old(players) && hoveredPlayer == old(hoveredPlayer)
      ensures draggingPlayer == old(draggingPlayer) && dragOffset == old(dragOffset)
      ensures selectedLineId == old(selectedLineId) && selectedSegmentPath == old(selectedSegmentPath)
      ensures draggingLine == old(draggingLine) && selectedPoint == old(selectedPoint)
      ensures draggingPoint == old(draggingPoint) && selectedPlayerId == old(selectedPlayerId)
    {
      if draggingPoint && selectedPoint.Some? {
        lines := DragPointInLines(lines, selectedPoint.value.lineId, selectedPoint.value.pointIndex, pos);
      } else if Truthy(draggingLine) {
        var d := pos.Minus(lineDragOffset);
        lineDragOffset := pos;
        lines := LineMoved(lines, draggingLine.value, d);
      }
    }

    /**
     * `handleMouseMove` at `pos`: the hover step, then the player step, then the route step.
     */
    method MouseMove(pos: Point, radius: real)
      modifies this
      ensures var k := FirstPlayerAt(old(players), pos, radius);
              hoveredPlayer == if k.Some? then Some(old(players)[k.value].id) else None
      ensures players == if Truthy(old(draggingPlayer))
                         then UpdatePlayers(old(players), old(draggingPlayer).value, MovedTo(pos.Minus(old(dragOffset))))
                         else old(players)
      ensures old(draggingPoint) && old(selectedPoint).Some? ==>
                && lines == PointMoved(old(lines), old(selectedPoint).value.lineId, old(selectedPoint).value.pointIndex, pos)
                && lineDragOffset == old(lineDragOffset)
      ensures !(old(draggingPoint) && old(selectedPoint).Some?) && Truthy(old(draggingLine)) ==>
                && lines == LineMoved(old(lines), old(draggingLine).value, pos.Minus(old(lineDragOffset)))
                && lineDragOffset == pos
      ensures !(old(draggingPoint) && old(selectedPoint).Some?) && !Truthy(old(draggingLine)) ==>
                lines == old(lines) && lineDragOffset == old(lineDragOffset)
      ensures draggingPlayer == old(draggingPlayer) && dragOffset == old(dragOffset)
      ensures selectedLineId == old(selectedLineId) && selectedSegmentPath == old(selectedSegmentPath)
      ensures draggingLine == old(draggingLine) && selectedPoint == old(selectedPoint)
      ensures draggingPoint == old(draggingPoint) && selectedPlayerId == old(selectedPlayerId)
    {
      Hover(pos, radius);
      DragPlayerTo(pos);
      DragRouteTo(pos);
    }

    /** `handleMouseUp`: every drag ends; the selection stays. */
    method MouseUp()
      modifies this
      ensures draggingPlayer == None && draggingLine == None && !draggingPoint
      ensures players == old(players) && lines == old(lines) && hoveredPlayer == old(hoveredPlayer)
      ensures dragOffset == old(dragOffset) && lineDragOffset == old(lineDragOffset)
      ensures selectedLineId == old(selectedLineId) && selectedSegmentPath == old(selectedSegmentPath)
      ensures selectedPoint == old(selectedPoint) && selectedPlayerId == old(selectedPlayerId)
    {
      draggingPlayer := None;
      draggingLine := None;
      draggingPoint := false;
    }

    /**
     * `handleKeyDown`; `isDelete` says whether the key is Delete or Backspace. A selected
     * player goes together with its routes; otherwise a selected line goes alone.
     */
    method KeyDown(isDelete: bool)
      modifies this
      ensures isDelete && Truthy(old(selectedPlayerId)) ==>
                var id := old(selectedPlayerId).value;
                && players == WithoutPlayer(old(players), id) && lines == WithoutLinesOf(old(lines), id)
                && selectedPlayerId == None && selectedLineId == old(selectedLineId)
      ensures isDelete && !Truthy(old(selectedPlayerId)) && Truthy(old(selectedLineId)) ==>
                && players == old(players) && lines == WithoutLine(old(lines), old(selectedLineId).value)
                && selectedLineId == None && selectedPlayerId == old(selectedPlayerId)
      ensures !isDelete || (!Truthy(old(selectedPlayerId)) && !Truthy(old(selectedLineId))) ==>
                && players == old(players) && lines == old(lines)
                && selectedPlayerId == old(selectedPlayerId) && selectedLineId == old(selectedLineId)
      ensures hoveredPlayer == old(hoveredPlayer) && draggingPlayer == old(draggingPlayer)
      ensures dragOffset == old(dragOffset) && selectedSegmentPath == old(selectedSegmentPath)
      ensures draggingLine == old(draggingLine) && lineDragOffset == old(lineDragOffset)
      ensures selectedPoint == old(selectedPoint) && draggingPoint == old(draggingPoint)
    {
      if isDelete && Truthy(selectedPlayerId) {
        var id := selectedPlayerId.value;
        players := WithoutPlayer(players, id);
        lines := WithoutLinesOf(lines, id);
        selectedPlayerId := None;
      } else if isDelete && Truthy(selectedLineId) {
        lines := WithoutLine(lines, selectedLineId.value);
        selectedLineId := None;
      }
    }
  }
}
