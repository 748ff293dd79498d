# Playmaker, modelled in Dafny

Playmaker is a football play-diagram editor. This project models the four parts of it that carry logic rather than drawing:

- **The arrow editor** (`react-router/src/Editor.tsx`). The diagram is one ordered list of players and arrows. Each arrow hangs off a parent (a player or another arrow) by an offset, and a curve also carries a control point relative to its start. The model covers:
  - resolving where an arrow ends;
  - ancestor and descendant collection;
  - cascade delete;
  - the terminal-arrow test;
  - the `P<n>` id counter;
  - stage clicks that add players and arrows;
  - the three drags.

  The invariant `WellFormed` says every id is new when it appears and every arrow's parent appears before it. It makes the list a forest and gives the recursion its termination measure. The source has no cycle guard.
- **The field canvas** (`src/components/Field.tsx`). A route (`Line`) belongs to a player and is a list of segments. Each segment has points, a line style and nested branches. The model covers:
  - pre-order point numbering;
  - path lookup;
  - changing a segment's style;
  - adding a branch at a segment's end;
  - moving a whole route;
  - moving one numbered point;
  - point-to-segment distance;
  - the mouse-down hit-test order;
  - the mouse and keyboard handlers that update the component state.
- **The editor store** (`src/stores/editorStore.ts`). It holds players, lines, a selection triple (id, kind, segment path), the current tool and a pending route-drawing request, and has the actions on them.
- **The play store** (`src/store/usePlayStore.ts`). It holds an optional play with players and lines, two selected ids and a mode. Every list edit does nothing while there is no play.

Layout:

- `basics.dfy` holds `Option`, points, JavaScript string truthiness and decimal digits.
- `play_types.dfy` holds the shared entities and the id-keyed list operations.
- `editor_graph.dfy`, `editor_edits.dfy` and `editor_app.dfy` model the arrow editor: the pure graph, the pure edits, then the component as a class.
- `field_geometry.dfy`, `field_routes.dfy`, `field_hit.dfy` and `field_canvas.dfy` model the field canvas: geometry, segment trees, hit tests, then the component as a class.
- `editor_store.dfy` and `play_store.dfy` model the two stores, each as a class.

Stateful code is modelled as classes whose methods state the whole new state. Each such method is tied to a specification function, and the properties are proved about those functions as lemmas.

Coordinates are unbounded reals. Distances are compared squared, since the model has no square root. Clock readings (`Date.now()`), the player disc radius and the five-yard gut length are parameters.

## Model

| member | source | states |
|---|---|---|
| EditorGraph.Find | react-router/src/Editor.tsx:209 | an element is found exactly when its id is in the list, and it is the first element with that id |
| EditorGraph.WellFormedFactAt | react-router/src/Editor.tsx:208-226 | in a well-formed list the element at index i is the first with its id, and an arrow's parent sits at a smaller index |
| EditorGraph.WellFormedLastFact | react-router/src/Editor.tsx:208-226 | the same two facts for the last element of a well-formed list |
| EditorGraph.WellFormedFacts | react-router/src/Editor.tsx:208-226 | in a well-formed list each element is the first with its id, and an arrow's parent sits strictly before it (the measure on which `getArrowEnd` terminates) |
| EditorGraph.ArrowEndFromStart | react-router/src/Editor.tsx:208-226 | an arrow ends at its start plus its offset. The start is the parent player's position when the parent is a player, the parent arrow's resolved end when it is an arrow; the arrow must be in a well-formed list, so its parent always exists |
| EditorGraph.ArrowEndMissingParent | react-router/src/Editor.tsx:209-214 | an arrow whose parent id names no element ends at (0,0) itself, without its offset, so it differs from its start plus offset whenever the offset is not zero |
| EditorGraph.ArrowEndAppend | react-router/src/Editor.tsx:91-99 | appending an element does not move the end of an arrow whose parent was already present |
| EditorGraph.AncestorArrowIds | react-router/src/Editor.tsx:228-242 | only arrow ids; empty for a player or unknown id; the first is the parent, each next is the parent of the one before, and the last hangs off a player |
| EditorGraph.AncestorsStep | react-router/src/Editor.tsx:228-242 | one step of the ancestor walk: the parent sits before the arrow, and b is an ancestor iff it is the parent (when an arrow) or an ancestor of the parent |
| EditorGraph.AncestorsMatchDescent | react-router/src/Editor.tsx:228-242 | b is listed as an ancestor of x exactly when b is an arrow and x's parent chain reaches b |
| EditorGraph.ChildArrows | react-router/src/Editor.tsx:245-247 | exactly the arrows whose parent id is the given id |
| EditorGraph.ChildArrowsAppend | react-router/src/Editor.tsx:245-247 | the filter keeps list order: an arrow appended under the id comes after the children already listed, and any other appended element adds nothing |
| EditorGraph.DescendantsThroughStep | react-router/src/Editor.tsx:249-252 | the collected ids grow child by child: each child's id, then that child's own descendants |
| EditorGraph.DescendantsExact | react-router/src/Editor.tsx:244-254 | an id is collected as a descendant exactly when its parent chain reaches the given id |
| EditorGraph.DescendantAncestorSymmetry | react-router/src/Editor.tsx:228-254 | x is a descendant of arrow b exactly when b is an ancestor of x |
| EditorGraph.TerminalIffNoDescendants | react-router/src/Editor.tsx:372-377 | an element is terminal (no arrow names it as parent) exactly when it has no descendants |
| EditorGraph.TerminalAfterAppend | react-router/src/Editor.tsx:372-377 | after appending, an element is terminal iff it was terminal and the new element is not an arrow hung off it |
| EditorGraph.TerminalAfterRemove | react-router/src/Editor.tsx:372-377 | after removing ids, an element is terminal iff every child arrow it had was removed |
| EditorGraph.RemoveIds | react-router/src/Editor.tsx:202-204 | the survivors are exactly the elements whose id is not in the removal list |
| EditorGraph.RemoveIdsConcat | react-router/src/Editor.tsx:202-204 | removal distributes over concatenation, so survivors keep their relative order |
| EditorGraph.RemoveClosedWellFormed | react-router/src/Editor.tsx:177-206 | removing a set of ids closed under children leaves a well-formed list (no dangling parent ids) |
| EditorGraph.DeleteSubtree | react-router/src/Editor.tsx:177-206 | deleting the selected id with its collected descendants removes exactly it and the arrows whose chain reaches it, and the survivors are well formed |
| EditorGraph.MaxPlayerNumber | react-router/src/Editor.tsx:60-64 | at least the number of every `P<digits>` id, and either 0 or the number of one of them |
| EditorGraph.NextIdAboveLoaded | react-router/src/Editor.tsx:60-65 | the derived counter is above every loaded `P<n>`, and it is 1 or one more than a loaded number |
| EditorGraph.PlayerIdRoundTrip | react-router/src/Editor.tsx:90 | `P` followed by the decimal digits of n matches `^P(\d+)$` and parses back to n |
| EditorGraph.FreshPlayerId | react-router/src/Editor.tsx:89-99 | a counter above every loaded number yields an id not yet in the list |
| EditorEdits.WellFormedAppend | react-router/src/Editor.tsx:91-99 | appending a fresh id whose parent (if an arrow) is present keeps the list well formed |
| EditorEdits.AddPlayerKeepsNumbering | react-router/src/Editor.tsx:89-100 | the added `P<nextId>` player is fresh, the list stays well formed, and the incremented counter stays above every number |
| EditorEdits.ArrowIdNotNumbered | react-router/src/Editor.tsx:117 | an `A<clock>` arrow id never matches the `P<digits>` player-id pattern, so it cannot disturb the counter |
| EditorEdits.CurveControl | react-router/src/Editor.tsx:130-146 | the stored control point, drawn relative to the start, lands on the midpoint of start and pointer |
| EditorEdits.CurveControlAsWrittenMisplaced | react-router/src/Editor.tsx:132-135 | the absolute midpoint as stored is drawn on the midpoint only when the start is the origin |
| EditorEdits.CurveControlAsWrittenExample | react-router/src/Editor.tsx:132-135 | start (100,100), click (180,100): the handle is drawn at (240,200) instead of (140,100) |
| EditorEdits.NewArrow | react-router/src/Editor.tsx:105-146 | the new arrow hangs off the start id with offset pointer − start, so its end is the pointer; it is a curve iff requested, with the corrected control point (see "## Findings") drawn at the midpoint |
| EditorEdits.AddArrowLandsAtPointer | react-router/src/Editor.tsx:105-151 | appending it keeps the list well formed; the new arrow ends at the pointer and is terminal; its start is no longer terminal; no existing end moves |
| EditorEdits.AddArrowKeepsNumbering | react-router/src/Editor.tsx:101-151 | appending a new arrow with a fresh non-`P<n>` id keeps the list well formed and the counter above every number; the arrow ends at the pointer and is terminal |
| EditorEdits.AddCurveControlAtMidpoint | react-router/src/Editor.tsx:130-146 | a new curve's control handle is drawn halfway between its start and its end |
| EditorEdits.ShiftMovesSubtree | react-router/src/Editor.tsx:208-226 | displacing one element's own offset by d moves it and everything hung below it by exactly d and nothing else |
| EditorEdits.MovePlayer | react-router/src/Editor.tsx:75-81 | every element keeps its place; only the player with that id takes the new position |
| EditorEdits.DragPlayerMovesSubtree | react-router/src/Editor.tsx:75-81 | dragging a player puts it at the pointer, carries every arrow below it along by the same displacement, and moves nothing else |
| EditorEdits.SetOffsetShifts | react-router/src/Editor.tsx:518-535 | setting the offset to pointer − start displaces only that arrow, by pointer − its old end |
| EditorEdits.DragEndMovesSubtree | react-router/src/Editor.tsx:518-535 | the dragged arrow then ends at the pointer, the arrows below it follow, and nothing else moves |
| EditorEdits.SetControlFind | react-router/src/Editor.tsx:586-604 | a control-point drag changes only that curve's control point |
| EditorEdits.DragControlKeepsEnds | react-router/src/Editor.tsx:586-604 | the control handle is then drawn at the pointer, and no player or arrow end moves |
| EditorApp.CollectDescendantIds | react-router/src/Editor.tsx:178-193 | the loop-and-recursion collection equals the pre-order descendant list |
| EditorApp.Editor.constructor | react-router/src/Editor.tsx:45-50 | empty list, normal mode, counter 1, no arrow start, no selection |
| EditorApp.Editor.LoadPlayers | react-router/src/Editor.tsx:54-66 | the loaded players replace the list and the counter is derived from their ids |
| EditorApp.Editor.ChooseMode | react-router/src/Editor.tsx:270-287 | the mode radio sets normal or add-player and nothing else |
| EditorApp.Editor.BeginArrow | react-router/src/Editor.tsx:295-320 | with a selection, enter add-straight or add-curve starting from it; without one, nothing changes |
| EditorApp.Editor.ClickElement | react-router/src/Editor.tsx:157-175 | selects the clicked element in normal mode, ignored in the add modes |
| EditorApp.Editor.StageClick | react-router/src/Editor.tsx:83-155 | add-player appends a fresh `P<nextId>` at the pointer and increments the counter; an arrow mode with a known start appends an arrow ending at the pointer (straight keeps chaining from it; curve returns to normal mode with it selected); an unknown start changes nothing; otherwise the selection is cleared; the list stays well formed |
| EditorApp.Editor.PlacePlayer | react-router/src/Editor.tsx:89-100 | appends a player with the fresh id and label `P<nextId>` at the pointer and increments the counter; the invariant holds; mode and selections unchanged |
| EditorApp.Editor.PlaceArrow | react-router/src/Editor.tsx:101-151 | appends the new arrow, which ends at the pointer and is terminal; straight keeps the mode and chains from the new arrow; curve returns to normal mode with the new arrow selected and no start; the invariant holds |
| EditorApp.Editor.DeleteSelected | react-router/src/Editor.tsx:177-206 | removes the selected element and every arrow below it, clearing the selection; no-op without a selection or for an absent id; the list stays well formed |
| EditorApp.Editor.DragPlayer | react-router/src/Editor.tsx:75-81 | moves only that player (players are not draggable in add-player mode) |
| EditorApp.Editor.DragArrowEnd | react-router/src/Editor.tsx:518-535 | the offset becomes pointer − start, so the arrow then ends at the pointer |
| EditorApp.Editor.DragControlPoint | react-router/src/Editor.tsx:586-604 | the control point becomes pointer − start, so the handle is drawn at the pointer |
| PlayTypes.MergePlayer | src/stores/editorStore.ts:71 | field by field (id, x, y, team, shape, color, label): a given field wins and an omitted one keeps the player's own; an empty patch changes nothing |
| PlayTypes.MergeLine | src/stores/editorStore.ts:96 | field by field (id, owner, segments): a given field wins and an omitted one keeps the line's own; an empty patch changes nothing |
| PlayTypes.UpdatePlayers | src/stores/editorStore.ts:68-73 | same length; exactly the players with that id are merged, the rest are unchanged |
| PlayTypes.UpdateLines | src/stores/editorStore.ts:93-98 | same length; exactly the lines with that id are merged, the rest are unchanged |
| PlayTypes.UpdateAbsentPlayer | src/stores/editorStore.ts:68-73 | an unknown id changes nothing |
| PlayTypes.UpdateAbsentLine | src/stores/editorStore.ts:93-98 | an unknown id changes nothing |
| PlayTypes.WithoutPlayer | src/stores/editorStore.ts:77 | a player survives exactly when its id differs |
| PlayTypes.WithoutLinesOf | src/stores/editorStore.ts:78 | a line survives exactly when it belongs to another player |
| PlayTypes.WithoutLine | src/stores/editorStore.ts:102 | a line survives exactly when its id differs |
| PlayTypes.WithoutPlayerConcat | src/stores/editorStore.ts:77 | the filter distributes over concatenation, so survivors keep their order |
| PlayTypes.WithoutLineConcat | src/stores/editorStore.ts:102 | the filter distributes over concatenation, so survivors keep their order |
| PlayTypes.WithoutLinesOfConcat | src/stores/editorStore.ts:78 | the filter distributes over concatenation, so survivors keep their order |
| PlayTypes.WithoutAbsentPlayer | src/stores/editorStore.ts:77 | removing an unknown id changes nothing |
| PlayTypes.WithoutAbsentLine | src/stores/editorStore.ts:102 | removing an unknown id changes nothing |
| PlayTypes.FindPlayer | src/stores/editorStore.ts:132 | found iff some player has the id, and it is the first such player |
| PlayTypes.FindLine | src/stores/editorStore.ts:141 | found iff some line has the id, and it is the first such line |
| PlayTypes.AddThenRemovePlayer | src/stores/editorStore.ts:62-78 | a player with a new id, once added, is found and removing it restores the list |
| PlayTypes.AddThenRemoveLine | src/stores/editorStore.ts:88-102 | a line with a new id, once added, is found and removing it restores the list |
| FieldGeometry.ClampedParam | src/components/Field.tsx:88-108 | the projection parameter clamped into [0,1], equal to the raw parameter when that already lies in [0,1] |
| FieldGeometry.ClosestPoint | src/components/Field.tsx:97-108 | the point of the segment at the clamped parameter, the start for a zero-length segment |
| FieldGeometry.ZeroLengthSegment | src/components/Field.tsx:91-101 | for a zero-length segment the parameter stays −1 and the distance is to (x1, y1) |
| FieldGeometry.ClosestPointIsNearest | src/components/Field.tsx:76-113 | the clamped projection `(xx, yy)` is the nearest point of the segment: no point a fraction t in [0,1] along it is closer |
| FieldGeometry.NearSegmentExactly | src/components/Field.tsx:76-113 | a line hit (distance < 5) happens exactly when some point of the segment lies within 5 of the pointer |
| FieldRoutes.CountBranchPoints | src/components/Field.tsx:370-378 | the count equals the number of points in the pre-order numbering (own points, then branches in order) |
| FieldRoutes.BranchAtAppend | src/components/Field.tsx:535-543 | walking a path a + b is walking a, then b from where a ends |
| FieldRoutes.GetSegmentByPath | src/components/Field.tsx:530-545 | the loop returns the segment the path names, or nothing for an empty or unresolved path (including the inputs on which the source throws, see "## Left out") |
| FieldRoutes.WithSegmentsOfAt | src/components/Field.tsx:189-218 | position by position, exactly the lines with that id get the edited segments, id and owner kept; the others are unchanged |
| FieldRoutes.FindLineWithSegments | src/components/Field.tsx:584-602 | the first line with that id, after the update, is the old one with its segments updated |
| FieldRoutes.EditAtUnresolved | src/components/Field.tsx:548-562 | an edit at a path that names no segment changes nothing |
| FieldRoutes.EditBranchFrame | src/components/Field.tsx:196-207 | below the edited path the tree is the edited segment's; every proper prefix still resolves, with its points, style and branch count kept; every other path is unchanged |
| FieldRoutes.ChangeTypeOnlyAt | src/components/Field.tsx:185-219 | a path resolves after the change iff it did before, and every segment keeps its points and branch count, only the one at the path taking the new style |
| FieldRoutes.AppendBranchOnlyAt | src/components/Field.tsx:565-611 | the path extended by the old branch count names the new branch; every other segment is as it was, the target gaining one branch |
| FieldRoutes.MoveSegmentShifts | src/components/Field.tsx:1545-1560 | a moved segment's numbered points are the old ones shifted by exactly (dx, dy), its shape and styles unchanged |
| FieldRoutes.MoveAllShifts | src/components/Field.tsx:1545-1566 | the same for a route's whole segment list |
| FieldRoutes.SetPointReplacesOne | src/components/Field.tsx:1499-1522 | only the point with the given pre-order index is replaced, the shape is unchanged |
| FieldRoutes.SetPointAllReplacesOne | src/components/Field.tsx:1499-1530 | the same across a route's segment list with one running index |
| FieldRoutes.UpdateSegmentPoint | src/components/Field.tsx:1499-1522 | with the counter at c, replaces numbered point target − c and advances the counter by the segment's point count |
| FieldRoutes.UpdateSegmentsPoint | src/components/Field.tsx:1513-1530 | the same over a list of segments |
| FieldHit.FirstPlayerAt | src/components/Field.tsx:1245-1265 | the first player within the radius, or none when no player is within it |
| FieldHit.FindPlayerAt | src/components/Field.tsx:1245-1265 | the breaking loop finds exactly that player |
| FieldHit.HandlesFollowNumbering | src/components/Field.tsx:1275-1316 | point handles are visited in the pre-order numbering of the segment's points |
| FieldHit.HandlesAllFollowNumbering | src/components/Field.tsx:1318-1326 | the same across a route's segments |
| FieldHit.HandleTolerances | src/components/Field.tsx:1283-1289 | every handle's tolerance is 15 (an arrowhead) or 8 |
| FieldHit.FirstGrab | src/components/Field.tsx:1279-1307 | the first handle within its tolerance, or none when no handle is within |
| FieldHit.FirstGrabConcat | src/components/Field.tsx:1309-1316 | the first grab in a + b is the first in a, else the first in b offset by the size of a |
| FieldHit.CheckSegmentPoints | src/components/Field.tsx:1275-1316 | with the counter at c, reports c plus the index of the first grabbed handle, or advances c by the segment's handle count |
| FieldHit.CheckSegmentsPoints | src/components/Field.tsx:1318-1326 | the same over a list of segments |
| FieldHit.FindPointHit | src/components/Field.tsx:1273-1329 | the loop over routes finds the first route with a grabbed handle, with its numbered index |
| FieldHit.PointHitIsNumberedPoint | src/components/Field.tsx:1275-1329 | a point hit names a route with that id, an index within its numbered points, and a point within 15 of the pointer |
| FieldHit.CheckSegmentHit | src/components/Field.tsx:1338-1395 | the recursive check reports a hit with its path exactly when the specification finds one, and an empty path otherwise |
| FieldHit.CheckLineSegments | src/components/Field.tsx:1400-1428 | the loop over a route's segments, starting at the owner's position, finds the specified hit |
| FieldHit.FindLineHit | src/components/Field.tsx:1333-1432 | the first route (with an existing owner) having a hit, with the path of the hit segment |
| FieldHit.SegmentsHitResolves | src/components/Field.tsx:1338-1428 | a hit path always names a segment of the route |
| FieldHit.LineHitResolves | src/components/Field.tsx:1333-1432 | a line hit names a route with that id in which the path names a segment |
| FieldCanvas.ChangeSegmentTypeOnlyThere | src/components/Field.tsx:185-219 | other routes are unchanged; in the named route only the segment at the path changes style, and an unresolved path changes nothing |
| FieldCanvas.AddBranchSelectsNewBranch | src/components/Field.tsx:565-611 | the new selected path names the new branch in the route; other routes are unchanged |
| FieldCanvas.DragLineShifts | src/components/Field.tsx:1532-1572 | the dragged route's points all shift by exactly the pointer travel, shape kept; other routes are unchanged |
| FieldCanvas.DragPointReplacesOne | src/components/Field.tsx:1495-1530 | in the dragged route only the selected numbered point changes, to the pointer; other routes are unchanged |
| FieldCanvas.GrabbedPointFollowsPointer | src/components/Field.tsx:1290-1300 | after a press grabs a point, a move puts exactly that numbered point under the pointer |
| FieldCanvas.DragPointInLines | src/components/Field.tsx:1495-1530 | the map over routes with a fresh counter per dragged route computes the specified point move |
| FieldCanvas.PlanBranchFromEnd | src/components/Field.tsx:523-575 | the lookup of the route, the selected segment and its last point yields the specified branch plan, or none when the route, its segments, the path or the segment's points are missing (the source throws on some of these, see "## Left out") |
| FieldCanvas.PlannedBranchSelected | src/components/Field.tsx:565-611 | a planned branch is one point a gut length above the segment's last point, and after it is added the planned new path names it in the route |
| FieldCanvas.Field.constructor | src/components/Field.tsx:166-182 | nothing selected, hovered or dragged |
| FieldCanvas.Field.ChangeSegmentType | src/components/Field.tsx:185-219 | only the routes change, as the style change specifies |
| FieldCanvas.Field.AddRoute | src/components/Field.tsx:291-323 | for an existing player, appends a route with one point a gut length above it, selects it at path [0] and clears point and player selection; otherwise nothing changes |
| FieldCanvas.Field.AddBranchFromEnd | src/components/Field.tsx:523-616 | for a resolvable selected path, appends a one-point branch a gut length above the segment's last point and selects path + [old branch count]; otherwise nothing changes, including where the source throws (see "## Left out") |
| FieldCanvas.Field.StartRouteDrawing | src/components/Field.tsx:281-330 | a player id starts a new route, else a line id adds a branch from the selected segment's end |
| FieldCanvas.Field.MouseDown | src/components/Field.tsx:1213-1447 | the player tool adds a player at the pointer; otherwise the first player within the radius is selected and dragged, else the first grabbed point, else the first hit line, else every selection is cleared |
| FieldCanvas.Field.Hover | src/components/Field.tsx:1463-1475 | the hovered player becomes the first player within the radius, or none; nothing else changes |
| FieldCanvas.Field.DragPlayerTo | src/components/Field.tsx:1478-1491 | a dragged player goes to pointer − grab offset; nothing else changes |
| FieldCanvas.Field.DragRouteTo | src/components/Field.tsx:1494-1573 | a grabbed point goes to the pointer; else a dragged route moves by the pointer travel and the travel origin becomes the pointer; else nothing changes |
| FieldCanvas.Field.MouseMove | src/components/Field.tsx:1449-1574 | hover follows the first player under the pointer; a dragged player goes to pointer − grab offset; a grabbed point goes to the pointer, else a dragged route moves by the pointer travel |
| FieldCanvas.Field.MouseUp | src/components/Field.tsx:1576-1580 | every drag ends; nothing else changes |
| FieldCanvas.Field.KeyDown | src/components/Field.tsx:1582-1597 | Delete/Backspace removes a selected player with all its routes, else a selected route alone |
| EditorStore.Store.constructor | src/stores/editorStore.ts:52-59 | empty lists, nothing selected, the select tool, no route request |
| EditorStore.Store.SelectedPlayer | src/stores/editorStore.ts:127-134 | a player exactly when the selection is a non-empty player id present in the list, and then the first player with it |
| EditorStore.Store.SelectedLine | src/stores/editorStore.ts:136-143 | a line exactly when the selection is a non-empty line id present in the list, and then the first line with it |
| EditorStore.Store.AddPlayer | src/stores/editorStore.ts:62-66 | appends the player unchanged; nothing else changes |
| EditorStore.Store.UpdatePlayer | src/stores/editorStore.ts:68-73 | merges into the players with that id only |
| EditorStore.Store.DeletePlayer | src/stores/editorStore.ts:75-83 | removes the player and all its lines; clears id and kind iff the selected id is the deleted one; the path is untouched |
| EditorStore.Store.SetPlayers | src/stores/editorStore.ts:85 | replaces the players only |
| EditorStore.Store.AddLine | src/stores/editorStore.ts:88-91 | appends the line unchanged; nothing else changes |
| EditorStore.Store.UpdateLine | src/stores/editorStore.ts:93-98 | merges into the lines with that id only |
| EditorStore.Store.DeleteLine | src/stores/editorStore.ts:100-107 | removes the lines with that id, players untouched; clears id and kind iff the selected id is the deleted one |
| EditorStore.Store.SetLines | src/stores/editorStore.ts:109 | replaces the lines only |
| EditorStore.Store.SelectElement | src/stores/editorStore.ts:112-118 | sets id, kind and path together |
| EditorStore.Store.ClearSelection | src/stores/editorStore.ts:120-125 | clears id, kind and path, so both typed getters return nothing |
| EditorStore.Store.SetTool | src/stores/editorStore.ts:146 | changes only the tool |
| EditorStore.Store.StartDrawingRoute | src/stores/editorStore.ts:149-150 | stores the request only |
| EditorStore.Store.StopDrawingRoute | src/stores/editorStore.ts:152 | drops the request only |
| EditorStore.Store.DeleteSelected | src/stores/editorStore.ts:155-164 | no-op without a non-empty selected id or kind; a selected player goes with its lines, a selected line alone; afterwards both typed getters return nothing |
| EditorStore.Store.DeleteAll | src/stores/editorStore.ts:166-173 | empties both lists and the selection, keeping the tool and the route request |
| PlayStore.Store.constructor | src/store/usePlayStore.ts:23-27 | no play, nothing selected, select mode |
| PlayStore.Store.SetPlay | src/store/usePlayStore.ts:29 | replaces the play wholesale |
| PlayStore.Store.AddPlayer | src/store/usePlayStore.ts:31-39 | appends to the play's players; no play stays no play |
| PlayStore.Store.UpdatePlayer | src/store/usePlayStore.ts:41-51 | merges into the play's players with that id only; no play stays no play |
| PlayStore.Store.RemovePlayer | src/store/usePlayStore.ts:53-61 | removes that player only, its lines stay; no play stays no play |
| PlayStore.Store.AddLine | src/store/usePlayStore.ts:63-71 | appends to the play's lines; no play stays no play |
| PlayStore.Store.UpdateLine | src/store/usePlayStore.ts:73-83 | merges into the play's lines with that id only; no play stays no play |
| PlayStore.Store.RemoveLine | src/store/usePlayStore.ts:85-93 | removes the lines with that id, players untouched; no play stays no play |
| PlayStore.Store.SetSelectedPlayer | src/store/usePlayStore.ts:95 | changes only the selected player id |
| PlayStore.Store.SetSelectedLine | src/store/usePlayStore.ts:96 | changes only the selected line id |
| PlayStore.Store.SetMode | src/store/usePlayStore.ts:97 | changes only the mode |

## Left out

- Canvas and Konva rendering: field markings, yard numbers, glow effects, arrowheads and the drawing of routes and arrows (trigonometry and floating point). The drawing order of route points is modelled only as the numbering it shares with the hit test.
- EditorEdits.NewArrow: a new curve stores the corrected control point `(pointer − start) / 2`, not the `(pointer + start) / 2` the source stores (`react-router/src/Editor.tsx:132-135`). EditorApp.Editor.PlaceArrow and EditorApp.Editor.StageClick use it, so they model the intended behaviour. The value as written is EditorEdits.CurveControlAsWritten, and "## Findings" records the discrepancy.
- EditorGraph.MaxPlayerNumber: the `P<n>` counter is an unbounded natural number. The source keeps it in a JavaScript `Number` (`react-router/src/Editor.tsx:60-65`, `90`, `100`), which is exact only up to 2^53 − 1 (`Number.MAX_SAFE_INTEGER`). From 2^53 on, `parseInt`, `Math.max` and `+ 1` round, so loading `P9007199254740992` gives a counter that repeats that id. From 10^21 on the id prints in exponent form (`P1e+21`), and a suffix of about 309 digits parses to `Infinity` (`PInfinity`). The model's promises about the counter hold only below 2^53.
- EditorGraph.NextIdAboveLoaded: exact only while the largest loaded number is below 2^53 − 1, as for EditorGraph.MaxPlayerNumber.
- EditorGraph.PlayerIdRoundTrip: the round trip holds in the source only for n up to 2^53 − 1; above that the printed digits are those of the rounded number, and from 10^21 on they are in exponent form.
- EditorGraph.FreshPlayerId: freshness holds in the source only while the counter is at most 2^53 − 1, as for EditorGraph.MaxPlayerNumber.
- EditorEdits.AddPlayerKeepsNumbering: the incremented counter stays above every number only while it is at most 2^53 − 1; at 2^53 the source's `n + 1` leaves it unchanged and the next player repeats the id.
- EditorApp.Editor.LoadPlayers: derives the counter exactly; the source's derivation is exact only for numbers up to 2^53 − 1.
- EditorApp.Editor.PlacePlayer: the fresh-id promise holds in the source only while the counter is at most 2^53 − 1.
- EditorApp.Editor.StageClick: in add-player mode, inherits the 2^53 − 1 limit of EditorApp.Editor.PlacePlayer.
- EditorApp.Editor.DragArrowEnd: the end handle is drawn only when the arrow is the selected element, one of its ancestor arrows or one of its descendant arrows (`visible={showCircle}`, `react-router/src/Editor.tsx:490-499`, `540`). The method does not require this, so it also covers drags the interface does not offer. EditorApp.Editor.DragControlPoint likewise leaves out the same condition on the control handle (`react-router/src/Editor.tsx:565-574`, `606`).
- Floating point and `Math.sqrt`: coordinates are exact reals and distances are compared squared.
- FieldGeometry.ClosestPointIsNearest: stated for a zero-length segment (`a == b`) and for a segment whose squared length is non-zero. The lemma does not prove that these two cases cover every segment: that a zero squared length forces `a == b` needs nonlinear real arithmetic that the solver does not settle. FieldGeometry.NearSegmentExactly carries the same requirement.
- The field size constants, the player radius and the five-yard gut length (`src/components/Field.tsx:231-278`, `1221-1225`). They are parameters.
- `Date.now()` and `crypto.randomUUID()`. Clock readings are parameters, and a stage click that places an arrow requires the new arrow id to be unused.
- `fetch("/api/players")`: the loaded players are a parameter of `LoadPlayers`.
- The split-at-selected-point branch of the route-drawing effect (`src/components/Field.tsx:330-521`). `FieldCanvas.Field.StartRouteDrawing` requires that this branch does not apply. That branch builds paths with an extra index and shares the continuation's branch array, so it has no clean promise to state.
- FieldCanvas.Field.ChangeSegmentType: a path that does not resolve makes the source throw a TypeError. The model leaves the lines unchanged instead.
- FieldRoutes.GetSegmentByPath: for a path of two or more indices whose first index is past the route's segments, the source reads `branches` of `undefined` and throws a TypeError (`src/components/Field.tsx:536-538`). The model returns none, as it does for an unresolved path. A one-index path past the end gives `undefined` in the source too, which the caller treats as no segment.
- FieldCanvas.PlanBranchFromEnd: besides that case, a selected segment with no points makes the source read `x` of `undefined` and throw (`src/components/Field.tsx:567-575`). The model returns none for both.
- FieldCanvas.Field.AddBranchFromEnd: on the two inputs above the source's effect throws. The model leaves the state unchanged instead. FieldCanvas.Field.StartRouteDrawing inherits this for a line id.
- FieldCanvas.Field.AddBranchFromEnd: with several routes sharing an id, the source takes the new branch index from the last one it updates. The model takes it from the first.
- Update in place and aliasing: `updateSegmentByPath` mutates the shallow-copied segment tree, which the previous state shares. The model works on values.
- Explicit `undefined` in an update patch: a patch field is either given or omitted. Likewise `selectElement` with no segment path stores `null` rather than `undefined`.
- Component callbacks (`onPlayerSelect`, `onLineSelect`, `onRouteDrawingStart`, `onToolChange`, the controlled-props forwarding of `setPlayers`/`setLines`), `useImperativeHandle` and the `window._fieldUpdatePlayer` global. The tool switch back to `select` after placing a player is one of these callbacks.
- The stale render closure of React handlers: each handler is modelled as reading the current state.
- The `PlayData` type is not part of this model's sources. It is modelled with the fields that `src/index.tsx:10-18` builds, and `PlayStore.Store.SetPlay` takes it as given.
- Zustand and devtools plumbing: each store is a class whose methods are the actions.

## Findings

| source | as written | input that shows it | evidently intended | confidence | as-written member | corrected member |
|---|---|---|---|---|---|---|
| react-router/src/Editor.tsx:130-146 | add-curve stores the absolute midpoint `(pt + start) / 2` as `controlPoint`, but the control point is drawn relative to the arrow's start (line 380 adds `fromX`) | a player at (100,100) and a click at (180,100): the handle is drawn at (240,200) | the handle at the midpoint (140,100), i.e. store `(pt − start) / 2` as the comment at line 131 says | high, not executed | EditorEdits.CurveControlAsWrittenExample | EditorEdits.AddCurveControlAtMidpoint |
