/**
 * The play diagram's entities (src/types/index.ts): players on the field and branching
 * route lines, with the list operations the stores and the field share.
 */
module PlayTypes {
  import opened Basics

  datatype Team = Offense | Defense
  datatype Shape = Circle | Square

  datatype Player = Player(
    id: string, x: real, y: real, team: Team, shape: Shape, color: string, labelText: Option<string>)

  datatype LineType = Solid | Dashed | Dotted

  /** A run of points drawn in one style; its branches start at its last point. A missing `branches` is `[]`. */
  datatype LineSegment = LineSegment(points: seq<Point>, lineType: LineType, branches: seq<LineSegment>)

  datatype Line = Line(id: string, playerId: string, segments: seq<LineSegment>)

  /** `CurrentTool`: selecting and dragging, or placing a new player. */
  datatype Tool = SelectTool | PlayerTool

  /** `RouteDrawingState`: start a route at a player, or add a branch to a line. */
  datatype RouteDrawingState = RouteDrawingState(playerId: Option<string>, lineId: Option<string>, routeType: LineType)

  /** `Partial<Player>`: every field may be given. */
  datatype PlayerPatch = PlayerPatch(
    id: Option<string>, x: Option<real>, y: Option<real>, team: Option<Team>,
    shape: Option<Shape>, color: Option<string>, labelText: Option<string>)

  /** `Partial<Line>`. */
  datatype LinePatch = LinePatch(id: Option<string>, playerId: Option<string>, segments: Option<seq<LineSegment>>)

  function Pick<T>(given: Option<T>, current: T): T
  {
    if given.Some? then given.value else current
  }

  /** `{ ...p, ...updates }`: given fields win, the others are kept. */
  function MergePlayer(p: Player, u: PlayerPatch): (r: Player)
    ensures u.id.Some? ==> r.id == u.id.value
    ensures u.id.None? ==> r.id == p.id
    ensures u.x.Some? ==> r.x == u.x.value
    ensures u.x.None? ==> r.x == p.x
    ensures u.y.Some? ==> r.y == u.y.value
    ensures u.y.None? ==> r.y == p.y
    ensures u.team.Some? ==> r.team == u.team.value
    ensures u.team.None? ==> r.team == p.team
    ensures u.shape.Some? ==> r.shape == u.shape.value
    ensures u.shape.None? ==> r.shape == p.shape
    ensures u.color.Some? ==> r.color == u.color.value
    ensures u.color.None? ==> r.color == p.color
    ensures u.labelText.Some? ==> r.labelText == u.labelText
    ensures u.labelText.None? ==> r.labelText == p.labelText
    ensures u == PlayerPatch(None, None, None, None, None, None, None) ==> r == p
  {
    Player(Pick(u.id, p.id), Pick(u.x, p.x), Pick(u.y, p.y), Pick(u.team, p.team),
           Pick(u.shape, p.shape), Pick(u.color, p.color),
           if u.labelText.Some? then u.labelText else p.labelText)
  }

  /** `{ ...l, ...updates }`. */
  function MergeLine(l: Line, u: LinePatch): (r: Line)
    ensures u.id.Some? ==> r.id == u.id.value
    ensures u.id.None? ==> r.id == l.id
    ensures u.playerId.Some? ==> r.playerId == u.playerId.value
    ensures u.playerId.None? ==> r.playerId == l.playerId
    ensures u.segments.Some? ==> r.segments == u.segments.value
    ensures u.segments.None? ==> r.segments == l.segments
    ensures u == LinePatch(None, None, None) ==> r == l
  {
    Line(Pick(u.id, l.id), Pick(u.playerId, l.playerId), Pick(u.segments, l.segments))
  }

  predicate HasPlayer(ps: seq<Player>, id: string)
  {
    exists p :: p in ps && p.id == id
  }

  predicate HasLine(ls: seq<Line>, id: string)
  {
    exists l :: l in ls && l.id == id
  }

  /** `players.filter((p) => p.id !== id)`. */
  function WithoutPlayer(ps: seq<Player>, id: string): (r: seq<Player>)
    ensures forall p :: p in r <==> p in ps && p.id != id
    ensures |r| <= |ps|
  {
    if ps == [] then []
    else (if ps[0].id != id then [ps[0]] else []) + WithoutPlayer(ps[1..], id)
  }

  /** `lines.filter((l) => l.id !== id)`. */
  function WithoutLine(ls: seq<Line>, id: string): (r: seq<Line>)
    ensures forall l :: l in r <==> l in ls && l.id != id
    ensures |r| <= |ls|
  {
    if ls == [] then []
    else (if ls[0].id != id then [ls[0]] else []) + WithoutLine(ls[1..], id)
  }

  /** `lines.filter((l) => l.playerId !== playerId)`: drop the routes of one player. */
  function WithoutLinesOf(ls: seq<Line>, playerId: string): (r: seq<Line>)
    ensures forall l :: l in r <==> l in ls && l.playerId != playerId
    ensures |r| <= |ls|
  {
    if ls == [] then []
    else (if ls[0].playerId != playerId then [ls[0]] else []) + WithoutLinesOf(ls[1..], playerId)
  }

  /** `players.map((p) => p.id === id ? { ...p, ...updates } : p)`. */
  function UpdatePlayers(ps: seq<Player>, id: string, u: PlayerPatch): (r: seq<Player>)
    ensures |r| == |ps|
    ensures forall i :: 0 <= i < |ps| ==> r[i] == if ps[i].id == id then MergePlayer(ps[i], u) else ps[i]
  {
    if ps == [] then [] else [if ps[0].id == id then MergePlayer(ps[0], u) else ps[0]] + UpdatePlayers(ps[1..], id, u)
  }

  /** `lines.map((l) => l.id === id ? { ...l, ...updates } : l)`. */
  function UpdateLines(ls: seq<Line>, id: string, u: LinePatch): (r: seq<Line>)
    ensures |r| == |ls|
    ensures forall i :: 0 <= i < |ls| ==> r[i] == if ls[i].id == id then MergeLine(ls[i], u) else ls[i]
  {
    if ls == [] then [] else [if ls[0].id == id then MergeLine(ls[0], u) else ls[0]] + UpdateLines(ls[1..], id, u)
  }

  /** `players.find((p) => p.id === id)`. */
  function FindPlayer(ps: seq<Player>, id: string): (r: Option<Player>)
    ensures r.Some? <==> HasPlayer(ps, id)
    ensures r.Some? ==> r.value in ps && r.value.id == id
    ensures r.Some? ==> exists i :: 0 <= i < |ps| && ps[i] == r.value && forall j :: 0 <= j < i ==> ps[j].id != id
  {
    if ps == [] then None
    else if ps[0].id == id then Some(ps[0])
    else
      var r := FindPlayer(ps[1..], id);
      if r.Some? then
        var i :| 0 <= i < |ps[1..]| && ps[1..][i] == r.value && forall j :: 0 <= j < i ==> ps[1..][j].id != id;
        assert ps[i + 1] == r.value;
        r
      else
        r
  }

  /** `lines.find((l) => l.id === id)`. */
  function FindLine(ls: seq<Line>, id: string): (r: Option<Line>)
    ensures r.Some? <==> HasLine(ls, id)
    ensures r.Some? ==> r.value in ls && r.value.id == id
    ensures r.Some? ==> exists i :: 0 <= i < |ls| && ls[i] == r.value && forall j :: 0 <= j < i ==> ls[j].id != id
  {
    if ls == [] then None
    else if ls[0].id == id then Some(ls[0])
    else
      var r := FindLine(ls[1..], id);
      if r.Some? then
        var i :| 0 <= i < |ls[1..]| && ls[1..][i] == r.value && forall j :: 0 <= j < i ==> ls[1..][j].id != id;
        assert ls[i + 1] == r.value;
        r
      else
        r
  }

  /** Filtering out an id that no player carries changes nothing. */
  lemma {:induction false} WithoutAbsentPlayer(ps: seq<Player>, id: string)
    requires !HasPlayer(ps, id)
    ensures WithoutPlayer(ps, id) == ps
  {
    if ps != [] {
      assert !HasPlayer(ps[1..], id) by {
        forall p | p in ps[1..]
          ensures p.id != id
        {
          assert p in ps;
        }
      }
      WithoutAbsentPlayer(ps[1..], id);
      assert ps == [ps[0]] + ps[1..];
    }
  }

  /** Filtering out an id that no line carries changes nothing. */
  lemma {:induction false} WithoutAbsentLine(ls: seq<Line>, id: string)
    requires !HasLine(ls, id)
    ensures WithoutLine(ls, id) == ls
  {
    if ls != [] {
      assert !HasLine(ls[1..], id) by {
        forall l | l in ls[1..]
          ensures l.id != id
        {
          assert l in ls;
        }
      }
      WithoutAbsentLine(ls[1..], id);
      assert ls == [ls[0]] + ls[1..];
    }
  }

  /** Removal is a filter: it distributes over concatenation, so the survivors keep their order. */
  lemma {:induction false} WithoutPlayerConcat(a: seq<Player>, b: seq<Player>, id: string)
    ensures WithoutPlayer(a + b, id) == WithoutPlayer(a, id) + WithoutPlayer(b, id)
    decreases |a|
  {
    if a != [] {
      assert (a + b)[1..] == a[1..] + b;
      WithoutPlayerConcat(a[1..], b, id);
    } else {
      assert a + b == b;
    }
  }

  lemma {:induction false} WithoutLineConcat(a: seq<Line>, b: seq<Line>, id: string)
    ensures WithoutLine(a + b, id) == WithoutLine(a, id) + WithoutLine(b, id)
    decreases |a|
  {
    if a != [] {
      assert (a + b)[1..] == a[1..] + b;
      WithoutLineConcat(a[1..], b, id);
    } else {
      assert a + b == b;
    }
  }

  lemma {:induction false} WithoutLinesOfConcat(a: seq<Line>, b: seq<Line>, playerId: string)
    ensures WithoutLinesOf(a + b, playerId) == WithoutLinesOf(a, playerId) + WithoutLinesOf(b, playerId)
    decreases |a|
  {
    if a != [] {
      assert (a + b)[1..] == a[1..] + b;
      WithoutLinesOfConcat(a[1..], b, playerId);
    } else {
      assert a + b == b;
    }
  }

  /** An update for an id that no player carries changes nothing. */
  lemma UpdateAbsentPlayer(ps: seq<Player>, id: string, u: PlayerPatch)
    requires !HasPlayer(ps, id)
    ensures UpdatePlayers(ps, id, u) == ps
  {
    var r := UpdatePlayers(ps, id, u);
    forall i | 0 <= i < |ps|
      ensures r[i] == ps[i]
    {
      assert ps[i] in ps;
    }
  }

  /** An update for an id that no line carries changes nothing. */
  lemma UpdateAbsentLine(ls: seq<Line>, id: string, u: LinePatch)
    requires !HasLine(ls, id)
    ensures UpdateLines(ls, id, u) == ls
  {
    var r := UpdateLines(ls, id, u);
    forall i | 0 <= i < |ls|
      ensures r[i] == ls[i]
    {
      assert ls[i] in ls;
    }
  }

  /** Adding a player with a new id and then removing that id gives the list back; the id finds the new player. */
  lemma AddThenRemovePlayer(ps: seq<Player>, p: Player)
    requires !HasPlayer(ps, p.id)
    ensures FindPlayer(ps + [p], p.id) == Some(p)
    ensures WithoutPlayer(ps + [p], p.id) == ps
  {
    var r := FindPlayer(ps + [p], p.id);
    var i :| 0 <= i < |ps + [p]| && (ps + [p])[i] == r.value && forall j :: 0 <= j < i ==> (ps + [p])[j].id != p.id;
    WithoutPlayerConcat(ps, [p], p.id);
    WithoutAbsentPlayer(ps, p.id);
  }

  /** Adding a line with a new id and then removing that id gives the list back; the id finds the new line. */
  lemma AddThenRemoveLine(ls: seq<Line>, l: Line)
    requires !HasLine(ls, l.id)
    ensures FindLine(ls + [l], l.id) == Some(l)
    ensures WithoutLine(ls + [l], l.id) == ls
  {
    var r := FindLine(ls + [l], l.id);
    var i :| 0 <= i < |ls + [l]| && (ls + [l])[i] == r.value && forall j :: 0 <= j < i ==> (ls + [l])[j].id != l.id;
    WithoutLineConcat(ls, [l], l.id);
    WithoutAbsentLine(ls, l.id);
  }
}
