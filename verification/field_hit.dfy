/**
 * What a mouse press on the field lands on (src/components/Field.tsx, `handleMouseDown`):
 * a player disc, a route's point handle, or a route's line. Each search returns the
 * first hit in list order and is proved equal to a search function characterising it.
 */
module FieldHit {
  import opened Basics
  import opened PlayTypes
  import opened FieldGeometry
  import opened FieldRoutes

  function Position(p: Player): Point
  {
    Point(p.x, p.y)
  }

  // ---------------------------------------------------------------------------
  // Players

  /** The index of the first player whose disc of radius `radius` holds `pos`. */
  function FirstPlayerAt(ps: seq<Player>, pos: Point, radius: real): (r: Option<nat>)
    ensures r.Some? ==>
              && r.value < |ps| && WithinRadius(pos, Position(ps[r.value]), radius)
              && forall j :: 0 <= j < r.value ==> !WithinRadius(pos, Position(ps[j]), radius)
    ensures r.None? ==> forall j :: 0 <= j < |ps| ==> !WithinRadius(pos, Position(ps[j]), radius)
  {
    if ps == [] then None
    else if WithinRadius(pos, Position(ps[0]), radius) then Some(0)
    else
      var rest := FirstPlayerAt(ps[1..], pos, radius);
      assert forall j :: 1 <= j < |ps| ==> ps[j] == ps[1..][j - 1];
      if rest.Some? then Some(rest.value + 1) else None
  }

  /** The player loop of `handleMouseDown` and `handleMouseMove`: stop at the first player within the radius. */
  method FindPlayerAt(ps: seq<Player>, pos: Point, radius: real) returns (r: Option<nat>)
    ensures r == FirstPlayerAt(ps, pos, radius)
  {
    for i := 0 to |ps|
      invariant forall j :: 0 <= j < i ==> !WithinRadius(pos, Position(ps[j]), radius)
    {
      if WithinRadius(pos, Position(ps[i]), radius) {
        return Some(i);
      }
    }
    return None;
  }

  // ---------------------------------------------------------------------------
  // Point handles

  /** A point press within 15 of an arrowhead, or within 8 of any other point, grabs it. */
  const ArrowheadTolerance: real := 15.0
  const PointTolerance: real := 8.0

  datatype Handle = Handle(at: Point, tolerance: real)

  predicate Grabs(h: Handle, pos: Point)
  {
    DistSq(pos, h.at) <= h.tolerance * h.tolerance
  }

  /** A segment's own handles; the last point is an arrowhead when the segment has no branches. */
  function PointHandles(ps: seq<Point>, leaf: bool): seq<Handle>
  {
    seq(|ps|, i requires 0 <= i < |ps| =>
      Handle(ps[i], if leaf && i == |ps| - 1 then ArrowheadTolerance else PointTolerance))
  }

  /** The handles of a segment, in the order `checkSegmentPoints` tries them. */
  function SegmentHandles(s: LineSegment): seq<Handle>
    decreases s, 1
  {
    PointHandles(s.points, s.branches == []) + HandlesAll(s.branches)
  }

  function HandlesAll(ss: seq<LineSegment>): seq<Handle>
    decreases ss, 0
  {
    if ss == [] then [] else HandlesAll(ss[..|ss| - 1]) + SegmentHandles(ss[|ss| - 1])
  }

  function Positions(hs: seq<Handle>): seq<Point>
  {
    seq(|hs|, i requires 0 <= i < |hs| => hs[i].at)
  }

  lemma PositionsConcat(a: seq<Handle>, b: seq<Handle>)
    ensures Positions(a + b) == Positions(a) + Positions(b)
  {
    var l, r := Positions(a + b), Positions(a) + Positions(b);
    forall i | 0 <= i < |l|
      ensures l[i] == r[i]
    {
      if i < |a| {
        assert (a + b)[i] == a[i];
      } else {
        assert (a + b)[i] == b[i - |a|];
      }
    }
  }

  /** Handle `k` sits on numbered point `k`: hit-testing counts points as drawing and dragging do. */
  lemma {:induction false} HandlesFollowNumbering(s: LineSegment)
    ensures Positions(SegmentHandles(s)) == Flatten(s)
    decreases s, 1
  {
    HandlesAllFollowNumbering(s.branches);
    PositionsConcat(PointHandles(s.points, s.branches == []), HandlesAll(s.branches));
    assert Positions(PointHandles(s.points, s.branches == [])) == s.points;
  }

  lemma {:induction false} HandlesAllFollowNumbering(ss: seq<LineSegment>)
    ensures Positions(HandlesAll(ss)) == FlattenAll(ss)
    decreases ss, 0
  {
    if ss != [] {
      HandlesAllFollowNumbering(ss[..|ss| - 1]);
      HandlesFollowNumbering(ss[|ss| - 1]);
      PositionsConcat(HandlesAll(ss[..|ss| - 1]), SegmentHandles(ss[|ss| - 1]));
    }
  }

  /** Every handle's tolerance is one of the two the field uses. */
  lemma {:induction false} HandleTolerances(s: LineSegment)
    ensures forall h :: h in SegmentHandles(s) ==> h.tolerance == ArrowheadTolerance || h.tolerance == PointTolerance
    decreases s, 1
  {
    HandlesAllTolerances(s.branches);
  }

  lemma {:induction false} HandlesAllTolerances(ss: seq<LineSegment>)
    ensures forall h :: h in HandlesAll(ss) ==> h.tolerance == ArrowheadTolerance || h.tolerance == PointTolerance
    decreases ss, 0
  {
    if ss != [] {
      HandlesAllTolerances(ss[..|ss| - 1]);
      HandleTolerances(ss[|ss| - 1]);
    }
  }

  lemma HandlesAllStep(ss: seq<LineSegment>, j: nat)
    requires j < |ss|
    ensures HandlesAll(ss[..j + 1]) == HandlesAll(ss[..j]) + SegmentHandles(ss[j])
  {
    assert ss[..j + 1][..j] == ss[..j];
  }

  /** The handles of a list split anywhere are the handles of the two parts. */
  lemma {:induction false} HandlesAllSplit(ss: seq<LineSegment>, j: nat)
    requires j <= |ss|
    ensures HandlesAll(ss) == HandlesAll(ss[..j]) + HandlesAll(ss[j..])
    decreases |ss|
  {
    if j == |ss| {
      assert ss[..j] == ss && ss[j..] == [];
    } else {
      var init := ss[..|ss| - 1];
      HandlesAllSplit(init, j);
      assert init[..j] == ss[..j];
      assert ss[j..][..|ss[j..]| - 1] == init[j..];
      assert ss[j..][|ss[j..]| - 1] == ss[|ss| - 1];
    }
  }

  /** The index of the first handle that grabs `pos`. */
  function FirstGrab(hs: seq<Handle>, pos: Point): (r: Option<nat>)
    ensures r.Some? ==>
              && r.value < |hs| && Grabs(hs[r.value], pos)
              && forall j :: 0 <= j < r.value ==> !Grabs(hs[j], pos)
    ensures r.None? ==> forall j :: 0 <= j < |hs| ==> !Grabs(hs[j], pos)
  {
    if hs == [] then None
    else if Grabs(hs[0], pos) then Some(0)
    else
      var rest := FirstGrab(hs[1..], pos);
      assert forall j :: 1 <= j < |hs| ==> hs[j] == hs[1..][j - 1];
      if rest.Some? then Some(rest.value + 1) else None
  }

  lemma FirstGrabIs(hs: seq<Handle>, pos: Point, k: nat)
    requires k < |hs| && Grabs(hs[k], pos)
    requires forall j :: 0 <= j < k ==> !Grabs(hs[j], pos)
    ensures FirstGrab(hs, pos) == Some(k)
  {
  }

  function Offset(o: Option<nat>, n: nat): Option<nat>
  {
    if o.Some? then Some(o.value + n) else None
  }

  /** Searching a concatenation: the first part's hit if it has one, else the second part's, shifted. */
  lemma FirstGrabConcat(a: seq<Handle>, b: seq<Handle>, pos: Point)
    ensures FirstGrab(a + b, pos) == if FirstGrab(a, pos).Some? then FirstGrab(a, pos) else Offset(FirstGrab(b, pos), |a|)
  {
    var ab := a + b;
    if FirstGrab(a, pos).Some? {
      var k := FirstGrab(a, pos).value;
      assert forall j :: 0 <= j <= k ==> ab[j] == a[j];
      FirstGrabIs(ab, pos, k);
    } else {
      assert forall j :: 0 <= j < |a| ==> ab[j] == a[j];
      assert forall j :: 0 <= j < |b| ==> ab[|a| + j] == b[j];
      if FirstGrab(b, pos).Some? {
        var k := FirstGrab(b, pos).value;
        forall j | 0 <= j < |a| + k
          ensures !Grabs(ab[j], pos)
        {
          if j >= |a| {
            assert ab[j] == b[j - |a|];
          }
        }
        FirstGrabIs(ab, pos, |a| + k);
      } else {
        forall j | 0 <= j < |ab|
          ensures !Grabs(ab[j], pos)
        {
          if j >= |a| {
            assert ab[j] == b[j - |a|];
          }
        }
      }
    }
  }

  /**
   * `checkSegmentPoints`: tries the segment's points in order with the shared counter,
   * then its branches; on a grab the counter names the grabbed point.
   */
  method CheckSegmentPoints(s: LineSegment, pos: Point, counter: nat) returns (found: Option<nat>, next: nat)
    ensures found == Offset(FirstGrab(SegmentHandles(s), pos), counter)
    ensures found.None? ==> next == counter + |SegmentHandles(s)|
    decreases s, 1
  {
    var own := PointHandles(s.points, s.branches == []);
    next := counter;
    for i := 0 to |s.points|
      invariant next == counter + i
      invariant forall j :: 0 <= j < i ==> !Grabs(own[j], pos)
    {
      var isArrowhead := i == |s.points| - 1 && |s.branches| == 0;
      var tolerance := if isArrowhead then ArrowheadTolerance else PointTolerance;
      assert own[i] == Handle(s.points[i], tolerance);
      if DistSq(pos, s.points[i]) <= tolerance * tolerance {
        FirstGrabIs(own, pos, i);
        FirstGrabConcat(own, HandlesAll(s.branches), pos);
        return Some(next), next;
      }
      next := next + 1;
    }
    found, next := CheckSegmentsPoints(s.branches, pos, next);
    FirstGrabConcat(own, HandlesAll(s.branches), pos);
  }

  /** The same search over a list of segments (a segment's branches, or a line's segments), one counter throughout. */
  method CheckSegmentsPoints(ss: seq<LineSegment>, pos: Point, counter: nat) returns (found: Option<nat>, next: nat)
    ensures found == Offset(FirstGrab(HandlesAll(ss), pos), counter)
    ensures found.None? ==> next == counter + |HandlesAll(ss)|
    decreases ss, 0
  {
    next := counter;
    for j := 0 to |ss|
      invariant FirstGrab(HandlesAll(ss[..j]), pos) == None
      invariant next == counter + |HandlesAll(ss[..j])|
    {
      var f, after := CheckSegmentPoints(ss[j], pos, next);
      HandlesAllStep(ss, j);
      FirstGrabConcat(HandlesAll(ss[..j]), SegmentHandles(ss[j]), pos);
      if f.Some? {
        HandlesAllSplit(ss, j + 1);
        FirstGrabConcat(HandlesAll(ss[..j + 1]), HandlesAll(ss[j + 1..]), pos);
        return f, after;
      }
      next := after;
    }
    assert ss[..|ss|] == ss;
    return None, next;
  }

  /** The handle a press selects: a line and the number of the grabbed point. */
  datatype PointRef = PointRef(lineId: string, pointIndex: nat)

  /** The first line, in list order, with a handle that grabs `pos`, and that handle's number. */
  function FirstPointHit(ls: seq<Line>, pos: Point): Option<PointRef>
  {
    if ls == [] then None
    else
      var k := FirstGrab(HandlesAll(ls[0].segments), pos);
      if k.Some? then Some(PointRef(ls[0].id, k.value)) else FirstPointHit(ls[1..], pos)
  }

  /** The point loop of `handleMouseDown`: each line's handles are tried with a counter starting at 0. */
  method FindPointHit(ls: seq<Line>, pos: Point) returns (hit: Option<PointRef>)
    ensures hit == FirstPointHit(ls, pos)
  {
    for i := 0 to |ls|
      invariant FirstPointHit(ls, pos) == FirstPointHit(ls[i..], pos)
    {
      assert ls[i..][1..] == ls[i + 1..];
      var found, _ := CheckSegmentsPoints(ls[i].segments, pos, 0);
      if found.Some? {
        return Some(PointRef(ls[i].id, found.value));
      }
    }
    assert ls[|ls|..] == [];
    return None;
  }

  /**
   * A point hit names a line of the list and one of its numbered points, and that point
   * lies within the arrowhead tolerance of the press.
   */
  lemma {:induction false} PointHitIsNumberedPoint(ls: seq<Line>, pos: Point)
    requires FirstPointHit(ls, pos).Some?
    ensures var h := FirstPointHit(ls, pos).value;
            exists i :: 0 <= i < |ls| && ls[i].id == h.lineId
                        && h.pointIndex < |FlattenAll(ls[i].segments)|
                        && DistSq(pos, FlattenAll(ls[i].segments)[h.pointIndex]) <= ArrowheadTolerance * ArrowheadTolerance
  {
    var h := FirstPointHit(ls, pos).value;
    var hs := HandlesAll(ls[0].segments);
    var k := FirstGrab(hs, pos);
    if k.Some? {
      HandlesAllFollowNumbering(ls[0].segments);
      HandlesAllTolerances(ls[0].segments);
      assert Positions(hs)[k.value] == hs[k.value].at;
      assert hs[k.value] in hs;
      assert 0 <= 0 < |ls| && ls[0].id == h.lineId;
    } else {
      PointHitIsNumberedPoint(ls[1..], pos);
      var i :| 0 <= i < |ls[1..]| && ls[1..][i].id == h.lineId
               && h.pointIndex < |FlattenAll(ls[1..][i].segments)|
               && DistSq(pos, FlattenAll(ls[1..][i].segments)[h.pointIndex]) <= ArrowheadTolerance * ArrowheadTolerance;
      assert ls[i + 1] == ls[1..][i];
    }
  }

  // ---------------------------------------------------------------------------
  // Lines

  /** Where a segment's branches start: its last point, or its own start when it has no points. */
  function EndOf(s: LineSegment, start: Point): Point
  {
    if |s.points| > 0 then s.points[|s.points| - 1] else start
  }

  predicate InnerHit(ps: seq<Point>, pos: Point)
  {
    exists i :: 0 <= i < |ps| - 1 && NearSegment(pos, ps[i], ps[i + 1])
  }

  /**
   * `checkSegmentHit`: the segment's own path if the press is near the piece from its
   * start to its first point or near a piece between its points, else the first branch
   * hit (branches start at the segment's end), else none.
   */
  function SegmentHit(s: LineSegment, start: Point, path: seq<nat>, pos: Point): Option<seq<nat>>
    decreases s, 1, 0
  {
    if |s.points| > 0 && NearSegment(pos, start, s.points[0]) then Some(path)
    else if InnerHit(s.points, pos) then Some(path)
    else BranchesHit(s.branches, EndOf(s, start), path, 0, pos)
  }

  function BranchesHit(bs: seq<LineSegment>, end: Point, path: seq<nat>, k: nat, pos: Point): Option<seq<nat>>
    decreases bs, 0, |bs| - k
  {
    if k >= |bs| then None
    else
      var r := SegmentHit(bs[k], end, path + [k], pos);
      if r.Some? then r else BranchesHit(bs, end, path, k + 1, pos)
  }

  method CheckSegmentHit(s: LineSegment, start: Point, path: seq<nat>, pos: Point) returns (hit: bool, hitPath: seq<nat>)
    ensures hit == SegmentHit(s, start, path, pos).Some?
    ensures hit ==> hitPath == SegmentHit(s, start, path, pos).value
    ensures !hit ==> hitPath == []
    decreases s
  {
    if |s.points| > 0 && SegmentDistSq(pos, start, s.points[0]) < LineHitDistance * LineHitDistance {
      return true, path;
    }
    var i := 0;
    while i + 1 < |s.points|
      invariant i == 0 || i < |s.points|
      invariant forall j :: 0 <= j < i ==> !NearSegment(pos, s.points[j], s.points[j + 1])
      decreases |s.points| - i
    {
      if SegmentDistSq(pos, s.points[i], s.points[i + 1]) < LineHitDistance * LineHitDistance {
        assert NearSegment(pos, s.points[i], s.points[i + 1]);
        return true, path;
      }
      i := i + 1;
    }
    var end := EndOf(s, start);
    for k := 0 to |s.branches|
      invariant BranchesHit(s.branches, end, path, 0, pos) == BranchesHit(s.branches, end, path, k, pos)
    {
      var h, p := CheckSegmentHit(s.branches[k], end, path + [k], pos);
      if h {
        return true, p;
      }
    }
    return false, [];
  }

  /** A line's segments tried in order, each starting where the previous one ended; segment `k` has path `[k]`. */
  function SegmentsHit(segs: seq<LineSegment>, current: Point, k: nat, pos: Point): Option<seq<nat>>
    decreases |segs| - k
  {
    if k >= |segs| then None
    else
      var r := SegmentHit(segs[k], current, [k], pos);
      if r.Some? then r else SegmentsHit(segs, EndOf(segs[k], current), k + 1, pos)
  }

  /** The segment loop of `handleMouseDown`, starting from the player's position. */
  method CheckLineSegments(segs: seq<LineSegment>, start: Point, pos: Point) returns (r: Option<seq<nat>>)
    ensures r == SegmentsHit(segs, start, 0, pos)
  {
    var current := start;
    for k := 0 to |segs|
      invariant SegmentsHit(segs, start, 0, pos) == SegmentsHit(segs, current, k, pos)
    {
      var hit, path := CheckSegmentHit(segs[k], current, [k], pos);
      if hit {
        return Some(path);
      }
      if |segs[k].points| > 0 {
        current := segs[k].points[|segs[k].points| - 1];
      }
    }
    return None;
  }

  datatype LineHit = LineHit(lineId: string, path: seq<nat>)

  /** The first line, in list order, that the press is near; a line whose player is missing is skipped. */
  function FirstLineHit(ls: seq<Line>, ps: seq<Player>, pos: Point): Option<LineHit>
  {
    if ls == [] then None
    else
      var owner := FindPlayer(ps, ls[0].playerId);
      if owner.None? then FirstLineHit(ls[1..], ps, pos)
      else
        var r := SegmentsHit(ls[0].segments, Position(owner.value), 0, pos);
        if r.Some? then Some(LineHit(ls[0].id, r.value)) else FirstLineHit(ls[1..], ps, pos)
  }

  /** The line loop of `handleMouseDown`. */
  method FindLineHit(ls: seq<Line>, ps: seq<Player>, pos: Point) returns (hit: Option<LineHit>)
    ensures hit == FirstLineHit(ls, ps, pos)
  {
    for i := 0 to |ls|
      invariant FirstLineHit(ls, ps, pos) == FirstLineHit(ls[i..], ps, pos)
    {
      assert ls[i..][1..] == ls[i + 1..];
      var owner := FindPlayer(ps, ls[i].playerId);
      if owner.Some? {
        var r := CheckLineSegments(ls[i].segments, Position(owner.value), pos);
        if r.Some? {
          return Some(LineHit(ls[i].id, r.value));
        }
      }
    }
    assert ls[|ls|..] == [];
    return None;
  }

  /** A segment hit extends the segment's own path by branch indices that lead to a segment. */
  lemma {:induction false} SegmentHitResolves(s: LineSegment, start: Point, path: seq<nat>, pos: Point)
    requires SegmentHit(s, start, path, pos).Some?
    ensures var p := SegmentHit(s, start, path, pos).value;
            path <= p && BranchAt(s, p[|path|..]).Some?
    decreases s, 1, 0
  {
    var p := SegmentHit(s, start, path, pos).value;
    if p == path {
      assert p[|path|..] == [];
    } else {
      BranchesHitResolves(s.branches, EndOf(s, start), path, 0, pos);
      var i := p[|path|];
      assert p[|path|..][0] == i && p[|path|..][1..] == p[|path| + 1..];
    }
  }

  lemma {:induction false} BranchesHitResolves(bs: seq<LineSegment>, end: Point, path: seq<nat>, k: nat, pos: Point)
    requires BranchesHit(bs, end, path, k, pos).Some?
    ensures var p := BranchesHit(bs, end, path, k, pos).value;
            && |path| < |p| && path <= p && p[|path|] < |bs|
            && BranchAt(bs[p[|path|]], p[|path| + 1..]).Some?
    decreases bs, 0, |bs| - k
  {
    var r := SegmentHit(bs[k], end, path + [k], pos);
    if r.Some? {
      SegmentHitResolves(bs[k], end, path + [k], pos);
      var p := r.value;
      assert p[|path|] == (path + [k])[|path|] == k;
      assert p[|path| + 1..] == p[|path + [k]|..];
    } else {
      BranchesHitResolves(bs, end, path, k + 1, pos);
    }
  }

  lemma {:induction false} SegmentsHitResolves(segs: seq<LineSegment>, current: Point, k: nat, pos: Point)
    requires SegmentsHit(segs, current, k, pos).Some?
    ensures SegmentAt(segs, SegmentsHit(segs, current, k, pos).value).Some?
    decreases |segs| - k
  {
    var r := SegmentHit(segs[k], current, [k], pos);
    if r.Some? {
      SegmentHitResolves(segs[k], current, [k], pos);
      var p := r.value;
      assert p[0] == k && p[1..] == p[|[k]|..];
    } else {
      SegmentsHitResolves(segs, EndOf(segs[k], current), k + 1, pos);
    }
  }

  /** A line hit names a line of the list and a path that names one of its segments. */
  lemma {:induction false} LineHitResolves(ls: seq<Line>, ps: seq<Player>, pos: Point)
    requires FirstLineHit(ls, ps, pos).Some?
    ensures var h := FirstLineHit(ls, ps, pos).value;
            exists i :: 0 <= i < |ls| && ls[i].id == h.lineId && SegmentAt(ls[i].segments, h.path).Some?
  {
    var h := FirstLineHit(ls, ps, pos).value;
    var owner := FindPlayer(ps, ls[0].playerId);
    if owner.Some? && SegmentsHit(ls[0].segments, Position(owner.value), 0, pos).Some? {
      SegmentsHitResolves(ls[0].segments, Position(owner.value), 0, pos);
      assert ls[0].id == h.lineId;
    } else {
      LineHitResolves(ls[1..], ps, pos);
      var i :| 0 <= i < |ls[1..]| && ls[1..][i].id == h.lineId && SegmentAt(ls[1..][i].segments, h.path).Some?;
      assert ls[i + 1] == ls[1..][i];
    }
  }
}
