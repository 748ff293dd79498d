/**
 * The branching route tree of a line (src/components/Field.tsx): the pre-order point
 * numbering shared by drawing, hit-testing and dragging; segment paths; and the edits
 * the field makes to a line (change a segment's type, append a branch, move the whole
 * line, move one point).
 */
module FieldRoutes {
  import opened Basics
  import opened PlayTypes

  // ---------------------------------------------------------------------------
  // Pre-order numbering

  /** The points of a segment in numbering order: its own points, then each branch's in turn. */
  function Flatten(s: LineSegment): seq<Point>
    decreases s, 1
  {
    s.points + FlattenAll(s.branches)
  }

  function FlattenAll(ss: seq<LineSegment>): seq<Point>
    decreases ss, 0
  {
    if ss == [] then [] else FlattenAll(ss[..|ss| - 1]) + Flatten(ss[|ss| - 1])
  }

  lemma FlattenAllStep(ss: seq<LineSegment>, k: nat)
    requires k < |ss|
    ensures FlattenAll(ss[..k + 1]) == FlattenAll(ss[..k]) + Flatten(ss[k])
  {
    assert ss[..k + 1][..k] == ss[..k];
  }

  /**
   * `countBranchPoints`: a segment's points plus, branch by branch, the count of each
   * branch; the total is the number of points the pre-order numbering visits.
   */
  method CountBranchPoints(s: LineSegment) returns (count: nat)
    ensures count == |Flatten(s)|
    decreases s
  {
    count := |s.points|;
    for j := 0 to |s.branches|
      invariant count == |s.points| + |FlattenAll(s.branches[..j])|
    {
      var c := CountBranchPoints(s.branches[j]);
      FlattenAllStep(s.branches, j);
      count := count + c;
    }
    assert s.branches[..|s.branches|] == s.branches;
  }

  // ---------------------------------------------------------------------------
  // Segment paths

  /** The segment reached from `s` by following the branch indices `rest`. */
  function BranchAt(s: LineSegment, rest: seq<nat>): Option<LineSegment>
    decreases |rest|
  {
    if rest == [] then Some(s)
    else if rest[0] < |s.branches| then BranchAt(s.branches[rest[0]], rest[1..])
    else None
  }

  /** A line's segment list seen as the branches of a virtual root, so a path is a branch path from it. */
  function Root(segs: seq<LineSegment>): LineSegment
  {
    LineSegment([], Solid, segs)
  }

  /** The segment a path names: the first index picks a top-level segment, the rest follow branches. */
  function SegmentAt(segs: seq<LineSegment>, path: seq<nat>): Option<LineSegment>
  {
    if path == [] then None else BranchAt(Root(segs), path)
  }

  /** Following `a` and then `b` is following `a + b`. */
  lemma {:induction false} BranchAtAppend(s: LineSegment, a: seq<nat>, b: seq<nat>)
    ensures BranchAt(s, a + b) == if BranchAt(s, a).Some? then BranchAt(BranchAt(s, a).value, b) else None
    decreases |a|
  {
    if a == [] {
      assert a + b == b;
    } else {
      assert (a + b)[0] == a[0] && (a + b)[1..] == a[1..] + b;
      if a[0] < |s.branches| {
        BranchAtAppend(s.branches[a[0]], a[1..], b);
      }
    }
  }

  /**
   * `getSegmentByPath`: walks the path from the top-level segment it starts with; an
   * empty path or an index with no segment behind it gives null.
   */
  method GetSegmentByPath(segs: seq<LineSegment>, path: seq<nat>) returns (r: Option<LineSegment>)
    ensures r == SegmentAt(segs, path)
    ensures r.Some? ==> path != [] && path[0] < |segs|
  {
    if |path| == 0 || path[0] >= |segs| {
      return None;
    }
    var current := segs[path[0]];
    for i := 1 to |path|
      invariant SegmentAt(segs, path) == BranchAt(current, path[i..])
    {
      assert path[i..][0] == path[i] && path[i..][1..] == path[i + 1..];
      if path[i] >= |current.branches| {
        return None;
      }
      current := current.branches[path[i]];
    }
    assert path[|path|..] == [];
    return Some(current);
  }

  // ---------------------------------------------------------------------------
  // Lines

  /** The four ways the field rewrites the segments of one line. */
  datatype LineEdit =
    | EditSegment(path: seq<nat>, edit: SegmentEdit)  // `updateSegmentByPath`
    | MoveBy(d: Point)                                // the line drag
    | MovePoint(k: nat, p: Point)                     // the point drag

  function EditSegments(segs: seq<LineSegment>, e: LineEdit): seq<LineSegment>
  {
    match e
    case EditSegment(path, se) => EditAt(segs, path, se)
    case MoveBy(d) => MoveAll(segs, d)
    case MovePoint(k, p) => SetPointAll(segs, k, p)
  }

  /** `lines.map((line) => line.id === lineId ? { ...line, segments: … } : line)`. */
  function WithSegmentsOf(ls: seq<Line>, lineId: string, e: LineEdit): (r: seq<Line>)
    ensures |r| == |ls|
  {
    if ls == [] then []
    else [if ls[0].id == lineId then ls[0].(segments := EditSegments(ls[0].segments, e)) else ls[0]] + WithSegmentsOf(ls[1..], lineId, e)
  }

  /** The map is position-wise: exactly the lines with id `lineId` get rewritten segments, the others are kept. */
  lemma {:induction false} WithSegmentsOfAt(ls: seq<Line>, lineId: string, e: LineEdit)
    ensures forall i :: 0 <= i < |ls| ==>
              WithSegmentsOf(ls, lineId, e)[i] ==
              if ls[i].id == lineId then ls[i].(segments := EditSegments(ls[i].segments, e)) else ls[i]
  {
    if ls != [] {
      WithSegmentsOfAt(ls[1..], lineId, e);
      forall i | 1 <= i < |ls|
        ensures WithSegmentsOf(ls, lineId, e)[i] == WithSegmentsOf(ls[1..], lineId, e)[i - 1]
      {
      }
    }
  }

  /** The first line with id `lineId` after the map is the first one before, with its segments rewritten. */
  lemma {:induction false} FindLineWithSegments(ls: seq<Line>, lineId: string, e: LineEdit)
    ensures FindLine(WithSegmentsOf(ls, lineId, e), lineId) ==
            if HasLine(ls, lineId) then Some(FindLine(ls, lineId).value.(segments := EditSegments(FindLine(ls, lineId).value.segments, e)))
            else None
  {
    if ls != [] {
      var r := WithSegmentsOf(ls, lineId, e);
      assert r[1..] == WithSegmentsOf(ls[1..], lineId, e);
      if ls[0].id != lineId {
        FindLineWithSegments(ls[1..], lineId, e);
      }
    }
  }

  // ---------------------------------------------------------------------------
  // Editing the segment at a path

  /** The two in-place updates the field applies to the segment at a path. */
  datatype SegmentEdit = SetType(newType: LineType) | AppendBranch(branch: LineSegment)

  function ApplyEdit(e: SegmentEdit, s: LineSegment): LineSegment
  {
    match e
    case SetType(t) => s.(lineType := t)
    case AppendBranch(b) => s.(branches := s.branches + [b])
  }

  function EditBranch(s: LineSegment, rest: seq<nat>, e: SegmentEdit): LineSegment
    decreases |rest|
  {
    if rest == [] then ApplyEdit(e, s)
    else if rest[0] < |s.branches| then
      s.(branches := s.branches[rest[0] := EditBranch(s.branches[rest[0]], rest[1..], e)])
    else s
  }

  /** `updateSegmentByPath` on values: the segment list with the segment at `path` edited. */
  function EditAt(segs: seq<LineSegment>, path: seq<nat>, e: SegmentEdit): seq<LineSegment>
  {
    if path == [] then segs else EditBranch(Root(segs), path, e).branches
  }

  /** What a segment shows apart from its branches' contents. */
  datatype NodeView = NodeView(points: seq<Point>, lineType: LineType, branchCount: nat)

  function Node(s: LineSegment): NodeView
  {
    NodeView(s.points, s.lineType, |s.branches|)
  }

  /** A path that names no segment edits nothing. */
  lemma {:induction false} EditBranchUnresolved(s: LineSegment, rest: seq<nat>, e: SegmentEdit)
    requires BranchAt(s, rest).None?
    ensures EditBranch(s, rest, e) == s
    decreases |rest|
  {
    if rest[0] < |s.branches| {
      EditBranchUnresolved(s.branches[rest[0]], rest[1..], e);
      assert s.branches[rest[0] := s.branches[rest[0]]] == s.branches;
    }
  }

  lemma EditAtUnresolved(segs: seq<LineSegment>, path: seq<nat>, e: SegmentEdit)
    requires SegmentAt(segs, path).None?
    ensures EditAt(segs, path, e) == segs
  {
    if path != [] {
      EditBranchUnresolved(Root(segs), path, e);
    }
  }

  /**
   * What an edit at `rest` does to every path `q`: below `rest` the tree is the edited
   * segment's; above it only the branch contents change; elsewhere nothing changes.
   */
  lemma {:induction false} EditBranchFrame(s: LineSegment, rest: seq<nat>, e: SegmentEdit, q: seq<nat>)
    requires BranchAt(s, rest).Some?
    ensures rest <= q ==>
              BranchAt(EditBranch(s, rest, e), q) == BranchAt(ApplyEdit(e, BranchAt(s, rest).value), q[|rest|..])
    ensures q < rest ==>
              && BranchAt(s, q).Some? && BranchAt(EditBranch(s, rest, e), q).Some?
              && Node(BranchAt(EditBranch(s, rest, e), q).value) == Node(BranchAt(s, q).value)
    ensures !(rest <= q) && !(q < rest) ==> BranchAt(EditBranch(s, rest, e), q) == BranchAt(s, q)
    decreases |rest|
  {
    var s' := EditBranch(s, rest, e);
    if rest == [] {
      assert q[|rest|..] == q;
    } else {
      var i := rest[0];
      var child := s.branches[i];
      assert s'.branches == s.branches[i := EditBranch(child, rest[1..], e)];
      if q != [] {
        var j := q[0];
        if j != i {
          assert !(rest <= q) && !(q < rest);
          if j < |s.branches| {
            assert s'.branches[j] == s.branches[j];
          }
        } else {
          EditBranchFrame(child, rest[1..], e, q[1..]);
          assert rest <= q <==> rest[1..] <= q[1..];
          assert q < rest <==> q[1..] < rest[1..];
          if rest <= q {
            assert q[|rest|..] == q[1..][|rest[1..]|..];
          }
        }
      }
    }
  }

  /** A path into the root is a path from the segment list, and an edit there edits the list. */
  lemma RootPath(segs: seq<LineSegment>, path: seq<nat>, e: SegmentEdit)
    requires path != []
    ensures SegmentAt(segs, path) == BranchAt(Root(segs), path)
    ensures EditAt(segs, path, e) == EditBranch(Root(segs), path, e).branches
    ensures Root(EditAt(segs, path, e)) == EditBranch(Root(segs), path, e)
  {
  }

  /**
   * `changeSegmentType`: every path names a segment after the change exactly when it did
   * before, and only the segment at `path` shows a different type.
   */
  lemma ChangeTypeOnlyAt(segs: seq<LineSegment>, path: seq<nat>, t: LineType, q: seq<nat>)
    requires SegmentAt(segs, path).Some?
    ensures SegmentAt(EditAt(segs, path, SetType(t)), q).Some? == SegmentAt(segs, q).Some?
    ensures SegmentAt(segs, q).Some? ==>
              var before := SegmentAt(segs, q).value;
              var after := SegmentAt(EditAt(segs, path, SetType(t)), q).value;
              Node(after) == Node(before).(lineType := if q == path then t else before.lineType)
  {
    if q != [] {
      var root := Root(segs);
      var e := SetType(t);
      RootPath(segs, path, e);
      EditBranchFrame(root, path, e, q);
      if path <= q {
        var target := BranchAt(root, path).value;
        var tail := q[|path|..];
        assert q == path + tail;
        BranchAtAppend(root, path, tail);
        if tail != [] {
          assert ApplyEdit(e, target).branches == target.branches;
        }
      }
    }
  }

  /**
   * Appending a branch at `path`: the new branch is reachable at `path + [n]`, where `n`
   * is the old branch count, and every path that named a segment still names one with
   * the same points and type; only the segment at `path` gains one branch.
   */
  lemma AppendBranchOnlyAt(segs: seq<LineSegment>, path: seq<nat>, b: LineSegment, q: seq<nat>)
    requires SegmentAt(segs, path).Some?
    ensures SegmentAt(EditAt(segs, path, AppendBranch(b)), path + [|SegmentAt(segs, path).value.branches|]) == Some(b)
    ensures SegmentAt(segs, q).Some? ==>
              var before := SegmentAt(segs, q).value;
              && SegmentAt(EditAt(segs, path, AppendBranch(b)), q).Some?
              && var after := SegmentAt(EditAt(segs, path, AppendBranch(b)), q).value;
              Node(after) == Node(before).(branchCount := |before.branches| + if q == path then 1 else 0)
  {
    var root := Root(segs);
    var e := AppendBranch(b);
    var target := BranchAt(root, path).value;
    var n := |target.branches|;
    RootPath(segs, path, e);
    var root' := EditBranch(root, path, e);
    EditBranchFrame(root, path, e, path + [n]);
    assert (path + [n])[|path|..] == [n];
    assert ApplyEdit(e, target).branches[n] == b;
    assert [n][1..] == [];
    if q != [] && SegmentAt(segs, q).Some? {
      EditBranchFrame(root, path, e, q);
      if path <= q {
        var tail := q[|path|..];
        assert q == path + tail;
        BranchAtAppend(root, path, tail);
        if tail != [] {
          assert tail[0] < n;
          assert ApplyEdit(e, target).branches[tail[0]] == target.branches[tail[0]];
        }
      }
    }
  }

  // ---------------------------------------------------------------------------
  // Moving a whole line

  function ShiftPoints(ps: seq<Point>, d: Point): (r: seq<Point>)
    ensures |r| == |ps|
    ensures forall i :: 0 <= i < |ps| ==> r[i] == ps[i].Plus(d)
  {
    if ps == [] then [] else ShiftPoints(ps[..|ps| - 1], d) + [ps[|ps| - 1].Plus(d)]
  }

  lemma ShiftPointsConcat(a: seq<Point>, b: seq<Point>, d: Point)
    ensures ShiftPoints(a + b, d) == ShiftPoints(a, d) + ShiftPoints(b, d)
  {
    var l, r := ShiftPoints(a + b, d), ShiftPoints(a, d) + ShiftPoints(b, d);
    assert |l| == |r|;
    forall i | 0 <= i < |l|
      ensures l[i] == r[i]
    {
      if i < |a| {
        assert (a + b)[i] == a[i];
      } else {
        assert (a + b)[i] == b[i - |a|];
      }
    }
  }

  /** `moveSegment`: every point of the segment and of all its nested branches moved by `d`. */
  function MoveSegment(s: LineSegment, d: Point): LineSegment
    decreases s, 1
  {
    LineSegment(ShiftPoints(s.points, d), s.lineType, MoveAll(s.branches, d))
  }

  function MoveAll(ss: seq<LineSegment>, d: Point): seq<LineSegment>
    decreases ss, 0
  {
    if ss == [] then [] else MoveAll(ss[..|ss| - 1], d) + [MoveSegment(ss[|ss| - 1], d)]
  }

  /** Two trees of the same form: equal point counts, equal types and the same branching, all the way down. */
  predicate SameShape(s: LineSegment, t: LineSegment)
    decreases s
  {
    && |s.points| == |t.points|
    && s.lineType == t.lineType
    && |s.branches| == |t.branches|
    && forall i :: 0 <= i < |s.branches| ==> SameShape(s.branches[i], t.branches[i])
  }

  predicate SameShapes(ss: seq<LineSegment>, ts: seq<LineSegment>)
  {
    |ss| == |ts| && forall i :: 0 <= i < |ss| ==> SameShape(ss[i], ts[i])
  }

  /** Moving a segment shifts each of its numbered points by exactly `d` and keeps its shape. */
  lemma {:induction false} MoveSegmentShifts(s: LineSegment, d: Point)
    ensures Flatten(MoveSegment(s, d)) == ShiftPoints(Flatten(s), d)
    ensures SameShape(s, MoveSegment(s, d))
    decreases s, 1
  {
    MoveAllShifts(s.branches, d);
    ShiftPointsConcat(s.points, FlattenAll(s.branches), d);
  }

  lemma {:induction false} MoveAllShifts(ss: seq<LineSegment>, d: Point)
    ensures FlattenAll(MoveAll(ss, d)) == ShiftPoints(FlattenAll(ss), d)
    ensures SameShapes(ss, MoveAll(ss, d))
    decreases ss, 0
  {
    if ss != [] {
      var init, last := ss[..|ss| - 1], ss[|ss| - 1];
      MoveAllShifts(init, d);
      MoveSegmentShifts(last, d);
      ShiftPointsConcat(FlattenAll(init), Flatten(last), d);
      var m := MoveAll(ss, d);
      assert m == MoveAll(init, d) + [MoveSegment(last, d)];
      forall i | 0 <= i < |ss|
        ensures SameShape(ss[i], m[i])
      {
        if i < |ss| - 1 {
          assert ss[i] == init[i];
        }
      }
    }
  }

  // ---------------------------------------------------------------------------
  // Moving one numbered point

  /** The list with position `k` replaced by `p`; a position outside the list changes nothing. */
  function ReplaceAt(ps: seq<Point>, k: int, p: Point): (r: seq<Point>)
    ensures |r| == |ps|
    ensures forall i :: 0 <= i < |ps| ==> r[i] == if i == k then p else ps[i]
  {
    if 0 <= k < |ps| then ps[k := p] else ps
  }

  lemma ReplaceAtConcat(a: seq<Point>, b: seq<Point>, k: int, p: Point)
    ensures ReplaceAt(a + b, k, p) == ReplaceAt(a, k, p) + ReplaceAt(b, k - |a|, p)
  {
    var l, r := ReplaceAt(a + b, k, p), ReplaceAt(a, k, p) + ReplaceAt(b, k - |a|, p);
    assert |l| == |r|;
    forall i | 0 <= i < |l|
      ensures l[i] == r[i]
    {
      if i < |a| {
        assert (a + b)[i] == a[i];
      } else {
        assert (a + b)[i] == b[i - |a|];
      }
    }
  }

  /** The segment with its point numbered `k` (counting from its own first point) moved to `p`. */
  function SetPoint(s: LineSegment, k: int, p: Point): LineSegment
    decreases s, 1
  {
    LineSegment(ReplaceAt(s.points, k, p), s.lineType, SetPointAll(s.branches, k - |s.points|, p))
  }

  function SetPointAll(ss: seq<LineSegment>, k: int, p: Point): seq<LineSegment>
    decreases ss, 0
  {
    if ss == [] then []
    else
      var init := ss[..|ss| - 1];
      SetPointAll(init, k, p) + [SetPoint(ss[|ss| - 1], k - |FlattenAll(init)|, p)]
  }

  lemma SetPointAllStep(ss: seq<LineSegment>, j: nat, k: int, p: Point)
    requires j < |ss|
    ensures SetPointAll(ss[..j + 1], k, p) == SetPointAll(ss[..j], k, p) + [SetPoint(ss[j], k - |FlattenAll(ss[..j])|, p)]
  {
    assert ss[..j + 1][..j] == ss[..j];
  }

  /** Moving point `k` replaces exactly the `k`-th numbered point and keeps the tree's shape. */
  lemma {:induction false} SetPointReplacesOne(s: LineSegment, k: int, p: Point)
    ensures Flatten(SetPoint(s, k, p)) == ReplaceAt(Flatten(s), k, p)
    ensures SameShape(s, SetPoint(s, k, p))
    decreases s, 1
  {
    SetPointAllReplacesOne(s.branches, k - |s.points|, p);
    ReplaceAtConcat(s.points, FlattenAll(s.branches), k, p);
  }

  lemma {:induction false} SetPointAllReplacesOne(ss: seq<LineSegment>, k: int, p: Point)
    ensures FlattenAll(SetPointAll(ss, k, p)) == ReplaceAt(FlattenAll(ss), k, p)
    ensures SameShapes(ss, SetPointAll(ss, k, p))
    decreases ss, 0
  {
    if ss != [] {
      var init, last := ss[..|ss| - 1], ss[|ss| - 1];
      var k' := k - |FlattenAll(init)|;
      SetPointAllReplacesOne(init, k, p);
      SetPointReplacesOne(last, k', p);
      ReplaceAtConcat(FlattenAll(init), Flatten(last), k, p);
      var m := SetPointAll(ss, k, p);
      assert m == SetPointAll(init, k, p) + [SetPoint(last, k', p)];
      forall i | 0 <= i < |ss|
        ensures SameShape(ss[i], m[i])
      {
        if i < |ss| - 1 {
          assert ss[i] == init[i];
        }
      }
    }
  }

  /**
   * `updateSegmentPoint`: walks the segment's points and then its branches with the
   * shared counter, moving the point whose number equals `target`; returns the counter
   * after the segment.
   */
  method UpdateSegmentPoint(s: LineSegment, target: int, p: Point, counter: int) returns (r: LineSegment, next: int)
    ensures r == SetPoint(s, target - counter, p)
    ensures next == counter + |Flatten(s)|
    decreases s, 1
  {
    var pts: seq<Point> := [];
    var index := counter;
    for i := 0 to |s.points|
      invariant index == counter + i
      invariant |pts| == i
      invariant forall m :: 0 <= m < i ==> pts[m] == if m == target - counter then p else s.points[m]
    {
      if index == target {
        pts := pts + [p];
      } else {
        pts := pts + [s.points[i]];
      }
      index := index + 1;
    }
    assert pts == ReplaceAt(s.points, target - counter, p);
    var branches, after := UpdateSegmentsPoint(s.branches, target, p, index);
    r := LineSegment(pts, s.lineType, branches);
    next := after;
  }

  /** The same walk over a list of segments sharing one counter (a line's segments, or a segment's branches). */
  method UpdateSegmentsPoint(ss: seq<LineSegment>, target: int, p: Point, counter: int)
    returns (r: seq<LineSegment>, next: int)
    ensures r == SetPointAll(ss, target - counter, p)
    ensures next == counter + |FlattenAll(ss)|
    decreases ss, 0
  {
    r := [];
    next := counter;
    for j := 0 to |ss|
      invariant r == SetPointAll(ss[..j], target - counter, p)
      invariant next == counter + |FlattenAll(ss[..j])|
    {
      var segment, after := UpdateSegmentPoint(ss[j], target, p, next);
      SetPointAllStep(ss, j, target - counter, p);
      FlattenAllStep(ss, j);
      r := r + [segment];
      next := after;
    }
    assert ss[..|ss|] == ss;
  }
}
