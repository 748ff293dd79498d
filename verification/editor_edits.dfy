/**
 * The list rewrites behind the arrow editor's handlers (react-router/src/Editor.tsx):
 * appending a new player or arrow, and the `elements.map` updates run while a player,
 * an arrow end or a curve's control point is dragged.
 */
module EditorEdits {
  import opened Basics
  import opened EditorGraph

  // ---------------------------------------------------------------------------
  // Appending
  // ---------------------------------------------------------------------------

  lemma FindAppend(es: seq<Element>, e: Element, x: string)
    ensures Find(es + [e], x) == if x in Ids(es) then Find(es, x) else if x == e.id then Some(e) else None
  {
    var es' := es + [e];
    assert es'[..|es|] == es;
    IndexOfPrefix(es', |es|, x);
    IndexOfPresent(es, x);
    IndexOfPresent(es', x);
  }

  /** Appending an element with a new id whose parent (for an arrow) is present keeps the list well formed. */
  lemma WellFormedAppend(es: seq<Element>, e: Element)
    requires WellFormed(es) && e.id !in Ids(es)
    requires e.Arrow? ==> e.parentId in Ids(es)
    ensures WellFormed(es + [e])
  {
    assert (es + [e])[..|es|] == es;
  }

  /** Appending never moves anything already on the field. */
  lemma AnchorAppend(es: seq<Element>, e: Element, x: string)
    requires WellFormed(es + [e]) && x in Ids(es)
    ensures WellFormed(es) && Anchor(es + [e], x) == Anchor(es, x)
  {
    assert (es + [e])[..|es|] == es;
    WellFormedPrefix(es + [e], |es|);
    FindAppend(es, e, x);
    var p := Find(es, x).value;
    if p.Arrow? {
      FindMember(es, p);
      IndexOfPresent(es, p.parentId);
      ArrowEndAppend(es, e, p);
    }
  }

  /** Every arrow of a well-formed list names a parent that is present. */
  lemma ParentPresent(es: seq<Element>, a: Element)
    requires WellFormed(es) && a in es && a.Arrow?
    ensures a.parentId in Ids(es)
  {
    FindMember(es, a);
    IndexOfPresent(es, a.parentId);
  }

  /**
   * Add-player: the appended `P<n>` player is new, keeps the list well formed, and
   * keeps every `P<k>` numbered below the incremented counter.
   */
  lemma AddPlayerKeepsNumbering(es: seq<Element>, n: nat, pos: Point)
    requires WellFormed(es) && NumbersBelow(es, n)
    ensures var p := Player(PlayerIdFor(n), pos, PlayerIdFor(n));
            && PlayerIdFor(n) !in Ids(es)
            && WellFormed(es + [p])
            && NumbersBelow(es + [p], n + 1)
  {
    var p := Player(PlayerIdFor(n), pos, PlayerIdFor(n));
    FreshPlayerId(es, n);
    PlayerIdRoundTrip(n);
    WellFormedAppend(es, p);
  }

  /** An arrow id is never a `P<n>` id, so it leaves the player numbering alone. */
  lemma ArrowIdNotNumbered(now: nat)
    ensures !IsNumberedPlayerId(ArrowIdFor(now))
  {
    assert ArrowIdFor(now)[0] == 'A';
  }

  /** An arrow appended under an id that is not a `P<n>` id keeps the numbering invariant. */
  lemma AddArrowKeepsNumbering(es: seq<Element>, n: nat, startId: string, pointer: Point, id: string, curve: bool)
    requires WellFormed(es) && NumbersBelow(es, n)
    requires startId in Ids(es) && id !in Ids(es) && !IsNumberedPlayerId(id)
    ensures var es' := es + [NewArrow(es, startId, pointer, id, curve)];
            && WellFormed(es') && NumbersBelow(es', n)
            && Anchor(es', id) == pointer
            && IsTerminal(es', id)
  {
    AddArrowLandsAtPointer(es, startId, pointer, id, curve);
  }

  /** The midpoint of two points. */
  function Midpoint(a: Point, b: Point): Point
  {
    Point((a.x + b.x) / 2.0, (a.y + b.y) / 2.0)
  }

  /**
   * The control point a new curve stores: like every other control point it is relative
   * to the arrow's start, and it is drawn halfway between the start and the pointer.
   */
  function CurveControl(start: Point, pointer: Point): (c: Point)
    ensures start.Plus(c) == Midpoint(start, pointer)
  {
    Point((pointer.x - start.x) / 2.0, (pointer.y - start.y) / 2.0)
  }

  /** The control point as the add-curve branch computes it: the absolute midpoint. */
  function CurveControlAsWritten(start: Point, pointer: Point): Point
  {
    Point((pointer.x + start.x) / 2.0, (pointer.y + start.y) / 2.0)
  }

  /** Drawn relative to the start, the absolute midpoint lands on the midpoint only for a start at the origin. */
  lemma CurveControlAsWrittenMisplaced(start: Point, pointer: Point)
    ensures start.Plus(CurveControlAsWritten(start, pointer)) == Midpoint(start, pointer) <==> start == Origin
  {
    var drawn := start.Plus(CurveControlAsWritten(start, pointer));
    if drawn == Midpoint(start, pointer) {
      assert drawn.x - Midpoint(start, pointer).x == start.x;
      assert drawn.y - Midpoint(start, pointer).y == start.y;
    }
  }

  /** A player at (100, 100) and a click at (180, 100): the handle is drawn at (240, 200), not at (140, 100). */
  lemma CurveControlAsWrittenExample()
    ensures var start, pointer := Point(100.0, 100.0), Point(180.0, 100.0);
            && start.Plus(CurveControlAsWritten(start, pointer)) == Point(240.0, 200.0)
            && Midpoint(start, pointer) == Point(140.0, 100.0)
  {
  }

  /** The arrow a stage click in an add-arrow mode appends. */
  function NewArrow(es: seq<Element>, startId: string, pointer: Point, id: string, curve: bool): (a: Element)
    requires WellFormed(es)
    ensures a.Arrow? && a.id == id && a.parentId == startId
    ensures Anchor(es, startId).Plus(a.relativeToParent) == pointer
    ensures a.kind.Curve? == curve
    ensures curve ==> Anchor(es, startId).Plus(a.kind.controlPoint) == Midpoint(Anchor(es, startId), pointer)
  {
    var start := Anchor(es, startId);
    Arrow(id, startId, pointer.Minus(start), if curve then Curve(CurveControl(start, pointer)) else Straight)
  }

  /** Where a curve's control handle is drawn: its start plus the stored control point. */
  function ControlHandle(es: seq<Element>, a: Element): Point
    requires WellFormed(es) && a.Arrow? && a.kind.Curve?
  {
    Anchor(es, a.parentId).Plus(a.kind.controlPoint)
  }

  /**
   * Appending the arrow of a stage click keeps the list well formed, makes the new arrow
   * end exactly at the pointer, makes it terminal and its start non-terminal, and moves
   * nothing that was already there.
   */
  lemma AddArrowLandsAtPointer(es: seq<Element>, startId: string, pointer: Point, id: string, curve: bool)
    requires WellFormed(es) && startId in Ids(es) && id !in Ids(es)
    ensures var es' := es + [NewArrow(es, startId, pointer, id, curve)];
            && WellFormed(es')
            && Anchor(es', id) == pointer
            && IsTerminal(es', id)
            && !IsTerminal(es', startId)
            && (forall x :: x in Ids(es) ==> Anchor(es', x) == Anchor(es, x))
  {
    var a := NewArrow(es, startId, pointer, id, curve);
    var es' := es + [a];
    WellFormedAppend(es, a);
    FindAppend(es, a, id);
    AnchorAppend(es, a, startId);
    ArrowEndFromStart(es', a);
    forall c | c in es && c.Arrow?
      ensures c.parentId != id
    {
      ParentPresent(es, c);
    }
    TerminalAfterAppend(es, a, id);
    TerminalAfterAppend(es, a, startId);
    forall x | x in Ids(es)
      ensures Anchor(es', x) == Anchor(es, x)
    {
      AnchorAppend(es, a, x);
    }
  }

  /** A new curve's control handle is drawn halfway between its start and its end. */
  lemma AddCurveControlAtMidpoint(es: seq<Element>, startId: string, pointer: Point, id: string)
    requires WellFormed(es) && startId in Ids(es) && id !in Ids(es)
    ensures var a := NewArrow(es, startId, pointer, id, true);
            && WellFormed(es + [a])
            && ControlHandle(es + [a], a) == Midpoint(Anchor(es + [a], a.parentId), Anchor(es + [a], id))
  {
    AddArrowLandsAtPointer(es, startId, pointer, id, true);
    var a := NewArrow(es, startId, pointer, id, true);
    AnchorAppend(es, a, startId);
  }

  // ---------------------------------------------------------------------------
  // Drag updates
  // ---------------------------------------------------------------------------

  /** `e'` keeps `e`'s id, kind of element and parent link. */
  predicate SameLink(e: Element, e': Element)
  {
    e.id == e'.id && e.Player? == e'.Player? && (e.Arrow? && e'.Arrow? ==> e.parentId == e'.parentId)
  }

  ghost predicate SameLinks(es: seq<Element>, es': seq<Element>)
  {
    |es| == |es'| && forall i :: 0 <= i < |es| ==> SameLink(es[i], es'[i])
  }

  lemma {:induction false} SameLinksIndexOf(es: seq<Element>, es': seq<Element>, x: string)
    requires SameLinks(es, es')
    ensures IndexOf(es, x) == IndexOf(es', x)
    decreases |es|
  {
    if es != [] && es[0].id != x {
      assert SameLinks(es[1..], es'[1..]) by {
        forall i | 0 <= i < |es| - 1
          ensures SameLink(es[1..][i], es'[1..][i])
        {
          assert SameLink(es[i + 1], es'[i + 1]);
        }
      }
      SameLinksIndexOf(es[1..], es'[1..], x);
    }
  }

  lemma SameLinksIds(es: seq<Element>, es': seq<Element>)
    requires SameLinks(es, es')
    ensures Ids(es) == Ids(es')
  {
    forall x
      ensures x in Ids(es) <==> x in Ids(es')
    {
      SameLinksIndexOf(es, es', x);
      IndexOfPresent(es, x);
      IndexOfPresent(es', x);
    }
  }

  /** Rewriting positions, offsets or control points never breaks the structure. */
  lemma {:induction false} SameLinksWellFormed(es: seq<Element>, es': seq<Element>, n: nat)
    requires SameLinks(es, es') && WellFormed(es)
    ensures WellFormed(es')
    ensures NumbersBelow(es, n) ==> NumbersBelow(es', n)
    decreases |es|
  {
    if es != [] {
      var k := |es| - 1;
      assert SameLinks(es[..k], es'[..k]) by {
        forall i | 0 <= i < k
          ensures SameLink(es[..k][i], es'[..k][i])
        {
          assert SameLink(es[i], es'[i]);
        }
      }
      assert WellFormed(es[..k]);
      SameLinksWellFormed(es[..k], es'[..k], n);
      SameLinksIds(es[..k], es'[..k]);
      assert SameLink(es[k], es'[k]);
      assert es'[k].id !in Ids(es'[..k]);
      assert es'[k].Arrow? ==> es'[k].parentId in Ids(es'[..k]);
    }
    forall e' | e' in es'
      ensures exists e :: e in es && e.id == e'.id
    {
      var i :| 0 <= i < |es'| && es'[i] == e';
      assert SameLink(es[i], es'[i]);
      assert es[i] in es;
    }
  }

  /** The offset that places an element: a player's position, an arrow's `relativeToParent`. */
  function OwnOffset(e: Element): Point
  {
    if e.Player? then e.position else e.relativeToParent
  }

  /** `es'` is `es` with the element `id` displaced by `delta` and every other offset as it was. */
  ghost predicate ShiftedAt(es: seq<Element>, es': seq<Element>, id: string, delta: Point)
  {
    && SameLinks(es, es')
    && forall i :: 0 <= i < |es| ==>
         OwnOffset(es'[i]) == if es[i].id == id then OwnOffset(es[i]).Plus(delta) else OwnOffset(es[i])
  }

  /** One step of resolution: an arrow's anchor is its parent's anchor plus its offset. */
  lemma AnchorStep(es: seq<Element>, x: string, id: string)
    requires WellFormed(es) && IsArrowId(es, x)
    ensures var e := Find(es, x).value;
            && e.parentId in Ids(es)
            && IndexOf(es, e.parentId) < IndexOf(es, x)
            && Anchor(es, x) == Anchor(es, e.parentId).Plus(e.relativeToParent)
            && (DescendsFrom(es, x, id) <==> e.parentId == id || DescendsFrom(es, e.parentId, id))
  {
    var e := Find(es, x).value;
    IndexOfPresent(es, x);
    assert e in es;
    FindMember(es, e);
    ParentPresent(es, e);
    ArrowEndFromStart(es, e);
  }

  /** A player is where its own position says and descends from nothing. */
  lemma AnchorOfPlayer(es: seq<Element>, x: string, id: string)
    requires WellFormed(es) && IsPlayerId(es, x)
    ensures Anchor(es, x) == Find(es, x).value.position
    ensures !DescendsFrom(es, x, id)
  {
  }

  /** The element found for `x` sits at the same index in both lists. */
  lemma ShiftedFind(es: seq<Element>, es': seq<Element>, id: string, delta: Point, x: string)
    requires WellFormed(es) && ShiftedAt(es, es', id, delta) && x in Ids(es)
    ensures WellFormed(es') && Find(es', x).Some?
    ensures var e, e' := Find(es, x).value, Find(es', x).value;
            && SameLink(e, e')
            && OwnOffset(e') == if x == id then OwnOffset(e).Plus(delta) else OwnOffset(e)
  {
    SameLinksWellFormed(es, es', 0);
    SameLinksIndexOf(es, es', x);
    IndexOfPresent(es, x);
    IndexOfPresent(es', x);
    var j := IndexOf(es, x);
    assert SameLink(es[j], es'[j]);
  }

  /**
   * Displacing one element by `delta` displaces it and everything hung below it by exactly
   * `delta`, and leaves every other player and arrow end where it was.
   */
  lemma {:induction false} ShiftMovesSubtree(es: seq<Element>, es': seq<Element>, id: string, delta: Point, x: string)
    requires WellFormed(es) && ShiftedAt(es, es', id, delta)
    ensures WellFormed(es')
    ensures Anchor(es', x) ==
              if x in Ids(es) && (x == id || DescendsFrom(es, x, id)) then Anchor(es, x).Plus(delta) else Anchor(es, x)
    decreases IndexOf(es, x)
  {
    SameLinksWellFormed(es, es', 0);
    SameLinksIds(es, es');
    if x in Ids(es) {
      ShiftedFind(es, es', id, delta, x);
      var e, e' := Find(es, x).value, Find(es', x).value;
      if e.Player? {
        AnchorOfPlayer(es, x, id);
        AnchorOfPlayer(es', x, id);
      } else {
        AnchorStep(es, x, id);
        AnchorStep(es', x, id);
        var p := e.parentId;
        assert e'.parentId == p;
        assert e'.relativeToParent == if x == id then e.relativeToParent.Plus(delta) else e.relativeToParent;
        ShiftMovesSubtree(es, es', id, delta, p);
        var below := p == id || DescendsFrom(es, p, id);
        if x == id {
          if DescendsFrom(es, p, id) {
            DescendsBelow(es, p, id);
          }
          assert !below;
          PlusRearrange(Anchor(es, p), e.relativeToParent, delta);
          assert Anchor(es', x) == Anchor(es, p).Plus(e.relativeToParent.Plus(delta));
        } else if below {
          assert DescendsFrom(es, x, id);
          var a, r := Anchor(es, p), e.relativeToParent;
          PlusRearrange(a, r, delta);
          assert Anchor(es', x) == Anchor(es, x).Plus(delta);
        } else {
          assert Anchor(es', x) == Anchor(es, p).Plus(e.relativeToParent);
        }
      }
    } else {
      assert Find(es', x) == None;
    }
  }

  /** The per-element update of `handlePlayerDragMove`. */
  function WithPosition(e: Element, id: string, pos: Point): Element
  {
    if e.Player? && e.id == id then e.(position := pos) else e
  }

  /** The per-element update of the end-point drag. */
  function WithOffset(e: Element, id: string, rel: Point): Element
  {
    if e.Arrow? && e.id == id then e.(relativeToParent := rel) else e
  }

  /** The per-element update of the control-point drag: only a curve's control point changes. */
  function WithControl(e: Element, id: string, cp: Point): Element
  {
    if e.Arrow? && e.kind.Curve? && e.id == id then e.(kind := Curve(cp)) else e
  }

  /** `handlePlayerDragMove`: the player `id` gets the new position. */
  function MovePlayer(es: seq<Element>, id: string, pos: Point): (r: seq<Element>)
    ensures |r| == |es| && forall i :: 0 <= i < |es| ==> r[i] == WithPosition(es[i], id, pos)
  {
    if es == [] then [] else [WithPosition(es[0], id, pos)] + MovePlayer(es[1..], id, pos)
  }

  /** End-point drag: the arrow `id` gets the new offset. */
  function SetOffset(es: seq<Element>, id: string, rel: Point): (r: seq<Element>)
    ensures |r| == |es| && forall i :: 0 <= i < |es| ==> r[i] == WithOffset(es[i], id, rel)
  {
    if es == [] then [] else [WithOffset(es[0], id, rel)] + SetOffset(es[1..], id, rel)
  }

  /** Control-point drag: the curve `id` gets the new control point. */
  function SetControl(es: seq<Element>, id: string, cp: Point): (r: seq<Element>)
    ensures |r| == |es| && forall i :: 0 <= i < |es| ==> r[i] == WithControl(es[i], id, cp)
  {
    if es == [] then [] else [WithControl(es[0], id, cp)] + SetControl(es[1..], id, cp)
  }

  /** Dragging player `id` to `pos` carries every arrow hung below it along and moves nothing else. */
  lemma DragPlayerMovesSubtree(es: seq<Element>, id: string, pos: Point, x: string)
    requires WellFormed(es) && IsPlayerId(es, id)
    ensures var es' := MovePlayer(es, id, pos);
            var delta := pos.Minus(Anchor(es, id));
            && WellFormed(es')
            && Anchor(es', id) == pos
            && Anchor(es', x) == if x in Ids(es) && (x == id || DescendsFrom(es, x, id)) then Anchor(es, x).Plus(delta) else Anchor(es, x)
  {
    var es' := MovePlayer(es, id, pos);
    var delta := pos.Minus(Anchor(es, id));
    assert ShiftedAt(es, es', id, delta) by {
      forall i | 0 <= i < |es|
        ensures SameLink(es[i], es'[i])
        ensures OwnOffset(es'[i]) == if es[i].id == id then OwnOffset(es[i]).Plus(delta) else OwnOffset(es[i])
      {
        if es[i].id == id {
          WellFormedFactAt(es, i);
        }
      }
    }
    ShiftMovesSubtree(es, es', id, delta, x);
    ShiftMovesSubtree(es, es', id, delta, id);
  }

  lemma SetOffsetShifts(es: seq<Element>, id: string, pointer: Point)
    requires WellFormed(es) && IsArrowId(es, id)
    ensures var a := Find(es, id).value;
            ShiftedAt(es, SetOffset(es, id, pointer.Minus(Anchor(es, a.parentId))), id, pointer.Minus(Anchor(es, id)))
  {
    var a := Find(es, id).value;
    var start := Anchor(es, a.parentId);
    var es' := SetOffset(es, id, pointer.Minus(start));
    var delta := pointer.Minus(Anchor(es, id));
    AnchorStep(es, id, id);
    MinusRebase(pointer, start, a.relativeToParent);
    forall i | 0 <= i < |es|
      ensures SameLink(es[i], es'[i])
      ensures OwnOffset(es'[i]) == if es[i].id == id then OwnOffset(es[i]).Plus(delta) else OwnOffset(es[i])
    {
      if es[i].id == id {
        assert es[i] in es;
        FindMember(es, es[i]);
      }
    }
  }

  /**
   * End-point drag sets the offset to `pointer - from`: the arrow then ends at the pointer,
   * the arrows hung below it follow by the same displacement, and nothing else moves.
   */
  lemma DragEndMovesSubtree(es: seq<Element>, id: string, pointer: Point, x: string)
    requires WellFormed(es) && IsArrowId(es, id)
    ensures var a := Find(es, id).value;
            var es' := SetOffset(es, id, pointer.Minus(Anchor(es, a.parentId)));
            var delta := pointer.Minus(Anchor(es, id));
            && WellFormed(es')
            && Anchor(es', id) == pointer
            && Anchor(es', x) == if x in Ids(es) && (x == id || DescendsFrom(es, x, id)) then Anchor(es, x).Plus(delta) else Anchor(es, x)
  {
    var a := Find(es, id).value;
    var es' := SetOffset(es, id, pointer.Minus(Anchor(es, a.parentId)));
    var delta := pointer.Minus(Anchor(es, id));
    SetOffsetShifts(es, id, pointer);
    ShiftMovesSubtree(es, es', id, delta, x);
    ShiftMovesSubtree(es, es', id, delta, id);
    PlusMinus(Anchor(es, id), pointer);
  }

  lemma WithControlKeepsOffset(e: Element, id: string, cp: Point)
    ensures SameLink(e, WithControl(e, id, cp))
    ensures OwnOffset(WithControl(e, id, cp)) == OwnOffset(e) == OwnOffset(e).Plus(Origin)
  {
    PlusOrigin(OwnOffset(e));
  }

  lemma SetControlShifts(es: seq<Element>, id: string, cp: Point)
    ensures ShiftedAt(es, SetControl(es, id, cp), id, Origin)
  {
    var es' := SetControl(es, id, cp);
    forall i | 0 <= i < |es|
      ensures SameLink(es[i], es'[i])
      ensures OwnOffset(es'[i]) == if es[i].id == id then OwnOffset(es[i]).Plus(Origin) else OwnOffset(es[i])
    {
      WithControlKeepsOffset(es[i], id, cp);
    }
  }

  /** The curve found for `id` after a control-point update is the old one with the new control point. */
  lemma SetControlFind(es: seq<Element>, id: string, cp: Point)
    requires WellFormed(es) && IsArrowId(es, id) && Find(es, id).value.kind.Curve?
    ensures var es' := SetControl(es, id, cp);
            Find(es', id) == Some(Find(es, id).value.(kind := Curve(cp)))
  {
    var es' := SetControl(es, id, cp);
    SetControlShifts(es, id, cp);
    SameLinksIndexOf(es, es', id);
    IndexOfPresent(es, id);
    IndexOfPresent(es', id);
  }

  /**
   * Control-point drag sets the control point to `pointer - from`: the handle is then drawn
   * at the pointer, and no player or arrow end moves.
   */
  lemma DragControlKeepsEnds(es: seq<Element>, id: string, pointer: Point, x: string)
    requires WellFormed(es) && IsArrowId(es, id) && Find(es, id).value.kind.Curve?
    ensures var a := Find(es, id).value;
            var es' := SetControl(es, id, pointer.Minus(Anchor(es, a.parentId)));
            && WellFormed(es')
            && Find(es', id).Some? && Find(es', id).value.Arrow? && Find(es', id).value.kind.Curve?
            && ControlHandle(es', Find(es', id).value) == pointer
            && Anchor(es', x) == Anchor(es, x)
  {
    var a := Find(es, id).value;
    var start := Anchor(es, a.parentId);
    var cp := pointer.Minus(start);
    var es' := SetControl(es, id, cp);
    SetControlShifts(es, id, cp);
    assert Anchor(es', x) == Anchor(es, x) by {
      ShiftMovesSubtree(es, es', id, Origin, x);
      PlusOrigin(Anchor(es, x));
    }
    SetControlFind(es, id, cp);
    var a' := a.(kind := Curve(cp));
    assert Anchor(es', a.parentId) == start by {
      ShiftMovesSubtree(es, es', id, Origin, a.parentId);
      PlusOrigin(start);
    }
    assert ControlHandle(es', a') == pointer by {
      PlusMinus(start, pointer);
    }
  }
}
