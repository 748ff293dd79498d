/**
 * The parent-linked element graph of the arrow editor (react-router/src/Editor.tsx):
 * one ordered list of players and arrows, where every arrow hangs off a parent id and
 * stores its end as an offset from the parent's resolved end.
 */
module EditorGraph {
  import opened Basics

  /** A straight arrow is fully given by its offset; a curve adds a control point relative to the start. */
  datatype ArrowKind = Straight | Curve(controlPoint: Point)

  datatype Element =
    | Player(id: string, position: Point, labelText: string)
    | Arrow(id: string, parentId: string, relativeToParent: Point, kind: ArrowKind)

  function Ids(es: seq<Element>): set<string>
  {
    set e | e in es :: e.id
  }

  /** The position of the first element carrying `id`, or `|es|` when there is none. */
  function IndexOf(es: seq<Element>, id: string): (r: nat)
    ensures r <= |es|
    ensures r < |es| ==> es[r].id == id
    ensures forall k :: 0 <= k < r ==> es[k].id != id
  {
    if es == [] then 0 else if es[0].id == id then 0 else 1 + IndexOf(es[1..], id)
  }

  lemma IndexOfPresent(es: seq<Element>, id: string)
    ensures IndexOf(es, id) < |es| <==> id in Ids(es)
  {
    if id in Ids(es) {
      var e :| e in es && e.id == id;
      var k :| 0 <= k < |es| && es[k] == e;
      assert IndexOf(es, id) <= k;
    }
  }

  /** `elements.find((e) => e.id === id)`. */
  function Find(es: seq<Element>, id: string): (r: Option<Element>)
    ensures r.Some? <==> id in Ids(es)
    ensures r.Some? ==> r.value.id == id && r.value == es[IndexOf(es, id)]
  {
    IndexOfPresent(es, id);
    var k := IndexOf(es, id);
    if k < |es| then Some(es[k]) else None
  }

  lemma IndexOfPrefix(es: seq<Element>, k: nat, id: string)
    requires k <= |es|
    ensures IndexOf(es[..k], id) == if IndexOf(es, id) < k then IndexOf(es, id) else k
  {
    var r, r' := IndexOf(es, id), IndexOf(es[..k], id);
    if r < k {
      assert es[..k][r].id == id;
    }
  }

  /**
   * The structural invariant every editor action keeps: ids are unique and every arrow's
   * parent is an element that appears earlier in the list. It makes the parent graph a
   * forest rooted at players and bounds every recursion over parent links.
   */
  ghost predicate WellFormed(es: seq<Element>)
    decreases |es|
  {
    es == [] ||
    var n := |es| - 1;
    && WellFormed(es[..n])
    && es[n].id !in Ids(es[..n])
    && (es[n].Arrow? ==> es[n].parentId in Ids(es[..n]))
  }

  /** In a well-formed list each element is the first with its id, and an arrow's parent comes before it. */
  lemma {:induction false} WellFormedFactAt(es: seq<Element>, i: nat)
    requires WellFormed(es) && i < |es|
    ensures IndexOf(es, es[i].id) == i
    ensures es[i].Arrow? ==> IndexOf(es, es[i].parentId) < i
    decreases |es|
  {
    var n := |es| - 1;
    if i < n {
      var init := es[..n];
      assert init[i] == es[i] && WellFormed(init);
      WellFormedFactAt(init, i);
      IndexOfPrefix(es, n, es[i].id);
      if es[i].Arrow? {
        IndexOfPrefix(es, n, es[i].parentId);
      }
    } else {
      WellFormedLastFact(es);
    }
  }

  /** The last element of a well-formed list is the first with its id, and its parent comes before it. */
  lemma WellFormedLastFact(es: seq<Element>)
    requires WellFormed(es) && es != []
    ensures IndexOf(es, es[|es| - 1].id) == |es| - 1
    ensures es[|es| - 1].Arrow? ==> IndexOf(es, es[|es| - 1].parentId) < |es| - 1
  {
    var n := |es| - 1;
    var init := es[..n];
    assert es[n].id !in Ids(init);
    IndexOfPresent(init, es[n].id);
    IndexOfPrefix(es, n, es[n].id);
    assert IndexOf(init, es[n].id) == n;
    if es[n].Arrow? {
      IndexOfPresent(init, es[n].parentId);
      IndexOfPrefix(es, n, es[n].parentId);
    }
  }

  lemma WellFormedFacts(es: seq<Element>)
    requires WellFormed(es)
    ensures forall i :: 0 <= i < |es| ==> IndexOf(es, es[i].id) == i
    ensures forall i :: 0 <= i < |es| && es[i].Arrow? ==> IndexOf(es, es[i].parentId) < i
  {
    forall i | 0 <= i < |es|
      ensures IndexOf(es, es[i].id) == i
      ensures es[i].Arrow? ==> IndexOf(es, es[i].parentId) < i
    {
      WellFormedFactAt(es, i);
    }
  }

  lemma {:induction false} WellFormedPrefix(es: seq<Element>, k: nat)
    requires WellFormed(es) && k <= |es|
    ensures WellFormed(es[..k])
    decreases |es|
  {
    if k < |es| {
      var n := |es| - 1;
      assert es[..n][..k] == es[..k];
      WellFormedPrefix(es[..n], k);
    } else {
      assert es[..k] == es;
    }
  }

  /** Every member of a well-formed list is the element `Find` returns for its id. */
  lemma FindMember(es: seq<Element>, e: Element)
    requires WellFormed(es) && e in es
    ensures Find(es, e.id) == Some(e)
    ensures e.Arrow? ==> IndexOf(es, e.parentId) < IndexOf(es, e.id) < |es|
  {
    WellFormedFacts(es);
    var i :| 0 <= i < |es| && es[i] == e;
    assert IndexOf(es, es[i].id) == i;
  }

  // ---------------------------------------------------------------------------
  // Resolving positions (getArrowEnd and the start point computed for drawing)
  // ---------------------------------------------------------------------------

  /**
   * `getArrowEnd`: the parent's position plus the offset for a player parent, the
   * parent's own resolved end plus the offset for an arrow parent, and the origin when
   * no element carries the parent id.
   */
  function ArrowEnd(es: seq<Element>, a: Element): Point
    requires WellFormed(es) && a.Arrow?
    decreases IndexOf(es, a.parentId)
  {
    match Find(es, a.parentId)
    case None => Origin
    case Some(p) =>
      if p.Player? then p.position.Plus(a.relativeToParent)
      else
        WellFormedFacts(es);
        ArrowEnd(es, p).Plus(a.relativeToParent)
  }

  /**
   * Where things hung off `x` start: a player's position, an arrow's resolved end, and the
   * origin for an unknown id. Applied to an arrow's `parentId` it is the start point the
   * drawing code computes (`fromX`, `fromY`), and applied to the start id of a new arrow it
   * is the `start` of a stage click.
   */
  function Anchor(es: seq<Element>, x: string): Point
    requires WellFormed(es)
  {
    match Find(es, x)
    case None => Origin
    case Some(p) => if p.Player? then p.position else ArrowEnd(es, p)
  }

  /** In a well-formed list every arrow ends at its drawn start plus its offset. */
  lemma ArrowEndFromStart(es: seq<Element>, a: Element)
    requires WellFormed(es) && a in es && a.Arrow?
    ensures ArrowEnd(es, a) == Anchor(es, a.parentId).Plus(a.relativeToParent)
  {
    FindMember(es, a);
    IndexOfPresent(es, a.parentId);
  }

  /**
   * An arrow whose parent id names no element resolves to the origin itself: the offset
   * is not added, so the end differs from `Anchor(es, a.parentId) + offset` whenever the
   * offset is not zero. `ArrowEndFromStart` needs the arrow to be in a well-formed list,
   * where this cannot happen.
   */
  lemma ArrowEndMissingParent(es: seq<Element>, a: Element)
    requires WellFormed(es) && a.Arrow? && Find(es, a.parentId).None?
    ensures ArrowEnd(es, a) == Origin
    ensures a.relativeToParent != Origin ==> ArrowEnd(es, a) != Anchor(es, a.parentId).Plus(a.relativeToParent)
  {
  }

  /** Resolution only looks at the ancestors, which sit in any prefix that holds the parent. */
  lemma {:induction false} ArrowEndPrefix(es: seq<Element>, k: nat, a: Element)
    requires WellFormed(es) && a.Arrow? && k <= |es|
    requires a.parentId in Ids(es[..k])
    ensures WellFormed(es[..k]) && ArrowEnd(es[..k], a) == ArrowEnd(es, a)
    decreases IndexOf(es, a.parentId)
  {
    WellFormedPrefix(es, k);
    WellFormedFacts(es);
    IndexOfPresent(es[..k], a.parentId);
    IndexOfPrefix(es, k, a.parentId);
    var j := IndexOf(es, a.parentId);
    assert Find(es[..k], a.parentId) == Some(es[j]);
    var p := es[j];
    if p.Arrow? {
      IndexOfPrefix(es, k, p.parentId);
      IndexOfPresent(es[..k], p.parentId);
      ArrowEndPrefix(es, k, p);
    }
  }

  /** Appending an element never moves an arrow that is already resolved. */
  lemma ArrowEndAppend(es: seq<Element>, e: Element, a: Element)
    requires WellFormed(es + [e]) && a.Arrow? && a.parentId in Ids(es)
    ensures WellFormed(es) && ArrowEnd(es + [e], a) == ArrowEnd(es, a)
  {
    assert (es + [e])[..|es|] == es;
    ArrowEndPrefix(es + [e], |es|, a);
  }

  // ---------------------------------------------------------------------------
  // Ancestors (collectAncestorArrowIds)
  // ---------------------------------------------------------------------------

  /** `x` names an arrow whose parent id is `y`. */
  predicate ParentIs(es: seq<Element>, x: string, y: string)
  {
    Find(es, x).Some? && Find(es, x).value.Arrow? && Find(es, x).value.parentId == y
  }

  predicate IsArrowId(es: seq<Element>, x: string)
  {
    Find(es, x).Some? && Find(es, x).value.Arrow?
  }

  predicate IsPlayerId(es: seq<Element>, x: string)
  {
    Find(es, x).Some? && Find(es, x).value.Player?
  }

  /**
   * `collectAncestorArrowIds`: the arrows above `id`, nearest first, each the parent of
   * the one before, ending at the arrow that hangs off a player. Never a player id.
   */
  function AncestorArrowIds(es: seq<Element>, id: string): (r: seq<string>)
    requires WellFormed(es)
    ensures forall x :: x in r ==> IsArrowId(es, x)
    ensures !IsArrowId(es, id) ==> r == []
    ensures r != [] ==> ParentIs(es, id, r[0])
    ensures forall k :: 0 <= k < |r| - 1 ==> ParentIs(es, r[k], r[k + 1])
    ensures IsArrowId(es, id) ==>
              var last := if r == [] then id else r[|r| - 1];
              IsArrowId(es, last) && IsPlayerId(es, Find(es, last).value.parentId)
    decreases IndexOf(es, id)
  {
    match Find(es, id)
    case None => []
    case Some(e) =>
      if e.Player? then []
      else
        FindMember(es, e);
        IndexOfPresent(es, e.parentId);
        var p := Find(es, e.parentId).value;
        assert Find(es, p.id) == Some(p);
        if p.Arrow? then [p.id] + AncestorArrowIds(es, p.id) else AncestorArrowIds(es, p.id)
  }

  // ---------------------------------------------------------------------------
  // Descendants (collectDescendantArrowIds / collectDescendantIds)
  // ---------------------------------------------------------------------------

  /** The arrows whose parent is `id`, in list order. */
  function ChildArrows(es: seq<Element>, id: string): (r: seq<Element>)
    ensures forall e :: e in r <==> e in es && e.Arrow? && e.parentId == id
    ensures |r| <= |es|
  {
    if es == [] then []
    else (if es[0].Arrow? && es[0].parentId == id then [es[0]] else []) + ChildArrows(es[1..], id)
  }

  /** The filter keeps list order: a child appended after `es` comes after the children already in `es`. */
  lemma {:induction false} ChildArrowsAppend(es: seq<Element>, e: Element, id: string)
    ensures ChildArrows(es + [e], id) == ChildArrows(es, id) + (if e.Arrow? && e.parentId == id then [e] else [])
  {
    if es != [] {
      assert (es + [e])[0] == es[0] && (es + [e])[1..] == es[1..] + [e];
      ChildArrowsAppend(es[1..], e, id);
    }
  }

  /** Reference definition of the collected descendants: each direct child, in list order, followed by its own descendants. */
  function DescendantArrowIds(es: seq<Element>, id: string): seq<string>
    requires WellFormed(es)
    decreases |es| - IndexOf(es, id), 1
  {
    DescendantsThrough(es, id, ChildArrows(es, id))
  }

  /** The descendants contributed by the children `cs` of `id`, in the order of `cs`. */
  function DescendantsThrough(es: seq<Element>, id: string, cs: seq<Element>): seq<string>
    requires WellFormed(es)
    requires forall c :: c in cs ==> c in es && c.Arrow? && c.parentId == id
    decreases |es| - IndexOf(es, id), 0, |cs|
  {
    if cs == [] then []
    else
      var c := cs[|cs| - 1];
      FindMember(es, c);
      DescendantsThrough(es, id, cs[..|cs| - 1]) + [c.id] + DescendantArrowIds(es, c.id)
  }

  /** Taking one more child of `id` appends that child and its descendants. */
  lemma DescendantsThroughStep(es: seq<Element>, id: string, cs: seq<Element>, k: nat)
    requires WellFormed(es) && k < |cs|
    requires forall c :: c in cs ==> c in es && c.Arrow? && c.parentId == id
    ensures DescendantsThrough(es, id, cs[..k + 1]) ==
              DescendantsThrough(es, id, cs[..k]) + [cs[k].id] + DescendantArrowIds(es, cs[k].id)
  {
    assert cs[..k + 1][..k] == cs[..k];
  }

  /** `x` names an arrow whose chain of parents passes through `id`. */
  ghost predicate DescendsFrom(es: seq<Element>, x: string, id: string)
    requires WellFormed(es)
    decreases IndexOf(es, x)
  {
    match Find(es, x)
    case None => false
    case Some(e) => e.Arrow? && (e.parentId == id || (FindMember(es, e); DescendsFrom(es, e.parentId, id)))
  }

  /** Descent always runs towards the front of the list, so no element descends from itself. */
  lemma {:induction false} DescendsBelow(es: seq<Element>, y: string, z: string)
    requires WellFormed(es) && DescendsFrom(es, y, z)
    ensures z in Ids(es) && IndexOf(es, z) < IndexOf(es, y) < |es|
    decreases IndexOf(es, y)
  {
    WellFormedFacts(es);
    var e := Find(es, y).value;
    IndexOfPresent(es, e.parentId);
    if e.parentId != z {
      DescendsBelow(es, e.parentId, z);
    }
  }

  lemma {:induction false} DescendsThroughArrow(es: seq<Element>, x: string, q: Element)
    requires WellFormed(es) && q in es && q.Arrow?
    requires DescendsFrom(es, x, q.id)
    ensures DescendsFrom(es, x, q.parentId)
    decreases IndexOf(es, x)
  {
    WellFormedFacts(es);
    FindMember(es, q);
    var e := Find(es, x).value;
    if e.parentId != q.id {
      DescendsThroughArrow(es, e.parentId, q);
    }
  }

  lemma {:induction false} DescendantsThroughSound(es: seq<Element>, id: string, cs: seq<Element>, x: string)
    requires WellFormed(es)
    requires forall c :: c in cs ==> c in es && c.Arrow? && c.parentId == id
    requires x in DescendantsThrough(es, id, cs)
    ensures DescendsFrom(es, x, id)
    decreases |es| - IndexOf(es, id), 0, |cs|
  {
    var c := cs[|cs| - 1];
    FindMember(es, c);
    var front := DescendantsThrough(es, id, cs[..|cs| - 1]);
    if x in front {
      DescendantsThroughSound(es, id, cs[..|cs| - 1], x);
    } else if x == c.id {
      WellFormedFacts(es);
    } else {
      DescendantsSound(es, c.id, x);
      DescendsThroughArrow(es, x, c);
    }
  }

  lemma {:induction false} DescendantsSound(es: seq<Element>, id: string, x: string)
    requires WellFormed(es) && x in DescendantArrowIds(es, id)
    ensures DescendsFrom(es, x, id)
    decreases |es| - IndexOf(es, id), 1
  {
    DescendantsThroughSound(es, id, ChildArrows(es, id), x);
  }

  /** Every chain that reaches `id` passes through one of its direct children. */
  lemma {:induction false} DescentHasTopChild(es: seq<Element>, x: string, id: string) returns (c: Element)
    requires WellFormed(es) && DescendsFrom(es, x, id)
    ensures c in es && c.Arrow? && c.parentId == id
    ensures x == c.id || DescendsFrom(es, x, c.id)
    decreases IndexOf(es, x)
  {
    WellFormedFacts(es);
    var e := Find(es, x).value;
    if e.parentId == id {
      c := e;
    } else {
      c := DescentHasTopChild(es, e.parentId, id);
    }
  }

  lemma {:induction false} DescendantsThroughCover(es: seq<Element>, id: string, cs: seq<Element>, c: Element, y: string)
    requires WellFormed(es)
    requires forall c' :: c' in cs ==> c' in es && c'.Arrow? && c'.parentId == id
    requires c in cs && (y == c.id || y in DescendantArrowIds(es, c.id))
    ensures y in DescendantsThrough(es, id, cs)
    decreases |cs|
  {
    var last := cs[|cs| - 1];
    FindMember(es, last);
    if c != last {
      assert c in cs[..|cs| - 1];
      DescendantsThroughCover(es, id, cs[..|cs| - 1], c, y);
    }
  }

  lemma {:induction false} DescendantsComplete(es: seq<Element>, id: string, x: string)
    requires WellFormed(es) && DescendsFrom(es, x, id)
    ensures x in DescendantArrowIds(es, id)
    decreases |es| - IndexOf(es, id)
  {
    var c := DescentHasTopChild(es, x, id);
    FindMember(es, c);
    if x != c.id {
      DescendantsComplete(es, c.id, x);
    }
    DescendantsThroughCover(es, id, ChildArrows(es, id), c, x);
  }

  /** The collected descendants are exactly the arrows whose parent chain reaches `id`. */
  lemma DescendantsExact(es: seq<Element>, id: string, x: string)
    requires WellFormed(es)
    ensures x in DescendantArrowIds(es, id) <==> DescendsFrom(es, x, id)
  {
    if x in DescendantArrowIds(es, id) {
      DescendantsSound(es, id, x);
    }
    if DescendsFrom(es, x, id) {
      DescendantsComplete(es, id, x);
    }
  }

  /** One step up the chain: the ancestors of an arrow are its parent, when that is an arrow, then the parent's ancestors. */
  lemma AncestorsStep(es: seq<Element>, x: string, b: string)
    requires WellFormed(es) && IsArrowId(es, x)
    ensures var q := Find(es, x).value.parentId;
            && IndexOf(es, q) < IndexOf(es, x)
            && (b in AncestorArrowIds(es, x) <==> (b == q && IsArrowId(es, q)) || b in AncestorArrowIds(es, q))
  {
    var e := Find(es, x).value;
    FindMember(es, e);
    IndexOfPresent(es, e.parentId);
    var p := Find(es, e.parentId).value;
    assert Find(es, p.id) == Some(p);
    if p.Arrow? {
      assert AncestorArrowIds(es, x) == [p.id] + AncestorArrowIds(es, p.id);
      assert b in AncestorArrowIds(es, x) <==> b == p.id || b in AncestorArrowIds(es, p.id);
    } else {
      assert AncestorArrowIds(es, x) == AncestorArrowIds(es, p.id);
      assert !IsArrowId(es, p.id);
    }
  }

  /** An arrow `b` is among the ancestors of `x` exactly when `x`'s parent chain passes through `b`. */
  lemma {:induction false} AncestorsMatchDescent(es: seq<Element>, x: string, b: string)
    requires WellFormed(es)
    ensures b in AncestorArrowIds(es, x) <==> IsArrowId(es, b) && DescendsFrom(es, x, b)
    decreases IndexOf(es, x)
  {
    if IsArrowId(es, x) {
      var q := Find(es, x).value.parentId;
      AncestorsStep(es, x, b);
      AncestorsMatchDescent(es, q, b);
    }
  }

  /** Between arrows, "descendant of" and "ancestor of" are converse relations. */
  lemma DescendantAncestorSymmetry(es: seq<Element>, x: string, b: string)
    requires WellFormed(es) && IsArrowId(es, b)
    ensures x in DescendantArrowIds(es, b) <==> b in AncestorArrowIds(es, x)
  {
    DescendantsExact(es, b, x);
    AncestorsMatchDescent(es, x, b);
  }

  // ---------------------------------------------------------------------------
  // Terminal arrows
  // ---------------------------------------------------------------------------

  /** `isTerminal`: no arrow in the list names `id` as its parent. */
  predicate IsTerminal(es: seq<Element>, id: string)
  {
    !exists e :: e in es && e.Arrow? && e.parentId == id
  }

  /** Terminal exactly when nothing descends from the arrow (it is drawn with a head). */
  lemma TerminalIffNoDescendants(es: seq<Element>, id: string)
    requires WellFormed(es)
    ensures IsTerminal(es, id) <==> DescendantArrowIds(es, id) == []
  {
    var cs := ChildArrows(es, id);
    if cs != [] {
      assert cs[|cs| - 1] in cs;
      var c := cs[|cs| - 1];
      FindMember(es, c);
      assert c.id in DescendantArrowIds(es, id);
    }
  }

  /** Hanging an arrow off `id` makes it non-terminal; appending anything else leaves its status alone. */
  lemma TerminalAfterAppend(es: seq<Element>, e: Element, id: string)
    ensures IsTerminal(es + [e], id) <==> IsTerminal(es, id) && !(e.Arrow? && e.parentId == id)
  {
    if !IsTerminal(es, id) {
      var c :| c in es && c.Arrow? && c.parentId == id;
      assert c in es + [e];
    }
    if e.Arrow? && e.parentId == id {
      assert e in es + [e];
    }
  }

  /** After a removal, `id` is terminal exactly when every child arrow it had was removed. */
  lemma TerminalAfterRemove(es: seq<Element>, ds: seq<string>, id: string)
    ensures IsTerminal(RemoveIds(es, ds), id) <==> forall c :: c in es && c.Arrow? && c.parentId == id ==> c.id in ds
  {
  }

  // ---------------------------------------------------------------------------
  // Cascade delete (handleDeleteElement)
  // ---------------------------------------------------------------------------

  /** `elements.filter((e) => !ids.includes(e.id))`. */
  function RemoveIds(es: seq<Element>, ds: seq<string>): (r: seq<Element>)
    ensures forall e :: e in r <==> e in es && e.id !in ds
    ensures |r| <= |es|
  {
    if es == [] then []
    else
      var n := |es| - 1;
      RemoveIds(es[..n], ds) + (if es[n].id in ds then [] else [es[n]])
  }

  /** Removal is a filter: it distributes over concatenation, so survivors keep their order. */
  lemma {:induction false} RemoveIdsConcat(a: seq<Element>, b: seq<Element>, ds: seq<string>)
    ensures RemoveIds(a + b, ds) == RemoveIds(a, ds) + RemoveIds(b, ds)
    decreases |b|
  {
    if b == [] {
      assert a + b == a;
    } else {
      var n := |b| - 1;
      assert (a + b)[..|a + b| - 1] == a + b[..n];
      RemoveIdsConcat(a, b[..n], ds);
    }
  }

  /** Whenever a parent's id is in `ds`, so is the id of each of its child arrows. */
  ghost predicate ClosedUnderChildren(es: seq<Element>, ds: seq<string>)
  {
    forall e, q :: e in es && q in es && e.Arrow? && e.parentId == q.id && q.id in ds ==> e.id in ds
  }

  lemma IdsOfRemoved(es: seq<Element>, ds: seq<string>)
    ensures Ids(RemoveIds(es, ds)) <= Ids(es)
  {
  }

  /** Removing a set of ids that is closed under "child of" keeps the list well formed. */
  lemma {:induction false} RemoveClosedWellFormed(es: seq<Element>, ds: seq<string>)
    requires WellFormed(es) && ClosedUnderChildren(es, ds)
    ensures WellFormed(RemoveIds(es, ds))
    decreases |es|
  {
    if es == [] {
      assert RemoveIds(es, ds) == [];
    } else {
      var n := |es| - 1;
      var init := es[..n];
      var last := es[n];
      assert forall e :: e in init ==> e in es;
      assert ClosedUnderChildren(init, ds);
      RemoveClosedWellFormed(init, ds);
      var r0 := RemoveIds(init, ds);
      assert RemoveIds(es, ds) == r0 + (if last.id in ds then [] else [last]);
      if last.id !in ds {
        var r := r0 + [last];
        assert r[..|r| - 1] == r0;
        IdsOfRemoved(init, ds);
        assert last.id !in Ids(r0);
        if last.Arrow? {
          var q :| q in init && q.id == last.parentId;
          assert q in es;
          assert q.id !in ds;
          assert q in r0;
          assert last.parentId in Ids(r0);
        }
        assert WellFormed(r);
      } else {
        assert r0 + [] == r0;
      }
    }
  }

  /**
   * Deleting `sel` with its collected descendants removes exactly `sel` and the arrows
   * whose chain reaches it, and no survivor is left with a dangling parent.
   */
  lemma DeleteSubtree(es: seq<Element>, sel: string)
    requires WellFormed(es)
    ensures var r := RemoveIds(es, [sel] + DescendantArrowIds(es, sel));
            && WellFormed(r)
            && forall e :: e in r <==> e in es && e.id != sel && !DescendsFrom(es, e.id, sel)
  {
    var ds := [sel] + DescendantArrowIds(es, sel);
    forall e | e in es
      ensures e.id in ds <==> e.id == sel || DescendsFrom(es, e.id, sel)
    {
      DescendantsExact(es, sel, e.id);
    }
    forall e, q | e in es && q in es && e.Arrow? && e.parentId == q.id && q.id in ds
      ensures e.id in ds
    {
      FindMember(es, e);
      DescendantsExact(es, sel, q.id);
      DescendantsExact(es, sel, e.id);
    }
    RemoveClosedWellFormed(es, ds);
  }

  // ---------------------------------------------------------------------------
  // Player numbering (nextId derived from loaded ids)
  // ---------------------------------------------------------------------------

  /** Ids matching `^P(\d+)$`. */
  predicate IsNumberedPlayerId(s: string)
  {
    |s| >= 2 && s[0] == 'P' && AllDigits(s[1..])
  }

  function PlayerNumber(s: string): nat
    requires IsNumberedPlayerId(s)
  {
    DigitsValue(s[1..])
  }

  /** The largest number among the `P<n>` ids, or 0 when there is none. */
  function MaxPlayerNumber(ids: seq<string>): (m: nat)
    ensures forall i :: 0 <= i < |ids| && IsNumberedPlayerId(ids[i]) ==> PlayerNumber(ids[i]) <= m
    ensures m == 0 || exists i :: 0 <= i < |ids| && IsNumberedPlayerId(ids[i]) && PlayerNumber(ids[i]) == m
  {
    if ids == [] then 0
    else
      var n := |ids| - 1;
      var m := MaxPlayerNumber(ids[..n]);
      if IsNumberedPlayerId(ids[n]) && PlayerNumber(ids[n]) > m then PlayerNumber(ids[n]) else m
  }

  function IdList(es: seq<Element>): (r: seq<string>)
    ensures |r| == |es| && forall i :: 0 <= i < |es| ==> r[i] == es[i].id
  {
    if es == [] then [] else [es[0].id] + IdList(es[1..])
  }

  /** The counter seeded from the loaded players: one past the largest `P<n>`, or 1. */
  function NextIdFrom(es: seq<Element>): nat
  {
    MaxPlayerNumber(IdList(es)) + 1
  }

  /** Every `P<n>` id in the list is numbered below `n`. */
  ghost predicate NumbersBelow(es: seq<Element>, n: nat)
  {
    forall e :: e in es && IsNumberedPlayerId(e.id) ==> PlayerNumber(e.id) < n
  }

  lemma NextIdAboveLoaded(es: seq<Element>)
    ensures NumbersBelow(es, NextIdFrom(es))
    ensures NextIdFrom(es) == 1 || exists e :: e in es && IsNumberedPlayerId(e.id) && PlayerNumber(e.id) + 1 == NextIdFrom(es)
  {
    var ids := IdList(es);
    forall e | e in es && IsNumberedPlayerId(e.id)
      ensures PlayerNumber(e.id) < NextIdFrom(es)
    {
      var i :| 0 <= i < |es| && es[i] == e;
      assert ids[i] == e.id;
    }
    if NextIdFrom(es) != 1 {
      var i :| 0 <= i < |ids| && IsNumberedPlayerId(ids[i]) && PlayerNumber(ids[i]) == MaxPlayerNumber(ids);
      assert es[i] in es;
    }
  }

  /** `P${n}`. */
  function PlayerIdFor(n: nat): string
  {
    "P" + DecimalString(n)
  }

  /** `A${Date.now()}`: the id of an arrow created at time `now`. */
  function ArrowIdFor(now: nat): string
  {
    "A" + DecimalString(now)
  }

  lemma PlayerIdRoundTrip(n: nat)
    ensures IsNumberedPlayerId(PlayerIdFor(n)) && PlayerNumber(PlayerIdFor(n)) == n
  {
    assert PlayerIdFor(n)[1..] == DecimalString(n);
    DecimalRoundTrip(n);
  }

  /** The id `P${n}` is new whenever every loaded `P<k>` is numbered below `n`. */
  lemma FreshPlayerId(es: seq<Element>, n: nat)
    requires NumbersBelow(es, n)
    ensures PlayerIdFor(n) !in Ids(es)
  {
    PlayerIdRoundTrip(n);
  }
}
