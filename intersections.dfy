/** cleanIntersections: removing debris from large road crossings. */
module Intersections {
  import opened LayoutTypes
  import opened Geometry
  import opened Seqs

  const MIN_CROSSING: real := 20.0

  /** Lane lines, parking spaces, speed bumps and guidance signs. */
  predicate IsDebris(e: Element) {
    e.kind in [LANE_LINE, PARKING_SPACE, SPEED_BUMP, GUIDANCE_SIGN]
  }

  /** The centroid of `e` lies strictly inside `box`. */
  predicate CentroidInside(e: Element, box: Rect) {
    var cx := e.x + e.width / 2.0;
    var cy := e.y + e.height / 2.0;
    cx > box.x && cx < box.x + box.width && cy > box.y && cy < box.y + box.height
  }

  /** The intersection of two roads when it exceeds MIN_CROSSING in both dimensions. */
  function Crossing(a: Element, b: Element): Option<Rect> {
    match IntersectionBox(RectOf(a), RectOf(b))
    case Some(box) => if box.width > MIN_CROSSING && box.height > MIN_CROSSING then Some(box) else None
    case None => None
  }

  /** Debris element `e` lies in the crossing of roads `a` and `b`. */
  predicate SweptBy(e: Element, a: Element, b: Element) {
    IsDebris(e) && Crossing(a, b).Some? && CentroidInside(e, Crossing(a, b).value)
  }

  /** Debris element `e` lies in the crossing of some pair i < j of `roads`. */
  ghost predicate Swept(e: Element, roads: seq<Element>) {
    exists i, j :: 0 <= i < j < |roads| && SweptBy(e, roads[i], roads[j])
  }

  /** Ids of the debris elements of `es` whose centroid lies in `box`. */
  function DebrisIds(es: seq<Element>, box: Rect): set<string> {
    set e | e in es && IsDebris(e) && CentroidInside(e, box) :: e.id
  }

  /** What the pair of roads `a`, `b` adds to `elementsToRemove`. */
  function PairIds(es: seq<Element>, a: Element, b: Element): set<string> {
    match Crossing(a, b)
    case Some(box) => DebrisIds(es, box)
    case None => {}
  }

  /** The union of `f(j)` for lo <= j < n. */
  function UnionBelow(f: nat -> set<string>, lo: nat, n: nat): set<string>
    decreases n
  {
    if n <= lo then {} else UnionBelow(f, lo, n - 1) + f(n - 1)
  }

  /** What pair (i, j) adds, for each j. */
  function Row(es: seq<Element>, roads: seq<Element>, i: nat): nat -> set<string>
    requires i < |roads|
  {
    var road := roads[i];
    (j: nat) => if j < |roads| then PairIds(es, road, roads[j]) else {}
  }

  /** Pairs (i, j) for i < j < n. */
  function RowIds(es: seq<Element>, roads: seq<Element>, i: nat, n: nat): set<string>
    requires i < |roads| && n <= |roads|
  {
    UnionBelow(Row(es, roads, i), i + 1, n)
  }

  /** What road i adds with all the later roads, for each i. */
  function Rows(es: seq<Element>, roads: seq<Element>): nat -> set<string> {
    (i: nat) => if i < |roads| then RowIds(es, roads, i, |roads|) else {}
  }

  /** All pairs whose first index is below n. */
  function SweptIds(es: seq<Element>, roads: seq<Element>, n: nat): set<string>
    requires n <= |roads|
  {
    UnionBelow(Rows(es, roads), 0, n)
  }

  function RemovalIds(es: seq<Element>): set<string> {
    var roads := Filter(IsRoad, es);
    SweptIds(es, roads, |roads|)
  }

  function CleanIntersectionsSpec(layout: Layout): Layout {
    var ids := RemovalIds(layout.elements);
    if |ids| > 0 then layout.(elements := WithoutIds(layout.elements, ids)) else layout
  }

  /** `layout.elements.filter(e => !elementsToRemove.has(e.id))`. */
  function WithoutIds(es: seq<Element>, ids: set<string>): seq<Element> {
    Filter((e: Element) => e.id !in ids, es)
  }

  /** cleanIntersections, as the source runs it: a nested i < j loop growing
      the set `elementsToRemove`, then one filter by id. */
  method CleanIntersections(layout: Layout) returns (out: Layout)
    ensures out == CleanIntersectionsSpec(layout)
  {
    var es := layout.elements;
    var roads := Filter(IsRoad, es);
    var elementsToRemove: set<string> := {};
    var i := 0;
    while i < |roads|
      invariant 0 <= i <= |roads|
      invariant elementsToRemove == SweptIds(es, roads, i)
    {
      elementsToRemove := SweepRow(es, roads, i, elementsToRemove);
      i := i + 1;
    }
    if |elementsToRemove| > 0 {
      out := layout.(elements := WithoutIds(es, elementsToRemove));
    } else {
      out := layout;
    }
  }

  /** The inner loop of cleanIntersections: road i against every later road j. */
  method SweepRow(es: seq<Element>, roads: seq<Element>, i: nat, elementsToRemove: set<string>) returns (marked: set<string>)
    requires i < |roads|
    requires elementsToRemove == SweptIds(es, roads, i)
    ensures marked == SweptIds(es, roads, i + 1)
  {
    SweptIdsStep(es, roads, i);
    marked := elementsToRemove;
    var j := i + 1;
    while j < |roads|
      invariant i + 1 <= j <= |roads|
      invariant marked == elementsToRemove + RowIds(es, roads, i, j)
    {
      var intersection := IntersectionBox(RectOf(roads[i]), RectOf(roads[j]));
      if intersection.Some? && intersection.value.width > MIN_CROSSING && intersection.value.height > MIN_CROSSING {
        var box := intersection.value;
        marked := MarkDebris(es, marked, box);
        assert PairIds(es, roads[i], roads[j]) == DebrisIds(es, box);
      } else {
        assert PairIds(es, roads[i], roads[j]) == {};
      }
      RowIdsStep(es, roads, i, j);
      j := j + 1;
    }
  }

  /** The body of a qualifying pair: filter the not-yet-marked debris inside
      the crossing, then add each one's id to the set. */
  method MarkDebris(es: seq<Element>, elementsToRemove: set<string>, box: Rect) returns (marked: set<string>)
    ensures marked == elementsToRemove + DebrisIds(es, box)
  {
    var debris := Filter((el: Element) => el.id !in elementsToRemove && IsDebris(el) && CentroidInside(el, box), es);
    marked := elementsToRemove;
    var k := 0;
    while k < |debris|
      invariant 0 <= k <= |debris|
      invariant marked == elementsToRemove + IdsOf(debris[..k])
    {
      assert debris[..k + 1] == debris[..k] + [debris[k]];
      marked := marked + {debris[k].id};
      k := k + 1;
    }
    assert debris[..k] == debris;
    DebrisStep(es, elementsToRemove, box);
  }

  function IdsOf(s: seq<Element>): set<string> {
    set d | d in s :: d.id
  }

  /** Adding the ids of the not-yet-marked debris is adding all debris ids. */
  lemma DebrisStep(es: seq<Element>, seen: set<string>, box: Rect)
    ensures seen + IdsOf(Filter((el: Element) => el.id !in seen && IsDebris(el) && CentroidInside(el, box), es))
         == seen + DebrisIds(es, box)
  {
  }

  // ---------------------------------------------------------------------
  // Which ids are removed

  lemma UnionBelowStep(f: nat -> set<string>, lo: nat, n: nat)
    requires lo <= n
    ensures UnionBelow(f, lo, n + 1) == UnionBelow(f, lo, n) + f(n)
  {
  }

  lemma RowIdsStep(es: seq<Element>, roads: seq<Element>, i: nat, j: nat)
    requires i < j < |roads|
    ensures RowIds(es, roads, i, j + 1) == RowIds(es, roads, i, j) + PairIds(es, roads[i], roads[j])
  {
    UnionBelowStep(Row(es, roads, i), i + 1, j);
  }

  lemma SweptIdsStep(es: seq<Element>, roads: seq<Element>, i: nat)
    requires i < |roads|
    ensures SweptIds(es, roads, i + 1) == SweptIds(es, roads, i) + RowIds(es, roads, i, |roads|)
  {
    UnionBelowStep(Rows(es, roads), 0, i);
  }

  /** An id is in the union exactly when it is in one of the sets. */
  lemma {:induction false} UnionBelowMeaning(f: nat -> set<string>, lo: nat, n: nat, id: string)
    ensures id in UnionBelow(f, lo, n) <==> exists j :: lo <= j < n && id in f(j)
    decreases n
  {
    if n > lo {
      UnionBelowMeaning(f, lo, n - 1, id);
      if exists j :: lo <= j < n && id in f(j) {
        var j :| lo <= j < n && id in f(j);
        if j < n - 1 {
          assert id in UnionBelow(f, lo, n - 1);
        }
      }
    }
  }

  /** Some debris element of `es` carrying `id` lies in the crossing of `a` and `b`. */
  ghost predicate PairSweeps(es: seq<Element>, a: Element, b: Element, id: string) {
    exists e :: e in es && SweptBy(e, a, b) && e.id == id
  }

  lemma PairIdsMeaning(es: seq<Element>, a: Element, b: Element, id: string)
    ensures id in PairIds(es, a, b) <==> PairSweeps(es, a, b, id)
  {
    if id in PairIds(es, a, b) {
      var e :| e in es && IsDebris(e) && CentroidInside(e, Crossing(a, b).value) && e.id == id;
      assert SweptBy(e, a, b);
    }
  }

  lemma RowIdsMeaning(es: seq<Element>, roads: seq<Element>, i: nat, n: nat, id: string)
    requires i < |roads| && n <= |roads|
    ensures id in RowIds(es, roads, i, n) <==> exists j :: i < j < n && PairSweeps(es, roads[i], roads[j], id)
  {
    var f := Row(es, roads, i);
    UnionBelowMeaning(f, i + 1, n, id);
    forall j | i < j < n ensures id in f(j) <==> PairSweeps(es, roads[i], roads[j], id) {
      PairIdsMeaning(es, roads[i], roads[j], id);
    }
  }

  /** Some debris element carrying `id` lies in the crossing of road i with a later road. */
  ghost predicate InRow(es: seq<Element>, roads: seq<Element>, i: nat, id: string) {
    exists j :: i < j < |roads| && PairSweeps(es, roads[i], roads[j], id)
  }

  lemma SweptIdsMeaning(es: seq<Element>, roads: seq<Element>, n: nat, id: string)
    requires n <= |roads|
    ensures id in SweptIds(es, roads, n) <==> exists i :: 0 <= i < n && InRow(es, roads, i, id)
  {
    var f := Rows(es, roads);
    UnionBelowMeaning(f, 0, n, id);
    forall i | 0 <= i < n ensures id in f(i) <==> InRow(es, roads, i, id) {
      RowIdsMeaning(es, roads, i, |roads|, id);
    }
  }

  /** An id is removed exactly when some debris element carrying it has its
      centroid strictly inside the crossing of two roads, larger than 20 in
      both dimensions. */
  lemma RemovalIdsMeaning(es: seq<Element>, id: string)
    ensures id in RemovalIds(es) <==> exists e :: e in es && Swept(e, Filter(IsRoad, es)) && e.id == id
  {
    if id in RemovalIds(es) {
      RemovedIdsSwept(es, id);
    }
    if exists e :: e in es && Swept(e, Filter(IsRoad, es)) && e.id == id {
      var e :| e in es && Swept(e, Filter(IsRoad, es)) && e.id == id;
      SweptIdsRemoved(es, e);
    }
  }

  lemma RemovedIdsSwept(es: seq<Element>, id: string)
    requires id in RemovalIds(es)
    ensures exists e :: e in es && Swept(e, Filter(IsRoad, es)) && e.id == id
  {
    var roads := Filter(IsRoad, es);
    SweptIdsMeaning(es, roads, |roads|, id);
    var i :| 0 <= i < |roads| && InRow(es, roads, i, id);
    var j :| i < j < |roads| && PairSweeps(es, roads[i], roads[j], id);
    var e :| e in es && SweptBy(e, roads[i], roads[j]) && e.id == id;
    assert Swept(e, roads);
  }

  lemma SweptIdsRemoved(es: seq<Element>, e: Element)
    requires e in es && Swept(e, Filter(IsRoad, es))
    ensures e.id in RemovalIds(es)
  {
    var roads := Filter(IsRoad, es);
    var i, j :| 0 <= i < j < |roads| && SweptBy(e, roads[i], roads[j]);
    assert PairSweeps(es, roads[i], roads[j], e.id);
    assert InRow(es, roads, i, e.id);
    SweptIdsMeaning(es, roads, |roads|, e.id);
  }

  /** With unique ids, cleanIntersections keeps an element exactly when it is
      not debris lying in a large road crossing, and keeps the order. */
  lemma CleanIntersectionsRemovesOnlyDebris(layout: Layout)
    requires UniqueIds(layout.elements)
    ensures var out := CleanIntersectionsSpec(layout); var roads := Filter(IsRoad, layout.elements);
      && out.width == layout.width && out.height == layout.height
      && (forall e :: e in out.elements ==> e in layout.elements)
      && (forall e :: e in layout.elements ==> (e in out.elements <==> !Swept(e, roads)))
  {
    var es := layout.elements;
    var roads := Filter(IsRoad, es);
    var ids := RemovalIds(es);
    forall e | e in es ensures e.id in ids <==> Swept(e, roads) {
      if e.id in ids {
        RemovedIdsSwept(es, e.id);
        var d :| d in es && Swept(d, roads) && d.id == e.id;
        SameId(es, d, e);
      } else if Swept(e, roads) {
        SweptIdsRemoved(es, e);
      }
    }
  }

  /** With unique ids, an id names one element. */
  lemma SameId(es: seq<Element>, d: Element, e: Element)
    requires UniqueIds(es) && d in es && e in es && d.id == e.id
    ensures d == e
  {
    var a :| 0 <= a < |es| && es[a] == e;
    var b :| 0 <= b < |es| && es[b] == d;
    assert a == b;
  }

  /** When nothing qualifies, the layout is returned as it is. */
  lemma CleanIntersectionsNoOp(layout: Layout)
    requires forall e :: e in layout.elements ==> !Swept(e, Filter(IsRoad, layout.elements))
    ensures CleanIntersectionsSpec(layout) == layout
  {
    var ids := RemovalIds(layout.elements);
    if |ids| > 0 {
      var id :| id in ids;
      RemovalIdsMeaning(layout.elements, id);
    }
  }

  /** Swept by roads that form a subsequence is swept by the whole sequence. */
  lemma SweptSubsequence(e: Element, p: Element -> bool, roads: seq<Element>)
    requires Swept(e, Filter(p, roads))
    ensures Swept(e, roads)
  {
    var sub := Filter(p, roads);
    var i, j :| 0 <= i < j < |sub| && SweptBy(e, sub[i], sub[j]);
    FilterPair(p, roads, i, j);
    var i', j' :| 0 <= i' < j' < |roads| && roads[i'] == sub[i] && roads[j'] == sub[j];
  }

  /** cleanIntersections is idempotent: the roads that survive are a
      subsequence of the roads before, so their crossings are among the
      crossings already swept. */
  lemma CleanIntersectionsIdempotent(layout: Layout)
    ensures CleanIntersectionsSpec(CleanIntersectionsSpec(layout)) == CleanIntersectionsSpec(layout)
  {
    var es := layout.elements;
    var ids := RemovalIds(es);
    if |ids| > 0 {
      var keep := (e: Element) => e.id !in ids;
      var out := CleanIntersectionsSpec(layout);
      var es' := out.elements;
      assert es' == Filter(keep, es) == WithoutIds(es, ids);
      FilterCommute(keep, IsRoad, es);
      forall e | e in es' ensures !Swept(e, Filter(IsRoad, es')) {
        if Swept(e, Filter(IsRoad, es')) {
          assert Filter(IsRoad, es') == Filter(keep, Filter(IsRoad, es));
          SweptSubsequence(e, keep, Filter(IsRoad, es));
          RemovalIdsMeaning(es, e.id);
        }
      }
      CleanIntersectionsNoOp(out);
    }
  }

  /** No debris element of the layout lies in a large crossing of its roads. */
  ghost predicate Clean(layout: Layout) {
    forall e :: e in layout.elements ==> !Swept(e, Filter(IsRoad, layout.elements))
  }

  /** The layouts cleanIntersections leaves as they are are exactly the clean ones. */
  lemma CleanIntersectionsFixedPoints(layout: Layout)
    ensures CleanIntersectionsSpec(layout) == layout <==> Clean(layout)
  {
    var es := layout.elements;
    var ids := RemovalIds(es);
    if Clean(layout) {
      CleanIntersectionsNoOp(layout);
    } else {
      var e :| e in es && Swept(e, Filter(IsRoad, es));
      RemovalIdsMeaning(es, e.id);
      assert e.id in ids;
      assert e !in WithoutIds(es, ids);
    }
  }

  /** After cleanIntersections the layout is clean. */
  lemma CleanIntersectionsCleans(layout: Layout)
    ensures Clean(CleanIntersectionsSpec(layout))
  {
    CleanIntersectionsIdempotent(layout);
    CleanIntersectionsFixedPoints(CleanIntersectionsSpec(layout));
  }
}
