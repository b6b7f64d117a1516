/** cleanupPillars and resolvePriorityConflicts: two filters that drop the
    pillars and speed bumps that conflict with roads, spots and sidewalks. */
module Pruning {
  import opened LayoutTypes
  import opened Geometry
  import opened Seqs

  /** The inward margin a pillar must keep from a spot's edges to count as inside it. */
  const SPOT_MARGIN: real := 2.0
  /** A sidewalk overlap wider or taller than this removes a speed bump. */
  const CONFLICT_MIN: real := 2.0

  predicate IsPillar(e: Element) { e.kind == PILLAR }
  predicate IsNotPillar(e: Element) { e.kind != PILLAR }
  predicate IsSpeedBump(e: Element) { e.kind == SPEED_BUMP }
  predicate IsNotSpeedBump(e: Element) { e.kind != SPEED_BUMP }

  // ---------------------------------------------------------------------
  // cleanupPillars

  /** `isOnRoad`: the pillar overlaps some road, touching edges excluded. */
  predicate OnRoad(el: Element, roads: seq<Element>) {
    exists r :: r in roads && Overlaps(RectOf(el), RectOf(r))
  }

  /** The pillar lies strictly inside spot `s`, more than SPOT_MARGIN from each edge. */
  predicate InsideSpot(el: Element, s: Element) {
    el.x > s.x + SPOT_MARGIN && el.x + el.width < s.x + s.width - SPOT_MARGIN &&
    el.y > s.y + SPOT_MARGIN && el.y + el.height < s.y + s.height - SPOT_MARGIN
  }

  /** `isInsideSpot`. */
  predicate InsideAnySpot(el: Element, spots: seq<Element>) {
    exists s :: s in spots && InsideSpot(el, s)
  }

  /** The filter's callback: non-pillars pass; a pillar passes when it is
      neither on a road nor inside a spot. */
  predicate PillarKept(roads: seq<Element>, spots: seq<Element>, el: Element) {
    !IsPillar(el) || (!OnRoad(el, roads) && !InsideAnySpot(el, spots))
  }

  function KeepPillar(roads: seq<Element>, spots: seq<Element>): Element -> bool {
    el => PillarKept(roads, spots, el)
  }

  function CleanupPillars(layout: Layout): Layout {
    var es := layout.elements;
    layout.(elements := Filter(KeepPillar(Filter(IsRoad, es), Filter(IsParkingSpace, es)), es))
  }

  /** A pillar goes exactly when it overlaps a road of the layout or sits
      inside one of its parking spaces; nothing else is touched, and the
      remaining elements keep their order. */
  lemma CleanupPillarsRemovesOnlyPillars(layout: Layout)
    ensures var out := CleanupPillars(layout); var es := layout.elements;
      && out.width == layout.width && out.height == layout.height
      && |out.elements| <= |es|
      && (forall e :: e in out.elements ==> e in es)
      && (forall e :: e in es ==>
            (e !in out.elements <==>
               IsPillar(e) &&
               ((exists r :: r in es && IsRoad(r) && Overlaps(RectOf(e), RectOf(r))) ||
                (exists s :: s in es && IsParkingSpace(s) && InsideSpot(e, s)))))
      && Filter(IsNotPillar, out.elements) == Filter(IsNotPillar, es)
  {
    var es := layout.elements;
    var roads, spots := Filter(IsRoad, es), Filter(IsParkingSpace, es);
    forall e | e in es
      ensures e !in CleanupPillars(layout).elements <==>
                IsPillar(e) &&
                ((exists r :: r in es && IsRoad(r) && Overlaps(RectOf(e), RectOf(r))) ||
                 (exists s :: s in es && IsParkingSpace(s) && InsideSpot(e, s)))
    {
      if OnRoad(e, roads) {
        var r :| r in roads && Overlaps(RectOf(e), RectOf(r));
        assert r in es && IsRoad(r);
      }
      if InsideAnySpot(e, spots) {
        var s :| s in spots && InsideSpot(e, s);
        assert s in es && IsParkingSpace(s);
      }
      if exists r :: r in es && IsRoad(r) && Overlaps(RectOf(e), RectOf(r)) {
        var r :| r in es && IsRoad(r) && Overlaps(RectOf(e), RectOf(r));
        assert r in roads;
      }
      if exists s :: s in es && IsParkingSpace(s) && InsideSpot(e, s) {
        var s :| s in es && IsParkingSpace(s) && InsideSpot(e, s);
        assert s in spots;
      }
    }
    FilterKeepsSelected(KeepPillar(roads, spots), IsNotPillar, es);
  }

  /** Roads and parking spaces are never pillars, so a second run sees the
      same roads and spots and removes nothing more. */
  lemma CleanupPillarsIdempotent(layout: Layout)
    ensures CleanupPillars(CleanupPillars(layout)) == CleanupPillars(layout)
  {
    var es := layout.elements;
    var keep := KeepPillar(Filter(IsRoad, es), Filter(IsParkingSpace, es));
    var es' := Filter(keep, es);
    FilterKeepsSelected(keep, IsRoad, es);
    FilterKeepsSelected(keep, IsParkingSpace, es);
    assert KeepPillar(Filter(IsRoad, es'), Filter(IsParkingSpace, es')) == keep;
    FilterIdempotent(keep, es);
  }

  /** A pillar standing on a road is dropped; a pillar clear of every road
      and spot is kept. */
  lemma CleanupPillarsScenario()
    ensures var road := Element("r1", ROAD, 0.0, 0.0, 100.0, 20.0, Absent, Absent, Absent);
      var onRoad := Element("p1", PILLAR, 10.0, 5.0, 4.0, 4.0, Absent, Absent, Absent);
      var clear := Element("p2", PILLAR, 10.0, 50.0, 4.0, 4.0, Absent, Absent, Absent);
      CleanupPillars(Layout(200.0, 200.0, [road, onRoad, clear])).elements == [road, clear]
  {
    var road := Element("r1", ROAD, 0.0, 0.0, 100.0, 20.0, Absent, Absent, Absent);
    var onRoad := Element("p1", PILLAR, 10.0, 5.0, 4.0, 4.0, Absent, Absent, Absent);
    var clear := Element("p2", PILLAR, 10.0, 50.0, 4.0, 4.0, Absent, Absent, Absent);
    var es := [road, onRoad, clear];
    FilterThree(IsRoad, road, onRoad, clear);
    FilterThree(IsParkingSpace, road, onRoad, clear);
    assert Filter(IsRoad, es) == [road] && Filter(IsParkingSpace, es) == [];
    var keep := KeepPillar([road], []);
    assert !PillarKept([road], [], onRoad) by {
      assert road in [road] && Overlaps(RectOf(onRoad), RectOf(road));
    }
    assert PillarKept([road], [], clear) by {
      assert !Overlaps(RectOf(clear), RectOf(road));
      assert forall r :: r in [road] ==> r == road;
    }
    FilterThree(keep, road, onRoad, clear);
    assert keep(road) && !keep(onRoad) && keep(clear);
  }

  // ---------------------------------------------------------------------
  // resolvePriorityConflicts

  /** A speed bump conflicts with a sidewalk when their intersection box is
      wider or taller than CONFLICT_MIN. */
  predicate Conflict(el: Element, s: Element) {
    match IntersectionBox(RectOf(el), RectOf(s))
    case Some(box) => box.width > CONFLICT_MIN || box.height > CONFLICT_MIN
    case None => false
  }

  predicate BumpKept(sidewalks: seq<Element>, el: Element) {
    !IsSpeedBump(el) || !(exists s :: s in sidewalks && Conflict(el, s))
  }

  function KeepBump(sidewalks: seq<Element>): Element -> bool {
    el => BumpKept(sidewalks, el)
  }

  function ResolvePriorityConflicts(layout: Layout): Layout {
    var es := layout.elements;
    layout.(elements := Filter(KeepBump(Filter(IsSidewalk, es)), es))
  }

  /** A conflict is a genuine overlap: a speed bump that only touches a
      sidewalk is never removed. */
  lemma ConflictNeedsOverlap(el: Element, s: Element)
    requires Conflict(el, s)
    ensures Overlaps(RectOf(el), RectOf(s))
  {
    var box := IntersectionBox(RectOf(el), RectOf(s)).value;
    assert Within(box, RectOf(el)) && Within(box, RectOf(s));
  }

  /** A speed bump goes exactly when it conflicts with a sidewalk of the
      layout; nothing else is touched, and the rest keeps its order. */
  lemma ResolvePriorityConflictsRemovesOnlyBumps(layout: Layout)
    ensures var out := ResolvePriorityConflicts(layout); var es := layout.elements;
      && out.width == layout.width && out.height == layout.height
      && |out.elements| <= |es|
      && (forall e :: e in out.elements ==> e in es)
      && (forall e :: e in es ==>
            (e !in out.elements <==>
               IsSpeedBump(e) && exists s :: s in es && IsSidewalk(s) && Conflict(e, s)))
      && Filter(IsNotSpeedBump, out.elements) == Filter(IsNotSpeedBump, es)
  {
    var es := layout.elements;
    var sidewalks := Filter(IsSidewalk, es);
    forall e | e in es
      ensures e !in ResolvePriorityConflicts(layout).elements <==>
                IsSpeedBump(e) && exists s :: s in es && IsSidewalk(s) && Conflict(e, s)
    {
      if exists s :: s in sidewalks && Conflict(e, s) {
        var s :| s in sidewalks && Conflict(e, s);
        assert s in es && IsSidewalk(s);
      }
      if exists s :: s in es && IsSidewalk(s) && Conflict(e, s) {
        var s :| s in es && IsSidewalk(s) && Conflict(e, s);
        assert s in sidewalks;
      }
    }
    FilterKeepsSelected(KeepBump(sidewalks), IsNotSpeedBump, es);
  }

  /** Sidewalks are never speed bumps, so a second run removes nothing more. */
  lemma ResolvePriorityConflictsIdempotent(layout: Layout)
    ensures ResolvePriorityConflicts(ResolvePriorityConflicts(layout)) == ResolvePriorityConflicts(layout)
  {
    var es := layout.elements;
    var keep := KeepBump(Filter(IsSidewalk, es));
    FilterKeepsSelected(keep, IsSidewalk, es);
    FilterIdempotent(keep, es);
  }
}
