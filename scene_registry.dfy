/** The underground-parking scene: its element-type synonyms and its ordered
    list of post-process passes, and what running that list guarantees. */
module SceneRegistry {
  import opened LayoutTypes
  import opened Geometry
  import opened Seqs
  import AutoFill
  import Charging
  import Intersections
  import Pruning
  import SignOrientation

  /** The six post-process passes of the parking scene. */
  datatype Pass =
    | CleanIntersections
    | FillParkingAutomatically
    | GenerateChargingStations
    | CleanupPillars
    | ResolvePriorityConflicts
    | OrientGuidanceSigns

  /** `postProcessAlgorithms`: cleanup is re-run after every pass that adds
      or removes structure. */
  const PARKING_PASSES: seq<Pass> := [
    CleanIntersections,
    FillParkingAutomatically,
    CleanIntersections,
    GenerateChargingStations,
    CleanupPillars,
    CleanIntersections,
    ResolvePriorityConflicts,
    OrientGuidanceSigns
  ]

  /** What one pass makes of a layout. */
  function RunPass(p: Pass, layout: Layout): Layout {
    match p
    case CleanIntersections => Intersections.CleanIntersectionsSpec(layout)
    case FillParkingAutomatically => AutoFill.FillParking(layout)
    case GenerateChargingStations => Charging.ChargingStations(layout)
    case CleanupPillars => Pruning.CleanupPillars(layout)
    case ResolvePriorityConflicts => Pruning.ResolvePriorityConflicts(layout)
    case OrientGuidanceSigns => SignOrientation.OrientGuidanceSigns(layout)
  }

  /** Calling a pass: the imperative passes run as their loops, the filters
      and the map as functions. */
  method ApplyPass(p: Pass, layout: Layout) returns (out: Layout)
    ensures out == RunPass(p, layout)
    ensures out.width == layout.width && out.height == layout.height
  {
    match p {
      case CleanIntersections => out := Intersections.CleanIntersections(layout);
      case FillParkingAutomatically => out := AutoFill.FillParkingAutomatically(layout);
      case GenerateChargingStations => out := Charging.GenerateChargingStations(layout);
      case CleanupPillars => out := Pruning.CleanupPillars(layout);
      case ResolvePriorityConflicts => out := Pruning.ResolvePriorityConflicts(layout);
      case OrientGuidanceSigns => out := SignOrientation.OrientGuidanceSigns(layout);
    }
    PassKeepsCanvas(p, layout);
  }

  /** Left-to-right application of a pass list. */
  function RunPasses(passes: seq<Pass>, layout: Layout): Layout
    decreases |passes|
  {
    if |passes| == 0 then layout else RunPasses(passes[1..], RunPass(passes[0], layout))
  }

  /** Running two lists one after the other is running their concatenation. */
  lemma {:induction false} RunPassesAppend(a: seq<Pass>, b: seq<Pass>, layout: Layout)
    ensures RunPasses(a + b, layout) == RunPasses(b, RunPasses(a, layout))
    decreases |a|
  {
    if |a| > 0 {
      assert (a + b)[0] == a[0] && (a + b)[1..] == a[1..] + b;
      RunPassesAppend(a[1..], b, RunPass(a[0], layout));
    } else {
      assert a + b == b;
    }
  }

  /** One more pass at the end of a prefix. */
  lemma RunPassesSnoc(passes: seq<Pass>, i: nat, layout: Layout)
    requires i < |passes|
    ensures RunPasses(passes[..i + 1], layout) == RunPass(passes[i], RunPasses(passes[..i], layout))
  {
    RunPassesAppend(passes[..i], [passes[i]], layout);
    assert passes[..i] + [passes[i]] == passes[..i + 1];
    var mid := RunPasses(passes[..i], layout);
    assert RunPasses([passes[i]], mid) == RunPasses([], RunPass(passes[i], mid));
  }

  /** No pass changes the canvas. */
  lemma PassKeepsCanvas(p: Pass, layout: Layout)
    ensures RunPass(p, layout).width == layout.width && RunPass(p, layout).height == layout.height
  {
    match p {
      case FillParkingAutomatically => AutoFill.FillParkingAppendsSafeSpots(layout);
      case GenerateChargingStations => Charging.ChargingStationsAppend(layout);
      case _ =>
    }
  }

  lemma {:induction false} RunPassesKeepCanvas(passes: seq<Pass>, layout: Layout)
    ensures RunPasses(passes, layout).width == layout.width
    ensures RunPasses(passes, layout).height == layout.height
    decreases |passes|
  {
    if |passes| > 0 {
      PassKeepsCanvas(passes[0], layout);
      RunPassesKeepCanvas(passes[1..], RunPass(passes[0], layout));
    }
  }

  // ---------------------------------------------------------------------
  // The element-type synonyms

  /** `PARKING_NORMALIZATION`. */
  const PARKING_NORMALIZATION: map<string, string> := map[
    "column" := PILLAR,
    "post" := PILLAR,
    "barrier" := WALL,
    "utility_box" := PILLAR,
    "parking_spot" := PARKING_SPACE,
    "parking_bay" := PARKING_SPACE,
    "road" := ROAD,
    "lane" := ROAD,
    "path" := SIDEWALK,
    "pedestrian_walkway" := SIDEWALK
  ]

  /** A synonym becomes its canonical tag; every other tag is kept. */
  function NormalizeType(kind: string): (r: string)
    ensures kind in PARKING_NORMALIZATION ==> r in {PILLAR, WALL, PARKING_SPACE, ROAD, SIDEWALK}
    ensures kind !in PARKING_NORMALIZATION ==> r == kind
  {
    if kind in PARKING_NORMALIZATION then PARKING_NORMALIZATION[kind] else kind
  }

  /** Canonical tags are not synonyms, so normalising twice is normalising once. */
  lemma NormalizeTypeIdempotent(kind: string)
    ensures NormalizeType(NormalizeType(kind)) == NormalizeType(kind)
  {
    if kind in PARKING_NORMALIZATION {
      var r := PARKING_NORMALIZATION[kind];
      assert r in {PILLAR, WALL, PARKING_SPACE, ROAD, SIDEWALK};
      assert PARKING_NORMALIZATION.Keys ==
        {"column", "post", "barrier", "utility_box", "parking_spot", "parking_bay", "road", "lane", "path", "pedestrian_walkway"};
      assert r !in PARKING_NORMALIZATION;
    }
  }

  // ---------------------------------------------------------------------
  // What the whole parking pass list guarantees

  /** No pillar of the layout overlaps one of its roads or sits inside one of
      its parking spaces. */
  predicate NoPillarConflict(layout: Layout) {
    forall p, r :: p in layout.elements && r in layout.elements && Pruning.IsPillar(p) ==>
      (IsRoad(r) ==> !Overlaps(RectOf(p), RectOf(r))) &&
      (IsParkingSpace(r) ==> !Pruning.InsideSpot(p, r))
  }

  /** Same type tag and same rectangle. */
  predicate SameShape(a: Element, b: Element) {
    a.kind == b.kind && RectOf(a) == RectOf(b)
  }

  /** Every element of `b` has the type and rectangle of some element of `a`. */
  predicate ShapesFrom(b: Layout, a: Layout) {
    forall e :: e in b.elements ==> exists d :: d in a.elements && SameShape(d, e)
  }

  lemma SubsetShapes(b: Layout, a: Layout)
    requires forall e :: e in b.elements ==> e in a.elements
    ensures ShapesFrom(b, a)
  {
    forall e | e in b.elements ensures exists d :: d in a.elements && SameShape(d, e) {
      assert SameShape(e, e);
    }
  }

  lemma NoPillarConflictTransfer(b: Layout, a: Layout)
    requires NoPillarConflict(a) && ShapesFrom(b, a)
    ensures NoPillarConflict(b)
  {
    forall p, r | p in b.elements && r in b.elements && Pruning.IsPillar(p)
      ensures (IsRoad(r) ==> !Overlaps(RectOf(p), RectOf(r))) &&
              (IsParkingSpace(r) ==> !Pruning.InsideSpot(p, r))
    {
      var dp :| dp in a.elements && SameShape(dp, p);
      var dr :| dr in a.elements && SameShape(dr, r);
      assert Pruning.IsPillar(dp);
    }
  }

  lemma SweptSameShape(d: Element, e: Element, roads: seq<Element>)
    requires SameShape(d, e)
    ensures Intersections.Swept(d, roads) == Intersections.Swept(e, roads)
  {
    if Intersections.Swept(d, roads) {
      var i, j :| 0 <= i < j < |roads| && Intersections.SweptBy(d, roads[i], roads[j]);
      assert Intersections.SweptBy(e, roads[i], roads[j]);
    }
    if Intersections.Swept(e, roads) {
      var i, j :| 0 <= i < j < |roads| && Intersections.SweptBy(e, roads[i], roads[j]);
      assert Intersections.SweptBy(d, roads[i], roads[j]);
    }
  }

  lemma CleanTransfer(b: Layout, a: Layout)
    requires Intersections.Clean(a) && ShapesFrom(b, a)
    requires Filter(IsRoad, b.elements) == Filter(IsRoad, a.elements)
    ensures Intersections.Clean(b)
  {
    var roads := Filter(IsRoad, a.elements);
    forall e | e in b.elements ensures !Intersections.Swept(e, roads) {
      var d :| d in a.elements && SameShape(d, e);
      SweptSameShape(d, e, roads);
    }
  }

  /** The parking pass list, written out as the chain of calls it makes. */
  lemma ParkingPassesUnfold(layout: Layout)
    ensures RunPasses(PARKING_PASSES, layout) ==
      RunPass(OrientGuidanceSigns,
      RunPass(ResolvePriorityConflicts,
      RunPass(CleanIntersections,
      RunPass(CleanupPillars,
      RunPass(GenerateChargingStations,
      RunPass(CleanIntersections,
      RunPass(FillParkingAutomatically,
      RunPass(CleanIntersections, layout))))))))
  {
    var ps := PARKING_PASSES;
    assert ps[0] == CleanIntersections && ps[1] == FillParkingAutomatically && ps[2] == CleanIntersections;
    assert ps[3] == GenerateChargingStations && ps[4] == CleanupPillars && ps[5] == CleanIntersections;
    assert ps[6] == ResolvePriorityConflicts && ps[7] == OrientGuidanceSigns && |ps| == 8;
    var o1 := RunPass(ps[0], layout);
    var o2 := RunPass(ps[1], o1);
    var o3 := RunPass(ps[2], o2);
    var o4 := RunPass(ps[3], o3);
    var o5 := RunPass(ps[4], o4);
    var o6 := RunPass(ps[5], o5);
    var o7 := RunPass(ps[6], o6);
    var o8 := RunPass(ps[7], o7);
    RunPassesStep(ps, 0, layout);
    RunPassesStep(ps, 1, o1);
    RunPassesStep(ps, 2, o2);
    RunPassesStep(ps, 3, o3);
    RunPassesStep(ps, 4, o4);
    RunPassesStep(ps, 5, o5);
    RunPassesStep(ps, 6, o6);
    RunPassesStep(ps, 7, o7);
    assert RunPasses(ps[8..], o8) == o8;
    assert ps[0..] == ps;
  }

  lemma RunPassesStep(ps: seq<Pass>, k: nat, layout: Layout)
    requires k < |ps|
    ensures RunPasses(ps[k..], layout) == RunPasses(ps[k + 1..], RunPass(ps[k], layout))
  {
    assert ps[k..][1..] == ps[k + 1..];
  }

  /** Right after cleanupPillars no pillar conflicts with a road or spot. */
  lemma CleanupPillarsSettles(layout: Layout)
    ensures NoPillarConflict(Pruning.CleanupPillars(layout))
  {
    var out := Pruning.CleanupPillars(layout);
    Pruning.CleanupPillarsRemovesOnlyPillars(layout);
    forall p, r | p in out.elements && r in out.elements && Pruning.IsPillar(p)
      ensures (IsRoad(r) ==> !Overlaps(RectOf(p), RectOf(r))) &&
              (IsParkingSpace(r) ==> !Pruning.InsideSpot(p, r))
    {
      assert p in layout.elements && r in layout.elements;
    }
  }

  /** cleanIntersections keeps pillars settled and leaves the layout clean. */
  lemma CleanIntersectionsSettles(layout: Layout)
    requires NoPillarConflict(layout)
    ensures var out := Intersections.CleanIntersectionsSpec(layout);
      Intersections.Clean(out) && NoPillarConflict(out)
  {
    var out := Intersections.CleanIntersectionsSpec(layout);
    SubsetShapes(out, layout);
    NoPillarConflictTransfer(out, layout);
    Intersections.CleanIntersectionsCleans(layout);
  }

  /** resolvePriorityConflicts removes speed bumps only, so it keeps both properties. */
  lemma ResolvePriorityConflictsKeepsSettled(layout: Layout)
    requires Intersections.Clean(layout) && NoPillarConflict(layout)
    ensures var out := Pruning.ResolvePriorityConflicts(layout);
      Intersections.Clean(out) && NoPillarConflict(out)
  {
    var out := Pruning.ResolvePriorityConflicts(layout);
    var keep := Pruning.KeepBump(Filter(IsSidewalk, layout.elements));
    FilterKeepsSelected(keep, IsRoad, layout.elements);
    SubsetShapes(out, layout);
    NoPillarConflictTransfer(out, layout);
    CleanTransfer(out, layout);
  }

  /** orientGuidanceSigns changes sign rotations only, so it keeps both properties. */
  lemma OrientGuidanceSignsKeepsSettled(layout: Layout)
    requires Intersections.Clean(layout) && NoPillarConflict(layout)
    ensures var out := SignOrientation.OrientGuidanceSigns(layout);
      Intersections.Clean(out) && NoPillarConflict(out)
  {
    var out := SignOrientation.OrientGuidanceSigns(layout);
    SignOrientation.OrientGuidanceSignsChangesOnlySigns(layout);
    if Filter(IsExit, layout.elements) != [] {
      SignOrientation.FilterOfMap(IsRoad, layout.elements, out.elements);
    }
    forall e | e in out.elements ensures exists d :: d in layout.elements && SameShape(d, e) {
      var i :| 0 <= i < |out.elements| && out.elements[i] == e;
      assert SameShape(layout.elements[i], e);
    }
    NoPillarConflictTransfer(out, layout);
    CleanTransfer(out, layout);
  }

  /** The parking pass list leaves a layout on the same canvas in which no
      debris lies in a large road crossing and no pillar stands on a road or
      inside a parking space. */
  lemma ParkingPipelineSettles(layout: Layout)
    ensures var out := RunPasses(PARKING_PASSES, layout);
      && out.width == layout.width && out.height == layout.height
      && Intersections.Clean(out)
      && NoPillarConflict(out)
  {
    RunPassesKeepCanvas(PARKING_PASSES, layout);
    ParkingPassesUnfold(layout);
    ParkingTailSettles(RunPass(GenerateChargingStations, RunPass(CleanIntersections,
      RunPass(FillParkingAutomatically, RunPass(CleanIntersections, layout)))));
  }

  /** From cleanupPillars on, the passes settle the layout whatever they are given. */
  lemma ParkingTailSettles(layout: Layout)
    ensures var out := RunPass(OrientGuidanceSigns, RunPass(ResolvePriorityConflicts,
                         RunPass(CleanIntersections, RunPass(CleanupPillars, layout))));
      Intersections.Clean(out) && NoPillarConflict(out)
  {
    var o5 := RunPass(CleanupPillars, layout);
    var o6 := RunPass(CleanIntersections, o5);
    var o7 := RunPass(ResolvePriorityConflicts, o6);
    RunPassUnfold(CleanupPillars, layout);
    RunPassUnfold(CleanIntersections, o5);
    RunPassUnfold(ResolvePriorityConflicts, o6);
    RunPassUnfold(OrientGuidanceSigns, o7);
    CleanupPillarsSettles(layout);
    CleanIntersectionsSettles(o5);
    ResolvePriorityConflictsKeepsSettled(o6);
    OrientGuidanceSignsKeepsSettled(o7);
  }

  /** RunPass applied to each of the last passes, named. */
  lemma RunPassUnfold(p: Pass, layout: Layout)
    ensures p == CleanupPillars ==> RunPass(p, layout) == Pruning.CleanupPillars(layout)
    ensures p == CleanIntersections ==> RunPass(p, layout) == Intersections.CleanIntersectionsSpec(layout)
    ensures p == ResolvePriorityConflicts ==> RunPass(p, layout) == Pruning.ResolvePriorityConflicts(layout)
    ensures p == OrientGuidanceSigns ==> RunPass(p, layout) == SignOrientation.OrientGuidanceSigns(layout)
  {
  }
}
