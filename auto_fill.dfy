/** fillParkingAutomatically: tiling parking spots along the edges where a
    road meets a ground region. */
module AutoFill {
  import opened LayoutTypes
  import opened Geometry
  import opened Seqs
  import opened Decimal

  const SPOT_S: real := 24.0     // short side of a spot
  const SPOT_L: real := 48.0     // long side of a spot
  const GAP: real := 2.0         // space between neighbouring spots
  const BUFFER: real := 4.0      // inset from the ends of the shared edge
  const TOLERANCE: real := 12.0  // how far apart two edges may be and still touch
  const ERODE: real := 1.0       // margin by which isSafe shrinks a candidate

  const HORIZONTAL_PREFIX := "p_auto_"
  const VERTICAL_PREFIX := "p_auto_v_"

  /** The element types a generated spot must keep clear of. */
  predicate IsObstacle(e: Element) {
    e.kind in [WALL, STAIRCASE, ELEVATOR, PILLAR, ENTRANCE, EXIT, RAMP, SAFE_EXIT, SIDEWALK, PARKING_SPACE]
  }

  /** isSafe's test: `rect`, shrunk by ERODE on every side, overlaps `o`. */
  predicate Hits(rect: Rect, o: Element) {
    rect.x + ERODE < o.x + o.width && rect.x + rect.width - ERODE > o.x &&
    rect.y + ERODE < o.y + o.height && rect.y + rect.height - ERODE > o.y
  }

  predicate HitsAny(rect: Rect, os: seq<Element>) {
    exists i :: 0 <= i < |os| && Hits(rect, os[i])
  }

  predicate IsSafe(rect: Rect, obstacles: seq<Element>, spots: seq<Element>) {
    !HitsAny(rect, obstacles) && !HitsAny(rect, spots)
  }

  /** Which side of the ground region `g` the road `r` touches. */
  datatype Side = Top | Bottom | Left | Right {
    predicate AlongX() { this == Top || this == Bottom }
  }

  /** The else-if chain that picks at most one contact side per road/ground pair. */
  function Contact(r: Element, g: Element): Option<Side> {
    var rl, rr, rt, rb := r.x, r.x + r.width, r.y, r.y + r.height;
    var gl, gr, gt, gb := g.x, g.x + g.width, g.y, g.y + g.height;
    if Abs(rb - gt) < TOLERANCE && Min(rr, gr) > Max(rl, gl) then Some(Top)
    else if Abs(rt - gb) < TOLERANCE && Min(rr, gr) > Max(rl, gl) then Some(Bottom)
    else if Abs(rr - gl) < TOLERANCE && Min(rb, gb) > Max(rt, gt) then Some(Left)
    else if Abs(rl - gr) < TOLERANCE && Min(rb, gb) > Max(rt, gt) then Some(Right)
    else None
  }

  /** Start (`sx`/`sy`) and end (`ex`/`ey`) of the tiled stretch of the shared edge. */
  function SpanStart(r: Element, g: Element, side: Side): real {
    if side.AlongX() then Max(r.x, g.x) + BUFFER else Max(r.y, g.y) + BUFFER
  }

  function SpanEnd(r: Element, g: Element, side: Side): real {
    if side.AlongX() then Min(r.x + r.width, g.x + g.width) - BUFFER
    else Min(r.y + r.height, g.y + g.height) - BUFFER
  }

  /** `cnt`: how many spot slots fit in the stretch; negative when it is shorter than nothing. */
  function SpotCount(r: Element, g: Element, side: Side): int {
    ((SpanEnd(r, g, side) - SpanStart(r, g, side)) / (SPOT_S + GAP)).Floor
  }

  /** The i-th candidate spot `s` for the pair on the given side. */
  function CandidateRect(r: Element, g: Element, side: Side, i: nat): Rect {
    var along := SpanStart(r, g, side) + (i as real) * (SPOT_S + GAP);
    match side
    case Top => Rect(along, g.y + 1.0, SPOT_S, SPOT_L)
    case Bottom => Rect(along, g.y + g.height - SPOT_L - 1.0, SPOT_S, SPOT_L)
    case Left => Rect(g.x + 1.0, along, SPOT_L, SPOT_S)
    case Right => Rect(g.x + g.width - SPOT_L - 1.0, along, SPOT_L, SPOT_S)
  }

  function SpotPrefix(side: Side): string {
    if side.AlongX() then HORIZONTAL_PREFIX else VERTICAL_PREFIX
  }

  function NewSpot(id: string, s: Rect): Element {
    Element(id, PARKING_SPACE, s.x, s.y, s.width, s.height, Defined(0.0), Absent, Absent)
  }

  /** The pass's running state: the spots generated so far (`genSpots`) and the counter `t`. */
  datatype FillState = FillState(spots: seq<Element>, t: nat)

  /** One candidate: pushed with the next counter value when it is safe. */
  function Step(st: FillState, obstacles: seq<Element>, s: Rect, prefix: string): FillState {
    if IsSafe(s, obstacles, st.spots) then
      FillState(st.spots + [NewSpot(prefix + NatToString(st.t + 1), s)], st.t + 1)
    else st
  }

  /** The first `n` candidates of one pair. */
  function FillRow(st: FillState, obstacles: seq<Element>, r: Element, g: Element, side: Side, n: nat): FillState
    decreases n
  {
    if n == 0 then st
    else Step(FillRow(st, obstacles, r, g, side, n - 1), obstacles, CandidateRect(r, g, side, n - 1), SpotPrefix(side))
  }

  function Iterations(r: Element, g: Element, side: Side): nat {
    var cnt := SpotCount(r, g, side);
    if cnt > 0 then cnt else 0
  }

  /** One road/ground pair. */
  function FillPair(st: FillState, obstacles: seq<Element>, r: Element, g: Element): FillState {
    match Contact(r, g)
    case None => st
    case Some(side) => FillRow(st, obstacles, r, g, side, Iterations(r, g, side))
  }

  /** Road `r` against the first `k` ground regions. */
  function FillGrounds(st: FillState, obstacles: seq<Element>, r: Element, grounds: seq<Element>, k: nat): FillState
    requires k <= |grounds|
    decreases k
  {
    if k == 0 then st else FillPair(FillGrounds(st, obstacles, r, grounds, k - 1), obstacles, r, grounds[k - 1])
  }

  /** The first `k` roads against every ground region. */
  function FillRoads(st: FillState, obstacles: seq<Element>, roads: seq<Element>, grounds: seq<Element>, k: nat): FillState
    requires k <= |roads|
    decreases k
  {
    if k == 0 then st else FillGrounds(FillRoads(st, obstacles, roads, grounds, k - 1), obstacles, roads[k - 1], grounds, |grounds|)
  }

  function GeneratedSpots(es: seq<Element>): seq<Element> {
    var roads := Filter(IsRoad, es);
    FillRoads(FillState([], 0), Filter(IsObstacle, es), roads, Filter(IsGround, es), |roads|).spots
  }

  /** The pass's result: the input elements followed by the generated spots. */
  function FillParking(layout: Layout): Layout {
    layout.(elements := layout.elements + GeneratedSpots(layout.elements))
  }

  /** fillParkingAutomatically, as the source runs it: nested loops over roads,
      ground regions and spot slots, pushing into `genSpots` and bumping `t`. */
  method FillParkingAutomatically(layout: Layout) returns (out: Layout)
    ensures out == FillParking(layout)
  {
    var existing := layout.elements;
    var grounds := Filter(IsGround, existing);
    var roads := Filter(IsRoad, existing);
    var obstacles := Filter(IsObstacle, existing);
    var genSpots: seq<Element> := [];
    var t: nat := 0;
    var ri := 0;
    while ri < |roads|
      invariant 0 <= ri <= |roads|
      invariant FillState(genSpots, t) == FillRoads(FillState([], 0), obstacles, roads, grounds, ri)
    {
      var r := roads[ri];
      var gi := 0;
      while gi < |grounds|
        invariant 0 <= gi <= |grounds|
        invariant FillState(genSpots, t)
          == FillGrounds(FillRoads(FillState([], 0), obstacles, roads, grounds, ri), obstacles, r, grounds, gi)
      {
        var g := grounds[gi];
        ghost var before := FillState(genSpots, t);
        var contact := Contact(r, g);
        if contact.Some? {
          var side := contact.value;
          var cnt := SpotCount(r, g, side);
          var i := 0;
          while i < cnt
            invariant 0 <= i <= Iterations(r, g, side)
            invariant FillState(genSpots, t) == FillRow(before, obstacles, r, g, side, i)
          {
            var s := CandidateRect(r, g, side, i);
            if IsSafe(s, obstacles, genSpots) {
              t := t + 1;
              genSpots := genSpots + [NewSpot(SpotPrefix(side) + NatToString(t), s)];
            }
            i := i + 1;
          }
          assert i == Iterations(r, g, side);
        }
        gi := gi + 1;
      }
      ri := ri + 1;
    }
    out := layout.(elements := existing + genSpots);
  }

  // ---------------------------------------------------------------------
  // What every generated spot satisfies

  /** The k-th generated spot (0-based): a parking space with rotation 0,
      24 wide and 48 high under a `p_auto_` id, or 48 wide and 24 high under a
      `p_auto_v_` id, numbered k + 1. */
  predicate WellShaped(e: Element, k: nat) {
    && e.kind == PARKING_SPACE && e.rotation == Defined(0.0)
    && e.caption == Absent && e.subType == Absent
    && ((e.width == SPOT_S && e.height == SPOT_L && e.id == HORIZONTAL_PREFIX + NatToString(k + 1)) ||
        (e.width == SPOT_L && e.height == SPOT_S && e.id == VERTICAL_PREFIX + NatToString(k + 1)))
  }

  /** The invariant of the running state: the counter equals the number of
      spots, every spot is well shaped and, eroded by one unit, clear of every
      obstacle and of every spot generated before it. */
  predicate Good(obstacles: seq<Element>, st: FillState) {
    && st.t == |st.spots|
    && (forall k :: 0 <= k < |st.spots| ==> WellShaped(st.spots[k], k) && !HitsAny(RectOf(st.spots[k]), obstacles))
    && (forall j, k :: 0 <= j < k < |st.spots| ==> !Hits(RectOf(st.spots[k]), st.spots[j]))
  }

  /** A step keeps the invariant. */
  lemma StepGood(st: FillState, obstacles: seq<Element>, r: Element, g: Element, side: Side, i: nat)
    requires Good(obstacles, st)
    ensures Good(obstacles, Step(st, obstacles, CandidateRect(r, g, side, i), SpotPrefix(side)))
  {
    var s := CandidateRect(r, g, side, i);
    var prefix := SpotPrefix(side);
    var st' := Step(st, obstacles, s, prefix);
    if IsSafe(s, obstacles, st.spots) {
      var n := |st.spots|;
      var spot := NewSpot(prefix + NatToString(st.t + 1), s);
      assert st'.spots == st.spots + [spot];
      assert RectOf(spot) == s;
      assert WellShaped(spot, n);
      forall j | 0 <= j < n ensures !Hits(RectOf(st'.spots[n]), st'.spots[j]) {
        assert st'.spots[j] == st.spots[j];
      }
    }
  }

  /** A step adds at most one spot, after the others, and that spot covers
      the candidate. */
  lemma StepShape(st: FillState, obstacles: seq<Element>, s: Rect, prefix: string)
    ensures var st' := Step(st, obstacles, s, prefix);
      st.spots <= st'.spots && |st'.spots| <= |st.spots| + 1 &&
      (|st'.spots| == |st.spots| + 1 ==> RectOf(st'.spots[|st.spots|]) == s)
  {
  }

  /** Whatever every step keeps, the first n candidates of a pair keep. */
  lemma {:induction false} FillRowKeeps(st: FillState, obstacles: seq<Element>, r: Element, g: Element, side: Side, n: nat,
                                        inv: FillState -> bool)
    requires inv(st)
    requires forall s: FillState, i: nat :: inv(s) ==> inv(Step(s, obstacles, CandidateRect(r, g, side, i), SpotPrefix(side)))
    ensures inv(FillRow(st, obstacles, r, g, side, n))
    decreases n
  {
    if n > 0 {
      FillRowKeeps(st, obstacles, r, g, side, n - 1, inv);
    }
  }

  /** The first n candidates of a pair keep the invariant. */
  lemma FillRowGood(st: FillState, obstacles: seq<Element>, r: Element, g: Element, side: Side, n: nat)
    requires Good(obstacles, st)
    ensures Good(obstacles, FillRow(st, obstacles, r, g, side, n))
  {
    var inv := (s: FillState) => Good(obstacles, s);
    forall s: FillState, i: nat | inv(s) ensures inv(Step(s, obstacles, CandidateRect(r, g, side, i), SpotPrefix(side))) {
      StepGood(s, obstacles, r, g, side, i);
    }
    FillRowKeeps(st, obstacles, r, g, side, n, inv);
  }

  /** The first n candidates of a pair add at most n spots after the
      existing ones, each the candidate of some slot below n. */
  lemma {:induction false} FillRowCandidates(st: FillState, obstacles: seq<Element>, r: Element, g: Element, side: Side, n: nat)
    ensures var st' := FillRow(st, obstacles, r, g, side, n);
      st.spots <= st'.spots && |st'.spots| <= |st.spots| + n &&
      forall k :: |st.spots| <= k < |st'.spots| ==>
        exists i :: 0 <= i < n && RectOf(st'.spots[k]) == CandidateRect(r, g, side, i)
    decreases n
  {
    if n > 0 {
      var mid := FillRow(st, obstacles, r, g, side, n - 1);
      FillRowCandidates(st, obstacles, r, g, side, n - 1);
      StepShape(mid, obstacles, CandidateRect(r, g, side, n - 1), SpotPrefix(side));
      var st' := FillRow(st, obstacles, r, g, side, n);
      forall k | |st.spots| <= k < |st'.spots|
        ensures exists i :: 0 <= i < n && RectOf(st'.spots[k]) == CandidateRect(r, g, side, i)
      {
        if k < |mid.spots| {
          assert st'.spots[k] == mid.spots[k];
        } else {
          assert RectOf(st'.spots[k]) == CandidateRect(r, g, side, n - 1);
        }
      }
    }
  }

  /** A road/ground pair contributes spots from at most one side: all of them
      are candidates of the side `Contact` picks, at most `cnt` of them, and
      none when the pair does not touch. */
  lemma FillPairOneSide(st: FillState, obstacles: seq<Element>, r: Element, g: Element)
    requires Good(obstacles, st)
    ensures var st' := FillPair(st, obstacles, r, g);
      Good(obstacles, st') && st.spots <= st'.spots &&
      (Contact(r, g).None? ==> st' == st) &&
      (Contact(r, g).Some? ==>
        |st'.spots| <= |st.spots| + Iterations(r, g, Contact(r, g).value) &&
        forall k :: |st.spots| <= k < |st'.spots| ==>
          exists i :: 0 <= i < Iterations(r, g, Contact(r, g).value) &&
            RectOf(st'.spots[k]) == CandidateRect(r, g, Contact(r, g).value, i))
  {
    if Contact(r, g).Some? {
      FillRowGood(st, obstacles, r, g, Contact(r, g).value, Iterations(r, g, Contact(r, g).value));
      FillRowCandidates(st, obstacles, r, g, Contact(r, g).value, Iterations(r, g, Contact(r, g).value));
    }
  }

  lemma {:induction false} FillGroundsGood(st: FillState, obstacles: seq<Element>, r: Element, grounds: seq<Element>, k: nat)
    requires k <= |grounds| && Good(obstacles, st)
    ensures var st' := FillGrounds(st, obstacles, r, grounds, k); Good(obstacles, st') && st.spots <= st'.spots
    decreases k
  {
    if k > 0 {
      FillGroundsGood(st, obstacles, r, grounds, k - 1);
      FillPairOneSide(FillGrounds(st, obstacles, r, grounds, k - 1), obstacles, r, grounds[k - 1]);
    }
  }

  lemma {:induction false} FillRoadsGood(st: FillState, obstacles: seq<Element>, roads: seq<Element>, grounds: seq<Element>, k: nat)
    requires k <= |roads| && Good(obstacles, st)
    ensures var st' := FillRoads(st, obstacles, roads, grounds, k); Good(obstacles, st') && st.spots <= st'.spots
    decreases k
  {
    if k > 0 {
      FillRoadsGood(st, obstacles, roads, grounds, k - 1);
      FillGroundsGood(FillRoads(st, obstacles, roads, grounds, k - 1), obstacles, roads[k - 1], grounds, |grounds|);
    }
  }

  /** Generated ids are pairwise distinct: the counter is strictly increasing
      and the two prefixes differ at their eighth character. */
  lemma GoodIdsDistinct(obstacles: seq<Element>, st: FillState)
    requires Good(obstacles, st)
    ensures UniqueIds(st.spots)
  {
    forall j, k | 0 <= j < k < |st.spots| ensures st.spots[j].id != st.spots[k].id {
      SpotIdsDistinct(st.spots[j], j, st.spots[k], k);
    }
  }

  /** Two well-shaped spots of different slots have different ids. */
  lemma SpotIdsDistinct(a: Element, j: nat, b: Element, k: nat)
    requires j != k && WellShaped(a, j) && WellShaped(b, k)
    ensures a.id != b.id
  {
    var nj, nk := NatToString(j + 1), NatToString(k + 1);
    if a.id == HORIZONTAL_PREFIX + nj && b.id == HORIZONTAL_PREFIX + nk {
      LabelsDistinct(HORIZONTAL_PREFIX, j + 1, k + 1);
    } else if a.id == VERTICAL_PREFIX + nj && b.id == VERTICAL_PREFIX + nk {
      LabelsDistinct(VERTICAL_PREFIX, j + 1, k + 1);
    } else if a.id == HORIZONTAL_PREFIX + nj {
      assert a.id[7] == nj[0] && b.id[7] == 'v';
    } else {
      assert b.id[7] == nk[0] && a.id[7] == 'v';
    }
  }

  /** fillParkingAutomatically returns every input element unchanged and in
      order, then appends spots only: each a parking space with rotation 0, of
      one of the two spot shapes, with pairwise distinct ids; each, eroded by
      one unit, clear of every obstacle of the input and of every spot
      appended before it. */
  lemma FillParkingAppendsSafeSpots(layout: Layout)
    ensures var out := FillParking(layout); var n := |layout.elements|;
      && out.width == layout.width && out.height == layout.height
      && n <= |out.elements| && out.elements[..n] == layout.elements
      && UniqueIds(out.elements[n..])
      && (forall k :: n <= k < |out.elements| ==>
            && WellShaped(out.elements[k], k - n)
            && (forall o :: o in layout.elements && IsObstacle(o) ==> !Hits(RectOf(out.elements[k]), o))
            && (forall j :: n <= j < k ==> !Hits(RectOf(out.elements[k]), out.elements[j])))
  {
    var es := layout.elements;
    var obstacles := Filter(IsObstacle, es);
    var roads := Filter(IsRoad, es);
    var st := FillRoads(FillState([], 0), obstacles, roads, Filter(IsGround, es), |roads|);
    FillRoadsGood(FillState([], 0), obstacles, roads, Filter(IsGround, es), |roads|);
    GoodIdsDistinct(obstacles, st);
    var out := FillParking(layout);
    var n := |es|;
    assert out.elements[..n] == es;
    assert out.elements[n..] == st.spots;
    forall k | n <= k < |out.elements|
      ensures forall o :: o in es && IsObstacle(o) ==> !Hits(RectOf(out.elements[k]), o)
    {
      assert out.elements[k] == st.spots[k - n];
      forall o | o in es && IsObstacle(o) ensures !Hits(RectOf(out.elements[k]), o) {
        assert o in obstacles;
        var i :| 0 <= i < |obstacles| && obstacles[i] == o;
      }
    }
  }

  // ---------------------------------------------------------------------
  // Where the candidates lie

  /** Spot shape follows the contact side: a top or bottom contact gives
      24 x 48 spots, a left or right contact 48 x 24; every slot below `cnt`
      lies within the shared stretch, BUFFER in from its ends; the spot is
      one unit inside the touched edge of the ground region. */
  lemma CandidatePlacement(r: Element, g: Element, side: Side, i: nat)
    requires i < SpotCount(r, g, side)
    ensures var s := CandidateRect(r, g, side, i);
      && (side.AlongX() ==>
            (s.width == SPOT_S && s.height == SPOT_L &&
             SpanStart(r, g, side) <= s.x && s.x + s.width <= SpanEnd(r, g, side)))
      && (!side.AlongX() ==>
            (s.width == SPOT_L && s.height == SPOT_S &&
             SpanStart(r, g, side) <= s.y && s.y + s.height <= SpanEnd(r, g, side)))
      && (side == Top ==> s.y == g.y + 1.0)
      && (side == Bottom ==> s.y + s.height == g.y + g.height - 1.0)
      && (side == Left ==> s.x == g.x + 1.0)
      && (side == Right ==> s.x + s.width == g.x + g.width - 1.0)
  {
    var len := SpanEnd(r, g, side) - SpanStart(r, g, side);
    var q := len / (SPOT_S + GAP);
    assert (q.Floor as real) <= q;
    assert (i as real) + 1.0 <= q.Floor as real;
    assert ((i as real) + 1.0) * (SPOT_S + GAP) <= len;
  }

  /** With the road directly above the ground region (its bottom edge at or
      above one unit below the ground's top), a top-contact spot does not
      overlap the road; symmetrically for the other three sides. */
  lemma CandidateClearOfRoad(r: Element, g: Element, side: Side, i: nat)
    requires side == Top ==> r.y + r.height <= g.y + 1.0
    requires side == Bottom ==> r.y >= g.y + g.height - 1.0
    requires side == Left ==> r.x + r.width <= g.x + 1.0
    requires side == Right ==> r.x >= g.x + g.width - 1.0
    ensures !Overlaps(CandidateRect(r, g, side, i), RectOf(r))
  {
  }

  /** A pair whose stretch is shorter than one slot pitch (SPOT_S + GAP)
      gets no slots. */
  lemma ShortStretchGivesNothing(st: FillState, obstacles: seq<Element>, r: Element, g: Element)
    requires Contact(r, g).Some?
    requires SpanEnd(r, g, Contact(r, g).value) - SpanStart(r, g, Contact(r, g).value) < SPOT_S + GAP
    ensures FillPair(st, obstacles, r, g) == st
  {
    var side := Contact(r, g).value;
    var q := (SpanEnd(r, g, side) - SpanStart(r, g, side)) / (SPOT_S + GAP);
    assert q < 1.0;
    assert q.Floor <= 0;
  }

  /** The ids of the spots are fresh with respect to the input whenever no
      input id starts with the spot prefix. */
  lemma GeneratedIdsFresh(layout: Layout)
    requires forall e :: e in layout.elements ==> |e.id| < 7 || e.id[..7] != HORIZONTAL_PREFIX
    ensures var out := FillParking(layout); var n := |layout.elements|;
      forall k, e :: n <= k < |out.elements| && e in layout.elements ==> out.elements[k].id != e.id
  {
    FillParkingAppendsSafeSpots(layout);
    var out := FillParking(layout);
    var n := |layout.elements|;
    forall k, e | n <= k < |out.elements| && e in layout.elements ensures out.elements[k].id != e.id {
      var id := out.elements[k].id;
      assert WellShaped(out.elements[k], k - n);
      assert id[..7] == HORIZONTAL_PREFIX;
    }
  }

  /** The placement scenario: ground (100,100,400,100) right below road
      (100,40,400,60), no obstacles: the first generated element is a spot at
      (104,101) whose top edge is one unit below the ground's top and which
      does not overlap the road. */
  lemma PlacementScenario()
    ensures var road := Element("r1", ROAD, 100.0, 40.0, 400.0, 60.0, Absent, Absent, Absent);
      var ground := Element("g1", GROUND, 100.0, 100.0, 400.0, 100.0, Absent, Absent, Absent);
      var out := FillParking(Layout(800.0, 600.0, [road, ground]));
      && |out.elements| > 2
      && out.elements[2] == NewSpot("p_auto_1", Rect(104.0, 101.0, 24.0, 48.0))
      && out.elements[2].y - ground.y == 1.0
      && !Overlaps(RectOf(out.elements[2]), RectOf(road))
  {
    var road := Element("r1", ROAD, 100.0, 40.0, 400.0, 60.0, Absent, Absent, Absent);
    var ground := Element("g1", GROUND, 100.0, 100.0, 400.0, 100.0, Absent, Absent, Absent);
    ScenarioFilters(road, ground);
    ScenarioSlots(road, ground);
    var st0 := FillState([], 0);
    var first := FillRow(st0, [], road, ground, Top, 1);
    ScenarioFirstSlot(road, ground);
    FillRowPrefix(st0, [], road, ground, Top, 1, 15);
    var all := FillRoads(st0, [], [road], [ground], 1);
    assert all == FillGrounds(st0, [], road, [ground], 1);
    assert all == FillRow(st0, [], road, ground, Top, 15);
    assert first.spots <= all.spots;
  }

  lemma ScenarioFilters(road: Element, ground: Element)
    requires road.kind == ROAD && ground.kind == GROUND
    ensures Filter(IsRoad, [road, ground]) == [road]
    ensures Filter(IsGround, [road, ground]) == [ground]
    ensures Filter(IsObstacle, [road, ground]) == []
  {
    var es := [road, ground];
    assert es[..1] == [road];
  }

  lemma ScenarioSlots(road: Element, ground: Element)
    requires road == Element("r1", ROAD, 100.0, 40.0, 400.0, 60.0, Absent, Absent, Absent)
    requires ground == Element("g1", GROUND, 100.0, 100.0, 400.0, 100.0, Absent, Absent, Absent)
    ensures Contact(road, ground) == Some(Top)
    ensures Iterations(road, ground, Top) == 15
  {
    assert SpanStart(road, ground, Top) == 104.0;
    assert SpanEnd(road, ground, Top) == 496.0;
    var q := (496.0 - 104.0) / (SPOT_S + GAP);
    assert 15.0 <= q < 16.0;
  }

  lemma ScenarioFirstSlot(road: Element, ground: Element)
    requires road == Element("r1", ROAD, 100.0, 40.0, 400.0, 60.0, Absent, Absent, Absent)
    requires ground == Element("g1", GROUND, 100.0, 100.0, 400.0, 100.0, Absent, Absent, Absent)
    ensures FillRow(FillState([], 0), [], road, ground, Top, 1).spots
              == [NewSpot("p_auto_1", Rect(104.0, 101.0, 24.0, 48.0))]
  {
    var st0 := FillState([], 0);
    assert FillRow(st0, [], road, ground, Top, 0) == st0;
    assert CandidateRect(road, ground, Top, 0) == Rect(104.0, 101.0, 24.0, 48.0);
    assert !HitsAny(Rect(104.0, 101.0, 24.0, 48.0), []);
    assert NatToString(1) == "1";
    assert SpotPrefix(Top) + NatToString(0 + 1) == "p_auto_1";
    assert IsSafe(Rect(104.0, 101.0, 24.0, 48.0), [], []);
    assert FillRow(st0, [], road, ground, Top, 1)
        == Step(st0, [], Rect(104.0, 101.0, 24.0, 48.0), SpotPrefix(Top));
  }

  /** Later slots only extend the spots of earlier ones. */
  lemma {:induction false} FillRowPrefix(st: FillState, obstacles: seq<Element>, r: Element, g: Element, side: Side, m: nat, n: nat)
    requires m <= n
    ensures FillRow(st, obstacles, r, g, side, m).spots <= FillRow(st, obstacles, r, g, side, n).spots
    decreases n
  {
    if m < n {
      FillRowPrefix(st, obstacles, r, g, side, m, n - 1);
    }
  }
}
