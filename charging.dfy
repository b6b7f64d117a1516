/** generateChargingStations: a charging station on every third parking
    space in row order, on the side of the space away from the roads. */
module Charging {
  import opened LayoutTypes
  import opened Geometry
  import opened Seqs
  import opened Decimal

  const STATION_SIZE: real := 10.0
  const OFFSET: real := 2.0
  const ROW_BAND: real := 10.0
  const STATION_PREFIX := "charging_"

  // ---------------------------------------------------------------------
  // Row order

  /** The sort comparator: spaces whose y differ by less than ROW_BAND are in
      one row and ordered by x, otherwise they are ordered by y. */
  function Compare(a: Element, b: Element): real {
    if Abs(a.y - b.y) < ROW_BAND then a.x - b.x else a.y - b.y
  }

  /** Neighbours are in comparator order: each space compares at most 0
      with the next one. */
  predicate RowOrdered(r: seq<Element>) {
    forall i :: 0 <= i < |r| - 1 ==> Compare(r[i], r[i + 1]) <= 0.0
  }

  /** Swapping the arguments negates the comparison. */
  lemma CompareAntisymmetric(a: Element, b: Element)
    ensures Compare(b, a) == -Compare(a, b)
  {
    assert Abs(b.y - a.y) == Abs(a.y - b.y);
  }

  /** Inserts `x` after the last element of `s` that does not compare greater
      than it (stable insertion from the back). */
  function Insert(s: seq<Element>, x: Element): (r: seq<Element>)
    ensures multiset(r) == multiset(s) + multiset{x}
    ensures |r| == |s| + 1
    ensures r[|r| - 1] == x || (|s| > 0 && r[|r| - 1] == s[|s| - 1])
    ensures RowOrdered(s) ==> RowOrdered(r)
    decreases |s|
  {
    if |s| == 0 then [x]
    else if Compare(s[|s| - 1], x) > 0.0 then
      assert s == s[..|s| - 1] + [s[|s| - 1]];
      var front := Insert(s[..|s| - 1], x);
      CompareAntisymmetric(s[|s| - 1], x);
      if RowOrdered(s) then
        assert RowOrdered(s[..|s| - 1]);
        AppendOrdered(front, s[|s| - 1]);
        front + [s[|s| - 1]]
      else front + [s[|s| - 1]]
    else
      if RowOrdered(s) then AppendOrdered(s, x); s + [x] else s + [x]
  }

  /** Appending a space that the last one does not compare greater than
      keeps neighbour order. */
  lemma AppendOrdered(a: seq<Element>, y: Element)
    requires RowOrdered(a)
    requires |a| > 0 ==> Compare(a[|a| - 1], y) <= 0.0
    ensures RowOrdered(a + [y])
  {
  }

  /** `[...spots].sort(Compare)`, as a stable insertion sort: a permutation
      of the spaces whose neighbours are in comparator order. */
  function SortSpots(s: seq<Element>): (r: seq<Element>)
    ensures multiset(r) == multiset(s)
    ensures RowOrdered(r)
    decreases |s|
  {
    if |s| == 0 then []
    else
      assert s == s[..|s| - 1] + [s[|s| - 1]];
      Insert(SortSpots(s[..|s| - 1]), s[|s| - 1])
  }

  // ---------------------------------------------------------------------
  // Candidate positions

  datatype Edge = TopEdge | BottomEdge | LeftEdge | RightEdge
  datatype Candidate = Candidate(x: real, y: real, edge: Edge)

  /** The four candidate positions, centred on each edge and inset by OFFSET. */
  function Candidates(spot: Element): seq<Candidate> {
    [ Candidate(spot.x + spot.width / 2.0 - STATION_SIZE / 2.0, spot.y + OFFSET, TopEdge),
      Candidate(spot.x + spot.width / 2.0 - STATION_SIZE / 2.0, spot.y + spot.height - STATION_SIZE - OFFSET, BottomEdge),
      Candidate(spot.x + OFFSET, spot.y + spot.height / 2.0 - STATION_SIZE / 2.0, LeftEdge),
      Candidate(spot.x + spot.width - STATION_SIZE - OFFSET, spot.y + spot.height / 2.0 - STATION_SIZE / 2.0, RightEdge) ]
  }

  /** A vertical space (taller than wide) takes its station on the top or
      bottom edge, any other space on the left or right edge. */
  predicate EdgeFits(edge: Edge, vertical: bool) {
    if vertical then edge == TopEdge || edge == BottomEdge else edge == LeftEdge || edge == RightEdge
  }

  function ValidCandidates(spot: Element): (r: seq<Candidate>)
    ensures r == if spot.height > spot.width then Candidates(spot)[..2] else Candidates(spot)[2..]
  {
    var vertical := spot.height > spot.width;
    var c := Candidates(spot);
    FilterFour((cand: Candidate) => EdgeFits(cand.edge, vertical), c);
    Filter((cand: Candidate) => EdgeFits(cand.edge, vertical), c)
  }

  lemma FilterFour(p: Candidate -> bool, c: seq<Candidate>)
    requires |c| == 4
    ensures Filter(p, c) == (if p(c[0]) then [c[0]] else []) + (if p(c[1]) then [c[1]] else [])
                          + (if p(c[2]) then [c[2]] else []) + (if p(c[3]) then [c[3]] else [])
  {
    assert c[..0] == [];
    FilterSnoc(p, c[..0], c[0]);
    assert c[..1] == c[..0] + [c[0]];
    FilterSnoc(p, c[..1], c[1]);
    assert c[..2] == c[..1] + [c[1]];
    FilterSnoc(p, c[..2], c[2]);
    assert c[..3] == c[..2] + [c[2]];
    FilterSnoc(p, c[..3], c[3]);
    assert c == c[..3] + [c[3]];
  }

  // ---------------------------------------------------------------------
  // Distances to road centres

  /** A distance that may be infinite; finite ones are kept squared, which
      orders them as Math.sqrt of the squares would. */
  datatype Dist = Finite(squared: real) | Infinite {
    predicate Below(other: Dist) {
      match (this, other)
      case (Finite(a), Finite(b)) => a < b
      case (Finite(_), Infinite) => true
      case (Infinite, _) => false
    }
  }

  function SquaredDistance(c: Candidate, road: Element): real {
    var dx := c.x - (road.x + road.width / 2.0);
    var dy := c.y - (road.y + road.height / 2.0);
    dx * dx + dy * dy
  }

  /** `minDistToRoad` after the first n roads: starts infinite, replaced
      by every strictly smaller distance. */
  function NearestRoad(c: Candidate, roads: seq<Element>, n: nat): Dist
    requires n <= |roads|
    decreases n
  {
    if n == 0 then Infinite
    else
      var prev := NearestRoad(c, roads, n - 1);
      var d := Finite(SquaredDistance(c, roads[n - 1]));
      if d.Below(prev) then d else prev
  }

  /** The inner `roads.forEach` loop. */
  method NearestRoadDistance(c: Candidate, roads: seq<Element>) returns (minDist: Dist)
    ensures minDist == NearestRoad(c, roads, |roads|)
    ensures minDist.Infinite? <==> |roads| == 0
    ensures minDist.Finite? ==>
      (forall j :: 0 <= j < |roads| ==> minDist.squared <= SquaredDistance(c, roads[j])) &&
      (exists j :: 0 <= j < |roads| && minDist.squared == SquaredDistance(c, roads[j]))
  {
    minDist := Infinite;
    var k := 0;
    while k < |roads|
      invariant 0 <= k <= |roads|
      invariant minDist == NearestRoad(c, roads, k)
      invariant minDist.Infinite? <==> k == 0
      invariant minDist.Finite? ==>
        (forall j :: 0 <= j < k ==> minDist.squared <= SquaredDistance(c, roads[j])) &&
        (exists j :: 0 <= j < k && minDist.squared == SquaredDistance(c, roads[j]))
    {
      var d := Finite(SquaredDistance(c, roads[k]));
      if d.Below(minDist) {
        minDist := d;
      }
      k := k + 1;
    }
  }

  /** Running choice over candidates: `maxDistToRoad` starts at -1 (None
      here), below every distance, and is replaced by every strictly
      larger one. */
  datatype Choice = Choice(best: Candidate, maxDist: Option<Dist>)

  function Exceeds(d: Dist, max: Option<Dist>): bool {
    match max
    case None => true
    case Some(m) => m.Below(d)
  }

  function PickUpTo(cands: seq<Candidate>, roads: seq<Element>, n: nat): Choice
    requires 0 < |cands| && n <= |cands|
    decreases n
  {
    if n == 0 then Choice(cands[0], None)
    else
      var prev := PickUpTo(cands, roads, n - 1);
      var d := NearestRoad(cands[n - 1], roads, |roads|);
      if Exceeds(d, prev.maxDist) then Choice(cands[n - 1], Some(d)) else prev
  }

  function BestCandidate(spot: Element, roads: seq<Element>): Candidate {
    var valid := ValidCandidates(spot);
    PickUpTo(valid, roads, |valid|).best
  }

  /** The `validCandidates.forEach` loop. */
  method PickCandidate(spot: Element, roads: seq<Element>) returns (best: Candidate)
    ensures best == BestCandidate(spot, roads)
  {
    var valid := ValidCandidates(spot);
    best := valid[0];
    var maxDist: Option<Dist> := None;
    var k := 0;
    while k < |valid|
      invariant 0 <= k <= |valid|
      invariant Choice(best, maxDist) == PickUpTo(valid, roads, k)
    {
      var d := NearestRoadDistance(valid[k], roads);
      if Exceeds(d, maxDist) {
        maxDist := Some(d);
        best := valid[k];
      }
      k := k + 1;
    }
  }

  /** The chosen candidate is the first of the two orientation-consistent
      ones unless the second is strictly farther from its nearest road
      centre; so with no roads it is always the first. */
  lemma BestCandidateRule(spot: Element, roads: seq<Element>)
    ensures var valid := ValidCandidates(spot);
      var d0 := NearestRoad(valid[0], roads, |roads|);
      var d1 := NearestRoad(valid[1], roads, |roads|);
      BestCandidate(spot, roads) == (if d0.Below(d1) then valid[1] else valid[0])
    ensures |roads| == 0 ==> BestCandidate(spot, roads) == ValidCandidates(spot)[0]
  {
    var valid := ValidCandidates(spot);
    assert PickUpTo(valid, roads, 1) == Choice(valid[0], Some(NearestRoad(valid[0], roads, |roads|)));
  }

  /** A station of a space at least 12 x 12 lies inside the space. */
  lemma StationInsideSpot(spot: Element, roads: seq<Element>)
    requires spot.width >= STATION_SIZE + OFFSET && spot.height >= STATION_SIZE + OFFSET
    ensures var b := BestCandidate(spot, roads);
      Within(Rect(b.x, b.y, STATION_SIZE, STATION_SIZE), RectOf(spot))
  {
    var b := BestCandidate(spot, roads);
    BestCandidateRule(spot, roads);
    assert b in Candidates(spot);
  }

  // ---------------------------------------------------------------------
  // The pass

  function Station(count: nat, c: Candidate): Element {
    Element(STATION_PREFIX + NatToString(count), CHARGING_STATION, c.x, c.y, STATION_SIZE, STATION_SIZE,
            Defined(0.0), Absent, Absent)
  }

  /** `stations` after the first n sorted spaces: every space whose 1-based
      index is a multiple of three gets one, numbered after the ones before. */
  function StationsUpTo(sorted: seq<Element>, roads: seq<Element>, n: nat): seq<Element>
    requires n <= |sorted|
    decreases n
  {
    if n == 0 then []
    else
      var prev := StationsUpTo(sorted, roads, n - 1);
      if n % 3 == 0 then prev + [Station(|prev| + 1, BestCandidate(sorted[n - 1], roads))] else prev
  }

  function SortedSpaces(es: seq<Element>): seq<Element> {
    SortSpots(Filter(IsParkingSpace, es))
  }

  function ChargingStations(layout: Layout): Layout {
    var sorted := SortedSpaces(layout.elements);
    var roads := Filter(IsRoad, layout.elements);
    layout.(elements := layout.elements + StationsUpTo(sorted, roads, |sorted|))
  }

  /** generateChargingStations, as the source runs it: `forEach` over the
      sorted spaces, pushing into `stations` and incrementing `stationCount`. */
  method GenerateChargingStations(layout: Layout) returns (out: Layout)
    ensures out == ChargingStations(layout)
  {
    var spots := Filter(IsParkingSpace, layout.elements);
    var roads := Filter(IsRoad, layout.elements);
    var sorted := SortSpots(spots);
    var stations: seq<Element> := [];
    var stationCount: nat := 0;
    var index := 0;
    while index < |sorted|
      invariant 0 <= index <= |sorted|
      invariant stations == StationsUpTo(sorted, roads, index)
      invariant stationCount == |stations|
    {
      ghost var prev := stations;
      if (index + 1) % 3 == 0 {
        var best := PickCandidate(sorted[index], roads);
        stationCount := stationCount + 1;
        stations := stations + [Station(stationCount, best)];
        assert stations == prev + [Station(|prev| + 1, BestCandidate(sorted[index], roads))];
      }
      assert StationsUpTo(sorted, roads, index + 1)
          == if (index + 1) % 3 == 0 then prev + [Station(|prev| + 1, BestCandidate(sorted[index], roads))] else prev;
      index := index + 1;
    }
    out := layout.(elements := layout.elements + stations);
  }

  /** The k-th station belongs to the sorted space of 1-based index 3(k+1):
      a 10 x 10 charging station with rotation 0, id `charging_<k+1>`, at the
      chosen candidate of that space; there are exactly n / 3 of them. */
  lemma {:induction false} StationsShape(sorted: seq<Element>, roads: seq<Element>, n: nat)
    requires n <= |sorted|
    ensures var st := StationsUpTo(sorted, roads, n);
      && |st| == n / 3
      && forall k :: 0 <= k < |st| ==>
           st[k] == Station(k + 1, BestCandidate(sorted[3 * k + 2], roads))
    decreases n
  {
    if n > 0 {
      StationsShape(sorted, roads, n - 1);
      var prev := StationsUpTo(sorted, roads, n - 1);
      if n % 3 == 0 {
        assert n / 3 == (n - 1) / 3 + 1;
        assert 3 * |prev| + 2 == n - 1;
      } else {
        assert n / 3 == (n - 1) / 3;
      }
    }
  }

  /** generateChargingStations keeps every input element in order and
      appends exactly floor(s / 3) charging stations, s being the number of
      parking spaces, with pairwise distinct ids. */
  lemma ChargingStationsAppend(layout: Layout)
    ensures var out := ChargingStations(layout); var n := |layout.elements|;
      var spaces := Filter(IsParkingSpace, layout.elements);
      && out.width == layout.width && out.height == layout.height
      && n <= |out.elements| && out.elements[..n] == layout.elements
      && |out.elements| - n == |spaces| / 3
      && UniqueIds(out.elements[n..])
      && forall k :: n <= k < |out.elements| ==>
           && out.elements[k].kind == CHARGING_STATION
           && out.elements[k].width == STATION_SIZE && out.elements[k].height == STATION_SIZE
           && out.elements[k].rotation == Defined(0.0)
           && out.elements[k].id == STATION_PREFIX + NatToString(k - n + 1)
  {
    var sorted := SortedSpaces(layout.elements);
    var roads := Filter(IsRoad, layout.elements);
    var spaces := Filter(IsParkingSpace, layout.elements);
    assert |sorted| == |multiset(sorted)| == |multiset(spaces)| == |spaces|;
    StationsShape(sorted, roads, |sorted|);
    var out := ChargingStations(layout);
    var n := |layout.elements|;
    var st := StationsUpTo(sorted, roads, |sorted|);
    assert out.elements[..n] == layout.elements;
    assert out.elements[n..] == st;
    StationIdsDistinct(st);
  }

  /** Stations numbered 1, 2, ... in order have pairwise distinct ids. */
  lemma StationIdsDistinct(st: seq<Element>)
    requires forall k :: 0 <= k < |st| ==> st[k].id == STATION_PREFIX + NatToString(k + 1)
    ensures UniqueIds(st)
  {
    forall i, j | 0 <= i < j < |st| ensures st[i].id != st[j].id {
      LabelsDistinct(STATION_PREFIX, i + 1, j + 1);
    }
  }
}
