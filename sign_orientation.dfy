/** orientGuidanceSigns: every guidance sign is turned toward the nearest exit,
    along its road when it stands on one. */
module SignOrientation {
  import opened LayoutTypes
  import opened Geometry
  import opened Seqs

  /** How far a sign may stick out of a road and still count as standing on it. */
  const ROAD_SLACK: real := 5.0

  predicate IsGuidanceSign(e: Element) { e.kind == GUIDANCE_SIGN }

  /** The sign lies within road `r` grown by ROAD_SLACK on every side. */
  predicate OnRoad(el: Element, r: Element) {
    el.x >= r.x - ROAD_SLACK && el.x + el.width <= r.x + r.width + ROAD_SLACK &&
    el.y >= r.y - ROAD_SLACK && el.y + el.height <= r.y + r.height + ROAD_SLACK
  }

  /** `roads.find(...)`: the first road the sign stands on. */
  function ParentRoad(el: Element, roads: seq<Element>): (r: Option<Element>)
    ensures r.Some? ==> exists i :: 0 <= i < |roads| && roads[i] == r.value && OnRoad(el, r.value) &&
                          forall k :: 0 <= k < i ==> !OnRoad(el, roads[k])
    ensures r.None? ==> forall k :: 0 <= k < |roads| ==> !OnRoad(el, roads[k])
  {
    if |roads| == 0 then None
    else if OnRoad(el, roads[0]) then Some(roads[0])
    else
      var rest := ParentRoad(el, roads[1..]);
      if rest.Some? then
        var i :| 0 <= i < |roads[1..]| && roads[1..][i] == rest.value && OnRoad(el, rest.value) &&
                 forall k :: 0 <= k < i ==> !OnRoad(el, roads[1..][k]);
        assert roads[i + 1] == rest.value;
        rest
      else rest
  }

  function CentreX(e: Element): real { e.x + e.width / 2.0 }
  function CentreY(e: Element): real { e.y + e.height / 2.0 }

  /** Manhattan distance between the centres of a sign and an exit. */
  function Distance(sign: Element, exit: Element): real {
    Abs(CentreX(exit) - CentreX(sign)) + Abs(CentreY(exit) - CentreY(sign))
  }

  /** The exit the scan over the first n exits settles on: it starts from
      infinity, so the first exit is always taken, and a later one replaces
      it only when strictly closer.  The result is the first exit at the
      least distance. */
  function NearestExit(sign: Element, exits: seq<Element>, n: nat): (r: Element)
    requires 1 <= n <= |exits|
    ensures exists i :: 0 <= i < n && exits[i] == r && forall k :: 0 <= k < i ==> Distance(sign, exits[k]) > Distance(sign, r)
    ensures forall k :: 0 <= k < n ==> Distance(sign, r) <= Distance(sign, exits[k])
  {
    if n == 1 then exits[0]
    else
      var best := NearestExit(sign, exits, n - 1);
      if Distance(sign, exits[n - 1]) < Distance(sign, best) then exits[n - 1] else best
  }

  /** The `exits.forEach` scan, `minDist` starting at Infinity (None here). */
  method FindNearestExit(sign: Element, exits: seq<Element>) returns (nearestExit: Element)
    requires |exits| > 0
    ensures nearestExit == NearestExit(sign, exits, |exits|)
  {
    nearestExit := exits[0];
    var minDist: Option<real> := None;
    var k := 0;
    while k < |exits|
      invariant 0 <= k <= |exits|
      invariant k == 0 ==> minDist.None? && nearestExit == exits[0]
      invariant k > 0 ==> nearestExit == NearestExit(sign, exits, k) && minDist == Some(Distance(sign, nearestExit))
    {
      var d := Distance(sign, exits[k]);
      if minDist.None? || d < minDist.value {
        minDist := Some(d);
        nearestExit := exits[k];
      }
      k := k + 1;
    }
  }

  /** The rotation given to a sign: along its road (0/180 on a road wider
      than tall, else 90/270) toward the exit's centre; with no road, along
      the axis of the larger offset to the exit. */
  function SignRotation(sign: Element, roads: seq<Element>, exits: seq<Element>): real
    requires |exits| > 0
  {
    var exit := NearestExit(sign, exits, |exits|);
    Heading(ParentRoad(sign, roads), CentreX(sign), CentreY(sign), CentreX(exit), CentreY(exit))
  }

  /** The rotation from a sign centred at (cx, cy) toward an exit centred
      at (ex, ey), given the road the sign stands on, if any. */
  function Heading(parent: Option<Element>, cx: real, cy: real, ex: real, ey: real): real {
    match parent
    case Some(road) =>
      if road.width > road.height then (if ex > cx then 0.0 else 180.0)
      else (if ey > cy then 90.0 else 270.0)
    case None =>
      if Abs(ex - cx) > Abs(ey - cy) then (if ex - cx > 0.0 then 0.0 else 180.0)
      else (if ey - cy > 0.0 then 90.0 else 270.0)
  }

  /** The map's callback. */
  function Orient(el: Element, roads: seq<Element>, exits: seq<Element>): Element
    requires |exits| > 0
  {
    if IsGuidanceSign(el) then el.(rotation := Defined(SignRotation(el, roads, exits))) else el
  }

  function OrientGuidanceSigns(layout: Layout): Layout {
    var es := layout.elements;
    var exits := Filter(IsExit, es);
    var roads := Filter(IsRoad, es);
    if |exits| == 0 then layout
    else layout.(elements := seq(|es|, i requires 0 <= i < |es| => Orient(es[i], roads, exits)))
  }

  // ---------------------------------------------------------------------
  // Properties

  /** The rotation is a quarter turn, and points at the exit along its axis:
      0 means the exit's centre is to the right, 180 not to the right, 90
      below, 270 not below.  Off road, the axis is the one of the larger
      offset. */
  lemma SignRotationPointsToExit(sign: Element, roads: seq<Element>, exits: seq<Element>)
    requires |exits| > 0
    ensures var rot := SignRotation(sign, roads, exits);
      var exit := NearestExit(sign, exits, |exits|);
      var dx := CentreX(exit) - CentreX(sign);
      var dy := CentreY(exit) - CentreY(sign);
      && rot in {0.0, 90.0, 180.0, 270.0}
      && (rot == 0.0 ==> dx > 0.0)
      && (rot == 180.0 ==> dx <= 0.0)
      && (rot == 90.0 ==> dy > 0.0)
      && (rot == 270.0 ==> dy <= 0.0)
      && (ParentRoad(sign, roads).None? ==> (rot in {0.0, 180.0} <==> Abs(dx) > Abs(dy)))
      && (ParentRoad(sign, roads).Some? ==>
            (rot in {0.0, 180.0} <==> ParentRoad(sign, roads).value.width > ParentRoad(sign, roads).value.height))
  {
  }

  /** With no exit the pass returns its input; in any case it keeps the
      number and order of the elements and changes nothing but the rotation
      of the guidance signs, which, when there is an exit, becomes a quarter
      turn. */
  lemma OrientGuidanceSignsChangesOnlySigns(layout: Layout)
    ensures var out := OrientGuidanceSigns(layout); var es := layout.elements;
      && (Filter(IsExit, es) == [] ==> out == layout)
      && out.width == layout.width && out.height == layout.height
      && |out.elements| == |es|
      && forall i :: 0 <= i < |es| ==>
           if IsGuidanceSign(es[i]) && Filter(IsExit, es) != [] then
             out.elements[i].rotation.Defined? &&
             out.elements[i].rotation.value in {0.0, 90.0, 180.0, 270.0} &&
             out.elements[i] == es[i].(rotation := out.elements[i].rotation)
           else out.elements[i] == es[i]
  {
    var es := layout.elements;
    var exits := Filter(IsExit, es);
    if |exits| > 0 {
      var out := OrientGuidanceSigns(layout).elements;
      forall i | 0 <= i < |es|
        ensures if IsGuidanceSign(es[i]) then
             out[i].rotation.Defined? &&
             out[i].rotation.value in {0.0, 90.0, 180.0, 270.0} &&
             out[i] == es[i].(rotation := out[i].rotation)
           else out[i] == es[i]
      {
        assert out[i] == Orient(es[i], Filter(IsRoad, es), exits);
        SignRotationPointsToExit(es[i], Filter(IsRoad, es), exits);
      }
    }
  }

  /** A map that leaves the `p`-elements as they are and never changes
      whether an element satisfies `p` leaves the `p`-part as it was. */
  lemma {:induction false} FilterOfMap(p: Element -> bool, s: seq<Element>, t: seq<Element>)
    requires |s| == |t|
    requires forall i :: 0 <= i < |s| ==> p(t[i]) == p(s[i]) && (p(s[i]) ==> t[i] == s[i])
    ensures Filter(p, t) == Filter(p, s)
    decreases |s|
  {
    if |s| > 0 {
      FilterOfMap(p, s[..|s| - 1], t[..|t| - 1]);
    }
  }

  /** The rotation only depends on where the sign is, not on its rotation. */
  lemma SignRotationIgnoresRotation(sign: Element, rot: Prop<real>, roads: seq<Element>, exits: seq<Element>)
    requires |exits| > 0
    ensures SignRotation(sign.(rotation := rot), roads, exits) == SignRotation(sign, roads, exits)
  {
    var turned := sign.(rotation := rot);
    forall k | 0 <= k < |exits| ensures Distance(turned, exits[k]) == Distance(sign, exits[k]) {}
    NearestExitDependsOnDistances(sign, turned, exits, |exits|);
    ParentRoadDependsOnRect(sign, turned, roads);
    assert CentreX(turned) == CentreX(sign) && CentreY(turned) == CentreY(sign);
  }

  lemma {:induction false} ParentRoadDependsOnRect(a: Element, b: Element, roads: seq<Element>)
    requires RectOf(a) == RectOf(b)
    ensures ParentRoad(a, roads) == ParentRoad(b, roads)
    decreases |roads|
  {
    if |roads| > 0 && !OnRoad(a, roads[0]) {
      ParentRoadDependsOnRect(a, b, roads[1..]);
    }
  }

  lemma {:induction false} NearestExitDependsOnDistances(a: Element, b: Element, exits: seq<Element>, n: nat)
    requires 1 <= n <= |exits|
    requires forall k :: 0 <= k < |exits| ==> Distance(a, exits[k]) == Distance(b, exits[k])
    ensures NearestExit(a, exits, n) == NearestExit(b, exits, n)
    decreases n
  {
    if n > 1 {
      NearestExitDependsOnDistances(a, b, exits, n - 1);
    }
  }

  /** Orienting twice is orienting once: roads and exits are left as they
      are, and a sign's new rotation does not depend on its old one. */
  lemma OrientGuidanceSignsIdempotent(layout: Layout)
    ensures OrientGuidanceSigns(OrientGuidanceSigns(layout)) == OrientGuidanceSigns(layout)
  {
    var es := layout.elements;
    var exits := Filter(IsExit, es);
    var roads := Filter(IsRoad, es);
    if |exits| > 0 {
      var out := OrientGuidanceSigns(layout);
      var es' := out.elements;
      FilterOfMap(IsExit, es, es');
      FilterOfMap(IsRoad, es, es');
      var es'' := OrientGuidanceSigns(out).elements;
      forall i | 0 <= i < |es| ensures es''[i] == es'[i] {
        if IsGuidanceSign(es[i]) {
          SignRotationIgnoresRotation(es[i], es'[i].rotation, roads, exits);
          assert es'[i] == es[i].(rotation := es'[i].rotation);
        }
      }
    }
  }
}
