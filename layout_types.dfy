/** The data model of types.ts: placed elements, layouts and validation findings. */
module LayoutTypes {

  datatype Option<T> = None | Some(value: T)

  /** An optional property of a JavaScript object: the key may be missing,
      present with the value `undefined`, or present with a value.  The
      distinction matters for the object spread `{...a, ...b}`, where a key
      that is present in `b` wins even when its value is `undefined`. */
  datatype Prop<T> = Absent | Undefined | Defined(value: T)

  /** LayoutElement (`label` is spelled `caption`, `label` being a Dafny keyword).  `kind` is the element's `type` tag (an open string
      vocabulary); a missing tag is the empty string.  The free-form `meta`
      bag is not modelled. */
  datatype Element = Element(
    id: string,
    kind: string,
    x: real,
    y: real,
    width: real,
    height: real,
    rotation: Prop<real>,
    caption: Prop<string>,
    subType: Prop<string>)

  /** ParkingLayout: a canvas and its ordered elements. */
  datatype Layout = Layout(width: real, height: real, elements: seq<Element>)

  datatype ViolationKind =
    | Overlap
    | OutOfBounds
    | InvalidDimension
    | PlacementError
    | ConnectivityError
    | WidthMismatch
    | Custom

  /** ConstraintViolation. */
  datatype Violation = Violation(elementId: string, targetId: Option<string>, kind: ViolationKind, message: string)

  // The element type tags of ElementTypes.
  const GROUND := "ground"
  const PARKING_SPACE := "parking_space"
  const ROAD := "driving_lane"
  const SIDEWALK := "pedestrian_path"
  const RAMP := "slope"
  const PILLAR := "pillar"
  const WALL := "wall"
  const ENTRANCE := "entrance"
  const EXIT := "exit"
  const STAIRCASE := "staircase"
  const ELEVATOR := "elevator"
  const CHARGING_STATION := "charging_station"
  const GUIDANCE_SIGN := "guidance_sign"
  const SAFE_EXIT := "safe_exit"
  const SPEED_BUMP := "deceleration_zone"
  const FIRE_EXTINGUISHER := "fire_extinguisher"
  const LANE_LINE := "ground_line"
  const CONVEX_MIRROR := "convex_mirror"

  predicate IsRoad(e: Element) { e.kind == ROAD }
  predicate IsGround(e: Element) { e.kind == GROUND }
  predicate IsParkingSpace(e: Element) { e.kind == PARKING_SPACE }
  predicate IsSidewalk(e: Element) { e.kind == SIDEWALK }
  predicate IsExit(e: Element) { e.kind == EXIT }

  /** The layout invariant that element identities are unique. */
  predicate UniqueIds(es: seq<Element>) {
    forall i, j :: 0 <= i < j < |es| ==> es[i].id != es[j].id
  }

  function Ids(es: seq<Element>): (r: seq<string>)
    ensures |r| == |es| && forall i :: 0 <= i < |es| ==> r[i] == es[i].id
  {
    seq(|es|, i requires 0 <= i < |es| => es[i].id)
  }
}
