/**
 * A detected ArUco marker, as the detector hands it over: the record fields
 * of the `Aruco` class (corners, rotation vector, translation vector,
 * dictionary and id).
 */
module Aruco {

  /** An image point (x, y) in pixels. */
  datatype Point2 = Point2(x: real, y: real)

  /**
   * One marker observation. `dictionary` is the detector's dictionary
   * constant (an integer) and `id` the marker id inside it.
   */
  datatype Observation = Observation(
    corners: seq<Point2>,
    rotation: seq<real>,
    translation: seq<real>,
    dictionary: int,
    id: int)

  function Midpoint(p: Point2, q: Point2): Point2 {
    Point2((p.x + q.x) / 2.0, (p.y + q.y) / 2.0)
  }

  /**
   * The marker centre as the detector computes it: the midpoint of the
   * midpoints of the two diagonals. It is the mean of the four corners.
   */
  function Center(corners: seq<Point2>): (c: Point2)
    requires |corners| == 4
    ensures c.x == (corners[0].x + corners[1].x + corners[2].x + corners[3].x) / 4.0
    ensures c.y == (corners[0].y + corners[1].y + corners[2].y + corners[3].y) / 4.0
  {
    Midpoint(Midpoint(corners[0], corners[2]), Midpoint(corners[1], corners[3]))
  }
}
