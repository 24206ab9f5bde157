/**
 * The per-frame input of the recogniser: the hand-pose joints that the Vision
 * framework reported with confidence above 0.3, each at its normalised
 * position. Coordinates are passed on unchanged from Vision, so x grows to the
 * right and y grows upwards (a larger y is higher in the camera frame).
 */
module Landmarks {

  /** The 21 joints of one hand reported by Vision's hand-pose request. */
  datatype Joint =
    | Wrist
    | ThumbCMC | ThumbMP | ThumbIP | ThumbTip
    | IndexMCP | IndexPIP | IndexDIP | IndexTip
    | MiddleMCP | MiddlePIP | MiddleDIP | MiddleTip
    | RingMCP | RingPIP | RingDIP | RingTip
    | LittleMCP | LittlePIP | LittleDIP | LittleTip

  /** A normalised 2D position; floating point is modelled by exact reals. */
  datatype Point = Point(x: real, y: real)

  /**
   * A sparse landmark frame: a joint is absent when Vision did not report it
   * or reported it with confidence of at most 0.3.
   */
  type Frame = map<Joint, Point>

  /** The absolute value used by every distance test of the rules. */
  function Abs(v: real): real
  {
    if v < 0.0 then -v else v
  }
}
