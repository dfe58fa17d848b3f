/**
 * The floating-point geometry of the detector, kept symbolic.
 *
 * Pose reconstruction from a homography and rigid-transform multiplication
 * are numerical library code; here each is a constructor of a free term
 * algebra, so a pose records exactly which detection, size, camera
 * parameters and transforms produced it, and in which order they were
 * multiplied.
 */
module Geometry {

  /** The corner positions (in pixels) of one detected tag. */
  datatype Corners = Corners(points: seq<(real, real)>)

  /** Focal lengths and principal point used to reconstruct a pose. */
  datatype CameraParams = CameraParams(fx: real, fy: real, px: real, py: real)

  /** A rigid transform between two frames. */
  datatype Transform =
    | Observed(handle: nat)
      // a transform handed out by the frame-lookup service
    | Relative(corners: Corners, size: real, camera: CameraParams)
      // the tag-to-camera transform solved from a detection
    | Product(left: Transform, right: Transform)
      // the product `left * right` of two transforms

  /** A position and orientation, extracted from a transform. */
  datatype Pose = PoseOf(transform: Transform)

  /** The camera-relative pose of a tag of edge length `size` seen at `corners`. */
  function Reconstruct(corners: Corners, size: real, camera: CameraParams): Pose {
    PoseOf(Relative(corners, size, camera))
  }

  /** The transform a pose message denotes. */
  function ToTransform(p: Pose): Transform {
    p.transform
  }

  /** The pose `p` re-expressed through `t`: the product `t * p`, `t` on the left. */
  function Compose(t: Transform, p: Pose): Pose {
    PoseOf(Product(t, ToTransform(p)))
  }
}
