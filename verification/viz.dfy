/**
 * The rendering window and the camera built from it, as an oracle.
 *
 * The capture engine only ever asks the renderer a handful of questions:
 * the window size, the clip planes, the depth-buffer value at a pixel, the
 * window coordinates of a world point, and (through the camera it builds) the
 * camera-space coordinates of a world point and the distorted image-space
 * projection of a camera-space point. Each question is a field of
 * `Renderer`; the model never looks inside the answers.
 */
module Viz {
  import opened Geometry

  /** Depth-buffer value meaning "no geometry at this pixel". */
  const Background: real := 1.0

  /** The state of the rendering window at the moment of a capture. */
  datatype Renderer = Renderer(
    width: nat,
    height: nat,
    near: real,
    far: real,
    depth: Pixel -> real,
    toWindow: Point3 -> Point3,
    toCamera: Point3 -> Point3,
    project: (real, real, Point3) -> Point2)
  {
    /**
     * What the renderer interface promises: proper clip planes and a
     * normalised depth buffer, 1.0 being the background.
     */
    ghost predicate WellFormed() {
      0.0 < near < far &&
      forall px :: 0.0 <= depth(px) <= 1.0
    }

    /** The pixel lies inside the window, so inside a buffer of the window's size. */
    predicate InWindow(px: Pixel) {
      0 <= px.x < width && 0 <= px.y < height
    }
  }

  /**
   * A camera: the renderer's view and intrinsics frozen at construction,
   * together with the two radial distortion coefficients it was built with.
   */
  datatype Camera = Camera(snapshot: Renderer, k1: real, k2: real)
  {
    /** `Camera::toCameraCoords`: world to camera space. */
    function ToCameraCoords(p: Point3): Point3 {
      snapshot.toCamera(p)
    }

    /** `Camera::projectPointCamCoords`: camera space to distorted image space. */
    function ProjectPointCamCoords(pc: Point3): Point2 {
      snapshot.project(k1, k2, pc)
    }

    /** The camera records no lens distortion. */
    predicate Undistorted() {
      k1 == 0.0 && k2 == 0.0
    }
  }
}
