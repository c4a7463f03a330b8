/**
 * The visibility filter of a photo capture, as a specification: which points
 * of the cloud yield an observation, and with which image coordinates.
 * `Capture.GenHelper.TakeUsualPhoto` is proved to compute `Observed`.
 */
module Visibility {
  import opened Geometry
  import opened Viz

  /** How far behind the depth-buffer surface a point may lie and still be seen. */
  const Tolerance: real := 0.001

  /** A 2D observation of the cloud point with index `index`. */
  datatype Observation = Observation(index: nat, point: Point2)

  /**
   * The occlusion test: a point at window depth `z` over a pixel of buffer
   * depth `d` is hidden when there is geometry there and the point lies more
   * than the tolerance behind it.
   */
  predicate Occluded(d: real, z: real) {
    d != Background && z > d + Tolerance
  }

  /**
   * Ties go to visibility, background never hides, and moving a point nearer
   * can only make it visible (farther, only hidden).
   */
  lemma OcclusionMonotone(d: real, z: real, z': real)
    ensures z <= d + Tolerance ==> !Occluded(d, z)
    ensures d == Background ==> !Occluded(d, z)
    ensures z' <= z && !Occluded(d, z) ==> !Occluded(d, z')
    ensures z <= z' && Occluded(d, z) ==> Occluded(d, z')
  {
  }

  /** Where the camera projects a world point (distorted image space). */
  function ImagePoint(cam: Camera, p: Point3): Point2 {
    cam.ProjectPointCamCoords(cam.ToCameraCoords(p))
  }

  /** The closed image rectangle `[0, width] x [0, height]`, borders included. */
  predicate InImage(r: Renderer, q: Point2) {
    0.0 <= q.x <= r.width as real && 0.0 <= q.y <= r.height as real
  }

  /** The first two tests: in front of the camera and inside the image. */
  predicate PassesCameraTests(r: Renderer, cam: Camera, p: Point3) {
    cam.ToCameraCoords(p).z > 0.0 && InImage(r, ImagePoint(cam, p))
  }

  /** The depth-buffer pixel of a world point: its window coordinates, rounded. */
  function DepthPixel(r: Renderer, p: Point3): Pixel {
    PixelOf(r.toWindow(p))
  }

  /**
   * A point yields an observation: it passes the camera tests, its depth
   * pixel lies in the window (the model's guard for the unchecked buffer
   * access), and the depth buffer there does not hide it.
   */
  predicate Visible(r: Renderer, cam: Camera, p: Point3) {
    PassesCameraTests(r, cam, p) &&
    r.InWindow(DepthPixel(r, p)) &&
    !Occluded(r.depth(DepthPixel(r, p)), r.toWindow(p).z)
  }

  /** The observations the filter emits for the first `k` points, in index order. */
  function Observed(r: Renderer, cam: Camera, cloud: seq<Point3>, k: nat): seq<Observation>
    requires k <= |cloud|
  {
    if k == 0 then []
    else
      var prev := Observed(r, cam, cloud, k - 1);
      if Visible(r, cam, cloud[k - 1]) then prev + [Observation(k - 1, ImagePoint(cam, cloud[k - 1]))]
      else prev
  }

  /**
   * Soundness: every observation names a point among the first `k` that is in
   * front of the camera, projects into the closed image rectangle, has its
   * depth pixel inside the window and is not occluded there; its coordinates
   * are the camera's projection of that point.
   */
  lemma {:induction false} ObservedSound(r: Renderer, cam: Camera, cloud: seq<Point3>, k: nat)
    requires k <= |cloud|
    ensures forall o :: o in Observed(r, cam, cloud, k) ==>
              o.index < k &&
              cam.ToCameraCoords(cloud[o.index]).z > 0.0 &&
              InImage(r, o.point) &&
              r.InWindow(DepthPixel(r, cloud[o.index])) &&
              !Occluded(r.depth(DepthPixel(r, cloud[o.index])), r.toWindow(cloud[o.index]).z) &&
              o.point == ImagePoint(cam, cloud[o.index])
  {
    if k > 0 {
      ObservedSound(r, cam, cloud, k - 1);
    }
  }

  /** Completeness: every visible point among the first `k` is observed. */
  lemma {:induction false} ObservedComplete(r: Renderer, cam: Camera, cloud: seq<Point3>, k: nat, i: nat)
    requires i < k <= |cloud|
    requires Visible(r, cam, cloud[i])
    ensures Observation(i, ImagePoint(cam, cloud[i])) in Observed(r, cam, cloud, k)
  {
    if i < k - 1 {
      ObservedComplete(r, cam, cloud, k - 1, i);
    }
  }

  /** A point is observed exactly when it is visible. */
  lemma ObservedIffVisible(r: Renderer, cam: Camera, cloud: seq<Point3>, i: nat)
    requires i < |cloud|
    ensures (exists o :: o in Observed(r, cam, cloud, |cloud|) && o.index == i) <==> Visible(r, cam, cloud[i])
  {
    var obs := Observed(r, cam, cloud, |cloud|);
    ObservedSound(r, cam, cloud, |cloud|);
    if Visible(r, cam, cloud[i]) {
      ObservedComplete(r, cam, cloud, |cloud|, i);
      assert Observation(i, ImagePoint(cam, cloud[i])) in obs;
    }
  }

  /** Points behind the camera (or on its plane) are never observed. */
  lemma BehindCameraNeverObserved(r: Renderer, cam: Camera, cloud: seq<Point3>, i: nat)
    requires i < |cloud|
    requires cam.ToCameraCoords(cloud[i]).z <= 0.0
    ensures forall o :: o in Observed(r, cam, cloud, |cloud|) ==> o.index != i
  {
    ObservedSound(r, cam, cloud, |cloud|);
  }

  /** Indices come out strictly increasing, so each point is observed at most once. */
  lemma {:induction false} ObservedIncreasing(r: Renderer, cam: Camera, cloud: seq<Point3>, k: nat)
    requires k <= |cloud|
    ensures forall a, b :: 0 <= a < b < |Observed(r, cam, cloud, k)| ==>
              Observed(r, cam, cloud, k)[a].index < Observed(r, cam, cloud, k)[b].index
  {
    if k > 0 {
      ObservedIncreasing(r, cam, cloud, k - 1);
      ObservedSound(r, cam, cloud, k - 1);
      var prev := Observed(r, cam, cloud, k - 1);
      forall a | 0 <= a < |prev| ensures prev[a].index < k - 1 {
        assert prev[a] in prev;
      }
    }
  }

  /**
   * A renderer whose window coordinates coincide with undistorted image
   * coordinates, on a 2x2 window with an empty depth buffer.
   */
  function EdgeRenderer(): Renderer {
    Renderer(2, 2, 0.1, 100.0,
      (_: Pixel) => Background,
      (p: Point3) => Point3(p.x, p.y, 0.5),
      (p: Point3) => Point3(p.x, p.y, 1.0),
      (k1: real, k2: real, q: Point3) => Point2(q.x, q.y))
  }

  /**
   * The camera tests admit the closed rectangle, so a point on the right edge
   * of the image passes them while its rounded window pixel is column
   * `width`, one past the last column of a buffer of the window's size. The
   * unguarded lookup of the depth cache would read and write outside it.
   */
  lemma EdgePointLeavesBuffer()
    ensures var r := EdgeRenderer();
            var p := Point3(2.0, 0.0, 0.0);
            PassesCameraTests(r, Camera(r, 0.0, 0.0), p) &&
            DepthPixel(r, p) == Pixel(2, 0) &&
            !r.InWindow(DepthPixel(r, p))
  {
    var p := Point3(2.0, 0.0, 0.0);
    assert Round(2.0) == 2 && Round(0.0) == 0;
  }

  /**
   * Four points over a 2x2 window whose buffer has geometry at depth 0.05 on
   * pixel (1, 1) only: one in front and unoccluded, one behind the camera,
   * one behind the geometry at (1, 1), one outside the image.
   */
  function FourPointScene(): (Renderer, seq<Point3>) {
    (Renderer(2, 2, 0.1, 100.0,
       (px: Pixel) => if px == Pixel(1, 1) then 0.05 else Background,
       (p: Point3) => p,
       (p: Point3) => p,
       (k1: real, k2: real, q: Point3) => Point2(q.x, q.y)),
     [Point3(0.4, 0.4, 0.5), Point3(0.5, 0.5, -1.0), Point3(1.2, 1.2, 0.9), Point3(5.0, 0.0, 0.5)])
  }

  /** Of those four points only the first is observed. */
  lemma FourPointSceneObservesFirstOnly()
    ensures var (r, cloud) := FourPointScene();
            Observed(r, Camera(r, 0.0, 0.0), cloud, |cloud|) == [Observation(0, Point2(0.4, 0.4))]
  {
    var (r, cloud) := FourPointScene();
    var cam := Camera(r, 0.0, 0.0);
    assert Round(0.4) == 0 && Round(1.2) == 1;
    assert Visible(r, cam, cloud[0]);
    assert !Visible(r, cam, cloud[1]);
    assert DepthPixel(r, cloud[2]) == Pixel(1, 1);
    assert !Visible(r, cam, cloud[2]);
    assert !Visible(r, cam, cloud[3]);
  }
}
