/**
 * The capture engine: a session object holding the capture counter, the
 * reusable depth cache and the lens distortion, whose `TakePhoto` runs one
 * capture in the session's mode and hands a view to the dataset.
 */
module Capture {
  import opened Geometry
  import opened Viz
  import opened FileNames
  import opened Visibility
  import opened Frames

  /** The capture mode, fixed for the session. */
  datatype Mode = Usual | Silhouette | Depth

  /** One capture as handed to the dataset accumulator: camera, observations, image file. */
  datatype View = View(camera: Camera, observations: seq<Observation>, imagePath: string)

  /** Depth-cache value of a pixel not yet sampled in this photo. */
  const Unsampled: real := -1.0

  /** The image extension each mode writes. */
  function Extension(mode: Mode): (ext: string)
    ensures |ext| == 4
    ensures ext == ExrExt <==> mode == Depth
  {
    if mode == Depth then ExrExt else PngExt
  }

  /** `path` is the file of capture number `n`, in either image format. */
  ghost predicate IsCapturePath(path: string, folder: string, n: nat) {
    path == ImagePath(folder, n, PngExt) || path == ImagePath(folder, n, ExrExt)
  }

  /** No pixel is listed twice. */
  ghost predicate NoRepeats(s: seq<Pixel>) {
    forall a, b :: 0 <= a < b < |s| ==> s[a] != s[b]
  }

  class GenHelper {
    /** The point cloud; its length is the source's `n`. */
    const cloud: seq<Point3>
    const imgFolder: string
    const mode: Mode
    /** The radial distortion coefficients, tuned interactively between captures. */
    var k1: real
    var k2: real
    /** Number of captures taken so far; capture number `counter` names the latest file. */
    var counter: nat
    /** Per-pixel depth memo, `[row, column]`, `Unsampled` where not yet sampled. */
    var cache: array2<real>
    /** The views handed to the dataset accumulator, in order. */
    ghost var views: seq<View>
    /** The pixels whose depth the cache has fetched from the renderer since its last reset. */
    ghost var cacheFills: seq<Pixel>

    /** Capture `k` (counting from 1) wrote the file named after `k`. */
    ghost predicate Valid()
      reads this
    {
      |views| == counter &&
      forall k :: 0 <= k < |views| ==> IsCapturePath(views[k].imagePath, imgFolder, k + 1)
    }

    /**
     * The end of every capture: count it, name its file after the new count
     * and hand the view to the dataset.
     */
    method RecordView(cam: Camera, observations: seq<Observation>, ext: string)
      requires Valid() && (ext == PngExt || ext == ExrExt)
      modifies this`counter, this`views
      ensures Valid()
      ensures counter == old(counter) + 1
      ensures views == old(views) + [View(cam, observations, ImagePath(imgFolder, counter, ext))]
    {
      ghost var before := views;
      counter := counter + 1;
      views := views + [View(cam, observations, ImagePath(imgFolder, counter, ext))];
      assert IsCapturePath(views[|before|].imagePath, imgFolder, counter);
      forall k | 0 <= k < |views| ensures IsCapturePath(views[k].imagePath, imgFolder, k + 1) {
        if k < |before| {
          assert views[k] == before[k];
        }
      }
    }

    /**
     * The cache is window-sized and mirrors the renderer: a cell holds the
     * renderer's depth if its pixel was fetched and `Unsampled` otherwise,
     * and no pixel was fetched twice.
     */
    ghost predicate CacheMirrors(r: Renderer)
      reads this, cache
    {
      cache.Length0 == r.height && cache.Length1 == r.width &&
      NoRepeats(cacheFills) &&
      (forall px :: px in cacheFills ==> r.InWindow(px)) &&
      forall y, x :: 0 <= y < r.height && 0 <= x < r.width ==>
        cache[y, x] == if Pixel(x, y) in cacheFills then r.depth(Pixel(x, y)) else Unsampled
    }

    /**
     * Every pixel the cache fetched is the depth pixel of one of the first `k`
     * points that passed the camera tests.
     */
    ghost predicate FillsRequested(r: Renderer, cam: Camera, k: nat)
      reads this
    {
      forall px :: px in cacheFills ==>
        exists i :: 0 <= i < k && i < |cloud| && PassesCameraTests(r, cam, cloud[i]) && DepthPixel(r, cloud[i]) == px
    }

    /**
     * Conversely, the depth pixel of each of the first `k` points that passed
     * the camera tests and has its pixel in the window has been fetched.
     */
    ghost predicate FillsComplete(r: Renderer, cam: Camera, k: nat)
      reads this
    {
      forall i :: 0 <= i < k && i < |cloud| ==>
        (PassesCameraTests(r, cam, cloud[i]) && r.InWindow(DepthPixel(r, cloud[i])) ==>
           DepthPixel(r, cloud[i]) in cacheFills)
    }

    /** The view the next capture in this session's mode hands to the dataset. */
    ghost function NextView(r: Renderer): View
      reads this
    {
      match mode
      case Usual =>
        View(Camera(r, k1, k2), Observed(r, Camera(r, k1, k2), cloud, |cloud|),
             ImagePath(imgFolder, counter + 1, PngExt))
      case Silhouette =>
        View(Camera(r, 0.0, 0.0), [], ImagePath(imgFolder, counter + 1, PngExt))
      case Depth =>
        View(Camera(r, 0.0, 0.0), [], ImagePath(imgFolder, counter + 1, ExrExt))
    }

    constructor (cloud: seq<Point3>, imgFolder: string, mode: Mode, k1: real, k2: real)
      ensures Valid()
      ensures this.cloud == cloud && this.imgFolder == imgFolder && this.mode == mode
      ensures this.k1 == k1 && this.k2 == k2
      ensures counter == 0 && views == [] && cacheFills == []
      ensures fresh(cache) && cache.Length0 == 0 && cache.Length1 == 0
    {
      this.cloud := cloud;
      this.imgFolder := imgFolder;
      this.mode := mode;
      this.k1 := k1;
      this.k2 := k2;
      counter := 0;
      cache := new real[0, 0];
      views := [];
      cacheFills := [];
    }

    /** Runs the one capture procedure the session's mode selects. */
    method TakePhoto(r: Renderer)
      requires Valid() && r.WellFormed()
      modifies this, cache
      ensures Valid()
      ensures k1 == old(k1) && k2 == old(k2)
      ensures counter == old(counter) + 1
      ensures views == old(views) + [old(NextView(r))]
      ensures views[|views| - 1].imagePath == ImagePath(imgFolder, counter, Extension(mode))
      ensures mode == Usual ==> CacheMirrors(r)
      ensures mode == Usual ==> FillsRequested(r, Camera(r, k1, k2), |cloud|)
      ensures mode == Usual ==> FillsComplete(r, Camera(r, k1, k2), |cloud|)
      ensures mode == Usual && old(cache).Length0 == r.height && old(cache).Length1 == r.width ==>
                cache == old(cache)
      ensures mode == Usual && !(old(cache).Length0 == r.height && old(cache).Length1 == r.width) ==>
                fresh(cache)
      ensures mode != Usual ==> cache == old(cache) && unchanged(cache) && cacheFills == old(cacheFills)
    {
      ghost var next := NextView(r);
      if mode == Silhouette {
        var _ := TakeSilhouette(r);
        assert views == old(views) + [next];
        return;
      }
      if mode == Depth {
        var _ := TakeDepth(r);
        assert views == old(views) + [next];
        return;
      }
      TakeUsualPhoto(r);
      assert views == old(views) + [next];
    }

    /** `cache.setTo(-1)`: every cell back to `Unsampled`. */
    method ClearCache()
      modifies cache
      ensures forall y, x :: 0 <= y < cache.Length0 && 0 <= x < cache.Length1 ==> cache[y, x] == Unsampled
    {
      for y := 0 to cache.Length0
        invariant forall y', x :: 0 <= y' < y && 0 <= x < cache.Length1 ==> cache[y', x] == Unsampled
      {
        for x := 0 to cache.Length1
          invariant forall y', x' :: 0 <= y' < y && 0 <= x' < cache.Length1 ==> cache[y', x'] == Unsampled
          invariant forall x' :: 0 <= x' < x ==> cache[y, x'] == Unsampled
        {
          cache[y, x] := Unsampled;
        }
      }
    }

    /**
     * Lookup-or-populate: the depth at `px`, fetched from the renderer only if
     * the cell is still unsampled. A second lookup of the same pixel finds it
     * sampled, fetches nothing and returns the same value.
     */
    method CachedDepth(r: Renderer, px: Pixel) returns (d: real)
      requires r.WellFormed() && r.InWindow(px) && CacheMirrors(r)
      modifies cache, this`cacheFills
      ensures CacheMirrors(r)
      ensures d == r.depth(px)
      ensures cacheFills == if px in old(cacheFills) then old(cacheFills) else old(cacheFills) + [px]
    {
      d := cache[px.y, px.x];
      if d < 0.0 {
        d := r.depth(px);
        cache[px.y, px.x] := d;
        cacheFills := cacheFills + [px];
      }
    }

    /**
     * The visibility loop: filters the cloud through the camera tests and the
     * occlusion test, looking depths up through the cache. The cache fetches
     * exactly the in-window depth pixels of the points that passed the camera
     * tests, each once.
     */
    method ObservePoints(r: Renderer, cam: Camera) returns (view: seq<Observation>)
      requires r.WellFormed() && cam.snapshot == r && CacheMirrors(r) && cacheFills == []
      modifies cache, this`cacheFills
      ensures view == Observed(r, cam, cloud, |cloud|)
      ensures CacheMirrors(r)
      ensures FillsRequested(r, cam, |cloud|)
      ensures FillsComplete(r, cam, |cloud|)
    {
      view := [];
      for i := 0 to |cloud|
        invariant CacheMirrors(r)
        invariant FillsRequested(r, cam, i)
        invariant FillsComplete(r, cam, i)
        invariant view == Observed(r, cam, cloud, i)
      {
        view := ObservePoint(r, cam, i, view);
      }
    }

    /**
     * One pass of the visibility loop, for point `i`: appends its observation
     * if it passes every test, fetching its depth pixel through the cache
     * once it has passed the camera tests.
     */
    method ObservePoint(r: Renderer, cam: Camera, i: nat, view: seq<Observation>)
      returns (view': seq<Observation>)
      requires r.WellFormed() && cam.snapshot == r && i < |cloud|
      requires CacheMirrors(r) && FillsRequested(r, cam, i) && FillsComplete(r, cam, i)
      requires view == Observed(r, cam, cloud, i)
      modifies cache, this`cacheFills
      ensures CacheMirrors(r) && FillsRequested(r, cam, i + 1) && FillsComplete(r, cam, i + 1)
      ensures view' == Observed(r, cam, cloud, i + 1)
    {
      view' := view;
      var p := cloud[i];
      var pc := cam.ToCameraCoords(p);
      var img := cam.ProjectPointCamCoords(pc);
      if pc.z <= 0.0 || img.x < 0.0 || img.x > r.width as real || img.y < 0.0 || img.y > r.height as real {
        return;
      }
      var w := r.toWindow(p);
      var px := PixelOf(w);
      if !r.InWindow(px) {
        return;
      }
      var d := CachedDepth(r, px);
      assert px in cacheFills;
      if d != Background && w.z > d + Tolerance {
        return;
      }
      view' := view + [Observation(i, img)];
    }

    /**
     * The photo capture: reuse the cache if it has the window's size and
     * reallocate it otherwise, reset it, observe the cloud and record the view.
     */
    method TakeUsualPhoto(r: Renderer)
      requires Valid() && r.WellFormed()
      modifies this, cache
      ensures Valid()
      ensures k1 == old(k1) && k2 == old(k2)
      ensures old(cache).Length0 == r.height && old(cache).Length1 == r.width ==> cache == old(cache)
      ensures !(old(cache).Length0 == r.height && old(cache).Length1 == r.width) ==> fresh(cache)
      ensures CacheMirrors(r)
      ensures FillsRequested(r, Camera(r, k1, k2), |cloud|)
      ensures FillsComplete(r, Camera(r, k1, k2), |cloud|)
      ensures counter == old(counter) + 1
      ensures views == old(views) +
                [View(Camera(r, k1, k2), Observed(r, Camera(r, k1, k2), cloud, |cloud|),
                      ImagePath(imgFolder, counter, PngExt))]
    {
      if cache.Length0 != r.height || cache.Length1 != r.width {
        cache := new real[r.height, r.width];
      }
      ClearCache();
      cacheFills := [];
      var cam := Camera(r, k1, k2);
      var view := ObservePoints(r, cam);
      // The grid of source pixels for the lens-distortion resampler; the
      // resampling itself is not part of this model.
      var _ := PixelGrid(r.height, r.width);
      RecordView(cam, view, PngExt);
    }

    /** The silhouette capture: a black-and-white mask of the scene, no observations. */
    method TakeSilhouette(r: Renderer) returns (screen: array2<Rgb>)
      requires Valid()
      modifies this`counter, this`views
      ensures Valid()
      ensures fresh(screen)
      ensures screen.Length0 == r.height && screen.Length1 == r.width
      ensures forall row, col :: 0 <= row < r.height && 0 <= col < r.width ==>
                screen[row, col] == MaskAt(r, row, col)
      ensures counter == old(counter) + 1
      ensures views == old(views) + [View(Camera(r, 0.0, 0.0), [], ImagePath(imgFolder, counter, PngExt))]
      ensures views[|views| - 1].camera.Undistorted()
    {
      var cam := Camera(r, 0.0, 0.0);
      screen := RenderMask(r);
      RecordView(cam, [], PngExt);
    }

    /** The depth capture: a metric depth map of the scene, no observations. */
    method TakeDepth(r: Renderer) returns (depth: array2<real>)
      requires Valid() && r.WellFormed()
      modifies this`counter, this`views
      ensures Valid()
      ensures fresh(depth)
      ensures depth.Length0 == r.height && depth.Length1 == r.width
      ensures forall row, col :: 0 <= row < r.height && 0 <= col < r.width ==>
                depth[row, col] == DepthMapAt(r, row, col)
      ensures counter == old(counter) + 1
      ensures views == old(views) + [View(Camera(r, 0.0, 0.0), [], ImagePath(imgFolder, counter, ExrExt))]
      ensures views[|views| - 1].camera.Undistorted()
    {
      var cam := Camera(r, 0.0, 0.0);
      depth := RenderDepthMap(r);
      RecordView(cam, [], ExrExt);
    }
  }

  /** A capture file's name determines its capture number, whichever image format it has. */
  lemma CapturePathNumber(path: string, folder: string, n: nat, m: nat)
    requires IsCapturePath(path, folder, n) && IsCapturePath(path, folder, m)
    ensures n == m
  {
    var en := if path == ImagePath(folder, n, PngExt) then PngExt else ExrExt;
    var em := if path == ImagePath(folder, m, PngExt) then PngExt else ExrExt;
    ImagePathInjective(folder, n, m, en, em);
  }

  /** Files of two different capture numbers differ. */
  lemma CapturePathsDiffer(p: string, q: string, folder: string, n: nat, m: nat)
    requires IsCapturePath(p, folder, n) && IsCapturePath(q, folder, m) && n != m
    ensures p != q
  {
    if p == q {
      CapturePathNumber(p, folder, n, m);
    }
  }

  /** Views numbered from 1 in order name pairwise different files. */
  lemma NumberedViewsDistinct(views: seq<View>, folder: string)
    requires forall k :: 0 <= k < |views| ==> IsCapturePath(views[k].imagePath, folder, k + 1)
    ensures forall a, b :: 0 <= a < b < |views| ==> views[a].imagePath != views[b].imagePath
  {
    forall a, b | 0 <= a < b < |views|
      ensures views[a].imagePath != views[b].imagePath
    {
      CapturePathsDiffer(views[a].imagePath, views[b].imagePath, folder, a + 1, b + 1);
    }
  }

  /**
   * No two captures of a session write the same file: capture numbers grow
   * by one per capture, whichever capture procedure wrote each file, and the
   * name determines the number.
   */
  lemma CapturePathsDistinct(g: GenHelper)
    requires g.Valid()
    ensures forall a, b :: 0 <= a < b < |g.views| ==> g.views[a].imagePath != g.views[b].imagePath
  {
    NumberedViewsDistinct(g.views, g.imgFolder);
  }

  /**
   * A session created over the four-point scene, in photo mode, takes two
   * photos: each observes only the first point, and they are written to
   * "out/000001.png" and "out/000002.png".
   */
  method TwoPhotoSession() returns (g: GenHelper)
    ensures g.counter == 2 && |g.views| == 2
    ensures g.views[0].observations == [Observation(0, Point2(0.4, 0.4))]
    ensures g.views[1].observations == [Observation(0, Point2(0.4, 0.4))]
    ensures g.views[0].imagePath == ImagePath("out", 1, PngExt)
    ensures g.views[1].imagePath == ImagePath("out", 2, PngExt)
  {
    var (r, cloud) := FourPointScene();
    FourPointSceneObservesFirstOnly();
    g := new GenHelper(cloud, "out", Usual, 0.0, 0.0);
    g.TakePhoto(r);
    g.TakePhoto(r);
  }
}
