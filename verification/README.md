# SfmDataGenerator capture engine, in Dafny

This project models the capture engine of SfmDataGenerator, a tool that builds
ground-truth structure-from-motion data from a rendered point cloud. It proves
properties of that model. Each capture runs in the session's mode:

- **photo**: decides which cloud points are visible. A point must be in front of
  the camera, inside the image and not hidden by nearer geometry in the depth
  buffer. Depth lookups go through a per-pixel cache. The capture records one
  observation `(point index, distorted image point)` for each visible point.
- **silhouette**: writes a black/white mask of the scene.
- **depth**: writes a metric depth map of the scene.

Every capture increments the session counter. Its image is named
`<folder>/<counter padded with '0' to 6 digits><ext>`. The capture then hands a
view (camera, observations, file name) to the dataset.

The renderer and the camera maths are an oracle, `Viz.Renderer`. Its fields
answer the only questions the engine asks:

- window size and clip planes;
- depth at a pixel;
- world point to window coordinates;
- world point to camera coordinates;
- camera point to distorted image point.

A `Viz.Camera` is a snapshot of that renderer together with the two
distortion coefficients. `Renderer.WellFormed` states what the renderer
interface promises: `0 < near < far`, and every buffer depth lies in `[0, 1]`,
with 1.0 meaning background.

Modules, one per component:

- `Geometry` (geometry.dfy): points, pixels, C's `round`.
- `Viz` (viz.dfy): the renderer oracle and the camera snapshot.
- `FileNames` (filenames.dfy): counter text and image paths.
- `Visibility` (visibility.dfy): the photo filter as a specification (`Observed`) and its properties.
- `Frames` (frames.dfy): silhouette mask, metric depth map, the resampler's pixel grid.
- `Capture` (capture.dfy): the `GenHelper` session class. Fields: `counter`, the `cache`
  array, `k1`/`k2`, a ghost log `views` of the views handed to the dataset, and a
  ghost log `cacheFills` of the pixels the cache fetched from the renderer.

The source leaves one case open: the rounded window pixel of a point (GenHelper.cpp:86-87)
indexes the cache without a bounds check. **This model rejects such a point.** It
yields no observation and touches no cache cell (`Visibility.Visible` requires
`InWindow`). See "Findings".

## Model

| member | source | states |
|---|---|---|
| `Viz.Camera.ToCameraCoords` | SfmDataGenerator/GenHelper.cpp:75 | `cam.toCameraCoords`: the camera's world-to-camera transform, an oracle field of the renderer snapshot the camera was built from |
| `Viz.Camera.ProjectPointCamCoords` | SfmDataGenerator/GenHelper.cpp:76 | `cam.projectPointCamCoords`: the camera's projection to distorted image space, an oracle applied with the camera's own k1 and k2 |
| `Geometry.Round` | SfmDataGenerator/GenHelper.cpp:86 | the result is the integer nearest the input; a halfway value rounds away from zero |
| `Geometry.RoundSymmetric` | SfmDataGenerator/GenHelper.cpp:86 | rounding commutes with negation; a non-negative halfway value rounds up |
| `Geometry.PixelOf` | SfmDataGenerator/GenHelper.cpp:86 | the depth pixel is within half a pixel of the window coordinates on each axis |
| `FileNames.Decimal` | SfmDataGenerator/GenHelper.cpp:97 | the text `<< counter` writes: at least one character, all decimal digits |
| `FileNames.DecimalNoLeadingZero` | SfmDataGenerator/GenHelper.cpp:97 | the decimal text of a positive number does not start with '0' |
| `FileNames.CounterText` | SfmDataGenerator/GenHelper.cpp:97 | `setw(6) << setfill('0') << counter`: the decimal text padded on the left to the field width |
| `FileNames.CounterTextReadsBack` | SfmDataGenerator/GenHelper.cpp:97 | the counter text has at least 6 characters, all of them digits, and reads back as the counter |
| `FileNames.ValueOfDecimal` | SfmDataGenerator/GenHelper.cpp:97 | reading the decimal text of n back gives n |
| `FileNames.LeadingZeros` | SfmDataGenerator/GenHelper.cpp:97 | '0' fill in front of a digit string does not change the number it denotes |
| `FileNames.PadZeros` | SfmDataGenerator/GenHelper.cpp:97 | `setw` with `setfill('0')`: one '0' is put in front until the field width is reached |
| `FileNames.PadZerosShape` | SfmDataGenerator/GenHelper.cpp:97 | the padded text is `width - |s|` '0's followed by the text when the text is shorter, the text itself otherwise; so the padded text is as long as the requested width or the text, whichever is longer; it ends with the unpadded text and is '0' before it |
| `FileNames.CounterTextExact` | SfmDataGenerator/GenHelper.cpp:97 | the counter text is the decimal text with '0's in front up to width 6, and the plain decimal text from 6 digits on |
| `FileNames.CounterTextSixWide` | SfmDataGenerator/GenHelper.cpp:97 | every counter below 1000000 is written in exactly 6 characters |
| `FileNames.ImagePath` | SfmDataGenerator/GenHelper.cpp:96-97 | the file name `imgFolder + "/" + counter text + ext` the string stream builds |
| `FileNames.ImagePathInjective` | SfmDataGenerator/GenHelper.cpp:96-97 | two paths in one folder with extensions of equal length are equal only for equal counters and equal extensions |
| `Visibility.Occluded` | SfmDataGenerator/GenHelper.cpp:91 | the depth test: the buffer has geometry at the pixel (depth not 1.0) and the point lies more than 1e-3 behind it |
| `Visibility.ImagePoint` | SfmDataGenerator/GenHelper.cpp:75-76 | `pntImg`: the camera's distorted projection of the point's camera coordinates |
| `Visibility.InImage` | SfmDataGenerator/GenHelper.cpp:78-79 | the image test: the image point lies in the closed rectangle [0,width]x[0,height] |
| `Visibility.PassesCameraTests` | SfmDataGenerator/GenHelper.cpp:75-80 | the first two tests: camera z > 0 and the projected point in the image |
| `Visibility.DepthPixel` | SfmDataGenerator/GenHelper.cpp:83-86 | the depth-buffer pixel of a point: its window coordinates, each rounded |
| `Visibility.Visible` | SfmDataGenerator/GenHelper.cpp:78-91 | a point is kept when it passes the camera tests, its depth pixel is in the window (the model's guard) and it is not occluded there |
| `Visibility.Observed` | SfmDataGenerator/GenHelper.cpp:73-92 | the specification of the loop: the observations `(i, image point)` of the visible points among the first k, in index order |
| `Visibility.OcclusionMonotone` | SfmDataGenerator/GenHelper.cpp:91 | a point at most 1e-3 behind the buffer depth is not occluded, nor is one over background; moving it nearer never occludes it and moving it farther never un-occludes it |
| `Visibility.ObservedSound` | SfmDataGenerator/GenHelper.cpp:73-92 | every observation names one of the points scanned; that point has camera z > 0, lies in the closed rectangle [0,width]x[0,height], has its depth pixel in the window and is not occluded; the observation carries the point's projection |
| `Visibility.ObservedComplete` | SfmDataGenerator/GenHelper.cpp:73-92 | every visible point among those scanned yields its observation |
| `Visibility.ObservedIffVisible` | SfmDataGenerator/GenHelper.cpp:78-92 | a point has an observation exactly when it passes all the tests |
| `Visibility.BehindCameraNeverObserved` | SfmDataGenerator/GenHelper.cpp:78-81 | a point with camera z <= 0 has no observation |
| `Visibility.ObservedIncreasing` | SfmDataGenerator/GenHelper.cpp:73-92 | observation indices strictly increase, so each point appears at most once |
| `Visibility.EdgePointLeavesBuffer` | SfmDataGenerator/GenHelper.cpp:78-87 | a point on the right image edge passes the camera tests, yet its rounded window pixel is column `width`, outside the buffer |
| `Visibility.FourPointSceneObservesFirstOnly` | SfmDataGenerator/GenHelper.cpp:73-93 | of four points (visible, behind the camera, occluded, outside the image) only the first is observed |
| `Frames.FlippedRow` | SfmDataGenerator/GenHelper.cpp:120 | `ws.height - i - 1`: the buffer row shown at output row i, the vertical flip between window and image |
| `Frames.MaskAt` | SfmDataGenerator/GenHelper.cpp:120-125 | mask pixel [row, col] is black if the depth at (col, height-row-1) is 1.0 and white otherwise |
| `Frames.MaskMarksGeometry` | SfmDataGenerator/GenHelper.cpp:118-127 | window pixel (x, y) appears at output row height-y-1; there it is white exactly when the buffer has geometry and black exactly over background |
| `Frames.EmptySceneIsBlack` | SfmDataGenerator/GenHelper.cpp:118-127 | on an empty scene every mask pixel is black |
| `Frames.RenderMask` | SfmDataGenerator/GenHelper.cpp:117-127 | the mask is a newly allocated, window-sized array and every pixel [i,j] is black if the depth at (j, height-i-1) is 1.0, white otherwise |
| `Frames.Denominator` | SfmDataGenerator/GenHelper.cpp:157-160 | the denominator `far + near - (2d - 1)(far - near)` of the conversion |
| `Frames.MetricDepth` | SfmDataGenerator/GenHelper.cpp:157-160 | the conversion of an OpenGL buffer depth d to metric depth, `2 near far / denominator` |
| `Frames.DenominatorBounds` | SfmDataGenerator/GenHelper.cpp:160 | for d in [0,1] the formula's denominator lies in [2 near, 2 far], so it is never zero |
| `Frames.DenominatorDecreasing` | SfmDataGenerator/GenHelper.cpp:160 | the denominator strictly decreases as the buffer depth grows |
| `Frames.MetricDepthBounds` | SfmDataGenerator/GenHelper.cpp:157-160 | metric depth lies between the clip planes: near for d = 0 and far for d = 1 |
| `Frames.MetricDepthInverse` | SfmDataGenerator/GenHelper.cpp:157-160 | metric depth is positive, and the forward perspective mapping takes it back to the buffer depth |
| `Frames.MetricDepthIncreasing` | SfmDataGenerator/GenHelper.cpp:160 | a greater buffer depth gives a strictly greater metric depth |
| `Frames.MetricDepthExample` | SfmDataGenerator/GenHelper.cpp:160 | with near 0.1, far 100 and d 0.5 the metric depth is 20/100.1 |
| `Frames.DepthMapAt` | SfmDataGenerator/GenHelper.cpp:155-160 | depth-map pixel [row, col]: 0 if buffer pixel (col, height-row-1) is background, its metric depth otherwise |
| `Frames.DepthMapMeaning` | SfmDataGenerator/GenHelper.cpp:155-160 | a depth-map pixel is 0 exactly over background; otherwise it lies between the clip planes and converts back to the buffer depth |
| `Frames.RenderDepthMap` | SfmDataGenerator/GenHelper.cpp:149-162 | the map is a newly allocated, window-sized array that starts at zero; each pixel [row,col] is 0 over background and the metric depth of buffer pixel (col, height-row-1) otherwise |
| `Frames.RowMajor` | SfmDataGenerator/GenHelper.cpp:100-104 | position i*cols+j of a row-major grid is row i, column j |
| `Frames.PixelGrid` | SfmDataGenerator/GenHelper.cpp:99-104 | the grid lists rows*cols points; point k is (k mod cols, k div cols), every pixel row by row |
| `Capture.Extension` | SfmDataGenerator/GenHelper.cpp:165 | the extension is ".exr" exactly in depth mode and ".png" otherwise, 4 characters either way |
| `Capture.GenHelper.constructor` | SfmDataGenerator/GenHelper.cpp:11-14 | a session starts with counter 0, an empty, newly allocated cache that it owns, no views, and the given cloud, folder, mode and distortion |
| `Capture.GenHelper.NextView` | SfmDataGenerator/GenHelper.cpp:52-62 | the view the mode's capture hands to `addView`. In photo mode it has the camera with the session's distortion, the `Observed` observations and the ".png" name. In silhouette mode it has an undistorted camera, no observations and ".png"; in depth mode the same with ".exr". Each is named after the next counter |
| `Capture.GenHelper.TakePhoto` | SfmDataGenerator/GenHelper.cpp:52-62 | exactly one capture runs, the one the mode selects. The counter goes up by 1 and one view is appended: observations and distortion in photo mode, none and zero distortion otherwise, named after the new counter with the mode's extension. In photo mode the cache is kept if already window-sized and reallocated otherwise, mirrors the renderer, and has fetched exactly the in-window depth pixels of the points that passed the camera tests, each once; the other modes leave the cache alone |
| `Capture.GenHelper.ClearCache` | SfmDataGenerator/GenHelper.cpp:69 | every cache cell becomes the sentinel -1 |
| `Capture.GenHelper.CachedDepth` | SfmDataGenerator/GenHelper.cpp:86-90 | returns the renderer's depth at the pixel and leaves the cache still mirroring the renderer; it fetches from the renderer only when the pixel is still unsampled, so a repeated lookup fetches nothing and returns the same value |
| `Capture.GenHelper.ObservePoints` | SfmDataGenerator/GenHelper.cpp:73-93 | the loop produces exactly `Observed` over the whole cloud; the cache mirrors the renderer; the pixels fetched are exactly the in-window depth pixels of the points that passed the camera tests, each fetched once |
| `Capture.GenHelper.ObservePoint` | SfmDataGenerator/GenHelper.cpp:74-92 | one pass of the loop for point i: the observations grow from `Observed` over i points to `Observed` over i+1; the cache keeps mirroring the renderer, and it has fetched point i's depth pixel if the point passed the camera tests and the pixel is in the window, and nothing else |
| `Capture.GenHelper.TakeUsualPhoto` | SfmDataGenerator/GenHelper.cpp:64-111 | the cache is kept if it is already window-sized and reallocated otherwise; after the reset and the loop it mirrors the renderer and has fetched exactly the in-window depth pixels of the points that passed the camera tests, each once. The counter goes up by 1, and the appended view holds the camera with the session's distortion, exactly the visible points' observations and the ".png" name |
| `Capture.GenHelper.RecordView` | SfmDataGenerator/GenHelper.cpp:96-97 | the counter goes up by 1 and the view is appended, named after the new counter |
| `Capture.GenHelper.TakeSilhouette` | SfmDataGenerator/GenHelper.cpp:113-133 | the returned mask is a newly allocated array holding `RenderMask`'s rule; the counter goes up by 1; the appended view has an undistorted camera (`Undistorted`), no observations and the ".png" name |
| `Capture.GenHelper.TakeDepth` | SfmDataGenerator/GenHelper.cpp:145-169 | the returned map is a newly allocated array holding `RenderDepthMap`'s rule; the counter goes up by 1; the appended view has an undistorted camera (`Undistorted`), no observations and the ".exr" name |
| `Capture.TwoPhotoSession` | SfmDataGenerator/GenHelper.cpp:11-14 | a session created over the four-point scene in photo mode takes two photos; each observes only the first point, and they are named after counters 1 and 2 |
| `Capture.CapturePathNumber` | SfmDataGenerator/GenHelper.cpp:96-97 | a capture file name, in either image format, determines its capture number |
| `Capture.NumberedViewsDistinct` | SfmDataGenerator/GenHelper.cpp:96-97 | views numbered 1, 2, ... in order name pairwise different files |
| `Capture.CapturePathsDistinct` | SfmDataGenerator/GenHelper.cpp:96-97 | in a valid session no two views share an image file, whichever capture procedure wrote each one |

## Findings

| source | as written | input that shows it | evidently intended | confidence | as-written member | corrected member |
|---|---|---|---|---|---|---|
| SfmDataGenerator/GenHelper.cpp:78-87 | the image test admits x = width and y = height, and the rounded window pixel then indexes the depth cache with no bounds check | window 2x2; a point whose image point and window coordinates are both (2, 0) passes the tests and rounds to column 2, one past the last column, so the cache is read and written out of range | look up only pixels inside the window; a point whose pixel falls outside is not observed | medium (depends on the renderer returning window x = width at the image edge), not executed | `Visibility.EdgePointLeavesBuffer` | `Visibility.ObservedSound` |

## Left out

- The undistort/remap of the photo (GenHelper.cpp:94, 98, 105-109) is not modelled: the screenshot, OpenCV `undistortPoints` and `remap` are floating-point resampling. Only the grid of source pixels (`Frames.PixelGrid`) is modelled. Its size is taken to be the window size.
- `imwrite` (file I/O) is not modelled. The silhouette mask and the depth map are returned as out-parameters of `TakeSilhouette` and `TakeDepth`.
- `sfmData.addView` is modelled as appending to the ghost sequence `views`; the dataset itself is not part of this model.
- `Capture.GenHelper.constructor`: the source constructor (GenHelper.cpp:11-14) takes no distortion. Its `k1`, `k2` parameters stand for the state of `camParams("Lens distortion")` at construction. The source's `viz` reference becomes the `Renderer` argument of each capture, and its `sfmData` reference becomes the ghost log `views`.
- `Capture.GenHelper.TakePhoto`: it does not return the mask or the depth map of the capture it dispatches to; those are stated on `TakeSilhouette` and `TakeDepth`.
- `changeCameraParams`, `showCameraParams`, `hideCameraParams`, `showProgress`, `hideProgress` (GenHelper.cpp:20-50, 135-143) are GUI widget bookkeeping. Tuning `k1`/`k2` between captures is therefore not modelled; no member changes them.
- `Camera::toCameraCoords`, `Camera::projectPointCamCoords` and the renderer queries are oracle fields of `Viz.Renderer`: their code is not part of this model, and the maths is floating point.
- Arithmetic is on unbounded integers and exact reals. Not modelled: single-precision storage of the cache, depth map and cloud (`float`, `Vec3f`), the 1e-3 tolerance as a double, the `(int)` cast of a rounded coordinate out of `int` range, and `int` overflow of the counter.
- `getPoint` reads the cloud matrix; here the cloud is a sequence and `n` is its length.
- SfmDataGenerator/ModelImport.h declares the OBJ/PLY importers that produce the cloud. That is file-format I/O with no logic shown, so the cloud is a constructor parameter.
