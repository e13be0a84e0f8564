# IsToxicML screen core, modelled in Dafny

IsToxicML is a one-screen React Native app. The user types an image link. If the
link names a JPEG, "Predict" is enabled. Pressing it fetches and decodes the picture
and turns it into an RGB tensor. A region detector finds boxes in it. Each box is
cropped and scored by a two-class classifier, and the box is drawn green when the
first score wins and red otherwise.

This project models the parts of `ModelLoader.js` whose behaviour can be stated exactly:

- `pixels.dfy` (module `Pixels`): the alpha-stripping loop of `imageToTensor`. It is a
  method over a fresh byte array, proved against the function `StripAlpha`. Lemmas
  show that RGB bytes are copied exactly and alpha bytes are never read. A round trip
  with `Rgba` shows that nothing except alpha is lost.
- `geometry.dfy` (module `Geometry`): the crop box handed to the tensor slice, the
  rectangle drawn over the picture, and `parseInt` on numbers as truncation toward zero.
- `annotations.dfy` (module `Annotations`): the colour rule and the per-region loop of
  `getWraps`. The loop is a method proved against the recursive specification
  `AnnotateFirst`. It also returns a ghost log of the classifier calls it made.
- `link_filter.dfy` (module `LinkFilter`): `split(".")` and the "Predict" enabling rule.
- `screen.dfy` (module `Screen`): the component state (`imageLink`, `isEnabled`,
  `wraps`) as a class, with the change handler, `getWraps` and the button.
- `wrappers.dfy` (module `Wrappers`): `Option`. `None` stands for a thrown exception.

Every collaborator is a parameter, bundled in `Screen.Collaborators`: the network
fetch, the JPEG decoder, `resizeBilinear`, the region detector, and the
slice/resize/`predict` chain of the classifier. A collaborator that throws returns
`None`.

Facts about the code that the model makes explicit:

- The crop slice and the drawn rectangle use the same axes. A tensor built by
  `imageToTensor` has shape `[height, width, 3]`, so the slice's first axis is rows.
  `Geometry.CropIsOverlayRowsFirst` proves that the crop box is the drawn rectangle
  with rows first. Only the local variable names `width` and `height` in the loop are
  swapped.
- Any throw abandons the whole request and keeps the previous list; no region is
  skipped on its own.
- The text after the last "." is compared, so the bare word "jpg" also enables
  "Predict". The initial state has "Predict" enabled with an empty link.
- Reads past the end of the decoded buffer are not excluded by a precondition. In
  JavaScript such a read gives `undefined`, which a `Uint8Array` stores as 0, and
  `Pixels.ByteAt` models exactly that. The decoder itself returns `4 * width * height`
  bytes, and under that condition (or `4 * width * height - 1` bytes) the copy is exact.

## Model

| member | source | states |
|---|---|---|
| Pixels.ImageToTensor | ModelLoader.js:35-49 | the tensor has shape `[height, width, 3]` and holds `height * width * 3` bytes, namely the RGB bytes of every decoded pixel in order (`StripAlpha`); the loop keeps `i == 3p`, `offset == 4p` and leaves every byte from `i` on still zero, so each output byte is written once |
| Pixels.CopyPixel | ModelLoader.js:43-45 | the loop body appends the three colour bytes of the pixel at `offset` after `buffer[..i]` and leaves every byte from `i + 3` on unchanged |
| Pixels.TensorOf | ModelLoader.js:48 | the tensor of a decoded image has shape `[height, width, 3]` and three bytes per pixel |
| Pixels.StripAlpha | ModelLoader.js:40-47 | the RGB buffer has exactly three bytes per pixel |
| Pixels.StripAlphaPixel | ModelLoader.js:42-47 | output byte `3p + c` (c < 3) is byte `4p + c` of the decoded buffer, or 0 past its end |
| Pixels.StripAlphaCopiesRgb | ModelLoader.js:42-47 | with at least `4n - 1` decoded bytes every read is in range and output bytes `3p, 3p+1, 3p+2` equal input bytes `4p, 4p+1, 4p+2` |
| Pixels.AlphaNeverRead | ModelLoader.js:42-47 | two decoded buffers that differ only in alpha bytes (`k % 4 == 3`) give the same RGB buffer |
| Pixels.StripAlphaOfRgba | ModelLoader.js:39-47 | stripping the alpha bytes from an RGBA buffer returns its RGB triples unchanged |
| Pixels.RgbaOfStripAlpha | ModelLoader.js:39-47 | the RGB triples and the alpha bytes of the first `m` pixels rebuild the first `4m` decoded bytes |
| Pixels.OnlyAlphaIsLost | ModelLoader.js:38-48 | for a decoder result of `4 * width * height` bytes, the tensor's values plus the alpha bytes rebuild the decoded buffer exactly |
| Geometry.Trunc | ModelLoader.js:61-63 | `parseInt` of a number truncates toward zero: the result is within one of the input, on the zero side |
| Geometry.Crop | ModelLoader.js:61-63 | the crop box of a region; it always starts at channel 0 and takes three channels |
| Geometry.Overlay | ModelLoader.js:117-120 | the drawn rectangle of a region; it ends exactly at the bottom-right corner |
| Geometry.OverlaySpansCorners | ModelLoader.js:117-120 | the drawn rectangle starts at `topLeft` (`[0]` as x, `[1]` as y) and ends exactly at `bottomRight` |
| Geometry.CropIsOverlayRowsFirst | ModelLoader.js:61-63 | the crop begins at `[topLeft[1], topLeft[0], 0]` with size `[bottomRight[1] - topLeft[1], bottomRight[0] - topLeft[0], 3]`: always channel 0 and three channels, and the drawn rectangle's y/x and height/width in that order |
| Geometry.CropOfWholeCorners | ModelLoader.js:61-63 | with whole-number corners the crop box is the exact corner arithmetic, untouched by `parseInt` |
| Geometry.CropEndLagsByAtMostOne | ModelLoader.js:61-63 | for a box in the non-negative quadrant, truncating the corner and the extent separately makes the crop end at the truncated far corner or one pixel before it |
| Annotations.Decide | ModelLoader.js:60-69 | the colour rule: green when `result[0] > result[1]`, else red; equal scores give red |
| Annotations.DecideIsStrict | ModelLoader.js:60-69 | a region is green iff the first score is strictly greater than the second, red otherwise, ties included |
| Annotations.Annotate | ModelLoader.js:57-75 | the annotation list of all detected regions, one entry per region when it exists; `None` when any classification throws |
| Annotations.AnnotateFirst | ModelLoader.js:57-75 | the list for the first `n` regions exists iff every one of them was classified; it then has `n` entries, entry `j` being `{id: j, location: region j, color: rule applied to region j's scores}` |
| Annotations.CollectAnnotations | ModelLoader.js:57-75 | the loop returns the annotation list of all regions or the failure; the classifier is called once per region on `Crop(region)`, in detection order, stopping right after the first throw; no regions means the empty list and no classifier call |
| Annotations.AnnotationsFollowRegions | ModelLoader.js:59-74 | on success there is exactly one entry per region, in order, with `id == j`, the region as location, and distinct ids |
| Annotations.OneFailureFailsAll | ModelLoader.js:63-80 | if classifying any single region throws, the whole list fails; no region is skipped |
| Annotations.ColorIsLocal | ModelLoader.js:65-69 | a region's colour depends only on that region's own scores |
| Annotations.Draw | ModelLoader.js:113-126 | one drawn rectangle per annotation |
| Annotations.DrawnAfterPrediction | ModelLoader.js:113-124 | after a successful prediction the rectangles carry keys `0, 1, 2, ...`, each spans its own region, and its stroke is green iff the first score won |
| Annotations.SingleRegionExample | ModelLoader.js:59-75 | one region `[10,10]-[110,110]` scored `0.9` / `0.1` gives exactly one green entry with id 0 and that location |
| LinkFilter.Split | ModelLoader.js:90 | `split` gives at least one piece, no piece holds the separator, and joining the pieces with it restores the text |
| LinkFilter.LastPieceAfterLastDot | ModelLoader.js:90-91 | the last piece is the dot-free suffix after the last "." (the whole text when there is none) |
| LinkFilter.PredictEnabledIff | ModelLoader.js:90-95 | "Predict" is enabled iff the text is "jpg" or "jpeg" or ends with ".jpg" or ".jpeg", case-sensitively |
| LinkFilter.LastPiece | ModelLoader.js:90-91 | `elements.slice(-1)[0]`: the last piece of the split, which holds no "." |
| LinkFilter.PredictEnabled | ModelLoader.js:90-95 | "Predict" is enabled when the last piece is "jpg" or "jpeg"; an enabled text always ends in "jpg" or "jpeg" |
| LinkFilter.PredictEnabledOnJpeg | ModelLoader.js:90-95 | "http://example.com/a.jpg", "http://example.com/a.jpeg" and the bare "jpg" enable it |
| LinkFilter.PredictDisabledOtherwise | ModelLoader.js:90-95 | "http://example.com/a.png", "http://example.com/a.JPG", "http://example.com/a.jpg.png" and the empty text do not enable it |
| Screen.Predict | ModelLoader.js:50-80 | one prediction for a link: fetch, decode, strip alpha, resize, detect, annotate; a list only when fetch and decode succeeded |
| Screen.PredictFailures | ModelLoader.js:50-80 | a failed fetch, decode or detection yields no list; a successful prediction has one entry per detected region, each of which was classified |
| Screen.NoRegionsNoAnnotations | ModelLoader.js:56-76 | when the detector finds no region the prediction is the empty list, whatever the classifier |
| Screen.App.constructor | ModelLoader.js:10-12 | initially the link is empty, "Predict" is enabled and nothing is drawn |
| Screen.App.OnChangeText | ModelLoader.js:87-96 | the typed text becomes the link, and "Predict" is enabled iff it is "jpg"/"jpeg" or ends with ".jpg"/".jpeg"; the drawn list is untouched |
| Screen.App.GetWraps | ModelLoader.js:50-82 | the drawn list becomes the prediction for the current link when every step succeeds, and stays exactly as it was when any step throws; link and button state are untouched |
| Screen.App.PressPredict | ModelLoader.js:130-134 | a disabled button changes nothing; an enabled one runs `getWraps` |

## Left out

- Model loading (`tf.ready`, `loadLayersModel`, `bundleResourceIO`, the detector's `load`) at ModelLoader.js:15-34: foreign library calls and bundled assets.
- The network `fetch` and `arrayBuffer`: I/O. They are the `fetch` collaborator, failing or returning bytes.
- The JPEG decoder's internals: it is the `decode` collaborator, of which only the `(width, height, data)` result is used.
- `resizeBilinear`, `slice`, `reshape`, `predict` and the detector's `estimateWraps`: TensorFlow operations and floating-point numerics. They are given functions, and the slice bounds check is part of the classifier's possible throw.
- Scores and coordinates are exact reals. Float rounding is not modelled; only the strict `>` comparison matters.
- Geometry.Trunc: does not model `parseInt`'s detour through the number's string form. That detour differs from truncation for magnitudes below 1e-6 or at least 1e21, where exponent notation appears.
- The `async`/`await` sequencing, console logging, the JSX layout, styles and the `Image` element: no logic beyond the rectangle geometry, which is modelled.
- The log of classifier calls returned by `CollectAnnotations` is ghost: the call order it records is a property of the model, not an output of the program.
