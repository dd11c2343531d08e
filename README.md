# Photo-and-signature editor session, in Dafny

This project models the editing core of a small web app. The user loads a
photo, lays a signature image over it, and downloads the composite at the
photo's own resolution. The app's whole core lives in `src/App.tsx`:

- `calculateRatio` finds the uniform scale that fits a picture inside a box.
- `resizeCanvas` throws the drawing canvas away and builds a fresh one. The
  new canvas is the photo scaled to fit 95% x 90% of the viewport.
- The photo-loaded and signature-loaded callbacks place each picture on the
  canvas and keep the references `kimage` and `ksignature`.
- The download handler exports with the multiplier `kimage.width / canvas.width`.
- A file whose name ends in `.heic` is first converted by `heic2any`, to that
  library's default format, before decoding.

The model has four modules:

- `Geometry` (geometry.dfy): the fit ratio, the viewport shares 0.95 and 0.9,
  and the signature's damping factor 0.6. It also places a signature at the
  bottom centre of the surface.
- `Layers` (layers.dfy): a placed picture is a `Layer` value. It has an
  identity, a kind (`Base` for the photo, `Signature`), a position, a uniform
  scale and its source pixel size. The canvas's object list is a `seq<Layer>`,
  back to front. The four fabric.js list operations the app uses are
  functions on it. `remove` deletes the first occurrence and is a no-op when
  the layer is absent. `add` appends. `sendToBack` moves the layer to index 0.
  `bringToFront` moves it to the end.
- `Session` (session.dfy): the class `EditorSession`. It holds the surface
  size, the layer list and the two layer references. `ResizeCanvas`,
  `LoadImage` and `LoadSignature` update these fields in place, as the app's
  closures reassign `canvas`, `kimage` and `ksignature`. `Valid()` is the
  session invariant. The photo sits only at the back and the signature only
  at the front. The photo on the surface is the one `base` refers to, and it
  covers the surface exactly. A signature on the surface is the one
  `signature` refers to.
- `Ingest` (ingest.dfy): the case-sensitive `.heic` suffix test.

Numbers are exact `real`s, an idealisation of JavaScript's doubles. Picture
and viewport sizes are whole pixels (`nat`). Surface sizes are `real`, because
the app sets the canvas to `width * ratio`. Reading the viewport from the
document becomes a `Viewport` parameter. Decoding becomes a `Raster`
parameter that carries only the decoded width and height.

Four behaviours of the code are easy to miss; the model keeps them:

- The signature is not fitted to the surface but scaled to 0.6 of its fit
  ratio (line 79), and it is anchored at the bottom centre.
- A signature loaded before any photo is not ignored. The handler tests only
  the four dimensions. The canvas the app starts with has a non-zero size, so
  that signature is placed on the initial surface. The next photo load
  discards it with the whole canvas.
- A viewport of zero width or height gives a zero-size surface. The guards at
  lines 50 and 78 test the current canvas, which is then zero-size, so every
  later photo or signature load leaves the session unchanged.
- After a new photo, `ksignature` still refers to the signature of the
  disposed canvas. The model keeps that stale reference. Removing it from
  the fresh canvas later is a no-op.

## Model

| member | source | states |
|---|---|---|
| `Geometry.CalculateRatio` | src/App.tsx:15-17 | The fit ratio, the smaller of the two quotients. Its meaning is stated by the two lemmas below: `RatioFitsBox` (the scaled picture fits both bounds and meets one) and `RatioIsGreatestFit` (no larger scale fits). |
| `Geometry.RatioFitsBox` | src/App.tsx:15-17 | For positive source sizes, the picture scaled by the fit ratio stays within both bounds and meets at least one of them. |
| `Geometry.RatioIsGreatestFit` | src/App.tsx:15-17 | Every scale that keeps the picture within both bounds is at most the fit ratio, so the ratio is the largest fitting scale (the minimum of the two quotients). |
| `Geometry.RatioNonNegative` | src/App.tsx:15-17 | A box with non-negative bounds gives a non-negative ratio. |
| `Geometry.FreshSurfaceFits` | src/App.tsx:19-31 | The fresh surface `w*r` x `h*r` is non-negative and fits 95% x 90% of the viewport. It fills one of the two directions and keeps the photo's aspect ratio. |
| `Geometry.RatioOfScaledBox` | src/App.tsx:51-52 | The ratio recomputed against a surface sized `w*r` x `h*r` equals `r`. |
| `Geometry.SignaturePlacement` | src/App.tsx:79-85 | The signature's scale is 0.6 times its fit ratio on the surface. It is anchored bottom-centre: `left + w*scale/2 = W/2` and `top + h*scale = H`. |
| `Geometry.SignatureInsideSurface` | src/App.tsx:79-85 | The placed signature is at most 0.6 of the surface in each direction and exactly 0.6 in one of them. It lies wholly inside the surface. |
| `Layers.Remove` | src/App.tsx:60 | Removing a layer that is absent leaves the list unchanged. Removing a present layer shortens the list by one. The result keeps every other layer and adds none. |
| `Layers.RemoveOneCopy` | src/App.tsx:60 | Removing takes away exactly one copy of the layer when the list holds one, and no copy of anything else. |
| `Layers.RemoveFirstOccurrence` | src/App.tsx:60 | The copy removed is the first one: the result is the layers before it followed by the layers after it, in their order. |
| `Layers.RemoveRef` | src/App.tsx:86-88 | Removing through a reference (lines 60 and 86-88) changes nothing when the reference is the placeholder or a layer not on the surface. Otherwise it shortens the list by one, as `Remove` of the referenced layer. |
| `Layers.Add` | src/App.tsx:62 | Adding keeps the earlier list as a prefix and puts the new layer last. |
| `Layers.SendToBack` | src/App.tsx:62 | The layer ends up at index 0, the back. Behind it come the other layers exactly as `Remove` leaves them, so their order is kept. The list holds the same layers as before plus this one, and grows only when the layer was absent. |
| `Layers.BringToFront` | src/App.tsx:90-92 | The layer ends up last, the front. The list holds the same layers as before plus this one, and grows only when the layer was absent. |
| `Layers.BringToFrontKeepsOthers` | src/App.tsx:90-92 | In front of everything but the moved layer are the other layers exactly as `Remove` leaves them, so their order is kept. |
| `Layers.WithoutKind` | src/App.tsx:86-88 | The filtered list has no layer of the kind, keeps every other layer and adds none. |
| `Layers.WithoutKindSplits` | src/App.tsx:86-88 | The kept layers and the layers of the kind together hold every copy of every layer of the list, so no copy is lost or duplicated. |
| `Layers.WithoutKindOfConcat` | src/App.tsx:86-88 | Filtering two lists joined end to end gives the two filtered lists joined in the same order, so the kept layers keep their relative order. |
| `Layers.WithoutKindOfOne` | src/App.tsx:86-88 | A single layer is dropped when it has the kind and kept otherwise. With `WithoutKindOfConcat` this determines the filter on every list. |
| `Layers.StackedIsShort` | src/App.tsx:60-62 | A list with the photo only at the back and the signature only at the front has at most two layers. With two, the photo is behind the signature. |
| `Layers.StackedAtMostOneEach` | src/App.tsx:86-92 | Such a list holds at most one photo layer and at most one signature layer. |
| `Layers.RemoveOnlyOfKind` | src/App.tsx:86-88 | Say every layer of `x`'s kind in a list is `x`, at the end. Then removing `x` gives exactly the layers of the other kind. |
| `Layers.RemoveJustAdded` | src/App.tsx:90-91 | Moving a just-added, previously absent layer to the front leaves the earlier list in place before it. |
| `Session.BackdropOfStacked` | src/App.tsx:86-88 | On a consistent surface, taking every signature off leaves exactly the photo `base` refers to, or nothing. |
| `Session.FreshBaseCovers` | src/App.tsx:51-56 | The photo placed at (0,0) with the recomputed ratio has scale `r` and covers the fresh surface exactly. |
| `Session.PhotoAloneConsistent` | src/App.tsx:60-62 | A surface holding only a photo that covers it satisfies the session invariant. |
| `Session.SignatureReplacedConsistent` | src/App.tsx:86-92 | Removing the old signature and putting a new one in front leaves `[photo, new]` or `[new]`, and the invariant still holds. |
| `Session.EditorSession.constructor` | src/App.tsx:11-13 | The initial session has an empty surface of the given size and no layer references. |
| `Session.EditorSession.ResizeCanvas` | src/App.tsx:19-31 | The old surface is replaced by an empty one of size `w*r` x `h*r`, with `r` the fit ratio into 95% x 90% of the viewport. The references are unchanged. It is only the first step of `LoadImage`, its one caller (line 51), and does not keep the session invariant by itself. |
| `Session.EditorSession.LoadImage` | src/App.tsx:49-63 | If any of the four dimensions is zero, nothing changes. Otherwise the surface is replaced and the layers are exactly the new photo. The photo sits at (0,0) with the layout ratio, covers the surface, and is what `base` refers to. The invariant is kept. |
| `Session.EditorSession.LoadSignature` | src/App.tsx:77-93 | If any of the four dimensions is zero, nothing changes. Otherwise the layers are the old ones minus signatures, plus the new signature last. That is the photo (if any) followed by the signature. The signature is placed as `SignaturePlacement` says. The photo and the surface size are unchanged, and the invariant is kept. |
| `Session.EditorSession.ExportMultiplier` | src/App.tsx:113 | When a photo is loaded and the surface is non-degenerate, the multiplier times the surface width is the photo's source width. The multiplier times the surface height is its source height. |
| `Ingest.TakesTranscodePath` | src/App.tsx:43 | The exact, case-sensitive `.heic` suffix test. Its meaning is stated by `TranscodesEveryHeicName` and `TranscodesOnlyHeicNames` below, one for each direction. |
| `Ingest.TranscodesEveryHeicName` | src/App.tsx:43 | Every name of the form stem + `.heic` takes the transcode path. |
| `Ingest.TranscodesOnlyHeicNames` | src/App.tsx:43 | Every name on the transcode path is its stem followed by `.heic`. |
| `Ingest.SuffixExamples` | src/App.tsx:43 | The test is case-sensitive and exact: `IMG_0001.heic` is transcoded, but `.HEIC`, `.Heic`, `photo_heic` and `photo.heic.jpg` are not. |

## Left out

- Rendering, JSX and the `loading`/`downloading` signals (src/App.tsx:8-9, 102, 105, 119-154) are UI glue.
- Picking a file and returning early when none was picked (src/App.tsx:35-39, 73-75) is input plumbing. The model starts from a decoded picture.
- Decoding with `fabric.Image.fromURL` is left out. So are HEIC transcoding with `heic2any`, `fetch`, object URLs, `toDataURL` rasterisation and the `file-saver` download (src/App.tsx:41-49, 76-77, 101-106, 113-114). These are foreign-library calls and I/O. A decoded picture is just its width and height.
- Asynchronous ordering, `setTimeout` and races between overlapping loads (src/App.tsx:33, 110) are event timing. Each callback runs as one atomic method.
- Floating-point rounding is not modelled; all arithmetic is exact.
- Writing the size to the HTML canvas element (src/App.tsx:24-27) is left out. That element's integer width is not the size of the fabric canvas, which the model tracks.
- The cursor styles of the photo (src/App.tsx:58-59) are cosmetic and left out, and so is the canvas option `selection: false` (src/App.tsx:28).
- The user cannot drag the photo, which is made unselectable (src/App.tsx:57). The model has no user manipulation at all, which is why `Covers` holds between loads.
- The signature is never made unselectable (src/App.tsx:82-85), so the user can drag and resize it after it is placed. That manipulation is not modelled. The placement `LoadSignature` states (`SignaturePlacement`, `SignatureInsideSurface`) holds when the signature is loaded, not after the user moves it.
- `discardActiveObject` and `requestRenderAll` (src/App.tsx:62, 92, 111-112) change no layer or size. They are left out.
- `alert` error reporting (src/App.tsx:67, 97) is left out.
- The placeholder images that start `kimage` and `ksignature` (src/App.tsx:12-13) are left out. These placeholders are never on a canvas, so removing one is a no-op. The model writes them as `None`.
- Session.EditorSession.ExportMultiplier: returns `None` when no photo was loaded or the surface width is zero. The app would divide a placeholder's width, or divide by zero.
