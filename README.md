# Image crop page — a Dafny model

This project models the image-crop page of a small React application
(`src/page/ImageCrop.jsx`). A user picks an image file. The page shows it under a
crop widget that starts with a centred square crop. Each time the user finishes a
crop gesture, the page redraws a preview canvas from the completed crop. A
download button exports that canvas.

The model has three modules:

- `Wrappers` (`wrappers.dfy`): `Option`, standing for JavaScript's `undefined`, and `Result`, standing for a thrown error.
- `CropGeometry` (`crop_geometry.dfy`): the crop rectangle and `CenterAspectCrop`, the default crop. It is the largest square inside the displayed image, centred in it.
- `CropPage` (`crop_page.dfy`): the page's state and its events, in two forms.
  - A pure state machine: `Apply` is a handler's state update, `Effect` is the guarded preview effect, `Step` is one event and `Run` is a sequence of events. The lemmas about whole event sequences are stated over these.
  - The class `Page`: one field per state value, plus `renders`, the log of calls to the external `canvasPreview` renderer. Each event is a method. Each event handler's `ensures` gives its whole new state and ties it to `Step`. The effect method `PreviewEffect` is tied to `Effect`. The download handler changes no state. The invariant `Valid` holds after every method.

The element refs the effect tests are not separate state. The image element is
rendered exactly when `imgSrc` is non-empty (line 107). The preview canvas is
rendered exactly when `completedCrop` is defined (line 127). So the model derives
`imgRef.current` and `previewCanvasRef.current` from those two values: the
predicates `ImageMounted` (line 107) and `CanvasMounted` (line 127). The function
`Initial` gives the `useState` initial values of lines 9-16.

Three facts about the code shape the model:

- Nothing in the page calls `setScale` or `setRotate`. So only a completed gesture redraws, and every drawing uses scale 1 and rotation 0 (`RunKeepsTransform`, `ReachableRendersUseIdentityTransform`).
- The default crop is sized from the image element's displayed size (line 40), not from the image's natural size.
- A zero-size completed crop is skipped by the effect's guard (lines 67-69), not by the renderer.

Choosing a new image does not reset `completedCrop` (lines 18-25, 39-42). So the
preview and the download keep showing the previous image's crop until the next
gesture ends. `RunWithoutCompletionKeepsPreview` states this for any sequence of
events without a completed gesture. `NewImageKeepsPreview` is a concrete
scenario of it: choosing, reading and loading a new image. It also states the state in
between: after the choice and the read, `crop` is cleared and `imgSrc` is the new
data URL.

## Model

| member | source | states |
|---|---|---|
| `CropGeometry.Min` | src/page/ImageCrop.jsx:28 | `Math.min`: the result is at most both arguments and equals one of them |
| `CropGeometry.CenterAspectCrop` | src/page/ImageCrop.jsx:27-37 | the default crop has unit "px". It is square, its side is one of the two image sides and no longer than either, and it is centred (`x + width/2 == w/2`, `y + height/2 == h/2`). It is flush with the short side (`x == 0` when `w <= h`, `y == 0` when `h <= w`). For non-negative sizes it has a non-negative side and lies inside `[0,w] x [0,h]` |
| `CropGeometry.CenterAspectCropIsLargest` | src/page/ImageCrop.jsx:28-33 | no square inside the image is larger than the default crop |
| `CropGeometry.CenterAspectCropIsUnique` | src/page/ImageCrop.jsx:27-37 | a centred "px" square whose side is `min(w, h)` is exactly the default crop |
| `CropPage.Apply` | src/page/ImageCrop.jsx:18-42 | a handler's state update never changes `scale` or `rotate`. Only the reader's load event changes `imgSrc` (line 22). Only `onComplete` changes `completedCrop` (line 112), and it stores the widget's rectangle. Only file selection, image load and `onChange` change `crop` (lines 20, 41, 111). The `Page` handlers' ensures give each event's full update |
| `CropPage.Step` | src/page/ImageCrop.jsx:66-81 | one event draws exactly when it is `onComplete` with a rectangle of non-zero width and height while an image is shown. The call is `canvasPreview(rect, scale, rotate)` with the state's transform: only `completedCrop` among the effect's dependencies ever changes |
| `CropPage.Effect` | src/page/ImageCrop.jsx:66-80 | the effect calls `canvasPreview` exactly when `completedCrop` is defined with non-zero width and height and an image is shown; the canvas-ref test is implied by the first condition. The call receives exactly the current `completedCrop`, `scale` and `rotate` |
| `CropPage.Run` | src/page/ImageCrop.jsx:66-81 | over any sequence of events there are at most as many `canvasPreview` calls as completed gestures |
| `CropPage.RunRendersOnlyCompletedCrops` | src/page/ImageCrop.jsx:66-81 | every `canvasPreview` call over an event sequence draws a crop the widget delivered through `onComplete`, never one of zero width or height |
| `CropPage.RunKeepsTransform` | src/page/ImageCrop.jsx:15-16 | no event changes `scale` or `rotate`, and every `canvasPreview` call receives the starting values |
| `CropPage.ReachableRendersUseIdentityTransform` | src/page/ImageCrop.jsx:73-79 | from the initial state, every state has scale 1 and rotation 0, and so does every `canvasPreview` call |
| `CropPage.RunCompletedCropIsLastCompletion` | src/page/ImageCrop.jsx:112 | after any event sequence, `completedCrop` is the rectangle of the last completed gesture. It is unchanged when there was no completed gesture |
| `CropPage.CanvasStaysMounted` | src/page/ImageCrop.jsx:127 | once `completedCrop` is defined (the preview canvas is mounted), no event sequence undefines it |
| `CropPage.RunWithoutCompletionKeepsPreview` | src/page/ImageCrop.jsx:66-81 | a sequence of events with no completed gesture makes no `canvasPreview` call and leaves `completedCrop` as it was |
| `CropPage.NewImageKeepsPreview` | src/page/ImageCrop.jsx:18-42 | choosing a file and reading it clears `crop` and sets `imgSrc` to the new data URL, without drawing. Loading the image afterwards makes the crop the new centred square; `completedCrop` is kept and nothing is drawn |
| `CropPage.Page.constructor` | src/page/ImageCrop.jsx:9-16 | the initial state: `imgSrc == ""`, `crop` and `completedCrop` undefined, `scale == 1`, `rotate == 0`. The mount-time run of the effect draws nothing |
| `CropPage.Page.PreviewEffect` | src/page/ImageCrop.jsx:66-80 | the effect appends one `canvasPreview` call with the current completed crop, scale and rotation when the guard holds. Otherwise it leaves the canvas log untouched |
| `CropPage.Page.OnSelectFile` | src/page/ImageCrop.jsx:18-25 | `crop` becomes undefined only when the file list exists and holds at least one file. An absent or empty list changes nothing, and nothing else changes |
| `CropPage.Page.OnFileRead` | src/page/ImageCrop.jsx:22 | when the reader finishes, `imgSrc` becomes its data URL and nothing else changes |
| `CropPage.Page.OnImageLoad` | src/page/ImageCrop.jsx:39-42 | `crop` becomes exactly `CenterAspectCrop(displayedWidth, displayedHeight)` and nothing else changes |
| `CropPage.Page.OnCropChange` | src/page/ImageCrop.jsx:111 | `crop` becomes the widget's rectangle and nothing else changes |
| `CropPage.Page.OnCropComplete` | src/page/ImageCrop.jsx:112 | `completedCrop` becomes the widget's rectangle. The effect then records one `canvasPreview(c, scale, rotate)` call exactly when `c` has non-zero width and height and an image is shown. Nothing else changes |
| `CropPage.Page.OnDownloadCropClick` | src/page/ImageCrop.jsx:44-63 | the handler fails with "Crop canvas does not exist" exactly when there is no preview canvas. Otherwise it exports the last drawing as "image/png" at quality 0.8 under the name "croped-image.png". The error never hides a drawing: when it fails, nothing was drawn. Any exported drawing is a crop of non-zero width and height at scale 1 and rotation 0 |

## Left out

- `canvasPreview` and all canvas drawing: its source (`src/utils/canvasPreview`) is not part of this model, and it works with floating-point rotation. A call is recorded only as its crop, scale and rotation. The image and canvas elements are implied.
- The asynchronous `FileReader`: its completion is a separate event (`FileRead`) that sets `imgSrc`. The model does not require that a read was started. It does not order several pending reads, and it does not model reading failures.
- The rest of the download: `toBlob` and its "Failed to create blob" error, the Compressor library, object URLs and the hidden-anchor click are asynchronous I/O and foreign calls. `OnDownloadCropClick` stops at the arguments those steps would receive.
- The crop widget (`ReactCrop`) and its square-aspect enforcement during dragging: its rectangles are taken as inputs. Widget and image events are also allowed before an image is shown.
- JSX markup and styling, including the CSS `scale()`/`rotate()` transform string and the canvas size style. `src/App.jsx` (routing and header markup) is also left out.
- JavaScript numbers are modelled as reals. NaN, infinities and floating-point rounding are not modelled, so the truthiness test `completedCrop?.width` is modelled as "width is non-zero".
- React's dependency comparison uses object identity. The model treats every `onComplete` as delivering a new object, so the effect runs after every completed gesture and once at mount. State-update batching and re-render scheduling are not modelled.
