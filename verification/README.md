# Watermark component model

A Dafny model of the arithmetic and state logic in a WeChat mini-program
watermark component (`src/index.js`). The component stretches a background
image over a canvas, paints a rotated, repeating text watermark on it, and
exports the result for preview. The following parts are modelled:

- **Tile grid** (`Tiling`). These are the `fillText` origins that
  `createCanvasImage` emits in the frame after translation and the -45° rotation.
  - There are `ceil(canvasWidth / textWidth)` columns, and column `i` sits at
    `x = textWidth*i + level*i`.
  - Each column draws a seed tile at `y = vertical`. It then draws tiles at
    `y = vertical*j` for `j < ceil(canvasHeight / vertical)`.
  - `DrawTiles` is the nested loop. `Columns` is its recursive reference.
  - The lemmas cover the tile count, the tile in every slot, tile membership,
    the ordering along x, and the doubled seed row.
- **JavaScript loop bounds** (`JsNumber`). `Math.ceil` is modelled over exact
  reals. `LoopCount` is the iteration count of
  `for (k = 0; k < Math.ceil(a / b); k++)`. It is `None` when the loop never
  ends (`a / 0` with `a > 0` is `+Infinity`). For `b > 0` the count is the
  least `n` with `n*b >= a`.
- **Surface sizing and oversampling** (`Surface`).
  - The canvas takes the placeholder's width.
  - Its height keeps the image's aspect ratio.
  - The pixel buffer is 4× the logical size in each direction, and drawing is
    scaled by 4.
- **Pipeline** (`Compositor`). It chains sizing, buffer, background rectangle,
  drawing frame and tile grid into one `Render`.
- **Export cache** (`ExportCache`). `previewCanvas` exports once and caches
  the path in `canvasImage`. After that it reuses the cached path. The viewer
  always gets a one-element list.
- **Lazy trigger** (`LazyTrigger`). The intersection-observer callback starts
  a render on a positive ratio. It disconnects only after the awaited render
  settles.

Host results are parameters:
- the placeholder's width from the layout query;
- the image size from `getImageInfo`;
- the text width from `measureText`;
- the export outcome;
- the observer's callbacks.

The code has no guards or error paths; the model keeps that behaviour:
- The code has no check for a zero text width or a zero/negative vertical gap.
  - A zero divisor with a positive dividend makes the loop bound
    `+Infinity`, and the loop never ends. `TileGrid` is `None` in that case.
  - A negative vertical gap gives zero inner iterations. The seed tile is
    still drawn.
- The code has no width check on the placeholder.
- The code has no error path for image fetching or layout queries. They resolve
  only on success.
- An export failure calls nothing. Nothing is cached and nothing is shown.
- The lazy trigger is not strictly one-shot. See "## Findings".

## Model

| member | source | states |
|---|---|---|
| JsNumber.Ceil | src/index.js:217-219 | `Math.ceil(x)` is the integer `r` with `x <= r < x + 1` |
| JsNumber.LoopCount | src/index.js:217-227 | the loop bound never ends exactly when the divisor is 0 and the dividend positive; for a positive divisor the count is the least cover; the count is positive exactly when the quotient is |
| JsNumber.CeilIsLeastCover | src/index.js:217-219 | for a positive divisor, the clamped `Math.ceil(a/b)` copies of `b` reach `a` and one fewer do not |
| JsNumber.LoopCountIsTheLeastCover | src/index.js:217-219 | for a positive divisor, the loop count is `n` if and only if `n` is the least cover (both directions) |
| Tiling.TileGrid | src/index.js:214-230 | tiling fails to terminate exactly when the text width is 0 with a positive canvas width, or the vertical gap is 0 with a positive height while columns are drawn |
| Tiling.DrawTiles | src/index.js:214-230 | the loop bounds and nested loops of `createCanvasImage` produce exactly the reference grid |
| Tiling.DrawColumns | src/index.js:222-230 | the nested loops append exactly the columns of the reference grid, in order |
| Tiling.RowTilesAt | src/index.js:227-229 | inner-loop tile `j` of column `i` is at x of column `i`, y = `vertical*j` |
| Tiling.ColumnAt | src/index.js:223-229 | a column has `rows + 1` tiles: slot 0 is the seed at y = `vertical`, slot `s > 0` is at y = `vertical*(s-1)` |
| Tiling.ColumnsLength | src/index.js:222-230 | `cols` columns emit `cols * (rows + 1)` tiles |
| Tiling.ColumnsAt | src/index.js:222-230 | position `i*(rows+1) + s` of the grid is slot `s` of column `i`, so columns appear in increasing `i` and each in seed, then j = 0, 1, … order |
| Tiling.ColumnsMembership | src/index.js:222-230 | a tile is drawn if and only if it is slot `s <= rows` of some column `i < cols` |
| Tiling.ColumnXMonotone | src/index.js:223 | with `textWidth + level >= 0`, column x-origins do not decrease with `i` |
| Tiling.ColumnShareX | src/index.js:223-229 | every tile of column `i` has x = `textWidth*i + level*i` |
| Tiling.ColumnsSortedByX | src/index.js:222-229 | with `textWidth + level >= 0`, x never decreases along the drawing order |
| Tiling.ColumnRepeatsIff | src/index.js:225-229 | with a non-zero vertical gap, a column draws some origin twice if and only if the inner loop runs at least twice |
| Tiling.SeedDrawnTwice | src/index.js:225-228 | with at least two inner iterations, the seed draw and the j = 1 draw of each column are the same origin `(x_i, vertical)` |
| Tiling.GridShape | src/index.js:215-230 | for positive text width and vertical gap the tiling terminates with `ceil(w/textWidth) * (ceil(h/vertical) + 1)` tiles, both counts the least that reach the width and the height |
| Surface.SurfaceSize | src/index.js:97-99 | the width is the placeholder's unchanged, and height × image width = width × image height; no size when the image width is 0 |
| Surface.AspectRatioPreserved | src/index.js:97-99 | height / width equals image height / image width |
| Surface.SurfaceSizeExample | src/index.js:97-99 | a 300 placeholder over a 100×50 image gives 300×150 |
| Surface.BufferMatchesSurface | src/index.js:154-157 | the buffer is 4× the surface in each direction; under the ×4 scale a point is on the logical surface if and only if it lands in the buffer, the far corner lands on the buffer's, and dividing by the scale undoes it |
| Compositor.RenderWatermark | src/index.js:97-230 | a completed render has the sized surface, a 4× buffer and scale, the background over the full surface, the configured colour as fill style and the configured size as font size, the frame translated to (-w/2, h/2) and rotated -45°, and the terminating tile grid |
| Compositor.RendersWhenConfigValid | src/index.js:97-230 | with a positive text width, a positive vertical gap and an image of non-zero width, the pipeline completes with `ceil(w/textWidth) * (ceil(h/vertical) + 1)` tiles |
| Compositor.EndToEndScenario | src/index.js:97-230 | 400 placeholder, 200×100 image, gaps 60/150: surface 400×200, buffer 1600×800, background 400×200, 3 tiles per column |
| ExportCache.PreviewCanvas | src/index.js:258-277 | export runs if and only if nothing is cached; a cached path is kept and shown; on an empty cache a successful export's temporary path is the one cached and shown; a failed one changes nothing and shows nothing; the viewer gets the one-element list of the cache |
| ExportCache.CachedNeverConverts | src/index.js:260-276 | with a path cached, any number of previews export nothing, keep the cache and each show `[path]` |
| ExportCache.ExportsUntilFirstSuccess | src/index.js:258-277 | with each export completing before the next preview, from an empty cache exports run up to the first success and never after; afterwards the first successful path is cached and every shown list is that path; with only failures, nothing is cached or shown |
| ExportCache.PreviewTwiceExportsOnce | src/index.js:258-277 | two previews of one canvas, the first export completing before the second tap, export once and show the same path twice |
| ExportCache.EmptyPathNotCached | src/index.js:260-266 | an export that reports an empty path is not cached, since the empty string is falsy, and the next preview exports again |
| LazyTrigger.Step | src/index.js:247-253 | a callback starts a render exactly when the observer is connected and the ratio is positive; it never reconnects an observer, and a callback does not disconnect |
| LazyTrigger.DisconnectedStaysIdle | src/index.js:247-253 | once disconnected, no callback starts a render |
| LazyTrigger.RendersBeforeFirstSettle | src/index.js:247-253 | the renders started equal the positive callbacks that arrive before the first awaited render settles |
| LazyTrigger.AtMostOnceIffNoOverlap | src/index.js:247-253 | the render runs at most once if and only if at most one positive callback arrives before the first render settles |
| LazyTrigger.TwoRendersBeforeDisconnect | src/index.js:248-252 | ratios 1, 0, 0.5 before the first render settles start two renders |
| LazyTrigger.StepDisconnectFirst | src/index.js:248-252 | with the disconnect before the await, a callback that starts a render leaves the observer disconnected |
| LazyTrigger.DisconnectFirstFiresOnce | src/index.js:248-252 | with the disconnect first, a connected observer starts exactly one render if any callback has a positive ratio, otherwise none |
| LazyTrigger.DisconnectFirstAtMostOnce | src/index.js:248-252 | with the disconnect first, the render starts at most once for any callback sequence |

## Left out

- Host calls are left out: `wx.getImageInfo`, `wx.createSelectorQuery`, `wx.canvasToTempFilePath`, `wx.previewImage` and `createIntersectionObserver`. They are foreign I/O, so their results are parameters.
- Canvas drawing primitives are left out: `drawImage`, `save`, `restore`, `translate`, `rotate`, `measureText` and `fillText`. The `fillStyle` and `font` assignments are kept only as the values they set. Tiles stay in the rotated frame, as in the code. The frame's translation and angle are recorded but never applied, because that needs trigonometry.
- ExportCache.PreviewCanvas: each preview is treated as finishing, with its export's success callback run, before the next preview starts. `canvasImage` is set only inside that asynchronous callback, so two taps before it runs both see an empty cache and both export; the model does not show that double export.
- Promise, `onload` and observer scheduling are left out, along with `setData` reactivity and component teardown. The only ordering modelled is that of the lazy gate.
- `getImageInfo` and `selectorQuery` resolve only on success. A failure leaves the pipeline pending forever, so these calls have no error path to model.
- Id generation from `Date.now()`, the property defaults, and the `ready` switch between lazy and immediate rendering are lifecycle wiring and are left out.
- The `isLoading` flag is left out. It is cleared right after an `initCanvas()` that is not awaited.
- IEEE floating-point rounding is left out; numbers are exact reals. The host truncates the buffer size to whole pixels when it assigns `canvas.width` and `canvas.height`. The buffer here keeps the exact product.
- Tiling.TileGrid: a loop that never ends is `None`. The model does not list the draws made before the hang.
- Surface.SurfaceSize: an image reported as 0 pixels wide yields `None`. The model does not carry the non-finite height that JavaScript would compute and pass on.
- Compositor.RenderWatermark: the font is kept as the configured size (src/index.js:162). The `"<size>px sans-serif"` string is not built.

## Findings

| source | as written | input that shows it | evidently intended | confidence | as-written member | corrected member |
|---|---|---|---|---|---|---|
| src/index.js:247-253 | the observer is disconnected only after `await this.createCanvas()` settles, so callbacks keep arriving while the render is pending, and each positive one starts another render | ratios 1, 0, 0.5 delivered before the first render settles (placeholder scrolled in, out and in again during the image fetch) start two renders | the render fires once and the observer detaches (a one-shot lazy load) | not executed; medium | LazyTrigger.TwoRendersBeforeDisconnect | LazyTrigger.DisconnectFirstAtMostOnce |
