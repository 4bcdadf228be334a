/**
 * Sizing of the drawing surface (`createCanvas`) and its oversampled pixel
 * buffer (`initCanvas`).
 */
module Surface {
  import opened Optional

  /** What `wx.getImageInfo` reports about the background image. */
  datatype ImageInfo = ImageInfo(width: real, height: real, path: string)

  /** The logical (CSS-pixel) size of the canvas. */
  datatype Dimensions = Dimensions(width: real, height: real)

  /**
   * `createCanvas`: the canvas takes the placeholder's rendered width and
   * the height that keeps the image's aspect ratio. An image reported as
   * zero pixels wide makes `height / width` non-finite in JavaScript; that
   * case yields `None`.
   */
  function SurfaceSize(placeholderWidth: real, info: ImageInfo): (r: Option<Dimensions>)
    ensures r.Some? <==> info.width != 0.0
    ensures r.Some? ==> r.value.width == placeholderWidth
    ensures r.Some? ==> r.value.height * info.width == placeholderWidth * info.height
  {
    if info.width == 0.0 then None
    else
      var heightScale := info.height / info.width;
      Some(Dimensions(placeholderWidth, placeholderWidth * heightScale))
  }

  /** The surface's height-to-width ratio is the image's. */
  lemma AspectRatioPreserved(placeholderWidth: real, info: ImageInfo)
    requires info.width != 0.0 && placeholderWidth != 0.0
    ensures SurfaceSize(placeholderWidth, info).Some?
    ensures SurfaceSize(placeholderWidth, info).value.height / placeholderWidth
         == info.height / info.width
  {
  }

  /** A 300-wide placeholder over a 100x50 image gives a 300x150 surface. */
  lemma SurfaceSizeExample()
    ensures SurfaceSize(300.0, ImageInfo(100.0, 50.0, "")) == Some(Dimensions(300.0, 150.0))
  {
  }

  // ---------------------------------------------------------------------
  // Oversampling

  /** `initCanvas` fixes the oversampling factor at 4, whatever the device pixel ratio. */
  const Oversample: real := 4.0

  /** A point in logical or in buffer coordinates. */
  datatype Point = Point(x: real, y: real)

  /** The canvas pixel buffer and the scale applied to every later drawing call. */
  datatype Buffer = Buffer(width: real, height: real, scale: real)

  /** `initCanvas`: size the buffer to the oversampled surface and scale drawing to match. */
  function InitBuffer(d: Dimensions): Buffer
  {
    Buffer(d.width * Oversample, d.height * Oversample, Oversample)
  }

  /** Where a logical point lands in the buffer under the context's scale. */
  function ToBuffer(b: Buffer, p: Point): Point
  {
    Point(p.x * b.scale, p.y * b.scale)
  }

  /** The buffer point a logical point was drawn from, for a non-zero scale. */
  function ToLogical(b: Buffer, q: Point): Point
    requires b.scale != 0.0
  {
    Point(q.x / b.scale, q.y / b.scale)
  }

  predicate OnSurface(d: Dimensions, p: Point)
  {
    0.0 <= p.x <= d.width && 0.0 <= p.y <= d.height
  }

  predicate InBuffer(b: Buffer, q: Point)
  {
    0.0 <= q.x <= b.width && 0.0 <= q.y <= b.height
  }

  /**
   * The buffer is four times the surface in each direction, and under the
   * scale set by `initCanvas` logical coordinates cover exactly the buffer:
   * a point is on the surface iff its image is in the buffer, the surface's
   * far corner lands on the buffer's, and the mapping is undone by dividing.
   */
  lemma BufferMatchesSurface(d: Dimensions, p: Point)
    ensures InitBuffer(d).width == 4.0 * d.width && InitBuffer(d).height == 4.0 * d.height
    ensures OnSurface(d, p) <==> InBuffer(InitBuffer(d), ToBuffer(InitBuffer(d), p))
    ensures ToBuffer(InitBuffer(d), Point(d.width, d.height))
         == Point(InitBuffer(d).width, InitBuffer(d).height)
    ensures ToLogical(InitBuffer(d), ToBuffer(InitBuffer(d), p)) == p
  {
  }
}
