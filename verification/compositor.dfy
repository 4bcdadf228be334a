/**
 * The drawing pipeline of `createCanvas` -> `initCanvas` ->
 * `createCanvasImage`: size the surface, oversample the buffer, stretch the
 * background over the surface, then draw the watermark grid in a frame
 * translated to (-width/2, height/2) and rotated by -45 degrees.
 */
module Compositor {
  import opened Optional
  import opened JsNumber
  import opened Tiling
  import opened Surface

  /** The component's watermark properties. */
  datatype Config = Config(
    content: string,
    contentColor: string,
    contentSize: real,
    level: real,
    vertical: real,
    lazy: bool)

  /** An axis-aligned rectangle in logical coordinates. */
  datatype Rect = Rect(x: real, y: real, width: real, height: real)

  /** The context transform in force while the tiles are drawn. */
  datatype Frame = Frame(translateX: real, translateY: real, rotateDegrees: int)

  /** Everything the pipeline leaves on the canvas. */
  datatype Render = Render(
    dims: Dimensions,
    buffer: Buffer,
    background: Rect,
    fillStyle: string,
    fontSize: real,
    frame: Frame,
    tiles: seq<Tile>)

  /** The rotation applied before tiling, in degrees. */
  const WatermarkAngle: int := -45

  /** The tiling loop's inputs for a sized surface and a measured text width. */
  function LayoutFor(config: Config, d: Dimensions, textWidth: real): TileLayout
  {
    TileLayout(d.width, d.height, textWidth, config.level, config.vertical)
  }

  /**
   * One run of the pipeline. `placeholderWidth` is what the layout query
   * reports and `textWidth` what `measureText` reports for the content in
   * the configured font; both are host results. `None` when the image is
   * reported zero pixels wide or the tiling loop never ends.
   */
  function RenderWatermark(config: Config, info: ImageInfo, placeholderWidth: real, textWidth: real)
    : (r: Option<Render>)
    ensures r.Some? ==> info.width != 0.0
    ensures r.Some? ==>
      && r.value.dims.width == placeholderWidth
      && r.value.dims.height * info.width == placeholderWidth * info.height
      && r.value.buffer.width == 4.0 * r.value.dims.width
      && r.value.buffer.height == 4.0 * r.value.dims.height
      && r.value.buffer.scale == 4.0
      && r.value.background == Rect(0.0, 0.0, r.value.dims.width, r.value.dims.height)
      && r.value.frame == Frame(-(r.value.dims.width / 2.0), r.value.dims.height / 2.0, -45)
      && Some(r.value.tiles) == TileGrid(LayoutFor(config, r.value.dims, textWidth))
    ensures r.Some? ==> r.value.fillStyle == config.contentColor && r.value.fontSize == config.contentSize
    ensures info.width != 0.0 && r.None? ==>
      TileGrid(LayoutFor(config, SurfaceSize(placeholderWidth, info).value, textWidth)).None?
  {
    match SurfaceSize(placeholderWidth, info)
    case None => None
    case Some(d) =>
      match TileGrid(LayoutFor(config, d, textWidth))
      case None => None
      case Some(tiles) =>
        Some(Render(
          d,
          InitBuffer(d),
          Rect(0.0, 0.0, d.width, d.height),
          config.contentColor,
          config.contentSize,
          Frame(0.0 - d.width / 2.0, d.height / 2.0, WatermarkAngle),
          tiles))
  }

  /**
   * With a measurable text, a positive vertical gap and an image of non-zero
   * width the pipeline completes, and its grid has
   * ceil(width/textWidth) * (ceil(height/vertical) + 1) tiles over the sized
   * surface.
   */
  lemma RendersWhenConfigValid(config: Config, info: ImageInfo, placeholderWidth: real, textWidth: real)
    requires textWidth > 0.0 && config.vertical > 0.0 && info.width != 0.0
    ensures
      var r := RenderWatermark(config, info, placeholderWidth, textWidth);
      && r.Some?
      && |r.value.tiles| == NonNeg(Ceil(r.value.dims.width / textWidth))
                            * (NonNeg(Ceil(r.value.dims.height / config.vertical)) + 1)
  {
    var d := SurfaceSize(placeholderWidth, info).value;
    GridShape(LayoutFor(config, d, textWidth));
  }

  /**
   * A 400-wide placeholder over a 200x100 image with gaps 60 and 150: the
   * surface is 400x200, the buffer 1600x800, the background fills the
   * surface, and each of the ceil(400/textWidth) columns draws 3 tiles.
   */
  lemma EndToEndScenario(textWidth: real)
    requires textWidth > 0.0
    ensures
      var config := Config("SECRET", "rgba(255,255,255,.5)", 15.0, 60.0, 150.0, false);
      var r := RenderWatermark(config, ImageInfo(200.0, 100.0, ""), 400.0, textWidth);
      && r.Some?
      && r.value.dims == Dimensions(400.0, 200.0)
      && r.value.buffer == Buffer(1600.0, 800.0, 4.0)
      && r.value.background == Rect(0.0, 0.0, 400.0, 200.0)
      && |r.value.tiles| == NonNeg(Ceil(400.0 / textWidth)) * 3
  {
    var config := Config("SECRET", "rgba(255,255,255,.5)", 15.0, 60.0, 150.0, false);
    var d := Dimensions(400.0, 200.0);
    assert SurfaceSize(400.0, ImageInfo(200.0, 100.0, "")) == Some(d);
    GridShape(LayoutFor(config, d, textWidth));
    assert Ceil(200.0 / 150.0) == 2;
  }
}
