/** The bot's configuration as `MapsScreenshotBot.__init__` stores it. */
module BotConfig {
  import opened Geometry

  const MinZoom: int := 0
  const MaxZoom: int := 21
  /** The default `zoom_level` argument of the constructor. */
  const DefaultZoom: int := 21

  /** `min(21, max(0, zoom_level))`: the stored zoom is always a valid map
      zoom, and an argument already in range is kept as it is. */
  function ClampZoom(zoom: int): (r: int)
    ensures MinZoom <= r <= MaxZoom
    ensures MinZoom <= zoom <= MaxZoom ==> r == zoom
    ensures zoom < MinZoom ==> r == MinZoom
    ensures zoom > MaxZoom ==> r == MaxZoom
  {
    var atLeast := if zoom < MinZoom then MinZoom else zoom;
    if atLeast > MaxZoom then MaxZoom else atLeast
  }

  /** Clamping a clamped zoom changes nothing. */
  lemma ClampZoomIdempotent(zoom: int)
    ensures ClampZoom(ClampZoom(zoom)) == ClampZoom(zoom)
  {
  }

  /** A bot never changes its fields after construction. `zoom` is the
      clamped `zoom_level`; `directoryZoom` is the raw argument, which is what
      the output directory name `screenshots_{city}_zoom{zoom_level}` shows. */
  datatype Bot = Bot(city: string, boundary: seq<Point>, zoom: int, directoryZoom: int)

  /** The constructor: stores the city and boundary, clamps the zoom. */
  function NewBot(city: string, boundary: seq<Point>, zoomLevel: int): (b: Bot)
    ensures b.city == city && b.boundary == boundary
    ensures MinZoom <= b.zoom <= MaxZoom
    ensures b.directoryZoom == zoomLevel
    ensures b.zoom == b.directoryZoom <==> MinZoom <= zoomLevel <= MaxZoom
  {
    Bot(city, boundary, ClampZoom(zoomLevel), zoomLevel)
  }

  /** Without a `zoom_level` argument the bot scans at the maximum zoom,
      and the directory name shows that same zoom. */
  lemma DefaultZoomIsMaximum(city: string, boundary: seq<Point>)
    ensures NewBot(city, boundary, DefaultZoom).zoom == MaxZoom
    ensures NewBot(city, boundary, DefaultZoom).directoryZoom == MaxZoom
  {
  }
}
