/** The arithmetic of `scan_city` before its loop: the bounding box of the
    boundary, the zoom-scaled grid size, the evenly spaced axes, and the
    separate step computation of `calculate_grid_step`. */
module GridGenerator {
  import opened Outcomes
  import opened Geometry

  /** The zoom level at which the base step and the base grid size apply. */
  const BaseZoom: int := 18
  /** `base_lat_step` and `base_lon_step`, about 111 metres. */
  const BaseStep: real := 0.001

  /** `2 ** k` for any integer exponent, as an exact real. */
  function Pow2(k: int): (r: real)
    ensures r > 0.0
    decreases if k < 0 then -k else k
  {
    if k == 0 then 1.0
    else if k > 0 then 2.0 * Pow2(k - 1)
    else Pow2(k + 1) / 2.0
  }

  /** `2 ** k` for a non-negative exponent, where Python keeps an `int`. */
  function IntPow2(k: nat): (r: nat)
    ensures r >= 1
  {
    if k == 0 then 1 else 2 * IntPow2(k - 1)
  }

  /** Raising the exponent by one doubles the power, on both sides of zero. */
  lemma Pow2Succ(k: int)
    ensures Pow2(k + 1) == 2.0 * Pow2(k)
  {
  }

  /** Where Python's `2 ** k` is an integer, it agrees with the real power. */
  lemma {:induction false} Pow2Whole(k: nat)
    ensures Pow2(k) == IntPow2(k) as real
  {
    if k > 0 {
      Pow2Whole(k - 1);
    }
  }

  /** `calculate_grid_step`: the latitude and longitude steps for a zoom. */
  function GridStep(zoom: int): (step: (real, real))
    ensures step.0 == step.1 && step.0 > 0.0
    ensures zoom == BaseZoom ==> step == (BaseStep, BaseStep)
  {
    var zoomFactor := Pow2(BaseZoom - zoom);
    (BaseStep * zoomFactor, BaseStep * zoomFactor)
  }

  /** Each zoom level above another halves the step, so each level below
      doubles it. */
  lemma GridStepHalves(zoom: int)
    ensures 2.0 * GridStep(zoom + 1).0 == GridStep(zoom).0
  {
    Pow2Succ(BaseZoom - zoom - 1);
  }

  /** A Python number: an `int`, or a `float` (held exactly). */
  datatype Number = IntNum(i: int) | FloatNum(f: real)

  function AsReal(n: Number): real
  {
    match n
    case IntNum(i) => i as real
    case FloatNum(f) => f
  }

  /** `grid_size * (2 ** (zoom_level - 18))`: an `int` from zoom 18 up, a
      `float` below it, because a negative power of two is a `float`. */
  function ActualGridSize(gridSize: int, zoom: int): (n: Number)
    ensures n.IntNum? <==> zoom >= BaseZoom
  {
    if zoom >= BaseZoom then IntNum(gridSize * IntPow2(zoom - BaseZoom))
    else FloatNum(gridSize as real * Pow2(zoom - BaseZoom))
  }

  /** Whatever its Python type, the grid size is the base grid size scaled
      by two to the power of the zoom's distance from 18. */
  lemma ActualGridSizeValue(gridSize: int, zoom: int)
    ensures AsReal(ActualGridSize(gridSize, zoom)) == gridSize as real * Pow2(zoom - BaseZoom)
  {
    if zoom >= BaseZoom {
      Pow2Whole(zoom - BaseZoom);
    }
  }

  /** One zoom level above 18 doubles the grid size while the step halves:
      the two scale independently. */
  lemma ZoomNineteenScenario(gridSize: int)
    ensures ActualGridSize(gridSize, 19) == IntNum(2 * gridSize)
    ensures GridStep(19).0 == BaseStep / 2.0
  {
    GridStepHalves(18);
  }

  /** `np.linspace(start, stop, num)` with exact reals: `num` values from
      `start` to `stop` inclusive, evenly spaced. A `float` count is a
      TypeError and a negative count a ValueError. */
  function Linspace(start: real, stop: real, num: Number): (r: Result<seq<real>>)
    ensures num.FloatNum? ==> r == Err(FloatSampleCount)
    ensures num.IntNum? && num.i < 0 ==> r == Err(NegativeSampleCount)
    ensures num.IntNum? && num.i >= 0 ==> r.Ok? && |r.value| == num.i
    ensures r.Ok? && |r.value| >= 1 ==> r.value[0] == start
    ensures r.Ok? && |r.value| >= 2 ==> r.value[|r.value| - 1] == stop
    ensures r.Ok? && |r.value| >= 2 ==>
      forall i :: 0 <= i < |r.value| - 1 ==>
        r.value[i + 1] - r.value[i] == (stop - start) / (|r.value| - 1) as real
  {
    match num
    case FloatNum(_) => Err(FloatSampleCount)
    case IntNum(n) =>
      if n < 0 then Err(NegativeSampleCount)
      else if n == 1 then Ok([start])
      else
        var delta := (stop - start) / (n - 1) as real;
        var values := seq(n, i requires 0 <= i < n => start + i as real * delta);
        assert n >= 2 ==> values[n - 1] == stop by {
          if n >= 2 {
            assert (n - 1) as real * delta == stop - start;
          }
        }
        Ok(values)
  }

  /** The smallest of a non-empty list of reals, as Python's `min`. */
  function Least(vs: seq<real>): (m: real)
    requires |vs| > 0
    ensures forall i :: 0 <= i < |vs| ==> m <= vs[i]
    ensures exists i :: 0 <= i < |vs| && vs[i] == m
  {
    if |vs| == 1 then vs[0] else Min(Least(vs[..|vs| - 1]), vs[|vs| - 1])
  }

  /** The largest of a non-empty list of reals, as Python's `max`. */
  function Greatest(vs: seq<real>): (m: real)
    requires |vs| > 0
    ensures forall i :: 0 <= i < |vs| ==> vs[i] <= m
    ensures exists i :: 0 <= i < |vs| && vs[i] == m
  {
    if |vs| == 1 then vs[0] else Max(Greatest(vs[..|vs| - 1]), vs[|vs| - 1])
  }

  function Lats(ps: seq<Point>): seq<real>
  {
    seq(|ps|, i requires 0 <= i < |ps| => ps[i].x)
  }

  function Lons(ps: seq<Point>): seq<real>
  {
    seq(|ps|, i requires 0 <= i < |ps| => ps[i].y)
  }

  datatype Box = Box(latMin: real, latMax: real, lonMin: real, lonMax: real)

  /** The bounding box of the boundary; `min` of an empty boundary raises. */
  function BoundingBox(boundary: seq<Point>): (r: Result<Box>)
    ensures |boundary| == 0 <==> r == Err(EmptyBoundary)
    ensures r.Ok? ==> forall i :: 0 <= i < |boundary| ==>
      r.value.latMin <= boundary[i].x <= r.value.latMax &&
      r.value.lonMin <= boundary[i].y <= r.value.lonMax
    ensures r.Ok? ==> exists i :: 0 <= i < |boundary| && boundary[i].x == r.value.latMin
    ensures r.Ok? ==> exists i :: 0 <= i < |boundary| && boundary[i].x == r.value.latMax
    ensures r.Ok? ==> exists i :: 0 <= i < |boundary| && boundary[i].y == r.value.lonMin
    ensures r.Ok? ==> exists i :: 0 <= i < |boundary| && boundary[i].y == r.value.lonMax
  {
    if |boundary| == 0 then Err(EmptyBoundary)
    else
      var lats, lons := Lats(boundary), Lons(boundary);
      assert forall i :: 0 <= i < |boundary| ==> lats[i] == boundary[i].x && lons[i] == boundary[i].y;
      Ok(Box(Least(lats), Greatest(lats), Least(lons), Greatest(lons)))
  }
}
