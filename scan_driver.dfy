/** `scan_city`: enumerate the grid over the boundary's bounding box row by
    row, keep the points the containment test accepts, and count them.
    Navigation, the screenshot and its file are external effects; a captured
    point is recorded in `captures` in the order the bot visits it. */
module ScanDriver {
  import opened Outcomes
  import opened Geometry
  import opened BoundaryTest
  import opened BotConfig
  import opened GridGenerator

  /** One row of the grid: a fixed latitude with every longitude. */
  function Row(lat: real, lons: seq<real>): seq<Point>
  {
    seq(|lons|, j requires 0 <= j < |lons| => Point(lat, lons[j]))
  }

  /** Visiting one more longitude extends the row by that point. */
  lemma RowAppend(lat: real, lons: seq<real>, j: nat)
    requires j < |lons|
    ensures Row(lat, lons[..j + 1]) == Row(lat, lons[..j]) + [Point(lat, lons[j])]
  {
  }

  /** The cross product of the axes in visiting order: latitude outer,
      longitude inner. */
  function Grid(lats: seq<real>, lons: seq<real>): (g: seq<Point>)
  {
    if lats == [] then [] else Grid(lats[..|lats| - 1], lons) + Row(lats[|lats| - 1], lons)
  }

  /** The grid has one point per pair of axis values. */
  lemma {:induction false} GridSize(lats: seq<real>, lons: seq<real>)
    ensures |Grid(lats, lons)| == |lats| * |lons|
  {
    if lats != [] {
      GridSize(lats[..|lats| - 1], lons);
      assert |lats| * |lons| == (|lats| - 1) * |lons| + |lons|;
    }
  }

  /** Visiting one more latitude extends the grid by that row. */
  lemma GridAppend(lats: seq<real>, lons: seq<real>, i: nat)
    requires i < |lats|
    ensures Grid(lats[..i + 1], lons) == Grid(lats[..i], lons) + Row(lats[i], lons)
  {
    assert lats[..i + 1][..i] == lats[..i];
  }

  /** The grid is row-major: point `i * |lons| + j` is `(lats[i], lons[j])`. */
  lemma {:induction false} GridRowMajor(lats: seq<real>, lons: seq<real>, i: nat, j: nat)
    requires i < |lats| && j < |lons|
    ensures i * |lons| + j < |Grid(lats, lons)|
    ensures Grid(lats, lons)[i * |lons| + j] == Point(lats[i], lons[j])
  {
    var last := |lats| - 1;
    var front := lats[..last];
    assert Grid(lats, lons) == Grid(front, lons) + Row(lats[last], lons);
    GridSize(front, lons);
    if i < last {
      GridRowMajor(front, lons, i, j);
      assert i * |lons| + j < last * |lons| by {
        assert (i + 1) * |lons| <= last * |lons|;
      }
    } else {
      assert i * |lons| + j == last * |lons| + j;
    }
  }

  /** The points of `points` that lie inside `boundary`, in order. */
  function InBoundary(points: seq<Point>, boundary: seq<Point>): (kept: seq<Point>)
    ensures |kept| <= |points|
  {
    if points == [] then []
    else
      var front, p := points[..|points| - 1], points[|points| - 1];
      assert points == front + [p];
      InBoundary(front, boundary) + (if Inside(p, boundary) then [p] else [])
  }

  /** A point is kept exactly when it is one of the points and lies inside. */
  lemma {:induction false} InBoundaryMembers(points: seq<Point>, boundary: seq<Point>, p: Point)
    ensures p in InBoundary(points, boundary) <==> p in points && Inside(p, boundary)
  {
    if points != [] {
      var front, last := points[..|points| - 1], points[|points| - 1];
      assert points == front + [last];
      InBoundaryMembers(front, boundary, p);
    }
  }

  /** Visiting one more point extends the kept list by that point exactly
      when it is inside. */
  lemma InBoundaryAppend(points: seq<Point>, p: Point, boundary: seq<Point>)
    ensures InBoundary(points + [p], boundary)
            == InBoundary(points, boundary) + (if Inside(p, boundary) then [p] else [])
  {
    assert (points + [p])[..|points|] == points;
  }

  /** Filtering distributes over concatenation, so the grid can be filtered
      row by row. */
  lemma {:induction false} InBoundaryConcat(front: seq<Point>, back: seq<Point>, boundary: seq<Point>)
    ensures InBoundary(front + back, boundary) == InBoundary(front, boundary) + InBoundary(back, boundary)
  {
    if back != [] {
      var rest, p := back[..|back| - 1], back[|back| - 1];
      assert back == rest + [p];
      assert front + back == (front + rest) + [p];
      InBoundaryConcat(front, rest, boundary);
      InBoundaryAppend(front + rest, p, boundary);
      InBoundaryAppend(rest, p, boundary);
    } else {
      assert front + back == front;
    }
  }

  /** Every point is kept exactly when none is dropped. */
  lemma {:induction false} AllKept(points: seq<Point>, boundary: seq<Point>)
    ensures |InBoundary(points, boundary)| == |points|
            <==> forall i :: 0 <= i < |points| ==> Inside(points[i], boundary)
  {
    if points != [] {
      var front, p := points[..|points| - 1], points[|points| - 1];
      AllKept(front, boundary);
      assert forall i :: 0 <= i < |front| ==> front[i] == points[i];
      assert |InBoundary(front, boundary)| <= |front|;
    }
  }

  lemma PositiveProduct(a: nat, b: nat)
    requires a > 0 && b > 0
    ensures a * b > 0
  {
  }

  /** `(processed_points / total_points) * 100`. */
  function Percent(done: nat, total: nat): real
    requires total > 0
  {
    (done as real / total as real) * 100.0
  }

  /** A progress percentage lies in [0, 100] and reads 100 exactly when
      every point has been processed. */
  lemma PercentRange(done: nat, total: nat)
    requires total > 0 && done <= total
    ensures 0.0 <= Percent(done, total) <= 100.0
    ensures done > 0 ==> Percent(done, total) > 0.0
    ensures Percent(done, total) == 100.0 <==> done == total
  {
    var q := done as real / total as real;
    assert q * total as real == done as real;
    assert q == 1.0 <==> done == total;
  }

  /** The percentages printed after the first `done` captures. */
  function ProgressLines(done: nat, total: nat): (lines: seq<real>)
    requires done == 0 || total > 0
    ensures |lines| == done
  {
    if done == 0 then [] else ProgressLines(done - 1, total) + [Percent(done, total)]
  }

  /** The `k`-th progress line reports `k + 1` captures out of `total`; it
      lies in (0, 100] and reads 100 only for the capture of the last grid
      point. */
  lemma {:induction false} ProgressLinesAt(done: nat, total: nat, k: nat)
    requires total > 0 && k < done <= total
    ensures ProgressLines(done, total)[k] == Percent(k + 1, total)
    ensures 0.0 < ProgressLines(done, total)[k] <= 100.0
    ensures ProgressLines(done, total)[k] == 100.0 <==> k + 1 == total
  {
    PercentRange(k + 1, total);
    if k < done - 1 {
      ProgressLinesAt(done - 1, total, k);
    }
  }

  /** The two axes `lat_steps` and `lon_steps`. */
  datatype Axes = Axes(lats: seq<real>, lons: seq<real>)

  /** Lines 104-116 of `scan_city`: the bounding box, the zoom-scaled grid
      size and the two `linspace` axes, with the exceptions they raise. */
  function ScanAxes(bot: Bot, gridSize: int): (r: Result<Axes>)
    ensures |bot.boundary| == 0 ==> r == Err(EmptyBoundary)
    ensures |bot.boundary| > 0 && bot.zoom < BaseZoom ==> r == Err(FloatSampleCount)
    ensures |bot.boundary| > 0 && bot.zoom >= BaseZoom && gridSize < 0 ==> r == Err(NegativeSampleCount)
    ensures |bot.boundary| > 0 && bot.zoom >= BaseZoom && gridSize >= 0 ==> r.Ok?
  {
    match BoundingBox(bot.boundary)
    case Err(e) => Err(e)
    case Ok(box) =>
      var size := ActualGridSize(gridSize, bot.zoom);
      match Linspace(box.latMin, box.latMax, size)
      case Err(e) => Err(e)
      case Ok(lats) =>
        match Linspace(box.lonMin, box.lonMax, size)
        case Err(e) => Err(e)
        case Ok(lons) => Ok(Axes(lats, lons))
  }

  /** The axes have `grid_size * 2 ** (zoom - 18)` values each, the first
      at the bounding box's minimum and, from two values on, the last at its
      maximum; so the grid has that many points squared. */
  lemma ScanAxesShape(bot: Bot, gridSize: int)
    requires ScanAxes(bot, gridSize).Ok?
    ensures var axes := ScanAxes(bot, gridSize).value;
      |axes.lats| == |axes.lons| == gridSize * IntPow2(bot.zoom - BaseZoom) &&
      |Grid(axes.lats, axes.lons)| == |axes.lats| * |axes.lats|
    ensures var axes := ScanAxes(bot, gridSize).value;
      var box := BoundingBox(bot.boundary).value;
      |axes.lats| > 0 ==>
        axes.lats[0] == box.latMin && axes.lons[0] == box.lonMin &&
        axes.lats[|axes.lats| - 1] == (if |axes.lats| == 1 then box.latMin else box.latMax) &&
        axes.lons[|axes.lons| - 1] == (if |axes.lons| == 1 then box.lonMin else box.lonMax)
  {
    var axes := ScanAxes(bot, gridSize).value;
    GridSize(axes.lats, axes.lons);
  }

  /** What a scan leaves behind: `total_points`, `processed_points`, the
      points captured in visiting order, and the progress percentage printed
      after each capture. */
  datatype ScanReport = ScanReport(totalPoints: nat, processedPoints: nat, captures: seq<Point>, progress: seq<real>)

  /** One pass of the inner loop of `scan_city` (lines 122-136), over the
      longitudes of the row at `lat`: every point inside the boundary is
      captured, counted and followed by a progress line. */
  method ScanRow(lat: real, lonSteps: seq<real>, boundary: seq<Point>, totalPoints: nat,
                 processedPoints: nat, captures: seq<Point>, progress: seq<real>)
      returns (processed: nat, captured: seq<Point>, shown: seq<real>)
    requires |boundary| > 0
    requires |lonSteps| > 0 ==> totalPoints > 0
    requires processedPoints > 0 ==> totalPoints > 0
    requires processedPoints == |captures|
    requires progress == ProgressLines(processedPoints, totalPoints)
    ensures captured == captures + InBoundary(Row(lat, lonSteps), boundary)
    ensures processed == |captured|
    ensures processed > 0 ==> totalPoints > 0
    ensures shown == ProgressLines(processed, totalPoints)
  {
    processed, captured, shown := processedPoints, captures, progress;
    for j := 0 to |lonSteps|
      invariant captured == captures + InBoundary(Row(lat, lonSteps[..j]), boundary)
      invariant processed == |captured|
      invariant processed > 0 ==> totalPoints > 0
      invariant shown == ProgressLines(processed, totalPoints)
    {
      var p := Point(lat, lonSteps[j]);
      var within := PointInPolygon(p, boundary);
      RowStep(lat, lonSteps, j, boundary);
      if within == Ok(true) {
        processed := processed + 1;
        shown := shown + [Percent(processed, totalPoints)];
        captured := captured + [p];
      }
    }
    assert lonSteps[..|lonSteps|] == lonSteps;
  }

  /** Visiting one more longitude keeps that point exactly when it is inside. */
  lemma RowStep(lat: real, lons: seq<real>, j: nat, boundary: seq<Point>)
    requires j < |lons|
    ensures var p := Point(lat, lons[j]);
      InBoundary(Row(lat, lons[..j + 1]), boundary)
      == InBoundary(Row(lat, lons[..j]), boundary) + (if Inside(p, boundary) then [p] else [])
  {
    RowAppend(lat, lons, j);
    InBoundaryAppend(Row(lat, lons[..j]), Point(lat, lons[j]), boundary);
  }

  /** The loop of `scan_city` (lines 118-136) over given axes: every grid
      point is tested in row-major order, every point inside the boundary is
      captured and counted, and a progress line follows each capture. A
      capture only happens on a non-empty grid, so the progress division
      never has a zero denominator. */
  method ScanGrid(latSteps: seq<real>, lonSteps: seq<real>, boundary: seq<Point>) returns (report: ScanReport)
    requires |boundary| > 0
    ensures report.totalPoints == |latSteps| * |lonSteps|
    ensures report.captures == InBoundary(Grid(latSteps, lonSteps), boundary)
    ensures report.processedPoints == |report.captures| <= report.totalPoints
    ensures report.processedPoints > 0 ==> report.totalPoints > 0
    ensures report.progress == ProgressLines(report.processedPoints, report.totalPoints)
  {
    var totalPoints := |latSteps| * |lonSteps|;
    var processedPoints := 0;
    var captures: seq<Point> := [];
    var progress: seq<real> := [];
    for i := 0 to |latSteps|
      invariant captures == InBoundary(Grid(latSteps[..i], lonSteps), boundary)
      invariant processedPoints == |captures|
      invariant processedPoints > 0 ==> totalPoints > 0
      invariant progress == ProgressLines(processedPoints, totalPoints)
    {
      assert |lonSteps| > 0 ==> totalPoints > 0 by {
        if |lonSteps| > 0 {
          PositiveProduct(|latSteps|, |lonSteps|);
        }
      }
      processedPoints, captures, progress :=
        ScanRow(latSteps[i], lonSteps, boundary, totalPoints, processedPoints, captures, progress);
      assert captures == InBoundary(Grid(latSteps[..i + 1], lonSteps), boundary) by {
        GridAppend(latSteps, lonSteps, i);
        InBoundaryConcat(Grid(latSteps[..i], lonSteps), Row(latSteps[i], lonSteps), boundary);
      }
    }
    assert latSteps[..|latSteps|] == latSteps;
    GridSize(latSteps, lonSteps);
    return ScanReport(totalPoints, processedPoints, captures, progress);
  }

  /** `scan_city`: the axes, then the scan over their grid. The step of
      `calculate_grid_step` is computed there but never used, so it is left
      out here. */
  method ScanCity(bot: Bot, gridSize: int) returns (r: Result<ScanReport>)
    ensures ScanAxes(bot, gridSize).Err? ==> r == Err(ScanAxes(bot, gridSize).error)
    ensures ScanAxes(bot, gridSize).Ok? ==>
      var axes := ScanAxes(bot, gridSize).value;
      r.Ok? &&
      r.value.totalPoints == |axes.lats| * |axes.lons| &&
      r.value.captures == InBoundary(Grid(axes.lats, axes.lons), bot.boundary) &&
      r.value.processedPoints == |r.value.captures| <= r.value.totalPoints &&
      (r.value.processedPoints > 0 ==> r.value.totalPoints > 0) &&
      r.value.progress == ProgressLines(r.value.processedPoints, r.value.totalPoints)
  {
    var axesOrError := ScanAxes(bot, gridSize);
    if axesOrError.Err? {
      return Err(axesOrError.error);
    }
    var report := ScanGrid(axesOrError.value.lats, axesOrError.value.lons, bot.boundary);
    return Ok(report);
  }

  /** `processed_points` reaches `total_points`, and the last progress line
      reads 100%, exactly when every grid point lies inside the boundary. */
  lemma FullProgress(lats: seq<real>, lons: seq<real>, boundary: seq<Point>)
    ensures var grid := Grid(lats, lons);
            |InBoundary(grid, boundary)| == |lats| * |lons|
            <==> forall k :: 0 <= k < |grid| ==> Inside(grid[k], boundary)
  {
    GridSize(lats, lons);
    AllKept(Grid(lats, lons), boundary);
  }

  /** A grid of one point per axis holds only the south-west corner of the
      bounding box. */
  lemma SingleCellScan(bot: Bot, gridSize: int)
    requires ScanAxes(bot, gridSize).Ok?
    requires gridSize * IntPow2(bot.zoom - BaseZoom) == 1
    ensures var axes := ScanAxes(bot, gridSize).value;
            var box := BoundingBox(bot.boundary).value;
            Grid(axes.lats, axes.lons) == [Point(box.latMin, box.lonMin)]
  {
    var axes := ScanAxes(bot, gridSize).value;
    assert axes.lats[..0] == [];
    assert Grid(axes.lats, axes.lons) == Grid([], axes.lons) + Row(axes.lats[0], axes.lons);
  }

  lemma SixteenPoints(lats: seq<real>, lons: seq<real>)
    requires |lats| == 4 && |lons| == 4
    ensures |Grid(lats, lons)| == 16
  {
    GridSize(lats, lons);
  }

  /** The square with corners (0,0) and (2,2), scanned at zoom 18 with a
      grid size of 4, gives 4 by 4 = 16 candidate points starting at the
      corner (0,0). */
  lemma SquareGridScenario()
    ensures var square := [Point(0.0, 0.0), Point(0.0, 2.0), Point(2.0, 2.0), Point(2.0, 0.0), Point(0.0, 0.0)];
            var axes := ScanAxes(NewBot("square", square, 18), 4);
            axes.Ok? && |Grid(axes.value.lats, axes.value.lons)| == 16 &&
            Grid(axes.value.lats, axes.value.lons)[0] == Point(0.0, 0.0)
  {
    var square := [Point(0.0, 0.0), Point(0.0, 2.0), Point(2.0, 2.0), Point(2.0, 0.0), Point(0.0, 0.0)];
    var bot := NewBot("square", square, 18);
    var lats, lons := Lats(square), Lons(square);
    assert lats[0] == 0.0 && lons[0] == 0.0;
    assert forall i :: 0 <= i < |square| ==> 0.0 <= lats[i] && 0.0 <= lons[i];
    assert Least(lats) == 0.0 && Least(lons) == 0.0;
    assert bot.zoom == BaseZoom;
    ScanAxesShape(bot, 4);
    assert IntPow2(0) == 1;
    var axes := ScanAxes(bot, 4).value;
    assert |axes.lats| == 4 && |axes.lons| == 4;
    SixteenPoints(axes.lats, axes.lons);
    GridRowMajor(axes.lats, axes.lons, 0, 0);
  }
}
