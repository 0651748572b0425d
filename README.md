# Maps screenshot bot: boundary test and scan grid

`maps-screenshot-bot.py` drives a browser over a city and captures the screen at
every point of a grid that falls inside the city's boundary polygon. This
project models, in Dafny, the part of the bot that decides *where* it goes. The
browser, screenshot and file handling are left out.

- **Boundary test** (`BoundaryTest`, `boundary_test.dfy`): `point_in_polygon`,
  the even-odd ray-casting test behind `is_within_boundary`. `PointInPolygon`
  keeps the loop of the source: it runs `n + 1` times and carries the previous
  vertex in `p1x, p1y`. `xinters` is held as an `Option`, so the verifier
  checks that it has been assigned before line 60 reads it. The loop is proved
  equal to `Inside`, the parity of `Crossings`. `Crossings` counts the edges
  `(poly[i], poly[(i + 1) mod n])` of the implicitly closed polygon that
  satisfy the crossing conditions.
- **Configuration** (`BotConfig`, `bot_config.dfy`): the zoom clamp of
  `__init__`. The bot keeps both the clamped zoom and the raw argument,
  because the output directory name is built from the raw one.
- **Grid parameters** (`GridGenerator`, `grid_generator.dfy`):
  - `calculate_grid_step`;
  - the zoom-scaled grid size `grid_size * 2 ** (zoom - 18)`, which keeps
    Python's int/float distinction;
  - `np.linspace` over exact reals;
  - the bounding box built from `min`/`max`.
- **Scan** (`ScanDriver`, `scan_driver.dfy`): the nested loop of `scan_city`.
  - `ScanRow` is the inner loop and `ScanGrid` the outer loop.
  - They are proved to capture exactly the row-major grid points that pass
    the boundary test, in visiting order.
  - They count them in `processed_points` and record each progress
    percentage.
  - `ScanCity` joins the axes computation and the loops, and returns the
    exception the source would raise.

Coordinates are exact `real`s; `Point(x, y)` holds a `(lat, lon)` pair with
`x` the latitude, as the source unpacks `x, y = point`.

Behaviour of the code worth knowing:

- **A zoom below 18 makes `scan_city` raise `TypeError` before its loop.** At
  such a zoom, `grid_size * 2 ** (zoom - 18)` is a Python `float`, and
  `np.linspace` refuses a `float` sample count. The model returns
  `Err(FloatSampleCount)` for this case. The zoom-16 overview preset of
  `create_detailed_map` therefore captures nothing.
- **The division at line 59 never has a zero denominator.** The branch
  conditions at lines 55-56 already exclude horizontal edges.
- **An empty boundary raises.** `point_in_polygon` raises `IndexError` on an
  empty polygon, and `scan_city` raises `ValueError` from `min` of an empty
  boundary.
- **Progress reaches 100% only when every grid point is inside the
  boundary.** `processed_points` counts captures, but `total_points` counts
  every point of the bounding-box grid (line 135). For a boundary that does
  not fill its bounding box, the last progress line reads below 100%.

## Model

| member | source | states |
|---|---|---|
| Geometry.Min | maps-screenshot-bot.py:55 | `min` of two coordinates is one of them and bounds both from below |
| Geometry.Max | maps-screenshot-bot.py:56-57 | `max` of two coordinates is one of them and bounds both from above |
| BoundaryTest.Intercept | maps-screenshot-bot.py:58-59 | the intercept is only defined for a non-horizontal edge, and at either end's height it is that end's x |
| BoundaryTest.Crossings | maps-screenshot-bot.py:53-62 | the number of crossed edges among the first k is at most k |
| BoundaryTest.FlippedIsOddCrossings | maps-screenshot-bot.py:50-62 | toggling `inside` once per crossing leaves it true exactly when the crossing count is odd |
| BoundaryTest.PointInPolygon | maps-screenshot-bot.py:47-66 | an empty polygon raises IndexError; otherwise the loop returns the even-odd rule's answer for the implicitly closed polygon |
| BoundaryTest.HorizontalEdgeNeverCrosses | maps-screenshot-bot.py:55-60 | an edge with equal end heights never toggles `inside`, so the division is never reached with a zero denominator |
| BoundaryTest.ClosingVertexIsRedundant | maps-screenshot-bot.py:52-62 | appending a copy of the first vertex never changes the answer |
| BoundaryTest.RotationInvariant | maps-screenshot-bot.py:52-62 | starting the vertex list at any vertex gives the same answer |
| BoundaryTest.FarPointIsOutside | maps-screenshot-bot.py:55-57 | a point above every vertex, at or below every vertex, or right of every vertex is outside |
| BoundaryTest.InterceptBetween | maps-screenshot-bot.py:58-59 | at a height within a non-horizontal edge's span, the intercept lies between the edge's two x's |
| BoundaryTest.LeftEdgeCrosses | maps-screenshot-bot.py:55-60 | for a point left of both ends, an edge crosses exactly when one end is below the point and the other is not |
| BoundaryTest.LeftIsOutside | maps-screenshot-bot.py:47-64 | a point left of every vertex is outside: the closed cycle passes the point's height an even number of times |
| BoundaryTest.RectangleInterior | maps-screenshot-bot.py:47-64 | every point strictly inside an axis-aligned rectangle is inside, with the vertex list open or closed |
| BoundaryTest.SquareScenario | maps-screenshot-bot.py:47-64 | in the closed square (0,0)-(2,2), (1,1) is inside and (5,5) is outside |
| BotConfig.ClampZoom | maps-screenshot-bot.py:30 | the stored zoom lies in [0, 21], equals the argument when it is in range, and is the nearer end otherwise |
| BotConfig.ClampZoomIdempotent | maps-screenshot-bot.py:30 | clamping twice is clamping once |
| BotConfig.DefaultZoomIsMaximum | maps-screenshot-bot.py:13-30 | without a zoom argument the bot scans at zoom 21, and the directory name shows 21 |
| BotConfig.NewBot | maps-screenshot-bot.py:28-32 | city and boundary are stored unchanged; the zoom is clamped; the directory name keeps the raw zoom, which differs from the stored one exactly when the argument is out of range |
| GridGenerator.Pow2Whole | maps-screenshot-bot.py:113 | for a non-negative exponent, Python's integer power of two equals the real one |
| GridGenerator.GridStep | maps-screenshot-bot.py:68-79 | latitude and longitude steps are equal and positive, and are 0.001 at zoom 18 |
| GridGenerator.GridStepHalves | maps-screenshot-bot.py:74-79 | each zoom level up halves the step, so each level down doubles it |
| GridGenerator.ActualGridSize | maps-screenshot-bot.py:113 | the grid size is a Python int exactly when the zoom is at least 18 |
| GridGenerator.ActualGridSizeValue | maps-screenshot-bot.py:113 | whatever its type, the grid size is `grid_size * 2^(zoom - 18)` |
| GridGenerator.ZoomNineteenScenario | maps-screenshot-bot.py:113 | at zoom 19 the grid size doubles while the step halves |
| GridGenerator.Linspace | maps-screenshot-bot.py:115-116 | a float count raises TypeError and a negative one ValueError; otherwise `num` evenly spaced values from `start`, ending at `stop` when there are at least two |
| GridGenerator.Least | maps-screenshot-bot.py:104 | `min` is at most every value and is one of them |
| GridGenerator.Greatest | maps-screenshot-bot.py:105 | `max` is at least every value and is one of them |
| GridGenerator.BoundingBox | maps-screenshot-bot.py:104-107 | an empty boundary raises ValueError; otherwise every vertex lies within the box and each bound is attained by a vertex |
| ScanDriver.GridSize | maps-screenshot-bot.py:118-122 | the grid has `len(lat_steps) * len(lon_steps)` points |
| ScanDriver.GridRowMajor | maps-screenshot-bot.py:121-122 | the grid is visited latitude-major: point `i * len(lon_steps) + j` is `(lat_steps[i], lon_steps[j])` |
| ScanDriver.InBoundary | maps-screenshot-bot.py:123 | the filter keeps at most as many points as it is given |
| ScanDriver.InBoundaryMembers | maps-screenshot-bot.py:123 | a point is kept exactly when it is a grid point inside the boundary |
| ScanDriver.InBoundaryConcat | maps-screenshot-bot.py:121-123 | filtering the whole grid equals filtering it row by row |
| ScanDriver.AllKept | maps-screenshot-bot.py:123 | no point is dropped exactly when every point is inside |
| ScanDriver.PercentRange | maps-screenshot-bot.py:135 | a progress value lies in [0, 100], is positive once a point is processed, and is 100 exactly when all points are |
| ScanDriver.ProgressLines | maps-screenshot-bot.py:133-136 | one progress line per capture |
| ScanDriver.ProgressLinesAt | maps-screenshot-bot.py:134-136 | the k-th progress line reports k+1 captures, lies in (0, 100], and reads 100 only for the last grid point |
| ScanDriver.ScanAxes | maps-screenshot-bot.py:104-116 | an empty boundary raises ValueError, a zoom below 18 TypeError, and a negative grid size ValueError; otherwise both axes exist |
| ScanDriver.ScanAxesShape | maps-screenshot-bot.py:113-118 | each axis has `grid_size * 2^(zoom-18)` values from the box's minimum to its maximum, so `total_points` is that squared |
| ScanDriver.ScanRow | maps-screenshot-bot.py:122-136 | the inner loop appends exactly the row's points inside the boundary, counts them and adds one progress line per capture |
| ScanDriver.RowStep | maps-screenshot-bot.py:122-123 | one more longitude keeps its point exactly when it is inside |
| ScanDriver.ScanGrid | maps-screenshot-bot.py:118-136 | `total_points` is the grid size; the captures are the grid points inside the boundary, in visiting order; `0 <= processed_points <= total_points`; the progress division only happens when `total_points > 0` |
| ScanDriver.ScanCity | maps-screenshot-bot.py:95-136 | `scan_city` raises what computing the axes raises, and otherwise scans their grid as `ScanGrid` states |
| ScanDriver.FullProgress | maps-screenshot-bot.py:118-136 | `processed_points` reaches `total_points` exactly when every grid point is inside the boundary |
| ScanDriver.SingleCellScan | maps-screenshot-bot.py:113-116 | a one-point grid holds only the south-west corner of the bounding box |
| ScanDriver.SquareGridScenario | maps-screenshot-bot.py:104-122 | the square (0,0)-(2,2) at zoom 18 and grid size 4 gives 16 grid points starting at (0,0) |

## Left out

- The browser: creating and quitting the Chrome driver, `navigate_to_position`, and `WebDriverWait` with its swallowed timeout (lines 31, 81-93, 141-142). These are external I/O. The model assumes navigation always returns, so an exception from it is not modelled.
- Screen and file I/O: `pyautogui.screenshot`, `save`, `os.makedirs` and the `time.strftime` timestamp (lines 34-35, 128-131).
- `time.sleep` (lines 85, 139): timing only.
- Printing: the `%.1f` progress text is not modelled; only the percentage values are kept. The filename and directory strings are not modelled either, since they depend on Python's float-to-string rendering. Only the raw zoom used in the directory name is kept (`Bot.directoryZoom`).
- Floating point: coordinates, `np.linspace`, `2 ** k` and the intercept are exact reals, not IEEE-754 doubles. Rounding near a boundary edge is therefore not captured.
- `calculate_grid_step`'s result is computed in `scan_city` (line 110) but never used. `GridStep` models it on its own, and `ScanCity` does not compute it.
- `create_detailed_map` and the hard-coded boundary tables (lines 145-303): these are driver scripts and data.
- ScanDriver.ScanGrid: requires a non-empty boundary. `ScanAxes` guarantees this on the only path that reaches the loop.
- Points on a boundary edge: no claim about them beyond what `Inside` computes. The test treats the crossing span as half-open, (min, max].
- BoundaryTest.RectangleInterior: points are proved inside only for the interior of axis-aligned rectangles. No such claim is made for other convex polygons. For a non-convex boundary, a point inside the convex hull can be outside.
