# Notebook helpers for weather maps and the weather portal, modelled in Dafny

This project models the logic of two notebook-support scripts. Everything else in them
is calls into plotting, interpolation, geometry, HTML and HTTP libraries.

- `OpenDataExamples/notebook_code/map_helpers.py` builds an animated temperature map.
  - `exclude_mesh` builds a boolean grid mask from a region shape.
  - `make_spline` filters the station samples. It then blanks the interpolated surface
    wherever the mask is false, within the visited `len(y_grid)` square.
  - `animate_map` and `reanimator` check the interpolation strategy, pick which time
    bucket each frame shows, and compute the symmetric colour bound.
- `OpenDataExamples/notebook_code/weather.py` scrapes the Environment Canada climate
  portal.
  - `download_raw_data` checks its arguments and plans the pages of the station search.
  - `getHourlyData` composes the URL of the hourly bulk-data request.
  - `download_data_date_range` walks the calendar months of a date range.
  - `get_weather_data_by_loc` keeps the stations whose name scores above 90.

Modules:

- `Wrappers` (`wrappers.dfy`): `Option` and `Result`.
- `Sequences` (`sequences.dfy`): numpy/pandas boolean-mask indexing (`Select`), its
  positions (`Indices`), row-major flattening and `reshape`.
- `Text` (`text.dfy`): decimal text of integers, as `str` and `"{}".format` write it, plus
  readers that parse it back.
- `MapHelpers` (`map_helpers.dfy`): the map helpers.
- `Weather` (`weather.dfy`): the portal helpers.

How the model stands in for the parts it cannot see:

- A Python float that may be NaN is `Float = NaN | Num(v)`. Assigning `None` into a numpy
  float array stores NaN, so NaN is also the "no value" marker of the blanked surface.
- The default arguments are kept: `max_pages=4`, `mask_excludes=False` and `spline='nearest'`
  are parameter defaults of `DownloadRawData`, `ExcludeMesh` and `AnimateMap`.
- The region's containment test is a function parameter `contains(longitude, latitude)`.
- The interpolators are foreign. The surface they return is the array `Z` passed in.
  It has `len(x_grid)` rows and `len(y_grid)` columns, because it is evaluated on the
  transposed mesh.
- HTTP requests, and the parsing behind them, are function parameters `fetch`. A
  parameter returns `None` when the request raised, which the source's broad `except`
  turns into a `None` result.
- The fuzzy name score is a function parameter `score`.
- Python's dynamic types in `download_raw_data` are `PyValue = Str | Int | Other`. A bool
  is `Other`, because `type(True) == int` is false.
- `ParsePageUrl` and `ParseHourlyUrl` are not in the source. They are inverses written as
  partners of `PageUrl` and `HourlyUrl`, whose contracts show that each URL carries its
  values verbatim and in order.

Where the intended design and the code disagree, the model follows the code:

- An unknown interpolator name in `make_spline` is not rejected by a named check. `Z` is
  simply never bound, so the call fails (`MakeSpline` returns `UnknownInterpolator`).
- `reanimator` rejects a bad strategy by printing and returning `None`, not by raising.
- The blanking loop visits a `len(y_grid)` × `len(y_grid)` square, not the whole grid.
- `reanimator` computes its colour bound as `max(|min|, |min|)` (see Findings).

## Model

| member | source | states |
|---|---|---|
| `MapHelpers.DropNaN` | OpenDataExamples/notebook_code/map_helpers.py:62-66 | The survivors are exactly the input samples whose z is a number, in their original order, each the same sample in x, y and z. No surviving z is NaN. |
| `MapHelpers.KeepBelowCutoff` | OpenDataExamples/notebook_code/map_helpers.py:67-70 | The survivors are exactly the input samples whose y is below -70, in their original order, each the same sample in x, y and z. Every surviving y is below -70. |
| `MapHelpers.FilterSamples` | OpenDataExamples/notebook_code/map_helpers.py:61-70 | The two filter stages in sequence keep x, y and z equally long. |
| `MapHelpers.FilterSamplesExact` | OpenDataExamples/notebook_code/map_helpers.py:61-70 | The filter keeps exactly the input samples whose z is not NaN and whose y is below -70. It keeps them in their original order, and the j-th survivor is the same input sample in x, y and z. |
| `MapHelpers.FilterSamplesClean` | OpenDataExamples/notebook_code/map_helpers.py:61-70 | No surviving z is NaN and every surviving y is below -70. |
| `Sequences.SelectTwice` | OpenDataExamples/notebook_code/map_helpers.py:62-70 | Filtering first by one mask and then by a condition on the surviving keys equals filtering once by both conditions. |
| `Sequences.SelectExact` | OpenDataExamples/notebook_code/map_helpers.py:64-66 | Boolean-mask indexing keeps exactly the elements whose flag is set, in increasing position order. |
| `Sequences.ReshapeFlatten` | OpenDataExamples/notebook_code/map_helpers.py:28-37 | Reshaping a row-major flattened grid to its shape gives the grid back. |
| `MapHelpers.Meshgrid` | OpenDataExamples/notebook_code/map_helpers.py:72 | `meshgrid(x, y)` has `len(y)` rows and `len(x)` columns. Cell (i, j) holds `x[j]` in the first grid and `y[i]` in the second. |
| `MapHelpers.ExcludeMesh` | OpenDataExamples/notebook_code/map_helpers.py:12-41 | With `mask_excludes` set and an empty axis, `~` on the empty float array fails. Otherwise the mask has shape `(len(latitude), len(longitude))`, and cell [i][j] is the containment of `(longitude[j], latitude[i])`, negated exactly when `mask_excludes` is set. |
| `MapHelpers.BlankOutsideMask` | OpenDataExamples/notebook_code/map_helpers.py:88-93 | Inside the `len(y_grid)` square, a cell whose mask is false becomes NaN. Every other cell, including rows at or beyond `len(y_grid)`, is unchanged. Rows of the square beyond the surface are allowed when the mask keeps them whole, because the loop never indexes them. |
| `MapHelpers.ParseStrategy` | OpenDataExamples/notebook_code/map_helpers.py:76-86 | A name is recognised exactly when it is the name of one of the three strategies: radial, smooth or nearest. |
| `MapHelpers.StrategyNameRoundTrip` | OpenDataExamples/notebook_code/map_helpers.py:176 | Each strategy's name is recognised as that strategy. |
| `MapHelpers.MakeSpline` | OpenDataExamples/notebook_code/map_helpers.py:43-95 | An unknown interpolator fails and leaves the surface untouched. A known one returns the mesh and the filtered samples, and leaves the surface blanked outside the mask. |
| `MapHelpers.SeriesMax` | OpenDataExamples/notebook_code/map_helpers.py:168 | The NaN-skipping maximum is NaN exactly when no value is a number. Otherwise it is one of the readings and no reading exceeds it. |
| `MapHelpers.SeriesMin` | OpenDataExamples/notebook_code/map_helpers.py:193 | The NaN-skipping minimum is NaN exactly when no value is a number. Otherwise it is one of the readings and no reading is below it. |
| `MapHelpers.ColourBound` | OpenDataExamples/notebook_code/map_helpers.py:168 | The bound of `animate_map` is non-negative and at least \|t\| for every temperature t. Some temperature reaches it. It is NaN only when there is no temperature. |
| `MapHelpers.ReanimatorBound` | OpenDataExamples/notebook_code/map_helpers.py:193 | The bound of `reanimator`, as written, is the magnitude of the lowest temperature, and NaN exactly when there is none. So it is at least \|t\| for every temperature t at or below zero. |
| `MapHelpers.ReanimatorBoundAtMostColourBound` | OpenDataExamples/notebook_code/map_helpers.py:193 | The `reanimator` bound is defined exactly when the `animate_map` bound is, and never exceeds it. |
| `MapHelpers.ReanimatorBoundClipsWarmest` | OpenDataExamples/notebook_code/map_helpers.py:193 | For temperatures -1 and 5 the `reanimator` bound is 1, while the `animate_map` bound is 5. |
| `MapHelpers.RowsAt` | OpenDataExamples/notebook_code/map_helpers.py:153 | Selecting one time bucket keeps only rows whose UTC equals it. |
| `MapHelpers.RowsAtExact` | OpenDataExamples/notebook_code/map_helpers.py:153 | The bucket holds exactly the rows whose UTC equals it, in their original order. |
| `MapHelpers.FrameSamples` | OpenDataExamples/notebook_code/map_helpers.py:163-165 | Sample k of a bucket is the latitude, longitude and temperature of the bucket's k-th row. |
| `MapHelpers.PlanAnimation` | OpenDataExamples/notebook_code/map_helpers.py:176-214 | A bad strategy name is rejected before anything else. An empty month list has no first month. Otherwise `m_list[0]` seeds the animation, frame i shows `m_list[i+1]`, there are `len(m_list)-1` frames, and the delay is 500 ms. |
| `MapHelpers.AnimateMap` | OpenDataExamples/notebook_code/map_helpers.py:134-170 | Frame i holds the filtered samples of bucket `anim_months[i]`, the blanked surface and the `max(\|max\|, \|min\|)` bound over all data. An unknown strategy fails. |
| `MapHelpers.Reanimator` | OpenDataExamples/notebook_code/map_helpers.py:172-226 | An unknown strategy returns `None` and touches nothing. An empty month list raises. Otherwise the result is the seeding frame of `m_list[0]`, with the bound as written, plus the scheduled frames `m_list[1:]`. |
| `Weather.ValidDownloadArgs` | OpenDataExamples/notebook_code/weather.py:20 | Accepted arguments have a str province of two letters other than NU, a str year of length 4 and an int page count. |
| `Weather.DownloadRawData` | OpenDataExamples/notebook_code/weather.py:17-44 | Rejected arguments give `None`. Accepted ones request the `max(max_pages, 0)` page URLs in order. The result is the responses to those URLs, or `None` exactly when one request fails. |
| `Weather.PageUrl` | OpenDataExamples/notebook_code/weather.py:27-34 | For a two-letter province and a four-character year, province, year and any start row read back from the page URL unchanged. |
| `Weather.FetchEach` | OpenDataExamples/notebook_code/weather.py:24-38 | The responses are present exactly when every request succeeds. Response k is then the answer to URL k. |
| `Text.DecimalNoLeadingZero` | OpenDataExamples/notebook_code/weather.py:30 | The start row as `"{}".format` writes it has no leading zero. |
| `Weather.PlannedStartRows` | OpenDataExamples/notebook_code/weather.py:24-30 | Page i's URL reads back with start row `1 + 100*i`, so consecutive pages start 100 rows apart. |
| `Weather.HourlyUrl` | OpenDataExamples/notebook_code/weather.py:99-102 | For a non-negative int station, year and month, the hourly URL reads back station, year and month in that order, followed by `&timeframe=1`. |
| `Weather.PlannedMonths` | OpenDataExamples/notebook_code/weather.py:114-118 | Request k of a date range reads back as station, year and month of the k-th calendar month of the range. |
| `Weather.NextMonth` | OpenDataExamples/notebook_code/weather.py:114 | The next calendar month is a valid month whose index is one greater. |
| `Weather.MonthRange` | OpenDataExamples/notebook_code/weather.py:114 | The range holds one valid month per month index from start to end inclusive, ascending by one. It is empty when end precedes start. |
| `Weather.MonthRangeExact` | OpenDataExamples/notebook_code/weather.py:114 | A non-empty range starts at start and ends at end. Consecutive entries are consecutive calendar months. A calendar month is in the range exactly when it lies between start and end. |
| `Weather.DownloadDataDateRange` | OpenDataExamples/notebook_code/weather.py:108-127 | An unparsed date gives `None`. Otherwise the hourly URL of every month of the range is requested in order and the tables are concatenated. An empty range or any failed request gives `None`. |
| `Weather.StationsByLocation` | OpenDataExamples/notebook_code/weather.py:87-92 | Every returned station's name scores strictly above 90 against the location. |
| `Weather.StationsByLocationExact` | OpenDataExamples/notebook_code/weather.py:90-91 | The filter keeps exactly the stations scoring strictly above 90, in their original order. |

## Left out

- The interpolators (`Rbf`, `NearestNDInterpolator`, `SmoothBivariateSpline`) are floating-point numerics in a foreign library. Their surface is an input array, and their failures (such as too few samples) are not modelled.
- The region's containment test (geopandas/shapely) is an uninterpreted parameter. A malformed shape that makes it raise is not modelled.
- All drawing is left out because it has no statable result: `plot_instance`, the colour bar, `ax.clear`, the `FuncAnimation` timing, and `plt.close`. Title strings from `strftime` and the `daily` flag only affect labels, so they are left out too.
- MapHelpers.MakeSpline: requires, when a known strategy reaches the blanking loop, that the mask covers the visited `len(y_grid)` square and is true on every cell of it in a row the surface lacks (`SurfaceFits`). A mask that is too small, or false on such a cell, makes the source raise `IndexError` part-way through the loop, after some cells are already blanked, and that partial state is not modelled. `BlankOutsideMask` carries the same requirement; `AnimateMap` needs it only for a known strategy and `Reanimator` only for a scheduled plan, so their early exits do not.
- Infinite readings are not modelled (`Num` holds a real). In the source, `inf` survives the NaN filter and makes the colour bound infinite.
- MapHelpers.MakeSpline: requires the x, y and z columns to have equal length (`Aligned`). Columns of different lengths make numpy raise `IndexError` at the masking. Both callers pass the columns of one frame, so they always agree. `DropNaN`, `KeepBelowCutoff` and `FilterSamples` carry the same requirement.
- NaN coordinates (x or y) are not modelled. Coordinates are reals; only measurements may be NaN.
- Time buckets are integers. pandas timestamp parsing is left out.
- `generate_pandas_dataframe_from_html` parses HTML with BeautifulSoup, a foreign library, so it is left out. The HTTP requests, `read_csv`, `tqdm` progress bars, `sleep` and the printed messages are I/O.
- Month names are parsed by `strptime('%b%Y')`, which is locale-dependent. The model starts from already-parsed (year, month) pairs, with `None` for a parse failure. `rrule` at the `datetime` year limit is not modelled.
- Weather.DownloadDataDateRange: the `to_datetime`/`to_numeric` conversions after `concat`, and their failures, are not modelled. The result is the concatenated rows.
- Weather.StationsByLocation: the `except` branch is not reachable in the model, because a record sequence always has a name column.
- The fuzzy score `token_set_ratio` is a parameter. Only the threshold comparison is modelled.
- `Math/FunctionFitting/plotter.py` is a plotting wrapper whose only logic is float formatting. It is not part of this model.

## Findings

| source | as written | input that shows it | evidently intended | confidence | as-written member | corrected member |
|---|---|---|---|---|---|---|
| OpenDataExamples/notebook_code/map_helpers.py:193 | `bound = max(abs(min), abs(min))` | temperatures -1 and 5: the bound is 1, so the 5 reading is clipped on the seeding frame and on its colour bar | `max(abs(max), abs(min))`, as `animate_map` computes it at line 168 | not executed; high | `MapHelpers.ReanimatorBoundClipsWarmest` (on `MapHelpers.ReanimatorBound`) | `MapHelpers.ColourBound` |

`Reanimator` keeps the as-written bound for its seeding frame, because that models the
code. Every animated frame goes through `AnimateMap` and uses `ColourBound`.
