/** The map-animation helpers: the grid mask built from a region shape (`exclude_mesh`),
    the sample filtering and mask blanking around the library interpolators
    (`make_spline`), and the set-up rules of the animation (`animate_map`, `reanimator`).
    The region's containment test and the interpolators are foreign library calls; they
    enter the model as a parameter (`contains`) and as the surface array `Z` that the
    chosen interpolator returned. Drawing is not modelled. */
module MapHelpers {
  import opened Wrappers
  import opened Sequences

  /** A Python float, which may be NaN ("no value"). */
  datatype Float = NaN | Num(v: real)

  predicate IsNum(f: Float)
  {
    f.Num?
  }

  function Abs(r: real): (a: real)
    ensures a >= 0.0 && (a == r || a == -r)
  {
    if r < 0.0 then -r else r
  }

  function Max(a: real, b: real): (m: real)
    ensures m >= a && m >= b && (m == a || m == b)
  {
    if a < b then b else a
  }

  // ---------------------------------------------------------------------------
  // Sample filtering (make_spline, first part)
  // ---------------------------------------------------------------------------

  /** Parallel station samples: x (latitude), y (longitude) and the measurement z. */
  datatype Samples = Samples(x: seq<real>, y: seq<real>, z: seq<Float>)
  {
    predicate Aligned()
    {
      |x| == |y| == |z|
    }
  }

  /** Only samples with y below this value are interpolated. */
  const YCutoff: real := -70.0

  predicate BelowCutoff(y: real)
  {
    y < YCutoff
  }

  /** The j-th sample of r is sample `idx[j]` of s, in x, y and z alike. */
  predicate SelectedBy(r: Samples, s: Samples, idx: seq<nat>)
    requires s.Aligned()
  {
    && r.Aligned() && |r.z| == |idx|
    && forall j :: 0 <= j < |idx| ==>
         idx[j] < |s.z| && r.x[j] == s.x[idx[j]] && r.y[j] == s.y[idx[j]] && r.z[j] == s.z[idx[j]]
  }

  /** One boolean mask applied to x, y and z: the samples at the set positions, in order. */
  function SelectSamples(s: Samples, keep: seq<bool>): (r: Samples)
    requires s.Aligned() && |keep| == |s.z|
    ensures SelectedBy(r, s, Indices(keep))
    ensures forall k :: 0 <= k < |s.z| ==> (keep[k] <==> k in Indices(keep))
  {
    SelectExact(s.x, keep);
    SelectExact(s.y, keep);
    SelectExact(s.z, keep);
    Samples(Select(s.x, keep), Select(s.y, keep), Select(s.z, keep))
  }

  /** `temp_mask = ~np.isnan(z)` applied to z, x and y: exactly the samples whose z is a
      number survive, in their original order. */
  function DropNaN(s: Samples): (r: Samples)
    requires s.Aligned()
    ensures var idx := Indices(MaskOf(s.z, IsNum));
      && SelectedBy(r, s, idx)
      && (forall k :: 0 <= k < |s.z| ==> (s.z[k].Num? <==> k in idx))
    ensures forall j :: 0 <= j < |r.z| ==> r.z[j].Num?
  {
    var keep := MaskOf(s.z, IsNum);
    var r := SelectSamples(s, keep);
    assert forall j :: 0 <= j < |r.z| ==> keep[Indices(keep)[j]];
    r
  }

  /** `pos_mask = np.where(y < -70)` applied to z, x and y: exactly the samples whose y is
      below the cutoff survive, in their original order. */
  function KeepBelowCutoff(s: Samples): (r: Samples)
    requires s.Aligned()
    ensures var idx := Indices(MaskOf(s.y, BelowCutoff));
      && SelectedBy(r, s, idx)
      && (forall k :: 0 <= k < |s.z| ==> (BelowCutoff(s.y[k]) <==> k in idx))
    ensures forall j :: 0 <= j < |r.z| ==> r.y[j] < YCutoff
  {
    var keep := MaskOf(s.y, BelowCutoff);
    var r := SelectSamples(s, keep);
    assert forall j :: 0 <= j < |r.z| ==> keep[Indices(keep)[j]];
    r
  }

  /** The samples `make_spline` interpolates: NaN measurements dropped, then every
      sample whose y is not below the cutoff. */
  function FilterSamples(s: Samples): (r: Samples)
    requires s.Aligned()
    ensures r.Aligned()
  {
    KeepBelowCutoff(DropNaN(s))
  }

  /** Whether sample k satisfies both filter conditions. */
  predicate Kept(s: Samples, k: nat)
    requires s.Aligned() && k < |s.z|
  {
    s.z[k].Num? && BelowCutoff(s.y[k])
  }

  /** The one-pass mask equivalent to the two filter stages. */
  function KeepMask(s: Samples): (m: seq<bool>)
    requires s.Aligned()
  {
    Both(MaskOf(s.z, IsNum), s.y, BelowCutoff)
  }

  /** The filter keeps exactly the samples satisfying both conditions, in their original
      order, and each surviving (x, y, z) triple is one input sample: the j-th survivor
      is input sample `idx[j]` in all three coordinates. */
  lemma FilterSamplesExact(s: Samples)
    requires s.Aligned()
    ensures var r, idx := FilterSamples(s), Indices(KeepMask(s));
      && |r.x| == |idx| && |r.y| == |idx| && |r.z| == |idx|
      && (forall j :: 0 <= j < |idx| ==>
            r.x[j] == s.x[idx[j]] && r.y[j] == s.y[idx[j]] && r.z[j] == s.z[idx[j]])
      && (forall a, b :: 0 <= a < b < |idx| ==> idx[a] < idx[b])
      && (forall k :: 0 <= k < |s.z| ==> (Kept(s, k) <==> k in idx))
  {
    var first := MaskOf(s.z, IsNum);
    SelectTwice(s.x, s.y, first, BelowCutoff);
    SelectTwice(s.y, s.y, first, BelowCutoff);
    SelectTwice(s.z, s.y, first, BelowCutoff);
    var keep := KeepMask(s);
    SelectExact(s.x, keep);
    SelectExact(s.y, keep);
    SelectExact(s.z, keep);
    forall k | 0 <= k < |s.z| ensures Kept(s, k) == keep[k] {
    }
  }

  /** No surviving measurement is NaN and every surviving y is below the cutoff. */
  lemma FilterSamplesClean(s: Samples)
    requires s.Aligned()
    ensures var r := FilterSamples(s);
      forall j :: 0 <= j < |r.z| ==> r.z[j].Num? && r.y[j] < YCutoff
  {
    FilterSamplesExact(s);
    var r, keep := FilterSamples(s), KeepMask(s);
    var idx := Indices(keep);
    forall j | 0 <= j < |r.z| ensures r.z[j].Num? && r.y[j] < YCutoff {
      var k := idx[j];
      assert keep[k] == (MaskOf(s.z, IsNum)[k] && BelowCutoff(s.y[k]));
      assert MaskOf(s.z, IsNum)[k] == IsNum(s.z[k]);
      assert r.z[j] == s.z[k] && r.y[j] == s.y[k];
    }
  }

  // ---------------------------------------------------------------------------
  // Mesh and containment mask (exclude_mesh)
  // ---------------------------------------------------------------------------

  /** The two coordinate grids of `np.meshgrid(x, y)`. */
  datatype Mesh = Mesh(xs: seq<seq<real>>, ys: seq<seq<real>>)

  /** `np.meshgrid(x, y)` with the default 'xy' indexing: |y| rows and |x| columns, the
      first grid repeating x along each row, the second repeating y down each column. */
  function Meshgrid(x: seq<real>, y: seq<real>): (m: Mesh)
    ensures IsShape(m.xs, |y|, |x|) && IsShape(m.ys, |y|, |x|)
    ensures forall i, j :: 0 <= i < |y| && 0 <= j < |x| ==> m.xs[i][j] == x[j] && m.ys[i][j] == y[i]
  {
    Mesh(seq(|y|, i => x), seq(|y|, i requires 0 <= i < |y| => seq(|x|, j => y[i])))
  }

  /** The element-wise negation `~mask`. */
  function Invert(mask: seq<seq<bool>>): seq<seq<bool>>
  {
    seq(|mask|, i requires 0 <= i < |mask| => seq(|mask[i]|, j requires 0 <= j < |mask[i]| => !mask[i][j]))
  }

  /** With no mesh point the results list is empty and `np.array([])` holds floats, on
      which `~` raises a `TypeError`. */
  datatype MaskError = InvertFloatMask

  /** `exclude_mesh`: meshes the axes, tests every mesh point (longitude, latitude) for
      containment in the region in row-major order, reshapes the results to
      (|latitude|, |longitude|) and negates them when `maskExcludes` is set, which fails on an empty mesh. */
  method ExcludeMesh(latitude: seq<real>, longitude: seq<real>, contains: (real, real) -> bool,
                     maskExcludes: bool := false)
    returns (r: Result<seq<seq<bool>>, MaskError>)
    ensures r.Failure? <==> maskExcludes && |latitude| * |longitude| == 0
    ensures r.Failure? ==> r.error == InvertFloatMask
    ensures r.Success? ==>
              && IsShape(r.value, |latitude|, |longitude|)
              && forall i, j :: 0 <= i < |latitude| && 0 <= j < |longitude| ==>
                   r.value[i][j] == (contains(longitude[j], latitude[i]) != maskExcludes)
  {
    var mesh := Meshgrid(longitude, latitude);
    var lon2 := Flatten(mesh.xs);
    var lat2 := Flatten(mesh.ys);
    FlattenLength(mesh.xs, |longitude|);
    FlattenLength(mesh.ys, |longitude|);
    var flat: seq<bool> := [];
    var k := 0;
    while k < |lat2|
      invariant 0 <= k <= |lat2|
      invariant |flat| == k
      invariant forall m :: 0 <= m < k ==> flat[m] == contains(lon2[m], lat2[m])
    {
      flat := flat + [contains(lon2[k], lat2[k])];
      k := k + 1;
    }
    var rows, cols := |latitude|, |longitude|;
    var included := Reshape(flat, rows, cols);
    forall i, j | 0 <= i < rows && 0 <= j < cols
      ensures included[i][j] == contains(longitude[j], latitude[i])
    {
      ReshapeAt(flat, rows, cols, i, j);
      FlattenAt(mesh.xs, cols, i, j);
      FlattenAt(mesh.ys, cols, i, j);
    }
    if !maskExcludes {
      return Success(included);
    }
    if |flat| == 0 {
      return Failure(InvertFloatMask);
    }
    return Success(Invert(included));
  }

  // ---------------------------------------------------------------------------
  // Mask blanking (make_spline, last part)
  // ---------------------------------------------------------------------------

  /** The mask has a value for every cell of the side x side square. */
  predicate CoversSquare(mask: seq<seq<bool>>, side: nat)
  {
    side <= |mask| && forall i :: 0 <= i < side ==> side <= |mask[i]|
  }

  /** The surface after blanking: a cell of the side x side square whose mask is false is
      NaN, every other cell is as it was. */
  twostate predicate Blanked(Z: array2<Float>, mask: seq<seq<bool>>, side: nat)
    requires CoversSquare(mask, side)
    reads Z
  {
    forall i, j :: 0 <= i < Z.Length0 && 0 <= j < Z.Length1 ==>
      Z[i, j] == if i < side && j < side && !mask[i][j] then NaN else old(Z[i, j])
  }

  /** The nested loop of `make_spline`: both indices run over `range(side)`. */
  method BlankOutsideMask(Z: array2<Float>, mask: seq<seq<bool>>, side: nat)
    requires side <= Z.Length1 && CoversSquare(mask, side)
    requires forall i, j :: Z.Length0 <= i < side && 0 <= j < side ==> mask[i][j]
    modifies Z
    ensures Blanked(Z, mask, side)
  {
    for i := 0 to side
      invariant forall a, b :: 0 <= a < Z.Length0 && 0 <= b < Z.Length1 ==>
        Z[a, b] == if a < i && b < side && !mask[a][b] then NaN else old(Z[a, b])
    {
      for j := 0 to side
        invariant forall a, b :: 0 <= a < Z.Length0 && 0 <= b < Z.Length1 ==>
          Z[a, b] == if ((a < i && b < side) || (a == i && b < j)) && !mask[a][b] then NaN else old(Z[a, b])
      {
        if !mask[i][j] {
          Z[i, j] := NaN;
        }
      }
    }
  }

  // ---------------------------------------------------------------------------
  // Interpolation strategies and make_spline
  // ---------------------------------------------------------------------------

  datatype Strategy = Radial | Smooth | Nearest

  function StrategyName(st: Strategy): string
  {
    match st
    case Radial => "radial"
    case Smooth => "smooth"
    case Nearest => "nearest"
  }

  /** Recognises the three interpolator names; any other string names no strategy. */
  function ParseStrategy(name: string): (r: Option<Strategy>)
    ensures r.Some? ==> StrategyName(r.value) == name
    ensures r.None? ==> forall st: Strategy :: StrategyName(st) != name
  {
    if name == "radial" then Some(Radial)
    else if name == "smooth" then Some(Smooth)
    else if name == "nearest" then Some(Nearest)
    else None
  }

  lemma StrategyNameRoundTrip(st: Strategy)
    ensures ParseStrategy(StrategyName(st)) == Some(st)
  {
  }

  /** Raised by `make_spline` when no branch assigned the surface `Z`. */
  datatype SplineError = UnknownInterpolator(name: string)

  /** What `make_spline` returns besides the surface: the mesh (B1, B2) and the filtered
      samples. */
  datatype Spline = Spline(mesh: Mesh, samples: Samples)

  /** The interpolator's surface, evaluated on the transposed mesh, has |xGrid| rows and
      |yGrid| columns; the blanking loop visits the |yGrid| x |yGrid| square, so the mask
      must cover it, and a row of the square beyond the surface must be kept whole by the
      mask, because the loop only touches the surface where the mask is false. */
  predicate SurfaceFits(Z: array2<Float>, xGrid: seq<real>, yGrid: seq<real>, mask: seq<seq<bool>>)
  {
    && Z.Length0 == |xGrid| && Z.Length1 == |yGrid| && CoversSquare(mask, |yGrid|)
    && forall i, j :: |xGrid| <= i < |yGrid| && 0 <= j < |yGrid| ==> mask[i][j]
  }

  /** `make_spline`: filters the samples, and for a known interpolator blanks the surface
      `Z` it produced outside the mask; for an unknown name `Z` is never bound and the
      call fails. */
  method MakeSpline(s: Samples, interpolator: string, xGrid: seq<real>, yGrid: seq<real>,
                    mask: seq<seq<bool>>, Z: array2<Float>)
    returns (r: Result<Spline, SplineError>)
    requires s.Aligned()
    requires ParseStrategy(interpolator).Some? ==> SurfaceFits(Z, xGrid, yGrid, mask)
    modifies Z
    ensures ParseStrategy(interpolator).None? ==>
              r == Failure(UnknownInterpolator(interpolator)) && unchanged(Z)
    ensures ParseStrategy(interpolator).Some? ==>
              r == Success(Spline(Meshgrid(xGrid, yGrid), FilterSamples(s))) && Blanked(Z, mask, |yGrid|)
  {
    var present := DropNaN(s);
    var filtered := KeepBelowCutoff(present);
    var mesh := Meshgrid(xGrid, yGrid);
    var strategy := ParseStrategy(interpolator);
    if strategy.None? {
      return Failure(UnknownInterpolator(interpolator));
    }
    BlankOutsideMask(Z, mask, |yGrid|);
    return Success(Spline(mesh, filtered));
  }

  // ---------------------------------------------------------------------------
  // Colour bound
  // ---------------------------------------------------------------------------

  /** `Series.max()`, which skips NaN and is NaN when no value is left. */
  function SeriesMax(ts: seq<Float>): (r: Float)
    ensures r.NaN? <==> forall k :: 0 <= k < |ts| ==> ts[k].NaN?
    ensures r.Num? ==> r in ts && forall k :: 0 <= k < |ts| && ts[k].Num? ==> ts[k].v <= r.v
  {
    if ts == [] then NaN
    else
      var m, t := SeriesMax(ts[..|ts| - 1]), ts[|ts| - 1];
      assert forall k :: 0 <= k < |ts| - 1 ==> ts[..|ts| - 1][k] == ts[k];
      if t.NaN? then m else if m.NaN? || m.v < t.v then t else m
  }

  /** `Series.min()`, which skips NaN and is NaN when no value is left. */
  function SeriesMin(ts: seq<Float>): (r: Float)
    ensures r.NaN? <==> forall k :: 0 <= k < |ts| ==> ts[k].NaN?
    ensures r.Num? ==> r in ts && forall k :: 0 <= k < |ts| && ts[k].Num? ==> r.v <= ts[k].v
  {
    if ts == [] then NaN
    else
      var m, t := SeriesMin(ts[..|ts| - 1]), ts[|ts| - 1];
      assert forall k :: 0 <= k < |ts| - 1 ==> ts[..|ts| - 1][k] == ts[k];
      if t.NaN? then m else if m.NaN? || t.v < m.v then t else m
  }

  /** The symmetric colour bound of `animate_map`, `max(|max|, |min|)`: the largest
      magnitude of any temperature, NaN when there is none. */
  function ColourBound(ts: seq<Float>): (b: Float)
    ensures b.NaN? <==> forall k :: 0 <= k < |ts| ==> ts[k].NaN?
    ensures b.Num? ==> b.v >= 0.0
    ensures b.Num? ==> forall k :: 0 <= k < |ts| && ts[k].Num? ==> Abs(ts[k].v) <= b.v
    ensures b.Num? ==> exists k :: 0 <= k < |ts| && ts[k].Num? && Abs(ts[k].v) == b.v
  {
    var hi, lo := SeriesMax(ts), SeriesMin(ts);
    if hi.Num? && lo.Num? then Num(Max(Abs(hi.v), Abs(lo.v))) else NaN
  }

  /** The colour bound of `reanimator` as written, `max(|min|, |min|)`: the magnitude of
      the lowest temperature. It covers every temperature at or below zero. */
  function ReanimatorBound(ts: seq<Float>): (b: Float)
    ensures b.NaN? <==> forall k :: 0 <= k < |ts| ==> ts[k].NaN?
    ensures b.Num? ==> b.v >= 0.0
    ensures b.Num? ==> forall k :: 0 <= k < |ts| && ts[k].Num? && ts[k].v <= 0.0 ==> Abs(ts[k].v) <= b.v
    ensures b.Num? ==> exists k :: 0 <= k < |ts| && ts[k].Num? && b.v == Abs(ts[k].v) &&
                                   forall m :: 0 <= m < |ts| && ts[m].Num? ==> ts[k].v <= ts[m].v
  {
    var lo := SeriesMin(ts);
    if lo.Num? then Num(Max(Abs(lo.v), Abs(lo.v))) else NaN
  }

  /** The bound of `reanimator` never exceeds the bound of `animate_map`. */
  lemma ReanimatorBoundAtMostColourBound(ts: seq<Float>)
    ensures ReanimatorBound(ts).Num? <==> ColourBound(ts).Num?
    ensures ReanimatorBound(ts).Num? ==> ReanimatorBound(ts).v <= ColourBound(ts).v
  {
  }

  /** With temperatures -1 and 5 the first frame's scale is clipped at 1, below the warmest
      reading, while every later frame uses 5. */
  lemma ReanimatorBoundClipsWarmest()
    ensures ReanimatorBound([Num(-1.0), Num(5.0)]) == Num(1.0)
    ensures ColourBound([Num(-1.0), Num(5.0)]) == Num(5.0)
  {
  }

  // ---------------------------------------------------------------------------
  // Animation set-up (animate_map, reanimator)
  // ---------------------------------------------------------------------------

  /** One row of the data set: its time bucket, the station position and its reading. */
  datatype Observation = Observation(utc: int, latitude: real, longitude: real, temp: Float)

  /** The mask `monthly['UTC'] == t`. */
  function BucketMask(monthly: seq<Observation>, t: int): (keep: seq<bool>)
  {
    seq(|monthly|, k requires 0 <= k < |monthly| => monthly[k].utc == t)
  }

  /** `monthly[monthly['UTC'] == t]`: the rows of one time bucket, in order. */
  function RowsAt(monthly: seq<Observation>, t: int): (rows: seq<Observation>)
    ensures forall k :: 0 <= k < |rows| ==> rows[k].utc == t
  {
    var keep := BucketMask(monthly, t);
    SelectedSatisfy(monthly, keep, (row: Observation) => row.utc == t);
    Select(monthly, keep)
  }

  /** The bucket holds every row of time t and no other, in their original order: its
      j-th row is row `idx[j]` of the data set. */
  lemma RowsAtExact(monthly: seq<Observation>, t: int)
    ensures var rows, idx := RowsAt(monthly, t), Indices(BucketMask(monthly, t));
      && |rows| == |idx|
      && (forall j :: 0 <= j < |rows| ==> rows[j] == monthly[idx[j]])
      && (forall a, b :: 0 <= a < b < |idx| ==> idx[a] < idx[b])
      && (forall k :: 0 <= k < |monthly| ==> (monthly[k].utc == t <==> k in idx))
  {
    var keep := BucketMask(monthly, t);
    SelectExact(monthly, keep);
    assert forall k :: 0 <= k < |monthly| ==> keep[k] == (monthly[k].utc == t);
  }

  /** The temperature column. */
  function Temps(rows: seq<Observation>): seq<Float>
  {
    seq(|rows|, k requires 0 <= k < |rows| => rows[k].temp)
  }

  /** The samples of one time bucket: x is the latitude, y the longitude, z the
      temperature. */
  function FrameSamples(monthly: seq<Observation>, t: int): (s: Samples)
    ensures var rows := RowsAt(monthly, t);
      && s.Aligned() && |s.z| == |rows|
      && forall k :: 0 <= k < |rows| ==>
           s.x[k] == rows[k].latitude && s.y[k] == rows[k].longitude && s.z[k] == rows[k].temp
  {
    var rows := RowsAt(monthly, t);
    Samples(seq(|rows|, k requires 0 <= k < |rows| => rows[k].latitude),
            seq(|rows|, k requires 0 <= k < |rows| => rows[k].longitude),
            Temps(rows))
  }

  /** The inter-frame delay handed to the animation, in milliseconds. */
  const FrameIntervalMs: nat := 500

  /** How `reanimator` sets up an animation before drawing anything. */
  datatype Schedule<T> =
    | Rejected
    | NoFirstMonth
    | Scheduled(strategy: Strategy, first: T, frames: seq<T>, frameCount: nat, intervalMs: nat)

  /** The strategy name is checked first; then `m_list[0]` is the seeding frame and
      `m_list[1:]` the animated frames, so frame i shows `m_list[i + 1]` and there are
      `len(m_list) - 1` of them. */
  function PlanAnimation<T>(splineType: string, mList: seq<T>): (r: Schedule<T>)
    ensures r.Rejected? <==> ParseStrategy(splineType).None?
    ensures r.NoFirstMonth? <==> ParseStrategy(splineType).Some? && mList == []
    ensures r.Scheduled? ==>
              && StrategyName(r.strategy) == splineType
              && r.first == mList[0]
              && r.frameCount == |mList| - 1 == |r.frames|
              && (forall i :: 0 <= i < r.frameCount ==> r.frames[i] == mList[i + 1])
              && r.intervalMs == FrameIntervalMs
  {
    match ParseStrategy(splineType)
    case None => Rejected
    case Some(st) =>
      if mList == [] then NoFirstMonth
      else Scheduled(st, mList[0], mList[1..], |mList[1..]|, FrameIntervalMs)
  }

  /** One drawn frame: its time bucket, the interpolation inputs and the colour bound. */
  datatype Frame = Frame(time: int, spline: Spline, bound: Float)

  /** What `reanimator` hands to the animation: the seeding frame and the frame schedule. */
  datatype Animation = Animation(first: Frame, frames: seq<int>, frameCount: nat, intervalMs: nat,
                                 strategy: Strategy)

  /** `m_list[0]` of an empty list raises. */
  datatype AnimationError = EmptyMonthList

  /** `animate_map` for frame i: the rows of bucket `animMonths[i]`, interpolated and
      blanked, drawn with the bound over the whole data set. */
  method AnimateMap(i: nat, monthly: seq<Observation>, animMonths: seq<int>, xGrid: seq<real>,
                    yGrid: seq<real>, mask: seq<seq<bool>>, Z: array2<Float>,
                    spline: string := "nearest")
    returns (r: Result<Frame, SplineError>)
    requires i < |animMonths|
    requires ParseStrategy(spline).Some? ==> SurfaceFits(Z, xGrid, yGrid, mask)
    modifies Z
    ensures ParseStrategy(spline).None? ==> r == Failure(UnknownInterpolator(spline)) && unchanged(Z)
    ensures ParseStrategy(spline).Some? ==>
              && r == Success(Frame(animMonths[i],
                                    Spline(Meshgrid(xGrid, yGrid), FilterSamples(FrameSamples(monthly, animMonths[i]))),
                                    ColourBound(Temps(monthly))))
              && Blanked(Z, mask, |yGrid|)
  {
    var samples := FrameSamples(monthly, animMonths[i]);
    var sp := MakeSpline(samples, spline, xGrid, yGrid, mask, Z);
    if sp.Failure? {
      return Failure(sp.error);
    }
    var bound := ColourBound(Temps(monthly));
    return Success(Frame(animMonths[i], sp.value, bound));
  }

  /** `reanimator`: returns nothing for an unknown strategy, fails on an empty month list,
      and otherwise seeds the animation with the frame of `m_list[0]` (using the bound as
      written) and schedules `m_list[1:]`. */
  method Reanimator(splineType: string, mList: seq<int>, monthly: seq<Observation>, xGrid: seq<real>,
                    yGrid: seq<real>, mask: seq<seq<bool>>, Z: array2<Float>)
    returns (r: Result<Option<Animation>, AnimationError>)
    requires PlanAnimation(splineType, mList).Scheduled? ==> SurfaceFits(Z, xGrid, yGrid, mask)
    modifies Z
    ensures PlanAnimation(splineType, mList).Rejected? ==> r == Success(None) && unchanged(Z)
    ensures PlanAnimation(splineType, mList).NoFirstMonth? ==> r == Failure(EmptyMonthList) && unchanged(Z)
    ensures PlanAnimation(splineType, mList).Scheduled? ==>
              var plan := PlanAnimation(splineType, mList);
              && r == Success(Some(Animation(
                        Frame(mList[0],
                              Spline(Meshgrid(xGrid, yGrid), FilterSamples(FrameSamples(monthly, mList[0]))),
                              ReanimatorBound(Temps(monthly))),
                        plan.frames, plan.frameCount, plan.intervalMs, plan.strategy)))
              && Blanked(Z, mask, |yGrid|)
  {
    var plan := PlanAnimation(splineType, mList);
    if plan.Rejected? {
      return Success(None);
    }
    if plan.NoFirstMonth? {
      return Failure(EmptyMonthList);
    }
    var samples := FrameSamples(monthly, plan.first);
    var bound := ReanimatorBound(Temps(monthly));
    var sp := MakeSpline(samples, splineType, xGrid, yGrid, mask, Z);
    assert sp.Success?;
    var first := Frame(plan.first, sp.value, bound);
    return Success(Some(Animation(first, plan.frames, plan.frameCount, plan.intervalMs, plan.strategy)));
  }
}
