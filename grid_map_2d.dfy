/** The belief map of the active-sensing engine: a grid of per-cell source
    probabilities, the history of observations made so far, the inverse-CDF
    source sampler, the Monte Carlo estimate of the conditional entropy of
    each candidate trajectory, and the map entropy. */
module BeliefMap {
  import opened Options
  import opened Numerics
  import opened Geometry
  import opened Encoding
  import opened Sampling
  import opened Histogram
  import opened Estimator

  /** The running cumulative mass of the sampler's walk after adding the share
      `x / total` of one cell. `None` stands for the floating-point NaN that
      the division produces when the total is zero (every cell is then zero,
      and 0/0 is NaN); NaN absorbs every later addition and compares false. */
  function AddShare(acc: Option<real>, x: real, total: real): (r: Option<real>)
    ensures total == 0.0 ==> r == None
    ensures acc.Some? && total != 0.0 ==> r == Some(acc.value + x / total)
  {
    if acc.None? || total == 0.0 then None else Some(acc.value + x / total)
  }

  /** The walk's progress: draws `0 .. index - 1` were placed at the cells
      `ps`, and every cell before `t` has cumulative mass below draw `index`. */
  ghost predicate Walked(w: seq<real>, evals: seq<real>, index: nat, t: nat, ps: seq<nat>)
  {
    && index < |evals| && |ps| == index && t <= |w|
    && (forall k :: 0 <= k < index ==> InverseCdf(w, evals[k]) == Some(ps[k]))
    && (forall t' :: 0 <= t' < t ==> CumThrough(w, t') < evals[index])
  }

  /** The walk's loop invariant: the cumulative mass so far is that of the
      first `pos` cells, and the sources are the cells of the placed draws. */
  ghost predicate Progress(w: seq<real>, evals: seq<real>, index: nat, pos: nat, ps: seq<nat>,
                           cdf: Option<real>, sources: seq<Source2D>, cols: nat)
  {
    && pos <= |w| && cols > 0
    && cdf == Some(Sum(w[..pos]))
    && Walked(w, evals, index, pos, ps)
    && sources == CellsOf(ps, cols)
  }

  /** The walk's invariant at row-major position `pos`: with a zero total
      nothing has been emitted, otherwise the walk has made `Progress`. */
  ghost predicate WalkInv(total: real, w: seq<real>, evals: seq<real>, index: nat, pos: nat, ps: seq<nat>,
                          cdf: Option<real>, sources: seq<Source2D>, cols: nat, n: nat)
  {
    && |sources| == index < n == |evals|
    && (if total == 0.0 then sources == [] && index == 0
        else Progress(w, evals, index, pos, ps, cdf, sources, cols))
  }

  /** Placing draw `index` at cell `t`, whose cumulative mass reaches it,
      keeps the walk's progress, and the next draw is not yet reached by
      any earlier cell. */
  lemma WalkPlace(w: seq<real>, evals: seq<real>, index: nat, t: nat, ps: seq<nat>)
    requires Sorted(evals) && Walked(w, evals, index, t, ps)
    requires t < |w| && evals[index] <= CumThrough(w, t)
    ensures InverseCdf(w, evals[index]) == Some(t)
    ensures index + 1 < |evals| ==> Walked(w, evals, index + 1, t, ps + [t])
    ensures index + 1 == |evals| ==> Placements(w, evals) == ps + [t]
  {
    InverseCdfAt(w, evals[index], t);
    if index + 1 == |evals| {
      PlacementsExact(w, evals, ps + [t]);
    }
  }

  /** Moving past a cell whose cumulative mass stays below the next draw. */
  lemma WalkOn(w: seq<real>, evals: seq<real>, index: nat, t: nat, ps: seq<nat>)
    requires Walked(w, evals, index, t, ps)
    requires t < |w| && CumThrough(w, t) < evals[index]
    ensures Walked(w, evals, index, t + 1, ps)
  {
  }

  /** A walk that ran through every cell has placed exactly the draws before `index`. */
  lemma WalkDone(w: seq<real>, evals: seq<real>, index: nat, ps: seq<nat>)
    requires Walked(w, evals, index, |w|, ps)
    ensures Placements(w, evals) == ps
  {
    PlacementsExact(w, evals, ps);
  }

  /** The walk at cell `pos` once that cell's share has been added: with a
      zero total the mass is NaN and nothing has been emitted; otherwise
      the mass is the cumulative mass through `pos`. */
  ghost predicate AtCell(total: real, w: seq<real>, evals: seq<real>, index: nat, pos: nat, ps: seq<nat>,
                         cdf: Option<real>, sources: seq<Source2D>, cols: nat, n: nat)
  {
    && |sources| == index < n == |evals|
    && (if total == 0.0 then cdf == None && sources == [] && index == 0
        else && cols > 0 && pos < |w| && cdf == Some(CumThrough(w, pos))
             && Walked(w, evals, index, pos, ps) && sources == CellsOf(ps, cols))
  }

  /** Adding the share of cell (ii, jj) of `a` moves the walk from its state
      before the cell to its state at the cell. */
  lemma EnterCell(a: array2<real>, total: real, w: seq<real>, evals: seq<real>, index: nat,
                  ii: nat, jj: nat, pos: nat, ps: seq<nat>, before: Option<real>, after: Option<real>,
                  sources: seq<Source2D>, n: nat)
    requires ii < a.Length0 && jj < a.Length1 && pos == ii * a.Length1 + jj
    requires total != 0.0 ==> w == Normalised(RowMajor(a), total)
    requires WalkInv(total, w, evals, index, pos, ps, before, sources, a.Length1, n)
    requires after == AddShare(before, a[ii, jj], total)
    ensures AtCell(total, w, evals, index, pos, ps, after, sources, a.Length1, n)
  {
    if total != 0.0 {
      CdfStep(a, w, total, ii, jj, pos);
    }
  }

  /** The innermost loop of the walk, at cell (row, col): a source is emitted
      there for each further sorted draw the cumulative mass reaches, until
      all `|evals|` sources exist (`full`). */
  method EmitAt(cdf: Option<real>, evals: seq<real>, row: nat, col: nat, index0: nat, sources0: seq<Source2D>,
                ghost total: real, ghost w: seq<real>, ghost pos: nat, ghost ps0: seq<nat>, ghost cols: nat)
    returns (index: nat, sources: seq<Source2D>, full: bool, ghost ps: seq<nat>)
    requires Sorted(evals) && col < cols && pos == row * cols + col
    requires AtCell(total, w, evals, index0, pos, ps0, cdf, sources0, cols, |evals|)
    ensures full ==> total != 0.0 && |ps| == |evals| && Placements(w, evals) == ps && sources == CellsOf(ps, cols)
    ensures !full ==> WalkInv(total, w, evals, index, pos + 1, ps, cdf, sources, cols, |evals|)
  {
    index, sources, ps := index0, sources0, ps0;
    while cdf.Some? && cdf.value >= evals[index]
      invariant AtCell(total, w, evals, index, pos, ps, cdf, sources, cols, |evals|)
      decreases |evals| - index
    {
      WalkPlace(w, evals, index, pos, ps);
      CellsOfAppend(ps, pos, cols, row, col);
      ps := ps + [pos];
      sources := sources + [Source2D(row, col)];
      if |sources| == |evals| {
        return index, sources, true, ps;
      }
      index := index + 1;
    }
    if cdf.Some? {
      WalkOn(w, evals, index, pos, ps);
    }
    return index, sources, false, ps;
  }

  /** One row of the walk: the shares of the cells of row `ii` of `a` are
      added in turn, emitting sources where the draws are reached; `full`
      when the last source has been emitted. */
  method WalkRow(a: array2<real>, ii: nat, total: real, evals: seq<real>, cdf0: Option<real>,
                 index0: nat, sources0: seq<Source2D>, ghost w: seq<real>, ghost ps0: seq<nat>)
    returns (cdf: Option<real>, index: nat, sources: seq<Source2D>, full: bool, ghost ps: seq<nat>)
    requires ii < a.Length0 && Sorted(evals)
    requires total != 0.0 ==> w == Normalised(RowMajor(a), total)
    requires WalkInv(total, w, evals, index0, ii * a.Length1, ps0, cdf0, sources0, a.Length1, |evals|)
    ensures full ==> total != 0.0 && |ps| == |evals| && Placements(w, evals) == ps
                     && sources == CellsOf(ps, a.Length1)
    ensures !full ==> WalkInv(total, w, evals, index, (ii + 1) * a.Length1, ps, cdf, sources, a.Length1, |evals|)
  {
    cdf, index, sources, ps := cdf0, index0, sources0, ps0;
    ghost var pos := ii * a.Length1;
    var jj := 0;
    while jj < a.Length1
      invariant jj <= a.Length1 && pos == ii * a.Length1 + jj
      invariant WalkInv(total, w, evals, index, pos, ps, cdf, sources, a.Length1, |evals|)
    {
      ghost var before := cdf;
      cdf := AddShare(cdf, a[ii, jj], total);
      EnterCell(a, total, w, evals, index, ii, jj, pos, ps, before, cdf, sources, |evals|);
      index, sources, full, ps := EmitAt(cdf, evals, ii, jj, index, sources, total, w, pos, ps, a.Length1);
      if full {
        return;
      }
      jj := jj + 1;
      pos := pos + 1;
    }
    assert pos == (ii + 1) * a.Length1;
    full := false;
  }

  /** The whole walk over `a`, row by row, with the running mass starting at
      zero: it succeeds exactly when every sorted draw has an inverse-CDF
      cell, and the sources are those cells. */
  method Walk(a: array2<real>, total: real, evals: seq<real>, ghost w: seq<real>)
    returns (ok: bool, sources: seq<Source2D>)
    requires |evals| > 0 && Sorted(evals)
    requires total != 0.0 ==> a.Length1 > 0 && w == Normalised(RowMajor(a), total)
    ensures total == 0.0 ==> !ok && sources == []
    ensures total != 0.0 ==> var ps := Placements(w, evals);
      ok == (|ps| == |evals|) && sources == CellsOf(ps, a.Length1)
  {
    sources := [];
    var index := 0;
    ghost var ps: seq<nat> := [];
    var cdf: Option<real> := Some(0.0);
    var ii := 0;
    while ii < a.Length0
      invariant ii <= a.Length0
      invariant WalkInv(total, w, evals, index, ii * a.Length1, ps, cdf, sources, a.Length1, |evals|)
    {
      var full;
      cdf, index, sources, full, ps := WalkRow(a, ii, total, evals, cdf, index, sources, w, ps);
      if full {
        return true, sources;
      }
      ii := ii + 1;
    }
    if total != 0.0 {
      assert ii * a.Length1 == |w|;
      WalkDone(w, evals, index, ps);
    }
    return false, sources;
  }

  /** The measurements along one sampled trajectory: at each pose the
      sensor placed there counts the sources it sees. */
  method SenseTrajectory(poses: seq<GridPose2D>, fov: real, cone: (GridPose2D, real) -> Sensor2D,
                         sources: seq<Source2D>) returns (ms: seq<nat>)
    ensures ms == SenseAlong(poses, fov, cone, sources)
  {
    ms := [];
    for k := 0 to |poses|
      invariant |ms| == k
      invariant forall i :: 0 <= i < k ==> ms[i] == SenseAt(poses, i, fov, cone, sources)
    {
      ms := ms + [Sense(cone(poses[k], fov), sources)];
    }
  }

  /** The histogram in id order: the trajectory ids, and the count columns
      of the joint matrix. */
  method ExtractColumns(zx: seq<Entry>) returns (ids: seq<nat>, pzx: seq<seq<real>>)
    ensures ids == TrajectoryIds(zx)
    ensures |pzx| == |zx| && forall k :: 0 <= k < |zx| ==> pzx[k] == zx[k].counts
  {
    ids, pzx := [], [];
    for idx := 0 to |zx|
      invariant |ids| == |pzx| == idx
      invariant forall k :: 0 <= k < idx ==> ids[k] == zx[k].id && pzx[k] == zx[k].counts
    {
      ids := ids + [zx[idx].id];
      pzx := pzx + [zx[idx].counts];
    }
  }

  /** Every column whose sum is at least one is divided by its sum; the
      others are left as they are. */
  method NormaliseColumns(pzx0: seq<seq<real>>) returns (pzx: seq<seq<real>>)
    ensures |pzx| == |pzx0|
    ensures forall k :: 0 <= k < |pzx| ==> pzx[k] == NormaliseColumn(pzx0[k])
  {
    pzx := pzx0;
    for jj := 0 to |pzx|
      invariant |pzx| == |pzx0|
      invariant forall k :: 0 <= k < jj ==> pzx[k] == NormaliseColumn(pzx0[k])
      invariant forall k :: jj <= k < |pzx| ==> pzx[k] == pzx0[k]
    {
      var sum := Sum(pzx[jj]);
      if sum >= 1.0 {
        pzx := pzx[jj := Normalised(pzx[jj], sum)];
      }
    }
  }

  /** The conditional entropy of every column, skipping probabilities within
      0.01 of 0 or 1; none is negative (the CHECK that ends the estimator). */
  method ColumnEntropies(pzx: seq<seq<real>>, log: real -> real) returns (hzx: seq<real>)
    requires NonPositiveOnUnit(log)
    ensures |hzx| == |pzx|
    ensures forall k :: 0 <= k < |pzx| ==> hzx[k] == BandEntropy(pzx[k], log) && 0.0 <= hzx[k]
  {
    hzx := [];
    for jj := 0 to |pzx|
      invariant |hzx| == jj
      invariant forall k :: 0 <= k < jj ==> hzx[k] == BandEntropy(pzx[k], log) && 0.0 <= hzx[k]
    {
      var col := pzx[jj];
      var h := 0.0;
      for ii := 0 to |col|
        invariant h == BandEntropy(col[..ii], log)
      {
        var p := col[ii];
        BandEntropyStep(col, ii, log);
        if !(p < 0.01 || p > 1.0 - 0.01) {
          h := h - p * log(p);
        }
      }
      assert col[..|col|] == col;
      BandEntropyNonNegative(col, log);
      hzx := hzx + [h];
    }
  }

  /** The tail of GenerateEntropyVector: the histogram's ids and the band
      entropy of each of its normalised columns. */
  method EntropiesOf(zx: seq<Entry>, ghost outs: seq<Outcome>, width: nat, log: real -> real)
    returns (hzx: seq<real>, ids: seq<nat>)
    requires InRange(outs, width) && zx == Tally(outs, width)
    requires NonPositiveOnUnit(log)
    ensures ids == TrajectoryIds(zx) && hzx == EntropyVector(outs, zx, width, log)
    ensures forall k :: 0 <= k < |hzx| ==> 0.0 <= hzx[k]
  {
    var pzx;
    ids, pzx := ExtractColumns(zx);
    pzx := NormaliseColumns(pzx);
    hzx := ColumnEntropies(pzx, log);
    forall k | 0 <= k < |zx| ensures hzx[k] == BandEntropy(Conditional(outs, zx[k].id, width), log) {
      TallyEntry(outs, width, k);
    }
  }

  // ---- the cells in view of a sensor ----

  /** The column-major indices of the cells (ii, 0) .. (ii, m - 1) that `v`
      sees, in column order. */
  function RowVoxels(v: (nat, nat) -> bool, rows: nat, ii: nat, m: nat): seq<nat>
  {
    if m == 0 then []
    else RowVoxels(v, rows, ii, m - 1) + (if v(ii, m - 1) then [ii + (m - 1) * rows] else [])
  }

  /** The column-major indices of the cells in rows 0 .. n - 1 that `v` sees,
      row by row. */
  function GridVoxels(v: (nat, nat) -> bool, rows: nat, cols: nat, n: nat): seq<nat>
  {
    if n == 0 then [] else GridVoxels(v, rows, cols, n - 1) + RowVoxels(v, rows, n - 1, cols)
  }

  /** The voxel list Update stores for a sensor whose view is `v`. */
  function Voxels(v: (nat, nat) -> bool, rows: nat, cols: nat): seq<nat>
  {
    GridVoxels(v, rows, cols, rows)
  }

  ghost predicate Distinct(s: seq<nat>)
  {
    forall i, j :: 0 <= i < j < |s| ==> s[i] != s[j]
  }

  lemma DistinctAppend(a: seq<nat>, b: seq<nat>)
    requires Distinct(a) && Distinct(b)
    requires forall x :: x in a ==> x !in b
    ensures Distinct(a + b)
  {
    var s := a + b;
    forall i, j | 0 <= i < j < |s| ensures s[i] != s[j] {
      if i < |a| && j >= |a| {
        assert s[i] in a && s[j] == b[j - |a|];
      }
    }
  }

  /** Index `ii + jj * rows` is the cell in row `ii` and column `jj`. */
  lemma ColumnMajor(x: nat, ii: nat, jj: nat, rows: nat)
    requires ii < rows
    ensures x == ii + jj * rows <==> x % rows == ii && x / rows == jj
  {
    FlatIndex(jj, ii, rows);
    assert jj * rows + ii == ii + jj * rows;
  }

  lemma {:induction false} RowVoxelsLaw(v: (nat, nat) -> bool, rows: nat, ii: nat, m: nat)
    requires ii < rows
    ensures forall x: nat :: x in RowVoxels(v, rows, ii, m) <==> x % rows == ii && x / rows < m && v(ii, x / rows)
    ensures Distinct(RowVoxels(v, rows, ii, m))
  {
    if m > 0 {
      RowVoxelsLaw(v, rows, ii, m - 1);
      var prev := RowVoxels(v, rows, ii, m - 1);
      forall x: nat ensures x == ii + (m - 1) * rows <==> x % rows == ii && x / rows == m - 1 {
        ColumnMajor(x, ii, m - 1, rows);
      }
      if v(ii, m - 1) {
        DistinctAppend(prev, [ii + (m - 1) * rows]);
      }
    }
  }

  lemma {:induction false} GridVoxelsLaw(v: (nat, nat) -> bool, rows: nat, cols: nat, n: nat)
    requires 0 < rows && n <= rows
    ensures forall x: nat :: x in GridVoxels(v, rows, cols, n) <==> x % rows < n && x / rows < cols && v(x % rows, x / rows)
    ensures Distinct(GridVoxels(v, rows, cols, n))
  {
    if n > 0 {
      GridVoxelsLaw(v, rows, cols, n - 1);
      RowVoxelsLaw(v, rows, n - 1, cols);
      DistinctAppend(GridVoxels(v, rows, cols, n - 1), RowVoxels(v, rows, n - 1, cols));
    }
  }

  /** The stored voxel list holds exactly the in-view cells, each once, and
      every index is a valid column-major index of the grid. */
  lemma VoxelsLaw(v: (nat, nat) -> bool, rows: nat, cols: nat)
    ensures forall x: nat :: x in Voxels(v, rows, cols) <==> rows > 0 && x < rows * cols && v(x % rows, x / rows)
    ensures Distinct(Voxels(v, rows, cols))
  {
    if rows > 0 {
      GridVoxelsLaw(v, rows, cols, rows);
    }
    forall x: nat | rows > 0 ensures x < rows * cols <==> x / rows < cols {
      if x / rows < cols {
        CellBound(x % rows, x / rows, rows, cols);
      } else {
        MulMonotone(cols, x / rows, rows);
      }
    }
  }

  /** The nested loop of Update that lists the cells in view. */
  method InViewVoxels(sensor: Sensor2D, rows: nat, cols: nat) returns (voxels: seq<nat>)
    ensures voxels == Voxels(sensor.voxelInView, rows, cols)
  {
    var v := sensor.voxelInView;
    voxels := [];
    for ii := 0 to rows
      invariant voxels == GridVoxels(v, rows, cols, ii)
    {
      for jj := 0 to cols
        invariant voxels == GridVoxels(v, rows, cols, ii) + RowVoxels(v, rows, ii, jj)
      {
        if sensor.voxelInView(ii, jj) {
          voxels := voxels + [ii + jj * rows];
        }
      }
    }
  }

  // ---- the map entropy ----

  /** The entropy of one cell's Bernoulli variable, or zero within 1e-8 of
      certainty. */
  function BernoulliEntropy(p: real, log: real -> real): real
  {
    if p > 0.00000001 && p < 1.0 - 0.00000001 then -p * log(p) - (1.0 - p) * log(1.0 - p) else 0.0
  }

  /** The sum of the cells' Bernoulli entropies, accumulated from the first cell. */
  function MapEntropy(cells: seq<real>, log: real -> real): real
  {
    if cells == [] then 0.0 else MapEntropy(cells[..|cells| - 1], log) + BernoulliEntropy(cells[|cells| - 1], log)
  }

  lemma MapEntropyStep(cells: seq<real>, k: nat, log: real -> real)
    requires k < |cells|
    ensures MapEntropy(cells[..k + 1], log) == MapEntropy(cells[..k], log) + BernoulliEntropy(cells[k], log)
  {
    assert cells[..k + 1][..k] == cells[..k];
  }

  /** With a logarithm that is not positive on (0, 1) the map entropy is not negative. */
  lemma {:induction false} MapEntropyNonNegative(cells: seq<real>, log: real -> real)
    requires NonPositiveOnUnit(log)
    ensures 0.0 <= MapEntropy(cells, log)
    decreases |cells|
  {
    if cells != [] {
      var p := cells[|cells| - 1];
      MapEntropyNonNegative(cells[..|cells| - 1], log);
      if p > 0.00000001 && p < 1.0 - 0.00000001 {
        assert log(p) <= 0.0 && log(1.0 - p) <= 0.0;
        NonPositiveProduct(p, log(p));
        NonPositiveProduct(1.0 - p, log(1.0 - p));
      }
    }
  }

  /** A map whose every cell is certain, 0 or 1, has no entropy. */
  lemma {:induction false} MapEntropyCertain(cells: seq<real>, log: real -> real)
    requires forall t :: 0 <= t < |cells| ==> cells[t] == 0.0 || cells[t] == 1.0
    ensures MapEntropy(cells, log) == 0.0
    decreases |cells|
  {
    if cells != [] {
      MapEntropyCertain(cells[..|cells| - 1], log);
    }
  }

  /** The entropy of a uniform map is the cell count times one cell's entropy. */
  lemma {:induction false} MapEntropyUniform(n: nat, p: real, log: real -> real)
    ensures MapEntropy(Constant(n, p), log) == n as real * BernoulliEntropy(p, log)
  {
    if n > 0 {
      assert Constant(n, p)[..n - 1] == Constant(n - 1, p);
      MapEntropyUniform(n - 1, p, log);
    }
  }

  /** The nested loop of Entropy over the cells of `a`, row by row. */
  method BeliefEntropy(a: array2<real>, log: real -> real) returns (entropy: real)
    ensures entropy == MapEntropy(RowMajor(a), log)
  {
    ghost var cells := RowMajor(a);
    ghost var pos := 0;
    entropy := 0.0;
    for ii := 0 to a.Length0
      invariant pos == ii * a.Length1 && pos <= |cells| && entropy == MapEntropy(cells[..pos], log)
    {
      MulMonotone(ii + 1, a.Length0, a.Length1);
      entropy := RowEntropy(a, ii, log, entropy, cells, pos);
      pos := pos + a.Length1;
      assert pos == (ii + 1) * a.Length1;
    }
    assert cells[..pos] == cells;
  }

  /** The inner loop of Entropy: adds the entropies of row `ii`, which starts
      at row-major position `pos0`, to `entropy0`. */
  method RowEntropy(a: array2<real>, ii: nat, log: real -> real, entropy0: real,
                    ghost cells: seq<real>, ghost pos0: nat) returns (entropy: real)
    requires cells == RowMajor(a) && ii < a.Length0 && pos0 == ii * a.Length1
    requires (ii + 1) * a.Length1 <= |cells| && entropy0 == MapEntropy(cells[..pos0], log)
    ensures entropy == MapEntropy(cells[..pos0 + a.Length1], log)
  {
    ghost var pos := pos0;
    entropy := entropy0;
    for jj := 0 to a.Length1
      invariant pos == pos0 + jj && entropy == MapEntropy(cells[..pos], log)
    {
      var p := a[ii, jj];
      EntropyAt(a, cells, log, ii, jj, pos);
      entropy := entropy + BernoulliEntropy(p, log);
      pos := pos + 1;
    }
  }

  lemma EntropyAt(a: array2<real>, cells: seq<real>, log: real -> real, ii: nat, jj: nat, pos: nat)
    requires cells == RowMajor(a) && ii < a.Length0 && jj < a.Length1 && pos == ii * a.Length1 + jj
    ensures pos < |cells|
    ensures MapEntropy(cells[..pos + 1], log) == MapEntropy(cells[..pos], log) + BernoulliEntropy(a[ii, jj], log)
  {
    RowMajorAt(a, ii, jj);
    MapEntropyStep(cells, pos, log);
  }

  /** Cell (i, j) of a column-major vector laid out like the belief matrix. */
  function FitAt(fit: seq<real>, rows: nat, cols: nat, i: nat, j: nat): (r: real)
    requires i < rows && j < cols && |fit| == rows * cols
    ensures i + j * rows < |fit| && r == fit[i + j * rows]
    ensures NonNegative(fit) ==> 0.0 <= r
    ensures InUnit(fit) ==> 0.0 <= r <= 1.0
  {
    CellBound(i, j, rows, cols);
    fit[i + j * rows]
  }

  ghost predicate InUnit(s: seq<real>)
  {
    forall t :: 0 <= t < |s| ==> 0.0 <= s[t] <= 1.0
  }

  /** The belief matrix as the solver sees it: its column-major data. */
  function BeliefData(a: array2<real>): (d: seq<real>)
    reads a
    ensures |d| == a.Length0 * a.Length1
    ensures forall i, j :: 0 <= i < a.Length0 && 0 <= j < a.Length1 ==>
      FitAt(d, a.Length0, a.Length1, i, j) == a[i, j]
  {
    var d := seq(a.Length0 * a.Length1, t requires 0 <= t < a.Length0 * a.Length1 reads a =>
      DataAt(a, t));
    forall i, j | 0 <= i < a.Length0 && 0 <= j < a.Length1
      ensures FitAt(d, a.Length0, a.Length1, i, j) == a[i, j]
    {
      CellBound(i, j, a.Length0, a.Length1);
      ColumnMajor(i + j * a.Length0, i, j, a.Length0);
    }
    d
  }

  function DataAt(a: array2<real>, t: nat): real
    requires t < a.Length0 * a.Length1
    reads a
  {
    FlatBound(t, a.Length1, a.Length0);
    a[t % a.Length0, t / a.Length0]
  }

  /** A failed solve may leave the belief as it was, whatever its values:
      the old belief is itself an admissible outcome of the solver, also when
      the prior puts more than one source in a cell and so lies outside the
      bound constraints. */
  lemma UnusableSolveKeeps(a: array2<real>)
    requires forall i, j :: 0 <= i < a.Length0 && 0 <= j < a.Length1 ==> 0.0 <= a[i, j]
    ensures NonNegative(BeliefData(a))
  {
    var d := BeliefData(a);
    forall t | 0 <= t < |d| ensures 0.0 <= d[t] {
      FlatBound(t, a.Length1, a.Length0);
    }
  }

  lemma CellsOfAppend(ps: seq<nat>, t: nat, cols: nat, row: nat, col: nat)
    requires cols > 0 && col < cols && t == row * cols + col
    ensures CellsOf(ps + [t], cols) == CellsOf(ps, cols) + [Source2D(row, col)]
  {
    FlatIndex(row, col, cols);
  }

  /** The cumulative normalised mass through row-major cell (ii, jj). */
  lemma CdfStep(a: array2<real>, w: seq<real>, total: real, ii: nat, jj: nat, t: nat)
    requires total != 0.0 && ii < a.Length0 && jj < a.Length1 && t == ii * a.Length1 + jj
    requires w == Normalised(RowMajor(a), total)
    ensures t < |w|
    ensures CumThrough(w, t) == Sum(w[..t]) + a[ii, jj] / total
  {
    RowMajorAt(a, ii, jj);
    SumPrefixStep(w, t);
  }

  class GridMap2D {
    const numRows: nat
    const numCols: nat
    const numSources: nat
    const regularizer: real
    /** belief[i, j]: the probability that cell (i, j) holds a source. */
    var belief: array2<real>
    /** For each observation, the column-major indices of the cells in view. */
    var viewed: seq<seq<nat>>
    /** For each observation, the number of sources measured. */
    var measurements: seq<nat>

    ghost predicate Valid()
      reads this, belief
    {
      && belief.Length0 == numRows && belief.Length1 == numCols
      && (forall i, j :: 0 <= i < numRows && 0 <= j < numCols ==> 0.0 <= belief[i, j])
      && |viewed| == |measurements|
      && (forall k, x :: 0 <= k < |viewed| && 0 <= x < |viewed[k]| ==> viewed[k][x] < numRows * numCols)
      && (forall k :: 0 <= k < |measurements| ==> measurements[k] <= numSources)
    }

    /** The belief in row-major order. */
    function Cells(): (cs: seq<real>)
      reads this, belief
      ensures |cs| == belief.Length0 * belief.Length1
    {
      RowMajor(belief)
    }

    /** A uniform prior: every cell holds `sources / (rows * cols)`, so the
        expected number of sources on the grid is `sources`. */
    constructor (rows: nat, cols: nat, sources: nat, regularizer: real)
      ensures Valid() && fresh(belief)
      ensures numRows == rows && numCols == cols && numSources == sources
      ensures this.regularizer == regularizer
      ensures viewed == [] && measurements == []
      ensures forall i, j :: 0 <= i < rows && 0 <= j < cols ==> belief[i, j] == sources as real / (rows * cols) as real
      ensures rows * cols > 0 ==> Cells() == Constant(rows * cols, sources as real / (rows * cols) as real)
    {
      numRows, numCols, numSources := rows, cols, sources;
      this.regularizer := regularizer;
      belief := new real[rows, cols]((i, j) requires 0 <= i < rows && 0 <= j < cols =>
        sources as real / (rows * cols) as real);
      viewed, measurements := [], [];
      new;
      if rows * cols > 0 {
        var share := sources as real / (rows * cols) as real;
        forall t | 0 <= t < rows * cols ensures Cells()[t] == share {
          FlatBound(t, rows, cols);
        }
      }
    }

    lemma GridShape()
      requires Valid()
      ensures |Cells()| == numRows * numCols
      ensures numCols > 0 || Cells() == []
    {
    }

    /** Draws `numSources` sources from the belief by inverse-CDF sampling of
        the sorted draws, walking the cells row by row. */
    method GenerateSources(draws: seq<real>) returns (ok: bool, sources: seq<Source2D>)
      requires Valid()
      requires |draws| == numSources && numSources > 0
      ensures numCols > 0 || Cells() == []
      ensures var d := DrawSources(Cells(), numCols, draws); ok == d.ok && sources == d.sources
    {
      GridShape();
      var total := Sum(Cells());
      ghost var w := if total != 0.0 then Normalised(Cells(), total) else [];
      var evals := SortAscending(draws);
      ok, sources := Walk(belief, total, evals, w);
    }

    /** The Monte Carlo estimate of h(Z | X) for every trajectory seen in
        `samples`: each sample whose sources can be drawn is sensed along its
        trajectory and tallied, the tallies are normalised per trajectory and
        their entropies taken, in increasing trajectory id. */
    method GenerateEntropyVector(samples: seq<Sample>, numSteps: nat, fov: real,
                                 cone: (GridPose2D, real) -> Sensor2D, log: real -> real)
      returns (hzx: seq<real>, ids: seq<nat>)
      requires Valid() && numSources > 0
      requires WellFormed(samples, numSources, numSteps)
      requires NonPositiveOnUnit(log)
      ensures numCols > 0 || Cells() == []
      ensures var width := MeasurementSpace(numSources, numSteps);
        var outs := Outcomes(Cells(), numCols, numSources, fov, cone, samples);
        && InRange(outs, width)
        && ids == TrajectoryIds(Tally(outs, width))
        && hzx == EntropyVector(outs, Tally(outs, width), width, log)
      ensures |hzx| == |ids| && forall k :: 0 <= k < |hzx| ==> 0.0 <= hzx[k]
    {
      GridShape();
      var width := Pow(numSources + 1, numSteps);
      var zx: seq<Entry> := [];
      ghost var outs: seq<Outcome> := [];
      for ii := 0 to |samples|
        invariant outs == Outcomes(Cells(), numCols, numSources, fov, cone, samples[..ii])
        invariant InRange(outs, width) && zx == Tally(outs, width)
      {
        var s := samples[ii];
        OutcomesStep(Cells(), numCols, numSources, fov, cone, samples, ii);
        assert WellFormed(samples[..ii + 1], numSources, numSteps);
        OutcomesInRange(Cells(), numCols, numSources, numSteps, fov, cone, samples[..ii + 1]);
        var ok, sources := GenerateSources(s.draws);
        if !ok {
          continue;
        }
        var measurements := SenseTrajectory(s.poses, fov, cone, sources);
        var measurementId := EncodeMeasurements(measurements, numSources);
        ghost var next := outs + [(s.trajectoryId, measurementId)];
        assert next == Outcomes(Cells(), numCols, numSources, fov, cone, samples[..ii + 1]);
        assert next[|outs|].1 < width;
        zx := Record(zx, s.trajectoryId, measurementId, width);
        outs := next;
      }
      assert samples[..|samples|] == samples;
      hzx, ids := EntropiesOf(zx, outs, width, log);
    }

    /** Writes the solver's result `fit`, the column-major data it leaves in
        the belief matrix, into the belief and reports whether the solver
        called the solution usable. A usable solution lies within the bound
        constraints [0, 1]; an unusable one may be anything non-negative, and
        in particular the old belief (`BeliefData(belief)`), which is what a
        solve started outside the bounds leaves behind. */
    method SolveLeastSquares(fit: seq<real>, usable: bool) returns (ok: bool)
      requires Valid()
      requires |fit| == numRows * numCols && NonNegative(fit)
      requires usable ==> InUnit(fit)
      modifies belief
      ensures Valid()
      ensures ok == usable
      ensures forall i, j :: 0 <= i < numRows && 0 <= j < numCols ==>
        belief[i, j] == FitAt(fit, numRows, numCols, i, j)
      ensures usable ==> forall i, j :: 0 <= i < numRows && 0 <= j < numCols ==> 0.0 <= belief[i, j] <= 1.0
    {
      forall i, j | 0 <= i < numRows && 0 <= j < numCols {
        belief[i, j] := FitAt(fit, numRows, numCols, i, j);
      }
      ok := usable;
    }

    /** Records one observation, the cells in view of `sensor` and the number
        of `sources` it sees, and refits the belief when `solve` is set. */
    method Update(sensor: Sensor2D, sources: seq<Source2D>, solve: bool, fit: seq<real>, usable: bool)
      returns (ok: bool)
      requires Valid()
      requires Sense(sensor, sources) <= numSources
      requires solve ==> |fit| == numRows * numCols && NonNegative(fit) && (usable ==> InUnit(fit))
      modifies this, belief
      ensures Valid() && belief == old(belief)
      ensures viewed == old(viewed) + [Voxels(sensor.voxelInView, numRows, numCols)]
      ensures measurements == old(measurements) + [Sense(sensor, sources)]
      ensures !solve ==> ok && forall i, j :: 0 <= i < numRows && 0 <= j < numCols ==> belief[i, j] == old(belief[i, j])
      ensures solve ==> ok == usable && forall i, j :: 0 <= i < numRows && 0 <= j < numCols ==>
        belief[i, j] == FitAt(fit, numRows, numCols, i, j)
      ensures solve && usable ==> forall i, j :: 0 <= i < numRows && 0 <= j < numCols ==>
        0.0 <= belief[i, j] <= 1.0
    {
      var measurement := Sense(sensor, sources);
      var voxels := InViewVoxels(sensor, numRows, numCols);
      VoxelsLaw(sensor.voxelInView, numRows, numCols);
      assert forall x :: 0 <= x < |voxels| ==> voxels[x] in voxels;
      viewed := viewed + [voxels];
      measurements := measurements + [measurement];
      if solve {
        ok := SolveLeastSquares(fit, usable);
        return;
      }
      return true;
    }

    /** The map entropy: the sum over cells of their Bernoulli entropies. */
    method Entropy(log: real -> real) returns (entropy: real)
      requires Valid()
      ensures entropy == MapEntropy(Cells(), log)
      ensures NonPositiveOnUnit(log) ==> 0.0 <= entropy
    {
      entropy := BeliefEntropy(belief, log);
      if NonPositiveOnUnit(log) {
        MapEntropyNonNegative(Cells(), log);
      }
    }
  }
}
