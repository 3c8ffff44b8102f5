/** The explorer: it owns a belief map, the hidden true sources and the
    robot's pose; it plans by picking the trajectory of largest estimated
    conditional entropy and moves by taking the first pose of a trajectory,
    sensing there and refitting the map. */
module Explorer {
  import opened Numerics
  import opened Geometry
  import opened Encoding
  import opened Histogram
  import opened Estimator
  import opened BeliefMap

  /** `2.0 * M_PI` in double precision. */
  const TwoPi: real := 6.283185307179586

  /** `n - 1` for a 32-bit unsigned `n`: it wraps to 2^32 - 1 at zero. */
  function LastIndex(n: nat): (r: nat)
    ensures n > 0 ==> r < n
    ensures n == 0 ==> r == 0xFFFF_FFFF
  {
    if n == 0 then 0xFFFF_FFFF else n - 1
  }

  /** A draw of the unsigned uniform distribution over [0, last]. */
  ghost predicate CellDraw(row: nat, col: nat, rows: nat, cols: nat)
  {
    row <= LastIndex(rows) && col <= LastIndex(cols)
  }

  /** The first position holding the largest value of `h`. */
  function FirstMax(h: seq<real>): (k: nat)
    requires |h| > 0
    ensures k < |h|
    ensures forall j :: 0 <= j < |h| ==> h[j] <= h[k]
    ensures forall j :: 0 <= j < k ==> h[j] < h[k]
    decreases |h|
  {
    if |h| == 1 then 0
    else
      var k := FirstMax(h[..|h| - 1]);
      if h[|h| - 1] > h[k] then |h| - 1 else k
  }

  /** A position that holds the largest value of `h` and where no earlier
      one is as large is the one `FirstMax` finds. */
  lemma FirstMaxUnique(h: seq<real>, k: nat)
    requires k < |h|
    requires forall j :: 0 <= j < |h| ==> h[j] <= h[k]
    requires forall j :: 0 <= j < k ==> h[j] < h[k]
    ensures FirstMax(h) == k
  {
    var f := FirstMax(h);
    assert h[f] <= h[k] && h[k] <= h[f];
  }

  lemma FirstMaxStep(h: seq<real>, ii: nat)
    requires ii < |h|
    ensures ii == 0 ==> FirstMax(h[..ii + 1]) == 0
    ensures ii > 0 ==> FirstMax(h[..ii + 1]) == if h[ii] > h[FirstMax(h[..ii])] then ii else FirstMax(h[..ii])
  {
    assert h[..ii + 1][..ii] == h[..ii];
  }

  /** The arg-max loop of PlanAhead: starting from -1, an entry replaces the
      best so far only when it is strictly larger. */
  method ArgMax(hzx: seq<real>, ids: seq<nat>) returns (maxValue: real, trajectoryId: nat)
    requires |hzx| == |ids|
    ensures 0.0 <= maxValue <==> exists k :: 0 <= k < |hzx| && 0.0 <= hzx[k]
    ensures 0.0 <= maxValue ==> maxValue == hzx[FirstMax(hzx)] && trajectoryId == ids[FirstMax(hzx)]
  {
    maxValue, trajectoryId := -1.0, 0;
    for ii := 0 to |hzx|
      invariant -1.0 < maxValue ==>
        ii > 0 && maxValue == hzx[FirstMax(hzx[..ii])] && trajectoryId == ids[FirstMax(hzx[..ii])]
      invariant maxValue <= -1.0 ==> maxValue == -1.0 && forall k :: 0 <= k < ii ==> hzx[k] <= -1.0
    {
      FirstMaxStep(hzx, ii);
      if hzx[ii] > maxValue {
        maxValue := hzx[ii];
        trajectoryId := ids[ii];
      }
    }
    assert hzx[..|hzx|] == hzx;
  }

  /** With exact arithmetic PlanAhead cannot fail on a belief of non-zero
      mass: every sample draws its sources, so the histogram has a trajectory,
      and no trajectory's entropy is negative. */
  lemma PlanAheadSucceeds(cells: seq<real>, cols: nat, numSources: nat, numSteps: nat, fov: real,
                          cone: (GridPose2D, real) -> Sensor2D, samples: seq<Sample>, log: real -> real)
    requires cols > 0 && Sum(cells) != 0.0 && |samples| > 0
    requires WellFormed(samples, numSources, numSteps)
    requires forall i, k :: 0 <= i < |samples| && 0 <= k < |samples[i].draws| ==> samples[i].draws[k] <= 1.0
    requires NonPositiveOnUnit(log)
    ensures var width := MeasurementSpace(numSources, numSteps);
      var outs := Outcomes(cells, cols, numSources, fov, cone, samples);
      InRange(outs, width) &&
      var hzx := EntropyVector(outs, Tally(outs, width), width, log);
      exists k :: 0 <= k < |hzx| && 0.0 <= hzx[k]
  {
    var width := MeasurementSpace(numSources, numSteps);
    var outs := Outcomes(cells, cols, numSources, fov, cone, samples);
    OutcomesInRange(cells, cols, numSources, numSteps, fov, cone, samples);
    AllSucceed(cells, cols, samples);
    OutcomesCount(cells, cols, numSources, fov, cone, samples);
    var es := Tally(outs, width);
    TallyNonEmpty(outs, width);
    BandEntropyNonNegative(Conditional(outs, es[0].id, width), log);
    var hzx := EntropyVector(outs, es, width, log);
    assert 0.0 <= hzx[0];
  }

  class ExplorerLP {
    const grid: GridMap2D
    const numSteps: nat
    const numSamples: nat
    const fov: real
    /** Sensor2D(pose, fov): the cells the sensor at a pose sees. */
    const cone: (GridPose2D, real) -> Sensor2D
    /** DecodeTrajectory(id, steps, pose): the poses of a trajectory id. */
    const decode: (nat, nat, GridPose2D) -> seq<GridPose2D>
    /** The natural logarithm. */
    const log: real -> real
    var pose: GridPose2D
    var pastPoses: seq<GridPose2D>
    /** The true sources, which only the simulated sensor sees. */
    var sources: seq<Source2D>

    ghost predicate Valid()
      reads this, grid, grid.belief
    {
      && grid.Valid()
      && |sources| == grid.numSources
      && NonPositiveOnUnit(log)
    }

    /** A uniform map, `numSources` sources drawn uniformly over the lattice
        and a random pose; the draws of the unsigned uniform distributions
        over [0, rows - 1] and [0, cols - 1] and of the angle in [0, 2 pi)
        are inputs. */
    constructor (rows: nat, cols: nat, numSources: nat, regularizer: real, numSteps: nat, fov: real,
                 numSamples: nat, sourceDraws: seq<Source2D>, poseDraw: GridPose2D,
                 cone: (GridPose2D, real) -> Sensor2D, decode: (nat, nat, GridPose2D) -> seq<GridPose2D>,
                 log: real -> real)
      requires |sourceDraws| == numSources
      requires forall k :: 0 <= k < numSources ==> CellDraw(sourceDraws[k].row, sourceDraws[k].col, rows, cols)
      requires CellDraw(poseDraw.row, poseDraw.col, rows, cols) && 0.0 <= poseDraw.angle < TwoPi
      requires NonPositiveOnUnit(log)
      ensures Valid() && fresh(grid) && fresh(grid.belief)
      ensures grid.numRows == rows && grid.numCols == cols && grid.numSources == numSources
      ensures grid.viewed == [] && grid.measurements == []
      ensures rows * cols > 0 ==> grid.Cells() == Constant(rows * cols, numSources as real / (rows * cols) as real)
      ensures this.numSteps == numSteps && this.numSamples == numSamples && this.fov == fov
      ensures this.cone == cone && this.decode == decode && this.log == log
      ensures sources == sourceDraws && pose == poseDraw && pastPoses == []
      ensures 0.0 <= pose.angle < TwoPi
      ensures rows > 0 && cols > 0 ==> InGrid(sources, rows, cols) && pose.row < rows && pose.col < cols
    {
      grid := new GridMap2D(rows, cols, numSources, regularizer);
      this.numSteps, this.numSamples, this.fov := numSteps, numSamples, fov;
      this.cone, this.decode, this.log := cone, decode, log;
      pose := GridPose2D(0, 0, 0.0);
      pastPoses := [];
      var drawn := [];
      for ii := 0 to numSources
        invariant drawn == sourceDraws[..ii]
      {
        drawn := drawn + [Source2D(sourceDraws[ii].row, sourceDraws[ii].col)];
      }
      sources := drawn;
      pose := GridPose2D(poseDraw.row, poseDraw.col, poseDraw.angle);
    }

    /** Estimates the conditional entropy of the trajectories of `samples`
        and decodes the first one of largest entropy from the current pose;
        fails, leaving `trajectory` as it was, when no trajectory has a
        non-negative entropy. */
    method PlanAhead(trajectory: seq<GridPose2D>, samples: seq<Sample>)
      returns (ok: bool, planned: seq<GridPose2D>)
      requires Valid() && grid.numSources > 0
      requires |samples| == numSamples && WellFormed(samples, grid.numSources, numSteps)
      ensures grid.numCols > 0 || grid.Cells() == []
      ensures InRange(Outcomes(grid.Cells(), grid.numCols, grid.numSources, fov, cone, samples),
                      MeasurementSpace(grid.numSources, numSteps))
      ensures var width := MeasurementSpace(grid.numSources, numSteps);
        var outs := Outcomes(grid.Cells(), grid.numCols, grid.numSources, fov, cone, samples);
        var es := Tally(outs, width);
        var hzx := EntropyVector(outs, es, width, log);
        && (ok <==> exists k :: 0 <= k < |hzx| && 0.0 <= hzx[k])
        && (!ok ==> planned == trajectory)
        && (ok ==> planned == decode(TrajectoryIds(es)[FirstMax(hzx)], numSteps, pose))
    {
      var hzx, ids := grid.GenerateEntropyVector(samples, numSteps, fov, cone, log);
      var maxValue, trajectoryId := ArgMax(hzx, ids);
      if maxValue < 0.0 {
        return false, trajectory;
      }
      return true, decode(trajectoryId, numSteps, pose);
    }

    /** Moves to the first pose of `trajectory`, records what the sensor
        there sees of the true sources, refits the map with the solver's
        result `fit` and returns the map entropy afterwards. */
    method TakeStep(trajectory: seq<GridPose2D>, fit: seq<real>, usable: bool) returns (entropy: real)
      requires Valid() && |trajectory| > 0
      requires |fit| == grid.numRows * grid.numCols && NonNegative(fit) && (usable ==> InUnit(fit))
      modifies this, grid, grid.belief
      ensures Valid() && grid.belief == old(grid.belief)
      ensures pastPoses == old(pastPoses) + [old(pose)] && pose == trajectory[0]
      ensures sources == old(sources)
      ensures grid.viewed == old(grid.viewed) + [Voxels(cone(pose, fov).voxelInView, grid.numRows, grid.numCols)]
      ensures grid.measurements == old(grid.measurements) + [Sense(cone(pose, fov), sources)]
      ensures forall i, j :: 0 <= i < grid.numRows && 0 <= j < grid.numCols ==>
        grid.belief[i, j] == FitAt(fit, grid.numRows, grid.numCols, i, j)
      ensures usable ==> forall i, j :: 0 <= i < grid.numRows && 0 <= j < grid.numCols ==>
        0.0 <= grid.belief[i, j] <= 1.0
      ensures entropy == MapEntropy(grid.Cells(), log) && 0.0 <= entropy
    {
      pastPoses := pastPoses + [pose];
      pose := trajectory[0];
      var sensor := cone(pose, fov);
      var _ := grid.Update(sensor, sources, true, fit, usable);
      entropy := grid.Entropy(log);
    }

    /** The entropy of the belief map. */
    method Entropy() returns (entropy: real)
      requires Valid()
      ensures entropy == MapEntropy(grid.Cells(), log) && 0.0 <= entropy
    {
      entropy := grid.Entropy(log);
    }
  }
}
