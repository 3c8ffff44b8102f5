/** The Monte Carlo estimator behind GenerateEntropyVector, as functions of
    the belief: each sample draws sources, follows a trajectory and senses
    along it; the (trajectory id, measurement id) pairs of the samples whose
    sources could be drawn are tallied per trajectory, every column is
    normalised into P(Z | X) and its entropy taken, skipping probabilities
    within 0.01 of 0 or 1. */
module Estimator {
  import opened Numerics
  import opened Geometry
  import opened Encoding
  import opened Sampling
  import opened Histogram

  /** One Monte Carlo sample: the uniform draws for the source sampler, the
      id of the random trajectory that was followed and the pose after each
      of its steps. */
  datatype Sample = Sample(draws: seq<real>, trajectoryId: nat, poses: seq<GridPose2D>)

  /** The measurement taken at each pose of a trajectory. */
  function SenseAlong(poses: seq<GridPose2D>, fov: real, cone: (GridPose2D, real) -> Sensor2D,
                      sources: seq<Source2D>): (ms: seq<nat>)
    ensures |ms| == |poses|
    ensures forall i :: 0 <= i < |ms| ==> ms[i] <= |sources|
  {
    seq(|poses|, i requires 0 <= i < |poses| => SenseAt(poses, i, fov, cone, sources))
  }

  function SenseAt(poses: seq<GridPose2D>, i: nat, fov: real, cone: (GridPose2D, real) -> Sensor2D,
                   sources: seq<Source2D>): (m: nat)
    requires i < |poses|
    ensures m <= |sources|
  {
    Sense(cone(poses[i], fov), sources)
  }

  /** The number of measurement sequences of `numSteps` steps with counts in
      [0, numSources]. */
  function MeasurementSpace(numSources: nat, numSteps: nat): (w: nat)
    ensures w > 0
  {
    Pow(numSources + 1, numSteps)
  }

  /** The outcomes recorded for `samples` over the row-major `cells`: a sample
      whose sources cannot be drawn is skipped. */
  function Outcomes(cells: seq<real>, cols: nat, numSources: nat, fov: real,
                    cone: (GridPose2D, real) -> Sensor2D, samples: seq<Sample>): (outs: seq<Outcome>)
    requires cols > 0 || cells == []
  {
    if samples == [] then []
    else
      var prev := Outcomes(cells, cols, numSources, fov, cone, samples[..|samples| - 1]);
      var s := samples[|samples| - 1];
      var d := DrawSources(cells, cols, s.draws);
      if d.ok then prev + [(s.trajectoryId, EncodeMeasurements(SenseAlong(s.poses, fov, cone, d.sources), numSources))]
      else prev
  }

  /** The outcomes of one more sample: its outcome is appended when its
      sources can be drawn. */
  lemma OutcomesStep(cells: seq<real>, cols: nat, numSources: nat, fov: real,
                     cone: (GridPose2D, real) -> Sensor2D, samples: seq<Sample>, ii: nat)
    requires cols > 0 || cells == []
    requires ii < |samples|
    ensures var prev := Outcomes(cells, cols, numSources, fov, cone, samples[..ii]);
      var s := samples[ii];
      var d := DrawSources(cells, cols, s.draws);
      Outcomes(cells, cols, numSources, fov, cone, samples[..ii + 1]) ==
        if d.ok then prev + [(s.trajectoryId, EncodeMeasurements(SenseAlong(s.poses, fov, cone, d.sources), numSources))]
        else prev
  {
    assert samples[..ii + 1][..ii] == samples[..ii];
  }

  /** The number of samples whose sources can be drawn. */
  function Successes(cells: seq<real>, cols: nat, samples: seq<Sample>): (n: nat)
    requires cols > 0 || cells == []
    ensures n <= |samples|
  {
    if samples == [] then 0
    else
      var ok := DrawSources(cells, cols, samples[|samples| - 1].draws).ok;
      Successes(cells, cols, samples[..|samples| - 1]) + (if ok then 1 else 0)
  }

  ghost predicate WellFormed(samples: seq<Sample>, numSources: nat, numSteps: nat)
  {
    forall i :: 0 <= i < |samples| ==> |samples[i].draws| == numSources && |samples[i].poses| == numSteps
  }

  /** Every recorded measurement id lies in the measurement space. */
  lemma {:induction false} OutcomesInRange(cells: seq<real>, cols: nat, numSources: nat, numSteps: nat, fov: real,
                                           cone: (GridPose2D, real) -> Sensor2D, samples: seq<Sample>)
    requires cols > 0 || cells == []
    requires WellFormed(samples, numSources, numSteps)
    ensures InRange(Outcomes(cells, cols, numSources, fov, cone, samples), MeasurementSpace(numSources, numSteps))
    decreases |samples|
  {
    if samples != [] {
      var s := samples[|samples| - 1];
      assert WellFormed(samples[..|samples| - 1], numSources, numSteps);
      OutcomesInRange(cells, cols, numSources, numSteps, fov, cone, samples[..|samples| - 1]);
      var d := DrawSources(cells, cols, s.draws);
      if d.ok {
        MeasurementIdBound(SenseAlong(s.poses, fov, cone, d.sources), numSources);
      }
    }
  }

  /** A sample whose source generation fails adds nothing and every other
      sample adds exactly one outcome. */
  lemma {:induction false} OutcomesCount(cells: seq<real>, cols: nat, numSources: nat, fov: real,
                                         cone: (GridPose2D, real) -> Sensor2D, samples: seq<Sample>)
    requires cols > 0 || cells == []
    ensures |Outcomes(cells, cols, numSources, fov, cone, samples)| == Successes(cells, cols, samples)
    decreases |samples|
  {
    if samples != [] {
      OutcomesCount(cells, cols, numSources, fov, cone, samples[..|samples| - 1]);
    }
  }

  /** The grand total of the histogram's counts is the number of samples whose
      sources could be drawn. */
  lemma HistogramTotal(cells: seq<real>, cols: nat, numSources: nat, numSteps: nat, fov: real,
                       cone: (GridPose2D, real) -> Sensor2D, samples: seq<Sample>)
    requires cols > 0 || cells == []
    requires WellFormed(samples, numSources, numSteps)
    ensures var outs := Outcomes(cells, cols, numSources, fov, cone, samples);
      InRange(outs, MeasurementSpace(numSources, numSteps)) &&
      Total(Tally(outs, MeasurementSpace(numSources, numSteps))) == Successes(cells, cols, samples) as real
  {
    OutcomesInRange(cells, cols, numSources, numSteps, fov, cone, samples);
    OutcomesCount(cells, cols, numSources, fov, cone, samples);
    TallyTotal(Outcomes(cells, cols, numSources, fov, cone, samples), MeasurementSpace(numSources, numSteps));
  }

  /** With exact arithmetic and draws of at most one, a belief whose total mass
      is not zero lets every sample draw its sources. */
  lemma {:induction false} AllSucceed(cells: seq<real>, cols: nat, samples: seq<Sample>)
    requires cols > 0 && Sum(cells) != 0.0
    requires forall i, k :: 0 <= i < |samples| && 0 <= k < |samples[i].draws| ==> samples[i].draws[k] <= 1.0
    ensures Successes(cells, cols, samples) == |samples|
    decreases |samples|
  {
    if samples != [] {
      var s := samples[|samples| - 1];
      AllSucceed(cells, cols, samples[..|samples| - 1]);
      DrawSourcesSucceeds(cells, cols, s.draws);
    }
  }

  // ---- normalisation and entropy ----

  /** Column `id` of P(Z | X) after normalisation: a column whose counts sum
      to less than one is left as it is, every other is divided by its sum. */
  function Conditional(outs: seq<Outcome>, id: nat, width: nat): (p: seq<real>)
    ensures |p| == width
  {
    NormaliseColumn(Column(outs, id, width))
  }

  /** A count column divided by its sum, unless the sum is below one. */
  function NormaliseColumn(col: seq<real>): (p: seq<real>)
    ensures |p| == |col|
  {
    if Sum(col) < 1.0 then col else Normalised(col, Sum(col))
  }

  /** Every recorded trajectory has a count of at least one, so its column is
      always normalised: it is the empirical conditional distribution. */
  lemma ConditionalIsEmpirical(outs: seq<Outcome>, id: nat, width: nat)
    requires InRange(outs, width) && id in Keys(outs)
    ensures CountId(outs, id) > 0
    ensures Conditional(outs, id, width) == Empirical(outs, id, width)
    ensures Sum(Conditional(outs, id, width)) == 1.0
  {
    KeysCountId(outs, id);
    ColumnSum(outs, id, width);
    EmpiricalIsDistribution(outs, id, width);
  }

  /** The term `p` contributes to the conditional entropy: nothing within 0.01
      of 0 or 1, `-p log p` otherwise. */
  function EntropyTerm(p: real, log: real -> real): real
  {
    if p < 0.01 || p > 1.0 - 0.01 then 0.0 else -(p * log(p))
  }

  /** The conditional entropy of one column, accumulated from the first
      measurement id to the last. */
  function BandEntropy(p: seq<real>, log: real -> real): real
  {
    if p == [] then 0.0 else BandEntropy(p[..|p| - 1], log) + EntropyTerm(p[|p| - 1], log)
  }

  lemma BandEntropyStep(p: seq<real>, k: nat, log: real -> real)
    requires k < |p|
    ensures BandEntropy(p[..k + 1], log) == BandEntropy(p[..k], log) + EntropyTerm(p[k], log)
  {
    assert p[..k + 1][..k] == p[..k];
  }

  /** When the logarithm is not positive on (0, 1) no column has negative
      entropy (the CHECK at the end of GenerateEntropyVector). */
  lemma {:induction false} BandEntropyNonNegative(p: seq<real>, log: real -> real)
    requires NonPositiveOnUnit(log)
    ensures 0.0 <= BandEntropy(p, log)
    decreases |p|
  {
    if p != [] {
      var x := p[|p| - 1];
      BandEntropyNonNegative(p[..|p| - 1], log);
      if !(x < 0.01 || x > 1.0 - 0.01) {
        assert log(x) <= 0.0;
        NonPositiveProduct(x, log(x));
      }
    }
  }

  lemma NonPositiveProduct(x: real, y: real)
    requires 0.0 <= x && y <= 0.0
    ensures x * y <= 0.0
  {
  }

  /** A column of certain outcomes, every probability 0 or 1, has no entropy. */
  lemma {:induction false} BandEntropyCertain(p: seq<real>, log: real -> real)
    requires forall i :: 0 <= i < |p| ==> p[i] == 0.0 || p[i] == 1.0
    ensures BandEntropy(p, log) == 0.0
    decreases |p|
  {
    if p != [] {
      BandEntropyCertain(p[..|p| - 1], log);
    }
  }

  /** The trajectory ids of the histogram, in the order an ordered map visits them. */
  function TrajectoryIds(es: seq<Entry>): (ids: seq<nat>)
    ensures |ids| == |es|
  {
    seq(|es|, k requires 0 <= k < |es| => es[k].id)
  }

  /** h(Z | X = id) for each trajectory id of the histogram, in the same order. */
  function EntropyVector(outs: seq<Outcome>, es: seq<Entry>, width: nat, log: real -> real): (h: seq<real>)
    ensures |h| == |es|
  {
    seq(|es|, k requires 0 <= k < |es| => BandEntropy(Conditional(outs, es[k].id, width), log))
  }

  /** Entry `k` of the histogram holds the counts of its own trajectory. */
  lemma TallyEntry(outs: seq<Outcome>, width: nat, k: nat)
    requires InRange(outs, width) && k < |Tally(outs, width)|
    ensures Tally(outs, width)[k].counts == Column(outs, Tally(outs, width)[k].id, width)
  {
    var es := Tally(outs, width);
    LookupAt(es, k);
    IdsAt(es, k);
    TallyLookup(outs, width, es[k].id);
  }

  /** A histogram that recorded an outcome has an entry. */
  lemma TallyNonEmpty(outs: seq<Outcome>, width: nat)
    requires InRange(outs, width) && outs != []
    ensures Tally(outs, width) != []
  {
    assert outs[|outs| - 1].0 in Keys(outs);
  }

  lemma IdsAt(es: seq<Entry>, k: nat)
    requires k < |es|
    ensures es[k].id in Ids(es)
  {
    if k > 0 {
      IdsAt(es[1..], k - 1);
    }
  }

  lemma {:induction false} IdsHas(es: seq<Entry>, x: nat)
    requires x in Ids(es)
    ensures exists k :: 0 <= k < |es| && es[k].id == x
  {
    if es[0].id != x {
      IdsHas(es[1..], x);
      var k :| 0 <= k < |es[1..]| && es[1..][k].id == x;
      assert es[k + 1].id == x;
    }
  }

  /** The ids the estimator reports are strictly increasing and are exactly
      the trajectories of the samples whose sources could be drawn. */
  lemma TrajectoryIdsLaw(outs: seq<Outcome>, width: nat)
    requires InRange(outs, width)
    ensures var ids := TrajectoryIds(Tally(outs, width));
      && (forall i, j :: 0 <= i < j < |ids| ==> ids[i] < ids[j])
      && (forall x :: x in ids <==> x in Keys(outs))
  {
    var es := Tally(outs, width);
    var ids := TrajectoryIds(es);
    forall x | x in ids ensures x in Keys(outs) {
      var k :| 0 <= k < |ids| && ids[k] == x;
      IdsAt(es, k);
    }
    forall x | x in Keys(outs) ensures x in ids {
      IdsHas(es, x);
      var k :| 0 <= k < |es| && es[k].id == x;
      assert ids[k] == x;
    }
  }
}
