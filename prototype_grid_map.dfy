/** The prototype belief map: a grid of Poisson rates whose total is the
    number of sources. An observation averages the belief with a rate map
    that spreads the measured count evenly over the cells in view and the
    rest of the sources evenly over the cells out of view. */
module PrototypeMap {
  import opened Numerics
  import opened Geometry

  /** Whether row-major cell `t` of a `rows` x `cols` grid is in view. */
  function InViewAt(v: (nat, nat) -> bool, rows: nat, cols: nat, t: nat): bool
    requires t < rows * cols
  {
    FlatBound(t, rows, cols);
    v(t / cols, t % cols)
  }

  /** The in-view mask of a grid, in row-major order. */
  function Mask(v: (nat, nat) -> bool, rows: nat, cols: nat): (mask: seq<bool>)
    ensures |mask| == rows * cols
  {
    seq(rows * cols, t requires 0 <= t < rows * cols => InViewAt(v, rows, cols, t))
  }

  lemma MaskAt(v: (nat, nat) -> bool, rows: nat, cols: nat, ii: nat, jj: nat)
    requires ii < rows && jj < cols
    ensures ii * cols + jj < rows * cols
    ensures Mask(v, rows, cols)[ii * cols + jj] == v(ii, jj)
  {
    CellBound(ii, jj, rows, cols);
    FlatIndex(ii, jj, cols);
  }

  /** Half the old belief plus half the rate map: `inRate` on masked cells,
      `outRate` on the others. */
  function Blend(cells: seq<real>, mask: seq<bool>, inRate: real, outRate: real): (r: seq<real>)
    requires |mask| == |cells|
    ensures |r| == |cells|
  {
    Mean(cells, Rates(mask, inRate, outRate))
  }

  /** The total of a blend is the mean of the old total and the rate map's total. */
  lemma SumBlend(cells: seq<real>, mask: seq<bool>, inRate: real, outRate: real)
    requires |mask| == |cells|
    ensures Sum(Blend(cells, mask, inRate, outRate)) ==
      0.5 * Sum(cells) + 0.5 * (Times(MaskCount(mask), inRate) + Times(|mask| - MaskCount(mask), outRate))
  {
    SumMean(cells, Rates(mask, inRate, outRate));
    SumRates(mask, inRate, outRate);
  }

  /** What Update does when no rate is a division by zero. */
  datatype UpdateResult = Returned(updated: bool) | ZeroDivisionError

  /** The outcome of Update: too large a measurement is refused, an empty
      or a full view divides by zero, anything else updates the belief. */
  function Outcome(measurement: nat, k: nat, count: nat, cells: nat): (r: UpdateResult)
    ensures r == Returned(false) <==> measurement > k
    ensures r == Returned(true) <==> measurement <= k && 0 < count && count != cells
  {
    if measurement > k then Returned(false)
    else if count == 0 || count == cells then ZeroDivisionError
    else Returned(true)
  }

  /** The rate of each in-view cell. */
  function InRate(measurement: nat, count: nat): (r: real)
    requires count > 0
    ensures 0.0 <= r
    ensures Times(count, r) == measurement as real
  {
    TimesShare(count, measurement as real);
    measurement as real / count as real
  }

  /** The rate of each out-of-view cell. */
  function OutRate(measurement: nat, k: nat, count: nat, cells: nat): (r: real)
    requires measurement <= k && count < cells
    ensures 0.0 <= r
    ensures Times(cells - count, r) == (k - measurement) as real
  {
    TimesShare(cells - count, (k - measurement) as real);
    (k - measurement) as real / (cells - count) as real
  }

  /** An update keeps the total rate at `k` when it was `k` before: the rate
      map puts the measured sources in view and the remaining ones out of view. */
  lemma BlendPreservesMass(cells: seq<real>, v: (nat, nat) -> bool, rows: nat, cols: nat,
                           measurement: nat, k: nat)
    requires |cells| == rows * cols
    requires Outcome(measurement, k, MaskCount(Mask(v, rows, cols)), rows * cols) == Returned(true)
    ensures var mask := Mask(v, rows, cols);
      var count := MaskCount(mask);
      Sum(Blend(cells, mask, InRate(measurement, count), OutRate(measurement, k, count, rows * cols)))
        == 0.5 * Sum(cells) + 0.5 * k as real
  {
    var mask := Mask(v, rows, cols);
    var count := MaskCount(mask);
    var a, b := InRate(measurement, count), OutRate(measurement, k, count, rows * cols);
    SumBlend(cells, mask, a, b);
    TimesShare(count, measurement as real);
    TimesShare(rows * cols - count, (k - measurement) as real);
  }

  /** Corollary: a map whose total is `k` keeps that total. */
  lemma MassInvariant(cells: seq<real>, v: (nat, nat) -> bool, rows: nat, cols: nat,
                      measurement: nat, k: nat)
    requires |cells| == rows * cols && Sum(cells) == k as real
    requires Outcome(measurement, k, MaskCount(Mask(v, rows, cols)), rows * cols) == Returned(true)
    ensures var mask := Mask(v, rows, cols);
      var count := MaskCount(mask);
      Sum(Blend(cells, mask, InRate(measurement, count), OutRate(measurement, k, count, rows * cols))) == k as real
  {
    BlendPreservesMass(cells, v, rows, cols, measurement, k);
  }

  /** An update keeps every rate non-negative. */
  lemma BlendNonNegative(cells: seq<real>, v: (nat, nat) -> bool, rows: nat, cols: nat,
                         measurement: nat, k: nat)
    requires |cells| == rows * cols && NonNegative(cells)
    requires Outcome(measurement, k, MaskCount(Mask(v, rows, cols)), rows * cols) == Returned(true)
    ensures var mask := Mask(v, rows, cols);
      var count := MaskCount(mask);
      NonNegative(Blend(cells, mask, InRate(measurement, count), OutRate(measurement, k, count, rows * cols)))
  {
  }

  /** The in-view loop of Update: the mask of the cells in view of `sensor`
      and how many there are. */
  method ViewMask(sensor: Sensor2D, rows: nat, cols: nat) returns (mask: array2<bool>, count: nat)
    ensures fresh(mask) && mask.Length0 == rows && mask.Length1 == cols
    ensures forall i, j :: 0 <= i < rows && 0 <= j < cols ==> mask[i, j] == sensor.voxelInView(i, j)
    ensures count == MaskCount(Mask(sensor.voxelInView, rows, cols))
  {
    ghost var spec := Mask(sensor.voxelInView, rows, cols);
    mask := new bool[rows, cols]((i, j) => false);
    count := 0;
    ghost var pos := 0;
    for ii := 0 to rows
      invariant pos == ii * cols && pos <= |spec| && count == MaskCount(spec[..pos])
      invariant forall i, j :: 0 <= i < rows && 0 <= j < cols ==>
        mask[i, j] == (i < ii && sensor.voxelInView(i, j))
    {
      MulMonotone(ii + 1, rows, cols);
      forall j | 0 <= j < cols ensures spec[pos + j] == sensor.voxelInView(ii, j) {
        MaskAt(sensor.voxelInView, rows, cols, ii, j);
      }
      count := MaskRow(mask, sensor, ii, count, spec, pos);
      pos := pos + cols;
      assert pos == (ii + 1) * cols;
    }
    assert spec[..pos] == spec;
  }

  /** The inner loop of ViewMask over row `ii`, which starts at row-major
      position `pos0`. */
  method MaskRow(mask: array2<bool>, sensor: Sensor2D, ii: nat, count0: nat,
                 ghost spec: seq<bool>, ghost pos0: nat) returns (count: nat)
    requires ii < mask.Length0 && pos0 + mask.Length1 <= |spec| && count0 == MaskCount(spec[..pos0])
    requires forall j :: 0 <= j < mask.Length1 ==> spec[pos0 + j] == sensor.voxelInView(ii, j)
    requires forall i, j :: 0 <= i < mask.Length0 && 0 <= j < mask.Length1 ==>
      mask[i, j] == (i < ii && sensor.voxelInView(i, j))
    modifies mask
    ensures count == MaskCount(spec[..pos0 + mask.Length1])
    ensures forall i, j :: 0 <= i < mask.Length0 && 0 <= j < mask.Length1 ==>
      mask[i, j] == (i <= ii && sensor.voxelInView(i, j))
  {
    ghost var pos := pos0;
    count := count0;
    for jj := 0 to mask.Length1
      invariant pos == pos0 + jj && count == MaskCount(spec[..pos])
      invariant forall i, j :: 0 <= i < mask.Length0 && 0 <= j < mask.Length1 && i != ii ==>
        mask[i, j] == old(mask[i, j])
      invariant forall j :: 0 <= j < mask.Length1 ==> mask[ii, j] == (j < jj && sensor.voxelInView(ii, j))
    {
      MaskCountStep(spec, pos);
      if sensor.voxelInView(ii, jj) {
        mask[ii, jj] := true;
        count := count + 1;
      }
      pos := pos + 1;
    }
  }

  /** The rate map and the averaging step of Update, into a new array. */
  method Average(belief: array2<real>, mask: array2<bool>, inRate: real, outRate: real)
    returns (next: array2<real>)
    requires mask.Length0 == belief.Length0 && mask.Length1 == belief.Length1
    ensures fresh(next) && next.Length0 == belief.Length0 && next.Length1 == belief.Length1
    ensures forall i, j :: 0 <= i < belief.Length0 && 0 <= j < belief.Length1 ==>
      next[i, j] == 0.5 * belief[i, j] + 0.5 * (if mask[i, j] then inRate else outRate)
  {
    var update := new real[belief.Length0, belief.Length1];
    forall i, j | 0 <= i < belief.Length0 && 0 <= j < belief.Length1 {
      update[i, j] := belief[i, j];
    }
    forall i, j | 0 <= i < belief.Length0 && 0 <= j < belief.Length1 && mask[i, j] {
      update[i, j] := inRate;
    }
    forall i, j | 0 <= i < belief.Length0 && 0 <= j < belief.Length1 && !mask[i, j] {
      update[i, j] := outRate;
    }
    next := new real[belief.Length0, belief.Length1];
    forall i, j | 0 <= i < belief.Length0 && 0 <= j < belief.Length1 {
      next[i, j] := 0.5 * belief[i, j] + 0.5 * update[i, j];
    }
  }

  /** The row-major view of an averaged array is the blend of the old one. */
  lemma AverageCells(old_: array2<real>, next: array2<real>, mask: array2<bool>, v: (nat, nat) -> bool,
                     inRate: real, outRate: real)
    requires mask.Length0 == old_.Length0 == next.Length0 && mask.Length1 == old_.Length1 == next.Length1
    requires forall i, j :: 0 <= i < old_.Length0 && 0 <= j < old_.Length1 ==> mask[i, j] == v(i, j)
    requires forall i, j :: 0 <= i < old_.Length0 && 0 <= j < old_.Length1 ==>
      next[i, j] == 0.5 * old_[i, j] + 0.5 * (if mask[i, j] then inRate else outRate)
    ensures RowMajor(next) == Blend(RowMajor(old_), Mask(v, old_.Length0, old_.Length1), inRate, outRate)
  {
    var rows, cols := old_.Length0, old_.Length1;
    var b := Blend(RowMajor(old_), Mask(v, rows, cols), inRate, outRate);
    forall t | 0 <= t < rows * cols ensures RowMajor(next)[t] == b[t] {
      FlatBound(t, rows, cols);
    }
  }

  /** The body of Update on the belief array: `next` is the new belief
      array when the update goes through and `belief` itself otherwise. */
  method UpdateBelief(belief: array2<real>, sensor: Sensor2D, measurement: nat, k: nat)
    returns (r: UpdateResult, next: array2<real>)
    ensures var rows, cols := belief.Length0, belief.Length1;
      r == Outcome(measurement, k, MaskCount(Mask(sensor.voxelInView, rows, cols)), rows * cols)
    ensures r != Returned(true) ==> next == belief
    ensures r == Returned(true) ==>
      fresh(next) && next.Length0 == belief.Length0 && next.Length1 == belief.Length1
    ensures r == Returned(true) ==>
      var rows, cols := belief.Length0, belief.Length1;
      var mask := Mask(sensor.voxelInView, rows, cols);
      var count := MaskCount(mask);
      RowMajor(next) == Blend(RowMajor(belief), mask, InRate(measurement, count), OutRate(measurement, k, count, rows * cols))
  {
    if measurement > k {
      return Returned(false), belief;
    }
    var rows, cols := belief.Length0, belief.Length1;
    var mask, count := ViewMask(sensor, rows, cols);
    if count == 0 || count == rows * cols {
      return ZeroDivisionError, belief;
    }
    var inRate := measurement as real / count as real;
    var outRate := (k - measurement) as real / (rows * cols - count) as real;
    next := Average(belief, mask, inRate, outRate);
    AverageCells(belief, next, mask, sensor.voxelInView, inRate, outRate);
    r := Returned(true);
  }

  class GridMap2D {
    /** belief_[i, j]: the Poisson rate of sources in cell (i, j). */
    var belief: array2<real>
    /** The number of sources. */
    var k: nat

    function Cells(): (cs: seq<real>)
      reads this, belief
      ensures |cs| == belief.Length0 * belief.Length1
    {
      RowMajor(belief)
    }

    /** A uniform prior of total rate `k`. */
    constructor (nrows: nat, ncols: nat, k: nat)
      ensures fresh(belief) && belief.Length0 == nrows && belief.Length1 == ncols && this.k == k
      ensures nrows * ncols > 0 ==> Cells() == Constant(nrows * ncols, k as real / (nrows * ncols) as real)
      ensures nrows * ncols > 0 ==> Sum(Cells()) == k as real
    {
      var rate := if nrows * ncols > 0 then k as real / (nrows * ncols) as real else 0.0;
      belief := new real[nrows, ncols]((i, j) => rate);
      this.k := k;
      new;
      if nrows * ncols > 0 {
        forall t | 0 <= t < nrows * ncols ensures Cells()[t] == rate {
          FlatBound(t, nrows, ncols);
        }
        UniformMass(nrows * ncols, k);
      }
    }

    /** Averages the belief with the rate map of one measurement; refuses a
        measurement above `k` and raises ZeroDivisionError when the view is
        empty or covers the whole grid. */
    method Update(sensor: Sensor2D, measurement: nat) returns (r: UpdateResult)
      modifies this
      ensures k == old(k)
      ensures var rows, cols := old(belief).Length0, old(belief).Length1;
        var count := MaskCount(Mask(sensor.voxelInView, rows, cols));
        r == Outcome(measurement, k, count, rows * cols)
      ensures r != Returned(true) ==> belief == old(belief)
      ensures r == Returned(true) ==>
        fresh(belief) && belief.Length0 == old(belief).Length0 && belief.Length1 == old(belief).Length1
      ensures r == Returned(true) ==>
        var rows, cols := belief.Length0, belief.Length1;
        var mask := Mask(sensor.voxelInView, rows, cols);
        var count := MaskCount(mask);
        Cells() == Blend(old(Cells()), mask, InRate(measurement, count), OutRate(measurement, k, count, rows * cols))
    {
      var next;
      r, next := UpdateBelief(belief, sensor, measurement, k);
      belief := next;
    }
  }
}
