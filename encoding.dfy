/** The integer codec for measurement sequences and source maps: a
    mixed-radix positional code whose first element is the least significant
    digit. Measurements are digits in [0, max] (radix max + 1); a map is a
    sequence of cell indices `row + col * rows` (column-major, the layout of
    the belief matrix), in radix rows * cols. */
module Encoding {
  import opened Geometry

  function Pow(b: nat, n: nat): (r: nat)
    ensures b > 0 ==> r > 0
  {
    if n == 0 then 1 else b * Pow(b, n - 1)
  }

  ghost predicate Digits(ds: seq<nat>, radix: nat)
  {
    forall i :: 0 <= i < |ds| ==> ds[i] < radix
  }

  /** The number whose base-`radix` digits, least significant first, are `ds`. */
  function EncodeDigits(ds: seq<nat>, radix: nat): nat
  {
    if ds == [] then 0 else ds[0] + radix * EncodeDigits(ds[1..], radix)
  }

  /** The `len` least significant base-`radix` digits of `id`, least significant first. */
  function DecodeDigits(id: nat, radix: nat, len: nat): (ds: seq<nat>)
    requires radix > 0
    ensures |ds| == len
    ensures Digits(ds, radix)
    decreases len
  {
    if len == 0 then [] else [id % radix] + DecodeDigits(id / radix, radix, len - 1)
  }

  lemma {:induction false} EncodeDigitsBound(ds: seq<nat>, radix: nat)
    requires Digits(ds, radix)
    ensures EncodeDigits(ds, radix) < Pow(radix, |ds|)
  {
    if ds != [] {
      var rest, p := EncodeDigits(ds[1..], radix), Pow(radix, |ds| - 1);
      EncodeDigitsBound(ds[1..], radix);
      MulMonotone(rest + 1, p, radix);
      assert (rest + 1) * radix == radix * rest + radix;
      assert Pow(radix, |ds|) == p * radix;
    }
  }

  lemma {:induction false} DigitsRoundTrip(ds: seq<nat>, radix: nat)
    requires radix > 0 && Digits(ds, radix)
    ensures DecodeDigits(EncodeDigits(ds, radix), radix, |ds|) == ds
  {
    if ds != [] {
      var rest := EncodeDigits(ds[1..], radix);
      FlatIndex(rest, ds[0], radix);
      assert ds[0] + radix * rest == rest * radix + ds[0];
      DigitsRoundTrip(ds[1..], radix);
    }
  }

  lemma {:induction false} DigitsDecodeEncode(id: nat, radix: nat, len: nat)
    requires radix > 0 && id < Pow(radix, len)
    ensures EncodeDigits(DecodeDigits(id, radix, len), radix) == id
    decreases len
  {
    if len == 0 {
    } else {
      var ds := DecodeDigits(id, radix, len);
      var q, p := id / radix, Pow(radix, len - 1);
      assert ds[1..] == DecodeDigits(q, radix, len - 1);
      assert id == radix * q + id % radix;
      if q >= p {
        MulMonotone(p, q, radix);
      }
      DigitsDecodeEncode(q, radix, len - 1);
    }
  }

  // ---- measurement sequences ----

  /** EncodeMeasurements: the id of a measurement sequence whose values lie in [0, max]. */
  function EncodeMeasurements(ms: seq<nat>, max: nat): nat
  {
    EncodeDigits(ms, max + 1)
  }

  /** DecodeMeasurements: the `len` measurements, each in [0, max], that `id` encodes. */
  function DecodeMeasurements(id: nat, max: nat, len: nat): (ms: seq<nat>)
    ensures |ms| == len
    ensures forall i :: 0 <= i < len ==> ms[i] <= max
  {
    DecodeDigits(id, max + 1, len)
  }

  /** Every value of `ms` lies in [0, max]. */
  ghost predicate InAlphabet(ms: seq<nat>, max: nat)
  {
    forall i :: 0 <= i < |ms| ==> ms[i] <= max
  }

  /** Decoding the id of a measurement sequence gives the sequence back. */
  lemma MeasurementsRoundTrip(ms: seq<nat>, max: nat)
    requires InAlphabet(ms, max)
    ensures DecodeMeasurements(EncodeMeasurements(ms, max), max, |ms|) == ms
  {
    DigitsRoundTrip(ms, max + 1);
  }

  /** The id of an in-range measurement sequence is below `(max+1)^len`,
      the size of the measurement space. */
  lemma MeasurementIdBound(ms: seq<nat>, max: nat)
    requires InAlphabet(ms, max)
    ensures EncodeMeasurements(ms, max) < Pow(max + 1, |ms|)
  {
    EncodeDigitsBound(ms, max + 1);
  }

  /** Every id below `(max+1)^len` is the id of the length-`len` sequence it
      decodes to, so the ids of those sequences fill the whole space. */
  lemma MeasurementIdOnto(id: nat, max: nat, len: nat)
    requires id < Pow(max + 1, len)
    ensures EncodeMeasurements(DecodeMeasurements(id, max, len), max) == id
  {
    DigitsDecodeEncode(id, max + 1, len);
  }

  /** Two equal-length in-range measurement sequences with the same id are equal. */
  lemma EncodeMeasurementsInjective(a: seq<nat>, b: seq<nat>, max: nat)
    requires |a| == |b| && InAlphabet(a, max) && InAlphabet(b, max)
    requires EncodeMeasurements(a, max) == EncodeMeasurements(b, max)
    ensures a == b
  {
    MeasurementsRoundTrip(a, max);
    MeasurementsRoundTrip(b, max);
  }

  // ---- source maps ----

  /** The column-major index of a source's cell. */
  function CellIndex(s: Source2D, rows: nat): nat
  {
    s.row + s.col * rows
  }

  ghost predicate InGrid(sources: seq<Source2D>, rows: nat, cols: nat)
  {
    forall i :: 0 <= i < |sources| ==> sources[i].row < rows && sources[i].col < cols
  }

  /** EncodeMap: the id of a list of sources, one cell-index digit per source. */
  function EncodeMap(sources: seq<Source2D>, rows: nat, cols: nat): nat
  {
    EncodeDigits(seq(|sources|, i requires 0 <= i < |sources| => CellIndex(sources[i], rows)), rows * cols)
  }

  /** DecodeMap: the `n` sources that `id` encodes on a `rows` x `cols` grid. */
  function DecodeMap(id: nat, rows: nat, cols: nat, n: nat): (sources: seq<Source2D>)
    requires rows > 0 && cols > 0
    ensures |sources| == n
    ensures InGrid(sources, rows, cols)
  {
    var ds := DecodeDigits(id, rows * cols, n);
    seq(n, i requires 0 <= i < n => CellAtIndex(ds[i], rows, cols))
  }

  /** The cell whose column-major index is `x`. */
  function CellAtIndex(x: nat, rows: nat, cols: nat): (s: Source2D)
    requires x < rows * cols
    ensures s.row < rows && s.col < cols
  {
    FlatBound(x, cols, rows);
    Source2D(x % rows, x / rows)
  }

  /** Decoding the id of an in-grid source list gives the same sources, in the
      same order. */
  lemma MapRoundTrip(sources: seq<Source2D>, rows: nat, cols: nat)
    requires rows > 0 && cols > 0
    requires InGrid(sources, rows, cols)
    ensures DecodeMap(EncodeMap(sources, rows, cols), rows, cols, |sources|) == sources
  {
    var ds := seq(|sources|, i requires 0 <= i < |sources| => CellIndex(sources[i], rows));
    forall i | 0 <= i < |sources|
      ensures ds[i] < rows * cols
      ensures ds[i] % rows == sources[i].row && ds[i] / rows == sources[i].col
    {
      CellBound(sources[i].row, sources[i].col, rows, cols);
      FlatIndex(sources[i].col, sources[i].row, rows);
    }
    DigitsRoundTrip(ds, rows * cols);
  }

  /** Two equal-length in-grid source lists with the same id are equal. */
  lemma EncodeMapInjective(a: seq<Source2D>, b: seq<Source2D>, rows: nat, cols: nat)
    requires rows > 0 && cols > 0 && |a| == |b|
    requires InGrid(a, rows, cols) && InGrid(b, rows, cols)
    requires EncodeMap(a, rows, cols) == EncodeMap(b, rows, cols)
    ensures a == b
  {
    MapRoundTrip(a, rows, cols);
    MapRoundTrip(b, rows, cols);
  }

  /** Map ids of `n` in-grid sources lie below (rows * cols)^n. */
  lemma EncodeMapBound(sources: seq<Source2D>, rows: nat, cols: nat)
    requires InGrid(sources, rows, cols)
    ensures EncodeMap(sources, rows, cols) < Pow(rows * cols, |sources|)
  {
    var ds := seq(|sources|, i requires 0 <= i < |sources| => CellIndex(sources[i], rows));
    forall i | 0 <= i < |sources| ensures ds[i] < rows * cols {
      CellBound(sources[i].row, sources[i].col, rows, cols);
    }
    EncodeDigitsBound(ds, rows * cols);
  }
}
