/** Grid cells, poses, sources and the sensor, plus the index arithmetic that
    maps a cell (row, column) to a flat position and back. */
module Geometry {

  /** A source at a lattice point: `row` is the source's x index and `col`
      its y index (GetIndexX / GetIndexY). */
  datatype Source2D = Source2D(row: nat, col: nat)

  /** A pose on the grid: a cell and a heading angle. */
  datatype GridPose2D = GridPose2D(row: nat, col: nat, angle: real)

  /** A sensor placed at a pose: all the model uses of it is which cells
      its cone covers (Sensor2D::VoxelInView, whose geometry is not part of
      this model). */
  datatype Sensor2D = Sensor2D(voxelInView: (nat, nat) -> bool)

  /** The sensor's measurement: how many of the given sources lie in a cell
      the sensor sees. */
  function Sense(sensor: Sensor2D, sources: seq<Source2D>): (m: nat)
    ensures m <= |sources|
  {
    if sources == [] then 0
    else
      var last := sources[|sources| - 1];
      Sense(sensor, sources[..|sources| - 1]) + (if sensor.voxelInView(last.row, last.col) then 1 else 0)
  }

  /** `q * d + r` is the flat position of digit `r` in block `q`; division and
      remainder by `d` recover the two. */
  lemma FlatIndex(q: nat, r: nat, d: nat)
    requires r < d
    ensures (q * d + r) / d == q
    ensures (q * d + r) % d == r
  {
    var t := q * d + r;
    var q', r' := t / d, t % d;
    assert t == q' * d + r';
    assert (q' - q) * d == r - r';
    if q' > q {
      MulAtLeast(q' - q, d);
    } else if q' < q {
      MulAtLeast(q - q', d);
    }
  }

  lemma MulAtLeast(a: int, d: nat)
    requires a >= 1
    ensures a * d >= d
  {
    assert a * d == (a - 1) * d + d;
  }

  /** A flat position below `rows * cols` splits into a row below `rows` and a
      column below `cols`. */
  lemma FlatBound(t: nat, rows: nat, cols: nat)
    requires t < rows * cols
    ensures cols > 0
    ensures t / cols < rows
    ensures t % cols < cols
  {
  }

  lemma MulMonotone(a: nat, b: nat, d: nat)
    requires a <= b
    ensures a * d <= b * d
  {
    assert b * d == a * d + (b - a) * d;
  }

  /** A cell in a `rows` x `cols` grid has row-major position below `rows * cols`. */
  lemma CellBound(row: nat, col: nat, rows: nat, cols: nat)
    requires row < rows && col < cols
    ensures row * cols + col < rows * cols
    ensures col * rows + row < rows * cols
  {
    MulMonotone(row + 1, rows, cols);
    MulMonotone(col + 1, cols, rows);
  }

  /** The cell at row-major position `t` of a grid with `cols` columns. */
  function CellOf(t: nat, cols: nat): (s: Source2D)
    requires cols > 0
    ensures s.col < cols
    ensures s.row * cols + s.col == t
  {
    Source2D(t / cols, t % cols)
  }

  /** The cells of `a` in row-major order (row by row, left to right). */
  function RowMajor(a: array2<real>): (s: seq<real>)
    reads a
    ensures |s| == a.Length0 * a.Length1
  {
    seq(a.Length0 * a.Length1, t requires 0 <= t < a.Length0 * a.Length1 reads a => CellAt(a, t))
  }

  function CellAt(a: array2<real>, t: nat): real
    requires t < a.Length0 * a.Length1
    reads a
  {
    FlatBound(t, a.Length0, a.Length1);
    a[t / a.Length1, t % a.Length1]
  }

  /** Position `row * cols + col` of the row-major view holds cell (row, col). */
  lemma RowMajorAt(a: array2<real>, row: nat, col: nat)
    requires row < a.Length0 && col < a.Length1
    ensures row * a.Length1 + col < |RowMajor(a)|
    ensures RowMajor(a)[row * a.Length1 + col] == a[row, col]
  {
    CellBound(row, col, a.Length0, a.Length1);
    FlatIndex(row, col, a.Length1);
  }
}
