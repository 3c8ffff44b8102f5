/** Inverse-CDF sampling of source locations from a belief map: the draws are
    sorted, the map is walked in row-major order accumulating normalised
    mass, and each draw is placed in the first cell whose cumulative mass
    reaches it. */
module Sampling {
  import opened Options
  import opened Numerics
  import opened Geometry

  ghost predicate Sorted(s: seq<real>)
  {
    forall i, j :: 0 <= i <= j < |s| ==> s[i] <= s[j]
  }

  /** `x` inserted in front of the first element of `s` not below it. */
  function Insert(x: real, s: seq<real>): (r: seq<real>)
    requires Sorted(s)
    ensures Sorted(r)
    ensures |r| == |s| + 1
    ensures multiset(r) == multiset(s) + multiset{x}
  {
    if s == [] then [x]
    else if x <= s[0] then [x] + s
    else
      var rest := Insert(x, s[1..]);
      assert s == [s[0]] + s[1..];
      LowerBound(s[0], x, s[1..], rest);
      [s[0]] + rest
  }

  /** A bound below `x` and every element of `s` is below every element of
      a permutation of `s` with `x` added. */
  lemma LowerBound(h: real, x: real, s: seq<real>, r: seq<real>)
    requires h <= x && (forall i :: 0 <= i < |s| ==> h <= s[i])
    requires multiset(r) == multiset(s) + multiset{x}
    ensures forall i :: 0 <= i < |r| ==> h <= r[i]
  {
    forall i | 0 <= i < |r| ensures h <= r[i] {
      assert r[i] in multiset(r);
      if r[i] != x {
        assert r[i] in multiset(s);
        var j :| 0 <= j < |s| && s[j] == r[i];
      }
    }
  }

  /** The draws in ascending order (std::sort). */
  function SortAscending(s: seq<real>): (r: seq<real>)
    ensures Sorted(r)
    ensures |r| == |s|
    ensures multiset(r) == multiset(s)
  {
    if s == [] then []
    else
      assert s == [s[0]] + s[1..];
      Insert(s[0], SortAscending(s[1..]))
  }

  /** Cumulative normalised mass of cells 0 through `t`. */
  function CumThrough(w: seq<real>, t: nat): real
    requires t < |w|
  {
    Sum(w[..t + 1])
  }

  /** The first cell at or after `from` whose cumulative mass reaches `u`. */
  function CrossingFrom(w: seq<real>, u: real, from: nat): (r: Option<nat>)
    requires from <= |w|
    ensures r.Some? ==> from <= r.value < |w| && u <= CumThrough(w, r.value)
    ensures r.Some? ==> forall t :: from <= t < r.value ==> CumThrough(w, t) < u
    ensures r.None? ==> forall t :: from <= t < |w| ==> CumThrough(w, t) < u
    decreases |w| - from
  {
    if from == |w| then None
    else if u <= CumThrough(w, from) then Some(from)
    else CrossingFrom(w, u, from + 1)
  }

  /** The inverse CDF of the cell distribution `w` at `u`: the first cell
      whose cumulative mass is at least `u`, if there is one. */
  function InverseCdf(w: seq<real>, u: real): (r: Option<nat>)
    ensures r.Some? ==> r.value < |w| && u <= CumThrough(w, r.value)
    ensures r.Some? ==> forall t :: 0 <= t < r.value ==> CumThrough(w, t) < u
    ensures r.None? ==> forall t :: 0 <= t < |w| ==> CumThrough(w, t) < u
  {
    CrossingFrom(w, u, 0)
  }

  /** The cells of the longest prefix of `ds` that all have an inverse-CDF cell. */
  function Placements(w: seq<real>, ds: seq<real>): (ps: seq<nat>)
    ensures |ps| <= |ds|
    ensures forall k :: 0 <= k < |ps| ==> InverseCdf(w, ds[k]) == Some(ps[k])
    ensures |ps| < |ds| ==> InverseCdf(w, ds[|ps|]) == None
  {
    if ds == [] then []
    else
      match InverseCdf(w, ds[0])
      case None => []
      case Some(j) => [j] + Placements(w, ds[1..])
  }

  /** A cell whose cumulative mass reaches `u` while every earlier cell's
      stays below it is the inverse-CDF cell of `u`. */
  lemma InverseCdfAt(w: seq<real>, u: real, t: nat)
    requires t < |w| && u <= CumThrough(w, t)
    requires forall t' :: 0 <= t' < t ==> CumThrough(w, t') < u
    ensures InverseCdf(w, u) == Some(t)
  {
  }

  /** `Placements` is the only sequence of placed prefix cells that stops at
      the first unplaceable draw. */
  lemma {:induction false} PlacementsExact(w: seq<real>, ds: seq<real>, ps: seq<nat>)
    requires |ps| <= |ds|
    requires forall k :: 0 <= k < |ps| ==> InverseCdf(w, ds[k]) == Some(ps[k])
    requires |ps| < |ds| ==> InverseCdf(w, ds[|ps|]) == None
    ensures Placements(w, ds) == ps
  {
    if ds != [] && ps != [] {
      PlacementsExact(w, ds[1..], ps[1..]);
    }
  }

  /** The outcome of one call of the source sampler. */
  datatype Draw = Draw(ok: bool, sources: seq<Source2D>)

  /** What GenerateSources computes from the row-major cells of the belief
      and the uniform draws: a total mass of zero makes every normalised
      share NaN and no cell is ever chosen; otherwise each sorted draw is
      placed at its inverse-CDF cell, stopping at the first draw that has
      none, and the call succeeds when every draw was placed. */
  function DrawSources(cells: seq<real>, cols: nat, draws: seq<real>): (d: Draw)
    requires cols > 0 || cells == []
    ensures |d.sources| <= |draws|
    ensures d.ok ==> |d.sources| == |draws|
    ensures Sum(cells) == 0.0 ==> !d.ok && d.sources == []
  {
    var total := Sum(cells);
    if total == 0.0 then Draw(false, [])
    else
      var ps := Placements(Normalised(cells, total), SortAscending(draws));
      assert cols > 0;
      Draw(|ps| == |draws|, CellsOf(ps, cols))
  }

  /** The grid cells at row-major positions `ps`. */
  function CellsOf(ps: seq<nat>, cols: nat): (cs: seq<Source2D>)
    requires cols > 0
    ensures |cs| == |ps|
    ensures forall k :: 0 <= k < |ps| ==> cs[k] == CellOf(ps[k], cols)
  {
    seq(|ps|, k requires 0 <= k < |ps| => CellOf(ps[k], cols))
  }

  // ---- properties of the sampler ----

  /** A larger draw never lands in an earlier cell. */
  lemma InverseCdfMonotone(w: seq<real>, u: real, v: real)
    requires u <= v && InverseCdf(w, v).Some?
    ensures InverseCdf(w, u).Some?
    ensures InverseCdf(w, u).value <= InverseCdf(w, v).value
  {
    var b := InverseCdf(w, v).value;
    assert u <= CumThrough(w, b);
  }

  /** Sorted draws are placed in non-decreasing cells. */
  lemma {:induction false} PlacementsNonDecreasing(w: seq<real>, ds: seq<real>)
    requires Sorted(ds)
    ensures forall k, l :: 0 <= k <= l < |Placements(w, ds)| ==> Placements(w, ds)[k] <= Placements(w, ds)[l]
  {
    var ps := Placements(w, ds);
    forall k, l | 0 <= k <= l < |ps| ensures ps[k] <= ps[l] {
      InverseCdfMonotone(w, ds[k], ds[l]);
    }
  }

  /** The sampler's contract: it emits at most one source per draw, exactly
      one per draw when it succeeds, each source is the inverse-CDF cell of its
      sorted draw (several draws may share a cell), and the sources come out
      in non-decreasing row-major order. */
  lemma DrawSourcesLaw(cells: seq<real>, cols: nat, draws: seq<real>)
    requires cols > 0 && Sum(cells) != 0.0
    ensures var d := DrawSources(cells, cols, draws);
      var w, sorted := Normalised(cells, Sum(cells)), SortAscending(draws);
      && |d.sources| <= |draws|
      && (d.ok <==> |d.sources| == |draws|)
      && (forall k :: 0 <= k < |d.sources| ==>
            InverseCdf(w, sorted[k]).Some? &&
            d.sources[k] == CellOf(InverseCdf(w, sorted[k]).value, cols))
      && (!d.ok ==> InverseCdf(w, sorted[|d.sources|]).None?)
      && (forall k, l :: 0 <= k <= l < |d.sources| ==>
            d.sources[k].row * cols + d.sources[k].col <= d.sources[l].row * cols + d.sources[l].col)
  {
    var w, sorted := Normalised(cells, Sum(cells)), SortAscending(draws);
    PlacementsNonDecreasing(w, sorted);
  }

  /** Every emitted source lies on the grid. */
  lemma DrawSourcesInGrid(cells: seq<real>, rows: nat, cols: nat, draws: seq<real>)
    requires |cells| == rows * cols && cols > 0
    ensures var d := DrawSources(cells, cols, draws);
      forall k :: 0 <= k < |d.sources| ==> d.sources[k].row < rows && d.sources[k].col < cols
  {
    var d := DrawSources(cells, cols, draws);
    if Sum(cells) != 0.0 {
      var w := Normalised(cells, Sum(cells));
      var ps := Placements(w, SortAscending(draws));
      forall k | 0 <= k < |d.sources| ensures d.sources[k].row < rows {
        FlatBound(ps[k], rows, cols);
      }
    }
  }

  /** The cumulative normalised mass through the last cell is one. */
  lemma NormalisedReachesOne(cells: seq<real>)
    requires Sum(cells) != 0.0
    ensures |cells| > 0
    ensures CumThrough(Normalised(cells, Sum(cells)), |cells| - 1) == 1.0
  {
    var total := Sum(cells);
    var w := Normalised(cells, total);
    SumNormalised(cells, total);
    DivSelf(total);
    assert w[..|w|] == w;
  }

  /** Elements of the sorted draws are draws. */
  lemma SortedFromDraws(draws: seq<real>, k: nat)
    requires k < |SortAscending(draws)|
    ensures SortAscending(draws)[k] in draws
  {
    var sorted := SortAscending(draws);
    assert sorted[k] in multiset(sorted);
  }

  /** With exact arithmetic the walk cannot run out of cells: a positive total
      mass normalises to one, so every draw of at most one is placed and the
      sampler succeeds. Its failure path is reachable only through rounding or
      an all-zero belief. */
  lemma DrawSourcesSucceeds(cells: seq<real>, cols: nat, draws: seq<real>)
    requires cols > 0 && Sum(cells) != 0.0
    requires forall k :: 0 <= k < |draws| ==> draws[k] <= 1.0
    ensures DrawSources(cells, cols, draws).ok
    ensures |DrawSources(cells, cols, draws).sources| == |draws|
  {
    var total := Sum(cells);
    var w, sorted := Normalised(cells, total), SortAscending(draws);
    var ps := Placements(w, sorted);
    if |ps| < |sorted| {
      SortedFromDraws(draws, |ps|);
      NormalisedReachesOne(cells);
      assert false;
    }
  }
}
