/** The per-trajectory histogram of the Monte Carlo estimator: an ordered map
    from trajectory id to a count vector over measurement ids, modelled as a
    sequence of entries kept strictly ordered by id, the way an ordered map
    iterates. */
module Histogram {
  import opened Options
  import opened Numerics

  /** What one successful sample contributes: (trajectory id, measurement id). */
  type Outcome = (nat, nat)

  /** How many outcomes are `(id, m)`. */
  function CountPair(outs: seq<Outcome>, id: nat, m: nat): (c: nat)
    ensures c <= |outs|
  {
    if outs == [] then 0
    else CountPair(outs[..|outs| - 1], id, m) + (if outs[|outs| - 1] == (id, m) then 1 else 0)
  }

  /** How many outcomes have trajectory id `id`. */
  function CountId(outs: seq<Outcome>, id: nat): (c: nat)
    ensures c <= |outs|
  {
    if outs == [] then 0
    else CountId(outs[..|outs| - 1], id) + (if outs[|outs| - 1].0 == id then 1 else 0)
  }

  /** The trajectory ids that occur in `outs`. */
  function Keys(outs: seq<Outcome>): set<nat>
  {
    if outs == [] then {} else Keys(outs[..|outs| - 1]) + {outs[|outs| - 1].0}
  }

  /** The counts of trajectory `id` over measurement ids below `width`. */
  function Column(outs: seq<Outcome>, id: nat, width: nat): (c: seq<real>)
    ensures |c| == width
  {
    seq(width, m requires 0 <= m < width => CountPair(outs, id, m) as real)
  }

  /** The empirical distribution P(Z = m | X = id) of the outcomes. */
  function Empirical(outs: seq<Outcome>, id: nat, width: nat): (p: seq<real>)
    requires CountId(outs, id) > 0
    ensures |p| == width
  {
    Normalised(Column(outs, id, width), CountId(outs, id) as real)
  }

  ghost predicate InRange(outs: seq<Outcome>, width: nat)
  {
    forall i :: 0 <= i < |outs| ==> outs[i].1 < width
  }

  // ---- the ordered map ----

  datatype Entry = Entry(id: nat, counts: seq<real>)

  ghost predicate Ordered(es: seq<Entry>)
  {
    forall i, j :: 0 <= i < j < |es| ==> es[i].id < es[j].id
  }

  ghost predicate HasWidth(es: seq<Entry>, width: nat)
  {
    forall i :: 0 <= i < |es| ==> |es[i].counts| == width
  }

  function Lookup(es: seq<Entry>, id: nat): (r: Option<seq<real>>)
    ensures r.Some? <==> id in Ids(es)
  {
    if es == [] then None
    else if es[0].id == id then Some(es[0].counts)
    else Lookup(es[1..], id)
  }

  /** The ids that have an entry. */
  function Ids(es: seq<Entry>): set<nat>
  {
    if es == [] then {} else {es[0].id} + Ids(es[1..])
  }

  /** Sum of all counts in the map. */
  function Total(es: seq<Entry>): real
  {
    if es == [] then 0.0 else Sum(es[0].counts) + Total(es[1..])
  }

  /** In an ordered map every entry is found under its own id. */
  lemma {:induction false} LookupAt(es: seq<Entry>, k: nat)
    requires Ordered(es) && k < |es|
    ensures Lookup(es, es[k].id) == Some(es[k].counts)
  {
    if k > 0 {
      assert es[0].id < es[k].id;
      assert forall j :: 0 <= j < |es| - 1 ==> es[1..][j] == es[j + 1];
      LookupAt(es[1..], k - 1);
    }
  }

  lemma {:induction false} LookupWidth(es: seq<Entry>, id: nat, width: nat)
    requires HasWidth(es, width)
    ensures Lookup(es, id).Some? ==> |Lookup(es, id).value| == width
  {
    if es != [] && es[0].id != id {
      LookupWidth(es[1..], id, width);
    }
  }

  /** An ordered map's ids all lie above any id below its first key. */
  lemma {:induction false} IdsAbove(es: seq<Entry>, id: nat)
    requires Ordered(es) && (es != [] ==> id < es[0].id)
    ensures id !in Ids(es)
    ensures forall j :: 0 <= j < |es| ==> id < es[j].id
  {
    if es != [] {
      assert forall j :: 0 <= j < |es| - 1 ==> es[1..][j] == es[j + 1];
      IdsAbove(es[1..], id);
    }
  }

  /** The count vector after recording measurement `m` in it: a missing
      vector starts as zeros with a single one at `m`. */
  function Bump(c: Option<seq<real>>, m: nat, width: nat): (b: seq<real>)
    requires m < width
    requires c.Some? ==> |c.value| == width
    ensures |b| == width
  {
    match c
    case None => Constant(width, 0.0)[m := 1.0]
    case Some(col) => col[m := col[m] + 1.0]
  }

  /** Records one outcome: the counter of `(id, m)` goes up by one, creating
      the entry for `id`, in id order, when it is missing (std::map::insert
      followed by std::map::at). */
  function Record(es: seq<Entry>, id: nat, m: nat, width: nat): (r: seq<Entry>)
    requires Ordered(es) && HasWidth(es, width) && m < width
    ensures Ordered(r) && HasWidth(r, width)
    ensures Ids(r) == Ids(es) + {id}
  {
    LookupWidth(es, id, width);
    if es == [] || id < es[0].id then
      var e := Entry(id, Bump(None, m, width));
      IdsAbove(es, id);
      Cons(e, es, width);
      [e] + es
    else if es[0].id == id then
      var e := Entry(id, Bump(Some(es[0].counts), m, width));
      Tail(es, width);
      Cons(e, es[1..], width);
      [e] + es[1..]
    else
      Tail(es, width);
      var rest := Record(es[1..], id, m, width);
      IdsBounded(es[1..], es[0].id);
      RecordAbove(rest, es[0].id);
      Cons(es[0], rest, width);
      [es[0]] + rest
  }

  /** The rest of a map after its first entry is a map of the same kind,
      whose ids all lie above the first one. */
  lemma Tail(es: seq<Entry>, width: nat)
    requires es != []
    ensures es == [es[0]] + es[1..]
    ensures Ids(es) == {es[0].id} + Ids(es[1..])
    ensures Ordered(es) ==> Ordered(es[1..]) && forall j :: 0 <= j < |es[1..]| ==> es[0].id < es[1..][j].id
    ensures HasWidth(es, width) ==> HasWidth(es[1..], width)
  {
    assert forall j :: 0 <= j < |es| - 1 ==> es[1..][j] == es[j + 1];
  }

  /** What putting an entry in front of an ordered map does to its ids, its
      order and its widths. */
  lemma Cons(e: Entry, rest: seq<Entry>, width: nat)
    ensures ([e] + rest)[1..] == rest
    ensures Ids([e] + rest) == {e.id} + Ids(rest)
    ensures Ordered(rest) && (forall j :: 0 <= j < |rest| ==> e.id < rest[j].id) ==> Ordered([e] + rest)
    ensures HasWidth(rest, width) && |e.counts| == width ==> HasWidth([e] + rest, width)
    ensures Total([e] + rest) == Sum(e.counts) + Total(rest)
  {
    assert ([e] + rest)[1..] == rest;
  }

  lemma {:induction false} RecordAbove(rest: seq<Entry>, x: nat)
    requires forall y :: y in Ids(rest) ==> x < y
    ensures forall j :: 0 <= j < |rest| ==> x < rest[j].id
  {
    if rest != [] {
      assert Ids(rest) == {rest[0].id} + Ids(rest[1..]);
      RecordAbove(rest[1..], x);
      assert forall j :: 1 <= j < |rest| ==> rest[j] == rest[1..][j - 1];
    }
  }

  lemma {:induction false} IdsBounded(t: seq<Entry>, x: nat)
    requires forall j :: 0 <= j < |t| ==> x < t[j].id
    ensures forall y :: y in Ids(t) ==> x < y
  {
    if t != [] {
      assert forall j :: 0 <= j < |t| - 1 ==> t[1..][j] == t[j + 1];
      IdsBounded(t[1..], x);
    }
  }

  /** Recording `(id, m)` bumps the vector of `id` at `m` and leaves every
      other vector as it was. */
  lemma {:induction false} RecordLookup(es: seq<Entry>, id: nat, m: nat, width: nat, x: nat)
    requires Ordered(es) && HasWidth(es, width) && m < width
    ensures Lookup(es, id).Some? ==> |Lookup(es, id).value| == width
    ensures Lookup(Record(es, id, m, width), x) ==
      if x == id then Some(Bump(Lookup(es, id), m, width)) else Lookup(es, x)
  {
    LookupWidth(es, id, width);
    if es == [] || id < es[0].id {
      IdsAbove(es, id);
    } else if es[0].id != id {
      RecordLookup(es[1..], id, m, width, x);
    }
  }

  /** Bumping a counter adds one to the vector's sum. */
  lemma BumpSum(c: Option<seq<real>>, m: nat, width: nat)
    requires m < width
    requires c.Some? ==> |c.value| == width
    ensures Sum(Bump(c, m, width)) == (if c.Some? then Sum(c.value) else 0.0) + 1.0
  {
    var zeros := Constant(width, 0.0);
    match c
    case None =>
      SumConstant(width, 0.0);
      assert Sum(zeros) == 0.0;
      assert zeros[m := 1.0] == zeros[m := zeros[m] + 1.0];
      SumIncrement(zeros, m);
    case Some(col) =>
      SumIncrement(col, m);
  }

  /** Recording an outcome adds exactly one to the total count. */
  lemma {:induction false} RecordTotal(es: seq<Entry>, id: nat, m: nat, width: nat)
    requires Ordered(es) && HasWidth(es, width) && m < width
    ensures Total(Record(es, id, m, width)) == Total(es) + 1.0
  {
    LookupWidth(es, id, width);
    var r := Record(es, id, m, width);
    if es == [] || id < es[0].id {
      var e := Entry(id, Bump(None, m, width));
      assert r == [e] + es;
      Cons(e, es, width);
      BumpSum(None, m, width);
    } else if es[0].id == id {
      var e := Entry(id, Bump(Some(es[0].counts), m, width));
      assert r == [e] + es[1..];
      Cons(e, es[1..], width);
      Cons(es[0], es[1..], width);
      assert es == [es[0]] + es[1..];
      BumpSum(Some(es[0].counts), m, width);
    } else {
      var rest := Record(es[1..], id, m, width);
      assert r == [es[0]] + rest;
      Cons(es[0], es[1..], width);
      Cons(es[0], rest, width);
      assert es == [es[0]] + es[1..];
      RecordTotal(es[1..], id, m, width);
    }
  }

  /** The histogram after recording `outs` one after the other, from empty. */
  function Tally(outs: seq<Outcome>, width: nat): (es: seq<Entry>)
    requires InRange(outs, width)
    ensures Ordered(es) && HasWidth(es, width)
    ensures Ids(es) == Keys(outs)
  {
    if outs == [] then []
    else
      var last := outs[|outs| - 1];
      Record(Tally(outs[..|outs| - 1], width), last.0, last.1, width)
  }

  // ---- what the histogram holds ----

  /** An id that does not occur has no counts. */
  lemma {:induction false} CountPairMissing(outs: seq<Outcome>, id: nat, m: nat)
    requires id !in Keys(outs)
    ensures CountPair(outs, id, m) == 0
    decreases |outs|
  {
    if outs != [] {
      CountPairMissing(outs[..|outs| - 1], id, m);
    }
  }

  /** An id occurs exactly when it has a positive count. */
  lemma {:induction false} KeysCountId(outs: seq<Outcome>, id: nat)
    ensures id in Keys(outs) <==> CountId(outs, id) > 0
    decreases |outs|
  {
    if outs != [] {
      KeysCountId(outs[..|outs| - 1], id);
    }
  }

  /** Recording one more outcome adds one to that pair's counter only. */
  lemma ColumnStep(outs: seq<Outcome>, x: nat, width: nat)
    requires outs != []
    ensures var prefix, last := outs[..|outs| - 1], outs[|outs| - 1];
      Column(outs, x, width) ==
        if x == last.0 && last.1 < width
        then Column(prefix, x, width)[last.1 := Column(prefix, x, width)[last.1] + 1.0]
        else Column(prefix, x, width)
  {
  }

  /** The histogram's vector for `id` holds, at every measurement id, the
      number of outcomes with that pair; ids never seen have no entry. */
  lemma {:induction false} TallyLookup(outs: seq<Outcome>, width: nat, x: nat)
    requires InRange(outs, width)
    ensures Lookup(Tally(outs, width), x) == if x in Keys(outs) then Some(Column(outs, x, width)) else None
    decreases |outs|
  {
    if outs != [] {
      var prefix, last := outs[..|outs| - 1], outs[|outs| - 1];
      assert InRange(prefix, width);
      TallyLookup(prefix, width, x);
      RecordLookup(Tally(prefix, width), last.0, last.1, width, x);
      ColumnStep(outs, x, width);
      if x == last.0 && x !in Keys(prefix) {
        var before := Column(prefix, x, width);
        forall m | 0 <= m < width ensures before[m] == 0.0 {
          CountPairMissing(prefix, x, m);
        }
        assert before == Constant(width, 0.0);
      }
    }
  }

  /** The counts of one trajectory add up to the number of its outcomes. */
  lemma {:induction false} ColumnSum(outs: seq<Outcome>, id: nat, width: nat)
    requires InRange(outs, width)
    ensures Sum(Column(outs, id, width)) == CountId(outs, id) as real
    decreases |outs|
  {
    if outs == [] {
      assert Column(outs, id, width) == Constant(width, 0.0);
      SumConstant(width, 0.0);
    } else {
      var prefix, last := outs[..|outs| - 1], outs[|outs| - 1];
      assert InRange(prefix, width);
      ColumnSum(prefix, id, width);
      var before := Column(prefix, id, width);
      if last.0 == id {
        assert Column(outs, id, width) == before[last.1 := before[last.1] + 1.0];
        SumIncrement(before, last.1);
      } else {
        assert Column(outs, id, width) == before;
      }
    }
  }

  lemma {:induction false} CountPairAtMostCountId(outs: seq<Outcome>, id: nat, m: nat)
    ensures CountPair(outs, id, m) <= CountId(outs, id)
    decreases |outs|
  {
    if outs != [] {
      CountPairAtMostCountId(outs[..|outs| - 1], id, m);
    }
  }

  lemma Fraction(p: real, n: real)
    requires 0.0 <= p <= n && n > 0.0
    ensures 0.0 <= p / n <= 1.0
  {
  }

  /** For every trajectory that occurs, the empirical conditional distribution
      is a probability vector: entries in [0, 1] summing to one. */
  lemma EmpiricalIsDistribution(outs: seq<Outcome>, id: nat, width: nat)
    requires InRange(outs, width) && id in Keys(outs)
    ensures CountId(outs, id) > 0
    ensures forall m :: 0 <= m < width ==> 0.0 <= Empirical(outs, id, width)[m] <= 1.0
    ensures Sum(Empirical(outs, id, width)) == 1.0
  {
    KeysCountId(outs, id);
    var n := CountId(outs, id) as real;
    forall m | 0 <= m < width ensures 0.0 <= Empirical(outs, id, width)[m] <= 1.0 {
      CountPairAtMostCountId(outs, id, m);
      Fraction(CountPair(outs, id, m) as real, n);
    }
    SumNormalised(Column(outs, id, width), n);
    ColumnSum(outs, id, width);
    DivSelf(n);
  }

  /** Every outcome increments exactly one counter, so the counts of the whole
      histogram add up to the number of outcomes recorded. */
  lemma {:induction false} TallyTotal(outs: seq<Outcome>, width: nat)
    requires InRange(outs, width)
    ensures Total(Tally(outs, width)) == |outs| as real
    decreases |outs|
  {
    if outs != [] {
      var prefix, last := outs[..|outs| - 1], outs[|outs| - 1];
      assert InRange(prefix, width);
      TallyTotal(prefix, width);
      RecordTotal(Tally(prefix, width), last.0, last.1, width);
    }
  }
}
