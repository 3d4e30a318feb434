/** Labelled histograms: cells keyed by length-prefixed label values, buckets found by binary search. */
module Metrics {
  import opened Text

  // ---- cell keys -----------------------------------------------------------

  /** Each value prefixed by its length, so that tuples never run together. */
  function JoinKey(values: seq<string>): string {
    if values == [] then "" else Decimal(|values[0]|) + [':'] + (values[0] + JoinKey(values[1..]))
  }

  method ComputeJoinKey(values: seq<string>) returns (key: string)
    ensures key == JoinKey(values)
  {
    key := "";
    for i := 0 to |values|
      invariant key + JoinKey(values[i..]) == JoinKey(values)
    {
      assert values[i..][1..] == values[i + 1..];
      assert (key + (Decimal(|values[i]|) + [':'] + values[i])) + JoinKey(values[i + 1..])
          == key + (Decimal(|values[i]|) + [':'] + (values[i] + JoinKey(values[i + 1..])));
      key := key + (Decimal(|values[i]|) + [':'] + values[i]);
    }
    assert key + JoinKey(values[|values|..]) == key;
  }

  /** Two label tuples share a key only if they are equal, whatever characters they hold. */
  lemma {:induction false} JoinKeyInjective(a: seq<string>, b: seq<string>)
    requires JoinKey(a) == JoinKey(b)
    ensures a == b
  {
    if a != [] && b != [] {
      DecimalRoundTrip(|a[0]|);
      DecimalRoundTrip(|b[0]|);
      var x, y := a[0] + JoinKey(a[1..]), b[0] + JoinKey(b[1..]);
      SplitFirst(Decimal(|a[0]|), x, Decimal(|b[0]|), y, ':');
      assert |a[0]| == |b[0]|;
      assert x[..|a[0]|] == a[0] && y[..|b[0]|] == b[0];
      assert x[|a[0]|..] == JoinKey(a[1..]) && y[|b[0]|..] == JoinKey(b[1..]);
      JoinKeyInjective(a[1..], b[1..]);
      assert a == [a[0]] + a[1..] && b == [b[0]] + b[1..];
    }
  }

  // ---- buckets -------------------------------------------------------------

  predicate Sorted(s: seq<real>) {
    forall i, j | 0 <= i < j < |s| :: s[i] <= s[j]
  }

  /** How many of the observations are at most b. */
  function CountAtMost(obs: seq<real>, b: real): nat {
    if obs == [] then 0 else CountAtMost(obs[..|obs| - 1], b) + if obs[|obs| - 1] <= b then 1 else 0
  }

  function Sum(obs: seq<real>): real {
    if obs == [] then 0.0 else Sum(obs[..|obs| - 1]) + obs[|obs| - 1]
  }

  /** The first bucket whose bound is at least v; past the end if there is none. */
  predicate IsBucketOf(buckets: seq<real>, v: real, i: nat) {
    && i <= |buckets|
    && (forall k | 0 <= k < i :: buckets[k] < v)
    && (i < |buckets| ==> v <= buckets[i])
  }

  method Search(buckets: seq<real>, v: real) returns (i: nat)
    requires Sorted(buckets)
    ensures IsBucketOf(buckets, v, i)
  {
    i := 0;
    var j := |buckets|;
    while i < j
      invariant 0 <= i <= j <= |buckets|
      invariant forall k | 0 <= k < i :: buckets[k] < v
      invariant forall k | j <= k < |buckets| :: v <= buckets[k]
    {
      var h := (i + j) / 2;
      if buckets[h] < v {
        i := h + 1;
      } else {
        j := h;
      }
    }
  }

  /** The sum of the first n counts. */
  function Prefix(counts: seq<nat>, n: nat): nat
    requires n <= |counts|
  {
    if n == 0 then 0 else Prefix(counts, n - 1) + counts[n - 1]
  }

  lemma {:induction false} PrefixBump(counts: seq<nat>, i: nat, n: nat)
    requires i < |counts| && n <= |counts|
    ensures Prefix(counts[i := counts[i] + 1], n) == Prefix(counts, n) + if i < n then 1 else 0
  {
    if n > 0 {
      PrefixBump(counts, i, n - 1);
    }
  }

  lemma {:induction false} PrefixZero(m: nat, n: nat)
    requires n <= m
    ensures Prefix(seq(m, _ => 0), n) == 0
  {
    if n > 0 {
      PrefixZero(m, n - 1);
    }
  }

  // ---- histograms ----------------------------------------------------------

  const DEFAULT_BUCKETS := [0.005, 0.01, 0.025, 0.05, 0.1, 0.25, 0.5, 1.0, 2.5, 5.0, 10.0]

  datatype Cell = Cell(values: seq<string>, counts: seq<nat>, sum: real, count: nat)

  /** The cell's counts add up, bound by bound, to the observations at most that bound. */
  predicate Tallies(c: Cell, buckets: seq<real>, obs: seq<real>) {
    && |c.counts| == |buckets| + 1
    && (forall i: nat | i < |buckets| :: Prefix(c.counts, i + 1) == CountAtMost(obs, buckets[i]))
    && Prefix(c.counts, |buckets| + 1) == c.count == |obs|
    && c.sum == Sum(obs)
  }

  function EmptyCell(values: seq<string>, buckets: seq<real>): Cell {
    Cell(values, seq(|buckets| + 1, _ => 0), 0.0, 0)
  }

  lemma EmptyCellTallies(values: seq<string>, buckets: seq<real>)
    ensures Tallies(EmptyCell(values, buckets), buckets, [])
  {
    forall i: nat | i <= |buckets| + 1 ensures Prefix(EmptyCell(values, buckets).counts, i) == 0 {
      PrefixZero(|buckets| + 1, i);
    }
  }

  function Bumped(c: Cell, i: nat, v: real): Cell
    requires i < |c.counts|
  {
    c.(counts := c.counts[i := c.counts[i] + 1], sum := c.sum + v, count := c.count + 1)
  }

  lemma BumpTallies(c: Cell, buckets: seq<real>, obs: seq<real>, i: nat, v: real)
    requires Sorted(buckets) && Tallies(c, buckets, obs) && IsBucketOf(buckets, v, i)
    ensures Tallies(Bumped(c, i, v), buckets, obs + [v])
  {
    assert (obs + [v])[..|obs|] == obs;
    forall k: nat | k < |buckets|
      ensures Prefix(Bumped(c, i, v).counts, k + 1) == CountAtMost(obs + [v], buckets[k])
    {
      PrefixBump(c.counts, i, k + 1);
    }
    PrefixBump(c.counts, i, |buckets| + 1);
  }

  lemma InsertedIsSorted(s: seq<real>, x: real, i: nat)
    requires Sorted(s) && IsBucketOf(s, x, i)
    ensures Sorted(s[..i] + [x] + s[i..])
  {
    var r := s[..i] + [x] + s[i..];
    assert forall k | 0 <= k < |r| :: r[k] == if k < i then s[k] else if k == i then x else s[k - 1];
    forall j, k | 0 <= j < k < |r| ensures r[j] <= r[k] {
      assert k > i && i < |s| ==> s[i] <= s[k - 1];
    }
  }

  method InsertBound(s: seq<real>, x: real) returns (r: seq<real>)
    requires Sorted(s)
    ensures Sorted(r) && multiset(r) == multiset(s) + multiset{x}
  {
    var i := Search(s, x);
    InsertedIsSorted(s, x, i);
    r := s[..i] + [x] + s[i..];
    assert multiset(s[..i]) + multiset(s[i..]) == multiset(s) by {
      assert s == s[..i] + s[i..];
    }
  }

  lemma {:induction false} PrefixMonotone(counts: seq<nat>, m: nat, n: nat)
    requires m <= n <= |counts|
    ensures Prefix(counts, m) <= Prefix(counts, n)
  {
    if m < n {
      PrefixMonotone(counts, m, n - 1);
    }
  }

  /** The rows of a cell: a cumulative count per bound, then "+Inf", the sum and the count. */
  method RenderCell(cell: Cell, bounds: nat) returns (rows: seq<nat>, inf: nat, sum: real, count: nat)
    requires |cell.counts| == bounds + 1
    ensures |rows| == bounds && inf == Prefix(cell.counts, bounds + 1)
    ensures forall i | 0 <= i < bounds :: rows[i] == Prefix(cell.counts, i + 1)
    ensures forall i, j | 0 <= i <= j < bounds :: rows[i] <= rows[j] <= inf
    ensures sum == cell.sum && count == cell.count
  {
    rows := [];
    var cumulative := 0;
    for i := 0 to bounds
      invariant |rows| == i && cumulative == Prefix(cell.counts, i)
      invariant forall k | 0 <= k < i :: rows[k] == Prefix(cell.counts, k + 1)
    {
      cumulative := cumulative + cell.counts[i];
      rows := rows + [cumulative];
    }
    inf := cumulative + cell.counts[bounds];
    sum, count := cell.sum, cell.count;
    forall i, j | 0 <= i <= j < bounds ensures rows[i] <= rows[j] <= inf {
      PrefixMonotone(cell.counts, i + 1, j + 1);
      PrefixMonotone(cell.counts, j + 1, bounds + 1);
    }
  }

  /** Each series holds one label tuple's cell, tallying that tuple's observations. */
  ghost predicate Faithful(buckets: seq<real>, series: map<string, Cell>, observed: map<seq<string>, seq<real>>) {
    && (forall labels <- observed :: JoinKey(labels) in series
          && series[JoinKey(labels)].values == labels
          && Tallies(series[JoinKey(labels)], buckets, observed[labels]))
    && (forall key <- series :: series[key].values in observed && JoinKey(series[key].values) == key)
  }

  /** Replacing the cell of one label tuple reaches no other tuple's cell. */
  lemma UpdateOneSeries(
      buckets: seq<real>, series: map<string, Cell>, observed: map<seq<string>, seq<real>>, labels: seq<string>,
      cell: Cell, obs: seq<real>)
    requires Faithful(buckets, series, observed)
    requires cell.values == labels && Tallies(cell, buckets, obs)
    ensures Faithful(buckets, series[JoinKey(labels) := cell], observed[labels := obs])
    ensures forall other <- observed :: other != labels ==> JoinKey(other) != JoinKey(labels)
  {
    forall other | other != labels ensures JoinKey(other) != JoinKey(labels) {
      if JoinKey(other) == JoinKey(labels) {
        JoinKeyInjective(other, labels);
      }
    }
  }

  class HistogramVec {
    const buckets: seq<real>
    var series: map<string, Cell>
    /** Every observation so far, by label values. */
    ghost var observed: map<seq<string>, seq<real>>

    ghost predicate Valid()
      reads this
    {
      Sorted(buckets) && Faithful(buckets, series, observed)
    }

    constructor (requested: seq<real>)
      ensures Valid() && observed == map[] && series == map[]
      ensures multiset(buckets) == multiset(if requested == [] then DEFAULT_BUCKETS else requested)
    {
      var bounds := if requested == [] then DEFAULT_BUCKETS else requested;
      var sorted: seq<real> := [];
      for i := 0 to |bounds|
        invariant Sorted(sorted) && multiset(sorted) == multiset(bounds[..i])
      {
        assert bounds[..i + 1] == bounds[..i] + [bounds[i]];
        sorted := InsertBound(sorted, bounds[i]);
      }
      assert bounds[..|bounds|] == bounds;
      buckets := sorted;
      series := map[];
      observed := map[];
    }

    /** Records the observation in its own series and leaves every other untouched. */
    method Observe(v: real, labels: seq<string>)
      requires Valid()
      modifies this
      ensures Valid()
      ensures observed == old(observed)[labels := (if labels in old(observed) then old(observed)[labels] else []) + [v]]
      ensures forall other <- old(observed) :: other != labels ==>
                JoinKey(other) in series && series[JoinKey(other)] == old(series)[JoinKey(other)]
    {
      var key := ComputeJoinKey(labels);
      ghost var obs := if labels in observed then observed[labels] else [];
      var cell;
      if key in series {
        cell := series[key];
        JoinKeyInjective(cell.values, labels);
      } else {
        cell := EmptyCell(labels, buckets);
        EmptyCellTallies(labels, buckets);
      }
      var idx := Search(buckets, v);
      BumpTallies(cell, buckets, obs, idx, v);
      UpdateOneSeries(buckets, series, observed, labels, Bumped(cell, idx, v), obs + [v]);
      series := series[key := Bumped(cell, idx, v)];
      observed := observed[labels := obs + [v]];
    }

    /** The exposition rows of one series. */
    method Render(labels: seq<string>) returns (rows: seq<nat>, inf: nat, sum: real, count: nat)
      requires Valid() && labels in observed
      ensures |rows| == |buckets|
      ensures forall i | 0 <= i < |rows| :: rows[i] == CountAtMost(observed[labels], buckets[i])
      ensures forall i, j | 0 <= i < j < |rows| :: rows[i] <= rows[j]
      ensures forall i | 0 <= i < |rows| :: rows[i] <= inf
      ensures inf == count == |observed[labels]| && sum == Sum(observed[labels])
    {
      rows, inf, sum, count := RenderCell(series[JoinKey(labels)], |buckets|);
    }
  }
}
