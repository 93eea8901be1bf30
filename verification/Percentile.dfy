/** The two linear-interpolated percentiles: experiments/analysis/statistics.py and
    the one nested in `describe` of experiments/runner/metrics.py. Floats are reals. */
module Percentile {
  import opened Base

  predicate Sorted(s: seq<real>) {
    forall i, j | 0 <= i < j < |s| :: s[i] <= s[j]
  }

  function Insert(x: real, s: seq<real>): seq<real> {
    if s == [] || x <= s[0] then [x] + s else [s[0]] + Insert(x, s[1..])
  }

  /** `sorted(values)`. */
  function Sort(s: seq<real>): seq<real> {
    if s == [] then [] else Insert(s[0], Sort(s[1..]))
  }

  /** `a * (1 - w) + b * w`. */
  function Blend(a: real, b: real, w: real): real {
    a * (1.0 - w) + b * w
  }

  function Ceiling(x: real): int {
    if x == x.Floor as real then x.Floor else x.Floor + 1
  }

  function Position(n: nat, fraction: real): real
    requires n >= 1
  {
    (n - 1) as real * fraction
  }

  /** `percentile` of statistics.py, q in [0, 100]. */
  function StatisticsPercentile(values: seq<real>, q: real): Option<real>
    requires 0.0 <= q <= 100.0
  {
    if values == [] then None
    else
      var ordered := Sort(values);
      SortSorts(values);
      if |ordered| == 1 then Some(ordered[0])
      else
        PositionBounds(|ordered|, q / 100.0);
        var position := Position(|ordered|, q / 100.0);
        var lower, upper := position.Floor, Ceiling(position);
        if lower == upper then Some(ordered[lower])
        else Some(Blend(ordered[lower], ordered[upper], position - lower as real))
  }

  /** `percentile` inside `describe` of metrics.py, fraction in [0, 1], on an already sorted list. */
  function MetricsPercentile(ordered: seq<real>, fraction: real): real
    requires |ordered| >= 1 && 0.0 <= fraction <= 1.0
  {
    if |ordered| == 1 then ordered[0]
    else
      PositionBounds(|ordered|, fraction);
      var position := Position(|ordered|, fraction);
      var lower := position.Floor;
      var upper := if lower + 1 < |ordered| - 1 then lower + 1 else |ordered| - 1;
      Blend(ordered[lower], ordered[upper], position - lower as real)
  }

  // -- real arithmetic, one fact at a time ----------------------------------------

  lemma ProductBound(c: real, x: real, y: real)
    requires c >= 0.0 && x <= y
    ensures c * x <= c * y
  {
    assert c * (y - x) >= 0.0;
  }

  lemma PositionBounds(n: nat, fraction: real)
    requires n >= 1 && 0.0 <= fraction <= 1.0
    ensures 0.0 <= Position(n, fraction) <= (n - 1) as real
    ensures 0 <= Position(n, fraction).Floor <= n - 1
  {
    var position := Position(n, fraction);
    FractionBound((n - 1) as real, fraction, position);
    FloorBound(n - 1, position);
  }

  lemma FractionBound(c: real, x: real, p: real)
    requires c >= 0.0 && 0.0 <= x <= 1.0 && p == c * x
    ensures 0.0 <= p <= c
  {
    ProductBound(c, 0.0, x);
    ProductBound(c, x, 1.0);
  }

  lemma FloorBound(n: nat, p: real)
    requires 0.0 <= p <= n as real
    ensures 0 <= p.Floor <= n
  {}

  lemma PositionMonotone(n: nat, f: real, g: real)
    requires n >= 1 && f <= g
    ensures Position(n, f) <= Position(n, g)
  {
    ScaledOrder((n - 1) as real, f, g, Position(n, f), Position(n, g));
  }

  lemma ScaledOrder(c: real, x: real, y: real, p: real, q: real)
    requires c >= 0.0 && x <= y && p == c * x && q == c * y
    ensures p <= q
  {
    ProductBound(c, x, y);
  }

  lemma BlendBounds(a: real, b: real, w: real)
    requires a <= b && 0.0 <= w <= 1.0
    ensures a <= Blend(a, b, w) <= b
    ensures w == 0.0 ==> Blend(a, b, w) == a
  {
    var d := b - a;
    assert Blend(a, b, w) == a + d * w by { assert a * (1.0 - w) == a - a * w; }
    ProductBound(d, 0.0, w);
    assert d * w <= d by {
      ProductBound(d, w, 1.0);
      assert d * 1.0 == d;
    }
    assert 0.0 <= d * w;
  }

  lemma BlendMonotone(a: real, b: real, v: real, w: real)
    requires a <= b && v <= w
    ensures Blend(a, b, v) <= Blend(a, b, w)
  {
    assert Blend(a, b, v) == a + (b - a) * v && Blend(a, b, w) == a + (b - a) * w;
    ProductBound(b - a, v, w);
  }

  // -- sorting ------------------------------------------------------------

  lemma {:induction false} InsertElements(x: real, s: seq<real>)
    ensures |Insert(x, s)| == |s| + 1
    ensures multiset(Insert(x, s)) == multiset(s) + multiset{x}
    ensures forall y | y in Insert(x, s) :: y == x || y in s
  {
    if s != [] && x > s[0] {
      InsertElements(x, s[1..]);
      assert s == [s[0]] + s[1..];
    }
  }

  lemma {:induction false} InsertSorts(x: real, s: seq<real>)
    requires Sorted(s)
    ensures Sorted(Insert(x, s))
  {
    if s != [] && x > s[0] {
      InsertSorts(x, s[1..]);
      InsertElements(x, s[1..]);
      var rest := Insert(x, s[1..]);
      forall i | 0 <= i < |rest| ensures s[0] <= rest[i] {
        assert rest[i] in rest;
      }
    }
  }

  lemma {:induction false} SortSorts(s: seq<real>)
    ensures Sorted(Sort(s)) && |Sort(s)| == |s| && multiset(Sort(s)) == multiset(s)
  {
    if s != [] {
      SortSorts(s[1..]);
      InsertSorts(s[0], Sort(s[1..]));
      InsertElements(s[0], Sort(s[1..]));
      assert s == [s[0]] + s[1..];
    }
  }

  lemma SameLeast(s: seq<real>, t: seq<real>)
    requires Sorted(s) && Sorted(t) && s != [] && multiset(s) == multiset(t)
    ensures t != [] && s[0] == t[0]
  {
    assert s[0] in multiset(t);
    var i :| 0 <= i < |t| && t[i] == s[0];
    assert t[0] in multiset(s);
    var j :| 0 <= j < |s| && s[j] == t[0];
  }

  lemma TailMultiset(s: seq<real>)
    requires s != []
    ensures multiset(s[1..]) == multiset(s) - multiset{s[0]}
  {
    assert s == [s[0]] + s[1..];
  }

  lemma {:induction false} SortedIsUnique(s: seq<real>, t: seq<real>)
    requires Sorted(s) && Sorted(t) && multiset(s) == multiset(t)
    ensures s == t
  {
    if s == [] {
      assert |multiset(t)| == 0;
    } else {
      SameLeast(s, t);
      TailMultiset(s);
      TailMultiset(t);
      SortedIsUnique(s[1..], t[1..]);
    }
  }

  // -- main results ---------------------------------------------------------

  /** The two implementations agree on every nonempty list and every fraction. */
  lemma PercentilesAgree(values: seq<real>, q: real)
    requires values != [] && 0.0 <= q <= 100.0
    ensures |Sort(values)| == |values|
    ensures StatisticsPercentile(values, q) == Some(MetricsPercentile(Sort(values), q / 100.0))
  {
    SortSorts(values);
    var ordered := Sort(values);
    if |ordered| > 1 {
      PositionBounds(|ordered|, q / 100.0);
      var position := Position(|ordered|, q / 100.0);
      var lower := position.Floor;
      if position == lower as real {
        var upper := if lower + 1 < |ordered| - 1 then lower + 1 else |ordered| - 1;
        BlendBounds(ordered[lower], ordered[upper], 0.0);
      }
    }
  }

  /** Only the multiset of values matters. */
  lemma PercentileIgnoresOrder(values: seq<real>, others: seq<real>, q: real)
    requires multiset(values) == multiset(others) && 0.0 <= q <= 100.0
    ensures StatisticsPercentile(values, q) == StatisticsPercentile(others, q)
  {
    SortSorts(values);
    SortSorts(others);
    SortedIsUnique(Sort(values), Sort(others));
  }

  lemma BlendIs(a: real, b: real, w: real)
    ensures Blend(a, b, w) == a + w * (b - a)
  {
    assert a * (1.0 - w) == a - a * w;
    assert w * (b - a) == b * w - a * w;
  }

  lemma MetricsInterpolates(ordered: seq<real>, fraction: real, k: nat, w: real)
    requires k + 1 < |ordered| && 0.0 <= fraction <= 1.0
    requires 0.0 <= w <= 1.0 && (|ordered| - 1) as real * fraction == k as real + w
    ensures MetricsPercentile(ordered, fraction) == ordered[k] + w * (ordered[k + 1] - ordered[k])
  {
    hide Blend;
    PositionBounds(|ordered|, fraction);
    var lower := Position(|ordered|, fraction).Floor;
    var upper := if lower + 1 < |ordered| - 1 then lower + 1 else |ordered| - 1;
    if w == 1.0 {
      assert lower == k + 1;
      BlendIs(ordered[lower], ordered[upper], 0.0);
      WholeSteps(ordered[upper] - ordered[lower]);
      WholeSteps(ordered[k + 1] - ordered[k]);
    } else {
      assert lower == k;
      BlendIs(ordered[lower], ordered[upper], w);
    }
  }

  lemma WholeSteps(d: real)
    ensures 0.0 * d == 0.0 && 1.0 * d == d
  {}

  /** The percentile, against the fraction, is the broken line through the points (k / (n - 1), k-th smallest value): on
      each stretch between two neighbours it goes straight from one to the other. */
  lemma PercentileInterpolates(values: seq<real>, q: real, ordered: seq<real>, k: nat, w: real)
    requires Sorted(ordered) && multiset(ordered) == multiset(values) && k + 1 < |ordered| && 0.0 <= q <= 100.0
    requires 0.0 <= w <= 1.0 && (|ordered| - 1) as real * (q / 100.0) == k as real + w
    ensures StatisticsPercentile(values, q).Some?
    ensures StatisticsPercentile(values, q).value == ordered[k] + w * (ordered[k + 1] - ordered[k])
  {
    hide StatisticsPercentile, MetricsPercentile, Sort, Sorted;
    SortSorts(values);
    SortedIsUnique(ordered, Sort(values));
    assert |multiset(values)| == |ordered|;
    PercentilesAgree(values, q);
    MetricsInterpolates(ordered, q / 100.0, k, w);
  }

  /** In particular the median of an even number of values is the mean of the two in the middle, and that of an odd
      number the one in the middle. */
  lemma Median(values: seq<real>, ordered: seq<real>, m: nat)
    requires Sorted(ordered) && multiset(ordered) == multiset(values) && m >= 1
    ensures |ordered| == 2 * m ==> StatisticsPercentile(values, 50.0) == Some((ordered[m - 1] + ordered[m]) / 2.0)
    ensures |ordered| == 2 * m + 1 ==> StatisticsPercentile(values, 50.0) == Some(ordered[m])
  {
    hide StatisticsPercentile, Sorted;
    if |ordered| == 2 * m {
      MiddleValue(values, ordered, m - 1, 0.5);
    } else if |ordered| == 2 * m + 1 {
      MiddleValue(values, ordered, m, 0.0);
    }
  }

  lemma MiddleValue(values: seq<real>, ordered: seq<real>, k: nat, w: real)
    requires Sorted(ordered) && multiset(ordered) == multiset(values) && k + 1 < |ordered|
    requires (w == 0.0 && |ordered| == 2 * k + 1) || (w == 0.5 && |ordered| == 2 * k + 2)
    ensures StatisticsPercentile(values, 50.0)
         == Some(if w == 0.0 then ordered[k] else (ordered[k] + ordered[k + 1]) / 2.0)
  {
    hide StatisticsPercentile, Sorted;
    assert (|ordered| - 1) as real * (50.0 / 100.0) == k as real + w;
    PercentileInterpolates(values, 50.0, ordered, k, w);
    var a, b := ordered[k], ordered[k + 1];
    Midpoint(a, b, w, StatisticsPercentile(values, 50.0).value);
  }

  lemma Midpoint(a: real, b: real, w: real, value: real)
    requires value == a + w * (b - a)
    ensures w == 0.0 ==> value == a
    ensures w == 0.5 ==> value == (a + b) / 2.0
  {}

  /** A percentile lies between any lower and any upper bound of the values, so between their min and max. */
  lemma PercentileBetween(values: seq<real>, q: real, lo: real, hi: real)
    requires values != [] && 0.0 <= q <= 100.0
    requires forall v | v in values :: lo <= v <= hi
    ensures lo <= StatisticsPercentile(values, q).value <= hi
  {
    PercentilesAgree(values, q);
    SortSorts(values);
    var ordered := Sort(values);
    forall i | 0 <= i < |ordered| ensures lo <= ordered[i] <= hi {
      assert ordered[i] in multiset(values);
      assert ordered[i] in values;
    }
    if |ordered| > 1 {
      PositionBounds(|ordered|, q / 100.0);
      InterpolationBetween(ordered, q / 100.0);
    }
  }

  /** The value lies between the two neighbours it interpolates. */
  lemma InterpolationBetween(ordered: seq<real>, fraction: real)
    requires Sorted(ordered) && |ordered| > 1 && 0.0 <= fraction <= 1.0
    ensures var lower := Position(|ordered|, fraction).Floor;
      && 0 <= lower < |ordered|
      && ordered[lower] <= MetricsPercentile(ordered, fraction)
      && MetricsPercentile(ordered, fraction) <= ordered[if lower + 1 < |ordered| then lower + 1 else lower]
  {
    PositionBounds(|ordered|, fraction);
    var position := Position(|ordered|, fraction);
    var lower := position.Floor;
    var upper := if lower + 1 < |ordered| - 1 then lower + 1 else |ordered| - 1;
    BlendBounds(ordered[lower], ordered[upper], position - lower as real);
  }

  /** A larger fraction never gives a smaller percentile. */
  lemma PercentileMonotone(values: seq<real>, q: real, r: real)
    requires values != [] && 0.0 <= q <= r <= 100.0
    ensures StatisticsPercentile(values, q).value <= StatisticsPercentile(values, r).value
  {
    PercentilesAgree(values, q);
    PercentilesAgree(values, r);
    SortSorts(values);
    var ordered := Sort(values);
    if |ordered| > 1 {
      InterpolationMonotone(ordered, q / 100.0, r / 100.0);
    }
  }

  lemma InterpolationMonotone(ordered: seq<real>, f: real, g: real)
    requires Sorted(ordered) && |ordered| > 1 && 0.0 <= f <= g <= 1.0
    ensures MetricsPercentile(ordered, f) <= MetricsPercentile(ordered, g)
  {
    var n := |ordered|;
    PositionBounds(n, f);
    PositionBounds(n, g);
    PositionMonotone(n, f, g);
    InterpolationBetween(ordered, f);
    InterpolationBetween(ordered, g);
    var a, b := Position(n, f).Floor, Position(n, g).Floor;
    if a == b {
      var upper := if a + 1 < n - 1 then a + 1 else n - 1;
      BlendMonotone(ordered[a], ordered[upper], Position(n, f) - a as real, Position(n, g) - a as real);
    } else {
      assert ordered[a + 1] <= ordered[b] by { assert a + 1 <= b; }
    }
  }

  /** `describe`'s interquartile range is never negative. */
  lemma InterquartileRange(values: seq<real>)
    requires values != []
    ensures StatisticsPercentile(values, 75.0).value - StatisticsPercentile(values, 25.0).value >= 0.0
  {
    PercentileMonotone(values, 25.0, 75.0);
  }
}
