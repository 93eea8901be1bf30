/** Cochran's Q from its definition, over paired binary outcomes (experiments/analysis/statistics.py).
    Columns are conditions, rows are runs. */
module Cochran {

  // -- sums ---------------------------------------------------------------

  function Sum(v: seq<int>): int {
    if v == [] then 0 else Sum(v[..|v| - 1]) + v[|v| - 1]
  }

  function SumSquares(v: seq<int>): int {
    if v == [] then 0 else SumSquares(v[..|v| - 1]) + v[|v| - 1] * v[|v| - 1]
  }

  predicate Binary(v: seq<int>) {
    forall i | 0 <= i < |v| :: v[i] == 0 || v[i] == 1
  }

  // -- the pairwise-difference form ------------------------------------------

  /** Sum over i < |v| of (v[i] - x)^2. */
  function SpreadFrom(v: seq<int>, x: int): int {
    if v == [] then 0
    else SpreadFrom(v[..|v| - 1], x) + (v[|v| - 1] - x) * (v[|v| - 1] - x)
  }

  /** Sum over i < j of (v[i] - v[j])^2. */
  function Spread(v: seq<int>): int {
    if v == [] then 0 else Spread(v[..|v| - 1]) + SpreadFrom(v[..|v| - 1], v[|v| - 1])
  }

  // -- integer identities, kept apart so that each is one small query ----------

  lemma Distribute(c: int, p: int, q: int)
    ensures c * (p + q) == c * p + c * q
  {}

  lemma Associate(a: int, b: int, c: int)
    ensures a * (b * c) == (a * b) * c
  {}

  lemma SquareOfSum(a: int, b: int)
    ensures (a + b) * (a + b) == a * a + 2 * (a * b) + b * b
  {
    assert (a + b) * (a + b) == a * (a + b) + b * (a + b);
  }

  lemma SpreadFromStep(p: int, s1: int, s2: int, n: int, x: int, y: int)
    requires p == s2 - 2 * (x * s1) + n * (x * x)
    ensures p + (y - x) * (y - x) == (s2 + y * y) - 2 * (x * (s1 + y)) + (n + 1) * (x * x)
  {
    SquareOfSum(y, -x);
    Distribute(x, s1, y);
    assert y * (-x) == -(x * y);
    assert (-x) * (-x) == x * x;
    assert (n + 1) * (x * x) == n * (x * x) + x * x;
  }

  lemma LagrangeStep(n: int, s1: int, s2: int, x: int)
    ensures n * s2 - s1 * s1 + (s2 - 2 * (x * s1) + n * (x * x)) == (n + 1) * (s2 + x * x) - (s1 + x) * (s1 + x)
  {
    SquareOfSum(s1, x);
    var q := x * x;
    Distribute(n + 1, s2, q);
    assert (n + 1) * s2 == n * s2 + s2;
    assert (n + 1) * q == n * q + q;
    assert s1 * x == x * s1;
  }

  /** n(a+b)^2 <= (n+1)a^2 + n(n+1)b^2, because the difference is (a - nb)^2. */
  lemma WeightedSquare(n: nat, a: int, b: int)
    ensures n * ((a + b) * (a + b)) <= (n + 1) * (a * a) + (n * (n + 1)) * (b * b)
  {
    var p, q, r := a * a, a * b, b * b;
    SquareOfSum(a, b);
    assert n * (p + 2 * q + r) == n * p + 2 * (n * q) + n * r;
    var m := n * b;
    SquareOfSum(a, -m);
    assert a * (-m) == -(n * q) by {
      Associate(n, b, a);
      assert a * (-m) == -(m * a) && b * a == q;
    }
    assert (-m) * (-m) == m * m;
    assert m * m == (n * n) * r by {
      Associate(m, n, b);
      Associate(n, n, b);
      Associate(n * n, b, b);
      assert m * n == n * m;
    }
    assert (a - m) * (a - m) >= 0;
    assert (n + 1) * p == n * p + p;
    assert n * (n + 1) == n * n + n;
    assert (n * n + n) * r == (n * n) * r + n * r;
  }

  // -- spread -------------------------------------------------------------

  lemma {:induction false} SpreadFromExpands(v: seq<int>, x: int)
    ensures SpreadFrom(v, x) == SumSquares(v) - 2 * (x * Sum(v)) + |v| * (x * x)
  {
    if v != [] {
      var u, y := v[..|v| - 1], v[|v| - 1];
      SpreadFromExpands(u, x);
      SpreadFromStep(SpreadFrom(u, x), Sum(u), SumSquares(u), |u|, x, y);
    }
  }

  /** Lagrange's identity: n times the sum of squares minus the square of the sum is the pairwise spread. */
  lemma {:induction false} SpreadIsLagrange(v: seq<int>)
    ensures Spread(v) == |v| * SumSquares(v) - Sum(v) * Sum(v)
  {
    if v != [] {
      var u, x := v[..|v| - 1], v[|v| - 1];
      SpreadIsLagrange(u);
      SpreadFromExpands(u, x);
      LagrangeStep(|u|, Sum(u), SumSquares(u), x);
    }
  }

  lemma {:induction false} SpreadFromSign(v: seq<int>, x: int)
    ensures SpreadFrom(v, x) >= 0
    ensures SpreadFrom(v, x) == 0 <==> forall i | 0 <= i < |v| :: v[i] == x
  {
    if v != [] {
      var u, d := v[..|v| - 1], v[|v| - 1] - x;
      SpreadFromSign(u, x);
      assert d * d >= 0 && (d * d == 0 <==> d == 0);
      assert forall i | 0 <= i < |u| :: u[i] == v[i];
    }
  }

  predicate Constant(v: seq<int>) {
    forall i | 0 <= i < |v| :: v[i] == v[0]
  }

  lemma {:induction false} SpreadSign(v: seq<int>)
    ensures Spread(v) >= 0
    ensures Spread(v) == 0 <==> Constant(v)
  {
    if v != [] {
      var u, x := v[..|v| - 1], v[|v| - 1];
      SpreadSign(u);
      SpreadFromSign(u, x);
      assert forall i | 0 <= i < |u| :: u[i] == v[i];
    }
  }

  // -- adding one row to the column totals -------------------------------------

  function Plus(u: seq<int>, w: seq<int>): (r: seq<int>)
    requires |u| == |w|
    ensures |r| == |u|
  {
    seq(|u|, i requires 0 <= i < |u| => u[i] + w[i])
  }

  lemma PlusInit(u: seq<int>, w: seq<int>)
    requires |u| == |w| > 0
    ensures Plus(u, w)[..|u| - 1] == Plus(u[..|u| - 1], w[..|w| - 1])
  {}

  lemma {:induction false} SumPlus(u: seq<int>, w: seq<int>)
    requires |u| == |w|
    ensures Sum(Plus(u, w)) == Sum(u) + Sum(w)
  {
    if u != [] {
      PlusInit(u, w);
      SumPlus(u[..|u| - 1], w[..|w| - 1]);
    }
  }

  lemma {:induction false} SpreadFromPlus(n: nat, u: seq<int>, w: seq<int>, x: int, y: int)
    requires |u| == |w|
    ensures n * SpreadFrom(Plus(u, w), x + y) <= (n + 1) * SpreadFrom(u, x) + (n * (n + 1)) * SpreadFrom(w, y)
  {
    if u != [] {
      var k := |u| - 1;
      PlusInit(u, w);
      SpreadFromPlus(n, u[..k], w[..k], x, y);
      var a, b := u[k] - x, w[k] - y;
      WeightedSquare(n, a, b);
      assert Plus(u, w)[k] - (x + y) == a + b;
      Distribute(n, SpreadFrom(Plus(u, w)[..k], x + y), (a + b) * (a + b));
      Distribute(n + 1, SpreadFrom(u[..k], x), a * a);
      Distribute(n * (n + 1), SpreadFrom(w[..k], y), b * b);
    }
  }

  lemma {:induction false} SpreadPlus(n: nat, u: seq<int>, w: seq<int>)
    requires |u| == |w|
    ensures n * Spread(Plus(u, w)) <= (n + 1) * Spread(u) + (n * (n + 1)) * Spread(w)
  {
    if u != [] {
      var k := |u| - 1;
      PlusInit(u, w);
      SpreadPlus(n, u[..k], w[..k]);
      SpreadFromPlus(n, u[..k], w[..k], u[k], w[k]);
      Distribute(n, Spread(Plus(u, w)[..k]), SpreadFrom(Plus(u, w)[..k], u[k] + w[k]));
      Distribute(n + 1, Spread(u[..k]), SpreadFrom(u[..k], u[k]));
      Distribute(n * (n + 1), Spread(w[..k]), SpreadFrom(w[..k], w[k]));
    }
  }

  // -- the statistic ------------------------------------------------------

  /** The shape `cochran_q` guarantees: at least one condition, every column of length n and binary. */
  ghost predicate Paired(columns: seq<seq<int>>, n: nat) {
    |columns| >= 1 && forall c | c in columns :: |c| == n && Binary(c)
  }

  function ColumnTotals(columns: seq<seq<int>>, n: nat): (r: seq<int>)
    requires forall c | c in columns :: n <= |c|
    ensures |r| == |columns|
  {
    seq(|columns|, j requires 0 <= j < |columns| => Sum(columns[j][..n]))
  }

  function Row(columns: seq<seq<int>>, i: nat): (r: seq<int>)
    requires forall c | c in columns :: i < |c|
    ensures |r| == |columns|
  {
    seq(|columns|, j requires 0 <= j < |columns| => columns[j][i])
  }

  function RowTotals(columns: seq<seq<int>>, n: nat): (r: seq<int>)
    requires forall c | c in columns :: n <= |c|
    ensures |r| == n
  {
    seq(n, i requires 0 <= i < n => Sum(Row(columns, i)))
  }

  function Numerator(columns: seq<seq<int>>): int
    requires |columns| >= 1 && forall c | c in columns :: |columns[0]| <= |c|
  {
    var k := |columns|;
    var totals := ColumnTotals(columns, |columns[0]|);
    var grand := Sum(totals);
    (k - 1) * (k * SumSquares(totals) - grand * grand)
  }

  function Denominator(columns: seq<seq<int>>): int
    requires |columns| >= 1 && forall c | c in columns :: |columns[0]| <= |c|
  {
    var n := |columns[0]|;
    |columns| * Sum(ColumnTotals(columns, n)) - SumSquares(RowTotals(columns, n))
  }

  function CochranQ(columns: seq<seq<int>>): real
    requires |columns| >= 1 && forall c | c in columns :: |columns[0]| <= |c|
  {
    var denominator := Denominator(columns);
    if denominator == 0 then 0.0 else Numerator(columns) as real / denominator as real
  }

  // -- double counting and the row decomposition --------------------------------

  /** Sum of the row spreads of the first n rows. */
  function RowSpread(columns: seq<seq<int>>, n: nat): int
    requires forall c | c in columns :: n <= |c|
  {
    if n == 0 then 0 else RowSpread(columns, n - 1) + Spread(Row(columns, n - 1))
  }

  lemma TotalsGrow(columns: seq<seq<int>>, n: nat)
    requires forall c | c in columns :: n < |c|
    ensures ColumnTotals(columns, n + 1) == Plus(ColumnTotals(columns, n), Row(columns, n))
    ensures RowTotals(columns, n + 1) == RowTotals(columns, n) + [Sum(Row(columns, n))]
  {
    forall j | 0 <= j < |columns|
      ensures Sum(columns[j][..n + 1]) == Sum(columns[j][..n]) + columns[j][n]
    {
      assert columns[j] in columns;
      assert columns[j][..n + 1][..n] == columns[j][..n];
    }
  }

  lemma NoTotals(columns: seq<seq<int>>)
    ensures Sum(ColumnTotals(columns, 0)) == 0 && Spread(ColumnTotals(columns, 0)) == 0
  {
    var zeros := ColumnTotals(columns, 0);
    ZeroSum(zeros);
    SpreadSign(zeros);
  }

  lemma {:induction false} ZeroSum(v: seq<int>)
    requires forall i | 0 <= i < |v| :: v[i] == 0
    ensures Sum(v) == 0
  {
    if v != [] { ZeroSum(v[..|v| - 1]); }
  }

  lemma {:induction false} DoubleCounting(columns: seq<seq<int>>, n: nat)
    requires forall c | c in columns :: n <= |c|
    ensures Sum(ColumnTotals(columns, n)) == Sum(RowTotals(columns, n))
  {
    if n == 0 {
      NoTotals(columns);
    } else {
      DoubleCounting(columns, n - 1);
      TotalsGrow(columns, n - 1);
      SumPlus(ColumnTotals(columns, n - 1), Row(columns, n - 1));
      SnocSums(RowTotals(columns, n - 1), Sum(Row(columns, n - 1)));
    }
  }

  lemma SnocSums(v: seq<int>, x: int)
    ensures Sum(v + [x]) == Sum(v) + x && SumSquares(v + [x]) == SumSquares(v) + x * x
  {
    assert (v + [x])[..|v|] == v;
  }

  lemma {:induction false} BinarySquares(v: seq<int>)
    requires Binary(v)
    ensures SumSquares(v) == Sum(v)
  {
    if v != [] { BinarySquares(v[..|v| - 1]); }
  }

  lemma EmptySums()
    ensures Sum([]) == 0 && SumSquares([]) == 0
  {}

  lemma BinaryRowSpread(columns: seq<seq<int>>, i: nat)
    requires forall c | c in columns :: i < |c| && Binary(c)
    ensures var r := Sum(Row(columns, i)); Spread(Row(columns, i)) == |columns| * r - r * r
  {
    var row := Row(columns, i);
    assert forall j | 0 <= j < |row| :: columns[j] in columns && row[j] == columns[j][i];
    BinarySquares(row);
    SpreadIsLagrange(row);
  }

  /** Counted by rows, the denominator is the sum of the row spreads. */
  lemma {:induction false} DenominatorByRows(columns: seq<seq<int>>, n: nat)
    requires forall c | c in columns :: n <= |c| && Binary(c)
    ensures |columns| * Sum(RowTotals(columns, n)) - SumSquares(RowTotals(columns, n)) == RowSpread(columns, n)
  {
    hide Spread, SumSquares, Sum;
    if n == 0 {
      EmptySums();
    } else {
      DenominatorByRows(columns, n - 1);
      TotalsGrow(columns, n - 1);
      var row := Row(columns, n - 1);
      BinaryRowSpread(columns, n - 1);
      SnocSums(RowTotals(columns, n - 1), Sum(row));
      Distribute(|columns|, Sum(RowTotals(columns, n - 1)), Sum(row));
    }
  }

  lemma PositiveProduct(n: int, d: int)
    requires n > 0 && d > 0
    ensures n * d > 0
  {}

  lemma Cancel(n: int, s: int, g: int)
    requires n > 0 && n * s <= n * g
    ensures s <= g
  {
    if s > g {
      PositiveProduct(n, s - g);
      Distribute(n, s, -g);
    }
  }

  lemma CancelFactor(n: int, s: int, t: int, p: int, r: int)
    requires n > 0 && t <= n * p
    requires n * s <= (n + 1) * t + (n * (n + 1)) * r
    ensures s <= (n + 1) * (p + r)
  {
    var m := n + 1;
    assert m * t <= m * (n * p) by { assert m * (n * p - t) >= 0; Distribute(m, n * p, -t); }
    assert m * (n * p) == n * (m * p) by { Associate(m, n, p); Associate(n, m, p); }
    assert (n * m) * r == n * (m * r) by { Associate(n, m, r); }
    Distribute(n, m * p, m * r);
    Distribute(m, p, r);
    Cancel(n, s, m * (p + r));
  }

  lemma SpreadPlusBound(m: nat, u: seq<int>, w: seq<int>, p: int)
    requires m > 0 && |u| == |w| && Spread(u) <= m * p
    ensures Spread(Plus(u, w)) <= (m + 1) * (p + Spread(w))
  {
    hide Spread, Plus;
    SpreadPlus(m, u, w);
    CancelFactor(m, Spread(Plus(u, w)), Spread(u), p, Spread(w));
  }

  /** The Cauchy-Schwarz step: the spread of the totals is at most n times the summed row spreads. */
  lemma {:induction false} TotalsSpreadBound(columns: seq<seq<int>>, n: nat)
    requires forall c | c in columns :: n <= |c|
    ensures Spread(ColumnTotals(columns, n)) <= n * RowSpread(columns, n)
  {
    hide Spread, ColumnTotals, Row;
    if n == 0 {
      NoTotals(columns);
    } else {
      var m := n - 1;
      TotalsSpreadBound(columns, m);
      TotalsGrow(columns, m);
      var totals, row := ColumnTotals(columns, m), Row(columns, m);
      if m == 0 {
        NoTotalsPlus(columns, row);
      } else {
        SpreadPlusBound(m, totals, row, RowSpread(columns, m));
      }
    }
  }

  lemma NoTotalsPlus(columns: seq<seq<int>>, row: seq<int>)
    requires |row| == |columns|
    ensures Plus(ColumnTotals(columns, 0), row) == row
  {}

  lemma {:induction false} RowSpreadSign(columns: seq<seq<int>>, n: nat)
    requires forall c | c in columns :: n <= |c|
    ensures RowSpread(columns, n) >= 0
    ensures RowSpread(columns, n) == 0 <==> forall i | 0 <= i < n :: Constant(Row(columns, i))
  {
    if n > 0 {
      RowSpreadSign(columns, n - 1);
      SpreadSign(Row(columns, n - 1));
    }
  }

  // -- main results ---------------------------------------------------------

  lemma NumeratorForm(columns: seq<seq<int>>, n: nat)
    requires Paired(columns, n)
    ensures Numerator(columns) == (|columns| - 1) * Spread(ColumnTotals(columns, n))
  {
    hide Spread, SumSquares, Sum, ColumnTotals;
    assert |columns[0]| == n;
    SpreadIsLagrange(ColumnTotals(columns, n));
  }

  lemma DenominatorForm(columns: seq<seq<int>>, n: nat)
    requires Paired(columns, n)
    ensures Denominator(columns) == RowSpread(columns, n)
  {
    hide SumSquares, Sum, ColumnTotals, RowTotals, RowSpread;
    assert |columns[0]| == n;
    DoubleCounting(columns, n);
    DenominatorByRows(columns, n);
  }

  lemma ClosedForms(columns: seq<seq<int>>, n: nat)
    requires Paired(columns, n)
    ensures Numerator(columns) == (|columns| - 1) * Spread(ColumnTotals(columns, n))
    ensures Denominator(columns) == RowSpread(columns, n)
    ensures 0 <= Spread(ColumnTotals(columns, n)) <= n * RowSpread(columns, n)
  {
    hide Numerator, Denominator, Spread, RowSpread, ColumnTotals;
    NumeratorForm(columns, n);
    DenominatorForm(columns, n);
    SpreadSign(ColumnTotals(columns, n));
    TotalsSpreadBound(columns, n);
  }

  /** The denominator is never negative and vanishes exactly when every run has the same outcome in every
      condition; the numerator then vanishes too, so returning 0 there loses nothing. */
  lemma DenominatorVanishes(columns: seq<seq<int>>, n: nat)
    requires Paired(columns, n)
    ensures Denominator(columns) >= 0 && Numerator(columns) >= 0
    ensures Denominator(columns) == 0 <==> forall i | 0 <= i < n :: Constant(Row(columns, i))
    ensures Denominator(columns) == 0 ==> Numerator(columns) == 0
  {
    hide Numerator, Denominator, Spread, RowSpread, ColumnTotals;
    ClosedForms(columns, n);
    RowSpreadSign(columns, n);
  }

  lemma BoundScales(k: int, s: int, n: int, d: int)
    requires k >= 1 && s <= n * d
    ensures (k - 1) * s <= (n * (k - 1)) * d
  {
    var m := k - 1;
    assert m * (n * d - s) >= 0;
    Distribute(m, n * d, -s);
    Associate(m, n, d);
  }

  lemma QuotientBound(num: int, d: int, bound: int)
    requires d > 0 && 0 <= num <= bound * d
    ensures 0.0 <= num as real / d as real <= bound as real
  {
    var q, r := num as real / d as real, bound as real;
    assert q * d as real == num as real;
    assert r * d as real == (bound * d) as real;
    CancelReal(d as real, q, r);
    CancelReal(d as real, 0.0, q);
  }

  lemma CancelReal(d: real, x: real, y: real)
    requires d > 0.0 && x * d <= y * d
    ensures x <= y
  {
    assert (y - x) * d >= 0.0;
  }

  /** 0 <= Q <= n(k-1). */
  lemma QBounded(columns: seq<seq<int>>, n: nat)
    requires Paired(columns, n)
    ensures 0.0 <= CochranQ(columns) <= (n * (|columns| - 1)) as real
  {
    hide Numerator, Denominator;
    DenominatorVanishes(columns, n);
    var bound := n * (|columns| - 1);
    assert bound >= 0;
    if Denominator(columns) != 0 {
      NumeratorBound(columns, n);
      QuotientBound(Numerator(columns), Denominator(columns), bound);
    }
  }

  lemma NumeratorBound(columns: seq<seq<int>>, n: nat)
    requires Paired(columns, n)
    ensures Numerator(columns) <= (n * (|columns| - 1)) * Denominator(columns)
  {
    hide Numerator, Denominator, Spread, RowSpread, ColumnTotals;
    ClosedForms(columns, n);
    BoundScales(|columns|, Spread(ColumnTotals(columns, n)), n, Denominator(columns));
  }

  // -- McNemar's counts ------------------------------------------------------

  /** `sum(1 for x, y in zip(first, second) if x and not y)`. */
  function Discordant(first: seq<int>, second: seq<int>): nat
    requires |first| == |second|
  {
    if first == [] then 0
    else
      var n := |first| - 1;
      Discordant(first[..n], second[..n]) + if first[n] != 0 && second[n] == 0 then 1 else 0
  }

  lemma {:induction false} DiscordantTotals(x: seq<int>, y: seq<int>)
    requires |x| == |y| && Binary(x) && Binary(y)
    ensures Sum(x) - Sum(y) == Discordant(x, y) - Discordant(y, x)
  {
    if x != [] { DiscordantTotals(x[..|x| - 1], y[..|y| - 1]); }
  }

  lemma {:induction false} DiscordantRows(x: seq<int>, y: seq<int>, n: nat)
    requires |x| == |y| && Binary(x) && Binary(y) && n <= |x|
    ensures RowSpread([x, y], n) == Discordant(x[..n], y[..n]) + Discordant(y[..n], x[..n])
  {
    if n > 0 {
      DiscordantRows(x, y, n - 1);
      assert x[..n][..n - 1] == x[..n - 1] && y[..n][..n - 1] == y[..n - 1];
      var row := Row([x, y], n - 1);
      SpreadOfPair(row);
      BinaryDifference(row[0], row[1]);
    }
  }

  lemma BinaryDifference(a: int, b: int)
    requires (a == 0 || a == 1) && (b == 0 || b == 1)
    ensures (a - b) * (a - b) == if a == b then 0 else 1
  {}

  lemma SpreadOfPair(v: seq<int>)
    requires |v| == 2
    ensures Spread(v) == (v[0] - v[1]) * (v[0] - v[1])
  {
    var u := v[..1];
    assert u[..0] == [];
    assert Spread(u) == 0;
    assert SpreadFrom(u, v[1]) == (u[0] - v[1]) * (u[0] - v[1]);
  }

  lemma TwoColumnNumerator(columns: seq<seq<int>>, n: nat)
    requires |columns| == 2 && Paired(columns, n)
    ensures var d := Sum(columns[0]) - Sum(columns[1]); Numerator(columns) == d * d
  {
    var totals := ColumnTotals(columns, n);
    ClosedForms(columns, n);
    SpreadOfPair(totals);
    assert columns[0] in columns && columns[1] in columns;
    assert columns[0][..n] == columns[0] && columns[1][..n] == columns[1];
  }

  lemma TwoColumnDenominator(first: seq<int>, second: seq<int>)
    requires |first| == |second| && Binary(first) && Binary(second)
    requires Paired([first, second], |first|)
    ensures Denominator([first, second]) == Discordant(first, second) + Discordant(second, first)
  {
    var n := |first|;
    ClosedForms([first, second], n);
    DiscordantRows(first, second, n);
    assert first[..n] == first && second[..n] == second;
  }

  /** With two conditions Q is McNemar's (b - c)^2 / (b + c). */
  lemma QIsMcNemar(first: seq<int>, second: seq<int>)
    requires |first| == |second| && Binary(first) && Binary(second)
    ensures var b, c := Discordant(first, second), Discordant(second, first);
      CochranQ([first, second]) == if b + c == 0 then 0.0 else ((b - c) * (b - c)) as real / (b + c) as real
  {
    hide Numerator, Denominator, Discordant, Sum;
    TwoColumnNumerator([first, second], |first|);
    TwoColumnDenominator(first, second);
    DiscordantTotals(first, second);
  }
}
