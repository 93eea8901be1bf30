/** Holm-Bonferroni step-down adjustment (experiments/analysis/statistics.py). */
module Holm {

  /** A comparison's name, `first_vs_second`. */
  type Key = string

  /** One entry of the `p_values` dictionary. */
  datatype Item = Item(key: Key, p: real)

  ghost predicate DistinctKeys(items: seq<Item>) {
    forall i, j | 0 <= i < j < |items| :: items[i].key != items[j].key
  }

  function AsMap(items: seq<Item>): map<Key, real> {
    if items == [] then map[] else AsMap(items[..|items| - 1])[items[|items| - 1].key := items[|items| - 1].p]
  }

  predicate Sorted(items: seq<Item>) {
    forall i, j | 0 <= i < j < |items| :: items[i].p <= items[j].p
  }

  function Keys(items: seq<Item>): set<Key> {
    if items == [] then {} else Keys(items[..|items| - 1]) + {items[|items| - 1].key}
  }

  lemma {:induction false} KeyIndex(items: seq<Item>, k: Key) returns (i: nat)
    requires k in Keys(items)
    ensures i < |items| && items[i].key == k
  {
    if items[|items| - 1].key == k {
      i := |items| - 1;
    } else {
      i := KeyIndex(items[..|items| - 1], k);
    }
  }

  lemma {:induction false} KeyOf(items: seq<Item>, i: nat)
    requires i < |items|
    ensures items[i].key in Keys(items)
  {
    if i < |items| - 1 { KeyOf(items[..|items| - 1], i); }
  }

  /** `ordered` is the dictionary's items in nondecreasing order of value; ties may stand in any order. */
  ghost predicate Arrangement(p: map<Key, real>, ordered: seq<Item>) {
    && Sorted(ordered) && DistinctKeys(ordered)
    && (forall i | 0 <= i < |ordered| :: ordered[i].key in p && p[ordered[i].key] == ordered[i].p)
    && Keys(ordered) == p.Keys
  }

  // -- what Holm's adjustment is, without any order -----------------------------

  ghost function AtLeast(p: map<Key, real>, v: real): set<Key> {
    set k | k in p && p[k] >= v
  }

  /** n * v, as a repeated sum. */
  function Times(n: nat, v: real): real {
    if n == 0 then 0.0 else Times(n - 1, v) + v
  }

  lemma {:induction false} TimesIsProduct(n: nat, v: real)
    ensures Times(n, v) == n as real * v
  {
    if n > 0 { TimesIsProduct(n - 1, v); }
  }

  function Min1(x: real): real { if x < 1.0 then x else 1.0 }

  /** The corrected value of each p: its value times the number of p-values no smaller than it. */
  ghost function Candidates(p: map<Key, real>): (c: map<Key, real>)
    ensures c.Keys == p.Keys
  {
    map k | k in p :: Min1(Times(|AtLeast(p, p[k])|, p[k]))
  }

  /** r is the maximum of 0 and the c[j] over every j whose p-value is not above that of k. */
  ghost predicate IsMaxBelow(p: map<Key, real>, c: map<Key, real>, k: Key, r: real)
    requires k in p && c.Keys == p.Keys
  {
    && r >= 0.0
    && (forall j | j in p && p[j] <= p[k] :: c[j] <= r)
    && (r == 0.0 || exists j :: j in p && p[j] <= p[k] && c[j] == r)
  }

  ghost predicate IsMaximum(p: map<Key, real>, c: map<Key, real>, adjusted: map<Key, real>) {
    && c.Keys == p.Keys && adjusted.Keys == p.Keys
    && forall k {:trigger adjusted[k]} | k in p :: IsMaxBelow(p, c, k, adjusted[k])
  }

  /** Holm's adjustment of p, with no reference to any order of the items. */
  ghost predicate IsAdjusted(p: map<Key, real>, adjusted: map<Key, real>) {
    IsMaximum(p, Candidates(p), adjusted)
  }

  // -- counting in a sorted arrangement ----------------------------------------

  lemma {:induction false} TailCount(p: map<Key, real>, ordered: seq<Item>, i: nat)
    requires Arrangement(p, ordered) && i < |ordered|
    requires i == 0 || ordered[i - 1].p < ordered[i].p
    ensures |AtLeast(p, ordered[i].p)| == |ordered| - i
  {
    var tail := set j | i <= j < |ordered| :: ordered[j].key;
    TailKeys(ordered, i);
    assert AtLeast(p, ordered[i].p) == tail by {
      forall j | 0 <= j < i ensures ordered[j].p < ordered[i].p {
        assert j < i - 1 ==> ordered[j].p <= ordered[i - 1].p;
      }
      forall k | k in p && p[k] >= ordered[i].p
        ensures k in tail
      {
        var j := KeyIndex(ordered, k);
      }
      forall j | i <= j < |ordered|
        ensures ordered[j].key in AtLeast(p, ordered[i].p)
      {
        assert ordered[i].p <= ordered[j].p;
      }
    }
  }

  lemma {:induction false} TailKeys(ordered: seq<Item>, i: nat)
    requires DistinctKeys(ordered) && i <= |ordered|
    ensures |set j | i <= j < |ordered| :: ordered[j].key| == |ordered| - i
    decreases |ordered| - i
  {
    var keys := set j | i <= j < |ordered| :: ordered[j].key;
    if i < |ordered| {
      TailKeys(ordered, i + 1);
      var rest := set j | i + 1 <= j < |ordered| :: ordered[j].key;
      assert keys == rest + {ordered[i].key};
    } else {
      assert keys == {};
    }
  }

  /** f is the first index whose value equals that at i. */
  ghost predicate StartsTie(ordered: seq<Item>, i: nat, f: nat) {
    && f <= i < |ordered|
    && ordered[f].p == ordered[i].p
    && (f == 0 || ordered[f - 1].p < ordered[f].p)
  }

  lemma {:induction false} FindTieStart(ordered: seq<Item>, i: nat) returns (f: nat)
    requires Sorted(ordered) && i < |ordered|
    ensures StartsTie(ordered, i, f)
  {
    if i > 0 && ordered[i - 1].p == ordered[i].p {
      f := FindTieStart(ordered, i - 1);
    } else {
      f := i;
    }
  }

  lemma {:induction false} TimesMonotone(a: nat, b: nat, v: real)
    requires a <= b && v >= 0.0
    ensures Times(a, v) <= Times(b, v)
  {
    if a < b { TimesMonotone(a, b - 1, v); }
  }

  lemma {:induction false} TimesNegative(a: nat, v: real)
    requires v < 0.0
    ensures Times(a, v) <= 0.0
  {
    if a > 0 { TimesNegative(a - 1, v); }
  }

  lemma CandidateOf(p: map<Key, real>, k: Key, n: nat, v: real)
    requires k in p && p[k] == v && |AtLeast(p, v)| == n
    ensures Candidates(p)[k] == Min1(Times(n, v))
  {}

  lemma CandidateValue(p: map<Key, real>, ordered: seq<Item>, i: nat, f: nat)
    requires Arrangement(p, ordered) && StartsTie(ordered, i, f)
    ensures Candidates(p)[ordered[i].key] == Min1(Times(|ordered| - f, ordered[i].p))
  {
    hide Times, Candidates, AtLeast, Keys;
    TailCount(p, ordered, f);
    CandidateOf(p, ordered[i].key, |ordered| - f, ordered[i].p);
  }

  /** c gives every sorted item the candidate of the start of its run of ties. */
  ghost predicate TieCandidates(p: map<Key, real>, c: map<Key, real>, ordered: seq<Item>) {
    && Arrangement(p, ordered) && c.Keys == p.Keys
    && forall i, f | 0 <= f && 0 <= i && StartsTie(ordered, i, f) ::
      c[ordered[i].key] == Min1(Times(|ordered| - f, ordered[i].p))
  }

  lemma CandidatesOfArrangement(p: map<Key, real>, ordered: seq<Item>)
    requires Arrangement(p, ordered)
    ensures TieCandidates(p, Candidates(p), ordered)
  {
    forall i, f | 0 <= f && 0 <= i && StartsTie(ordered, i, f)
      ensures Candidates(p)[ordered[i].key] == Min1(Times(|ordered| - f, ordered[i].p))
    {
      CandidateValue(p, ordered, i, f);
    }
  }

  /** Inside a run of ties the loop's factor is smaller than the candidate's, so it cannot raise the maximum. */
  lemma LoopCandidate(p: map<Key, real>, c: map<Key, real>, ordered: seq<Item>, i: nat)
    requires TieCandidates(p, c, ordered) && i < |ordered|
    ensures var v, x, k := ordered[i].p, Min1(Times(|ordered| - i, ordered[i].p)), ordered[i].key;
      && (x <= c[k] || x <= 0.0)
      && (i == 0 || ordered[i - 1].p < v ==> x == c[k])
  {
    var f := FindTieStart(ordered, i);
    LoopFactor(|ordered| - i, |ordered| - f, ordered[i].p);
    assert f < i ==> ordered[f].p <= ordered[i - 1].p;
  }

  lemma LoopFactor(a: nat, b: nat, v: real)
    requires a <= b
    ensures Times(a, v) <= Times(b, v) || Times(a, v) <= 0.0
  {
    if v >= 0.0 { TimesMonotone(a, b, v); } else { TimesNegative(a, v); }
  }

  lemma TiesShareCandidate(p: map<Key, real>, c: map<Key, real>, ordered: seq<Item>, a: nat, b: nat)
    requires TieCandidates(p, c, ordered) && a < |ordered| && b < |ordered| && ordered[a].p == ordered[b].p
    ensures c[ordered[a].key] == c[ordered[b].key]
  {
    var f := FindTieStart(ordered, a);
    var g := FindTieStart(ordered, b);
    FirstOfTie(ordered, b, f);
    FirstOfTie(ordered, a, g);
    assert StartsTie(ordered, b, f);
  }

  // -- the loop -----------------------------------------------------------

  function Insert(x: Item, s: seq<Item>): seq<Item> {
    if s == [] || x.p <= s[0].p then [x] + s else [s[0]] + Insert(x, s[1..])
  }

  /** `sorted(p_values.items(), key=lambda item: item[1])`: ascending and stable. */
  function SortByValue(s: seq<Item>): seq<Item> {
    if s == [] then [] else Insert(s[0], SortByValue(s[1..]))
  }

  lemma {:induction false} InsertElements(x: Item, s: seq<Item>)
    ensures multiset(Insert(x, s)) == multiset(s) + multiset{x}
    ensures forall y | y in Insert(x, s) :: y == x || y in s
  {
    if s != [] && x.p > s[0].p {
      InsertElements(x, s[1..]);
      assert s == [s[0]] + s[1..];
    }
  }

  lemma {:induction false} InsertSorts(x: Item, s: seq<Item>)
    requires Sorted(s)
    ensures Sorted(Insert(x, s))
  {
    if s != [] && x.p > s[0].p {
      InsertSorts(x, s[1..]);
      InsertElements(x, s[1..]);
      var rest := Insert(x, s[1..]);
      forall i | 0 <= i < |rest| ensures s[0].p <= rest[i].p {
        assert rest[i] in rest;
      }
    }
  }

  lemma {:induction false} SortSorts(s: seq<Item>)
    ensures Sorted(SortByValue(s))
    ensures multiset(SortByValue(s)) == multiset(s)
  {
    if s != [] {
      SortSorts(s[1..]);
      InsertSorts(s[0], SortByValue(s[1..]));
      InsertElements(s[0], SortByValue(s[1..]));
      assert s == [s[0]] + s[1..];
    }
  }

  lemma {:induction false} MapOfItems(items: seq<Item>)
    requires DistinctKeys(items)
    ensures AsMap(items).Keys == Keys(items)
    ensures forall i | 0 <= i < |items| :: items[i].key in AsMap(items) && AsMap(items)[items[i].key] == items[i].p
  {
    if items != [] {
      var n := |items| - 1;
      MapOfItems(items[..n]);
      assert forall i | 0 <= i < n :: items[..n][i] == items[i];
    }
  }

  lemma DistinctKeysPermute(s: seq<Item>, t: seq<Item>)
    requires DistinctKeys(s) && multiset(s) == multiset(t)
    ensures DistinctKeys(t)
  {
    forall i, j | 0 <= i < j < |t| ensures t[i].key != t[j].key {
      if t[i].key == t[j].key {
        assert t[i] in multiset(t) && t[j] in multiset(t);
        var a :| 0 <= a < |s| && s[a] == t[i];
        var b :| 0 <= b < |s| && s[b] == t[j];
        assert a == b;
        OneOccurrence(s, a);
        TwoOccurrences(t, i, j);
      }
    }
  }

  lemma TwoOccurrences(t: seq<Item>, i: nat, j: nat)
    requires i < j < |t| && t[i] == t[j]
    ensures multiset(t)[t[i]] >= 2
  {
    assert t == t[..i] + [t[i]] + t[i + 1..j] + [t[j]] + t[j + 1..];
  }

  lemma OneOccurrence(s: seq<Item>, a: nat)
    requires DistinctKeys(s) && a < |s|
    ensures multiset(s)[s[a]] == 1
  {
    assert s == s[..a] + [s[a]] + s[a + 1..];
    assert s[a] !in s[..a] && s[a] !in s[a + 1..];
  }

  lemma SortedItemsArrange(items: seq<Item>)
    requires DistinctKeys(items)
    ensures Arrangement(AsMap(items), SortByValue(items))
  {
    var ordered, p := SortByValue(items), AsMap(items);
    SortSorts(items);
    MapOfItems(items);
    DistinctKeysPermute(items, ordered);
    forall i | 0 <= i < |ordered|
      ensures ordered[i].key in p && p[ordered[i].key] == ordered[i].p
    {
      assert ordered[i] in multiset(items);
    }
    forall k | k in Keys(items) ensures k in Keys(ordered) {
      var j := KeyIndex(items, k);
      assert items[j] in multiset(ordered);
      var i :| 0 <= i < |ordered| && ordered[i] == items[j];
      KeyOf(ordered, i);
    }
    forall k | k in Keys(ordered) ensures k in Keys(items) {
      var j := KeyIndex(ordered, k);
      assert ordered[j] in multiset(items);
      var i :| 0 <= i < |items| && items[i] == ordered[j];
      KeyOf(items, i);
    }
  }

  /** `holm`. The items are the dictionary's, in its own order. */
  method Adjust(items: seq<Item>) returns (adjusted: map<Key, real>)
    requires DistinctKeys(items)
    ensures IsAdjusted(AsMap(items), adjusted)
  {
    if |items| == 0 {
      return map[];
    }
    var ordered := SortByValue(items);
    SortedItemsArrange(items);
    CandidatesOfArrangement(AsMap(items), ordered);
    adjusted := AdjustSorted(ordered, AsMap(items), Candidates(AsMap(items)));
  }

  /** `(m - index) * raw`, kept out of the loop's own proof. */
  method Scale(factor: nat, raw: real) returns (r: real)
    ensures r == Times(factor, raw)
  {
    TimesIsProduct(factor, raw);
    r := factor as real * raw;
  }

  /** The loop of `holm`: a running maximum over the sorted items. */
  method AdjustSorted(ordered: seq<Item>, ghost p: map<Key, real>, ghost c: map<Key, real>)
    returns (adjusted: map<Key, real>)
    requires TieCandidates(p, c, ordered)
    ensures IsMaximum(p, c, adjusted)
  {
    var m := |ordered|;
    adjusted := map[];
    var running := 0.0;
    for index := 0 to m
      invariant IsRunningMaximum(p, c, ordered, index, running)
      invariant AdjustedSoFar(p, c, ordered, index, adjusted)
    {
      var scaled := Scale(m - index, ordered[index].p);
      var candidate := Min1(scaled);
      RunningMaximumStep(p, c, ordered, index, running);
      running := if candidate > running then candidate else running;
      AdjustedStep(p, c, ordered, index, adjusted, running);
      adjusted := adjusted[ordered[index].key := running];
    }
    Complete(p, c, ordered, adjusted);
  }

  ghost predicate AdjustedSoFar(p: map<Key, real>, c: map<Key, real>, ordered: seq<Item>, n: nat,
                                adjusted: map<Key, real>) {
    && Arrangement(p, ordered) && c.Keys == p.Keys && n <= |ordered|
    && (forall k | k in adjusted :: k in p)
    && forall j | 0 <= j < n ::
      ordered[j].key in adjusted && IsMaxBelow(p, c, ordered[j].key, adjusted[ordered[j].key])
  }

  lemma AdjustedStep(p: map<Key, real>, c: map<Key, real>, ordered: seq<Item>, n: nat, adjusted: map<Key, real>,
                     r: real)
    requires AdjustedSoFar(p, c, ordered, n, adjusted) && n < |ordered|
    requires IsMaxBelow(p, c, ordered[n].key, r)
    ensures AdjustedSoFar(p, c, ordered, n + 1, adjusted[ordered[n].key := r])
  {}

  lemma Complete(p: map<Key, real>, c: map<Key, real>, ordered: seq<Item>, adjusted: map<Key, real>)
    requires AdjustedSoFar(p, c, ordered, |ordered|, adjusted)
    ensures IsMaximum(p, c, adjusted)
  {
    forall k | k in p
      ensures k in adjusted && IsMaxBelow(p, c, k, adjusted[k])
    {
      var j := KeyIndex(ordered, k);
    }
  }

  /** `running` is the maximum of 0 and the candidates of the first n sorted items. */
  ghost predicate IsRunningMaximum(p: map<Key, real>, c: map<Key, real>, ordered: seq<Item>, n: nat, running: real) {
    && Arrangement(p, ordered) && c.Keys == p.Keys && n <= |ordered|
    && running >= 0.0
    && (forall j | 0 <= j < n :: c[ordered[j].key] <= running)
    && (running == 0.0 || exists j :: 0 <= j < n && c[ordered[j].key] == running)
  }

  /** The loop's next running value. */
  ghost function Next(ordered: seq<Item>, i: nat, running: real): real
    requires i < |ordered|
  {
    var candidate := Min1(Times(|ordered| - i, ordered[i].p));
    if candidate > running then candidate else running
  }

  lemma NextCovers(p: map<Key, real>, c: map<Key, real>, ordered: seq<Item>, i: nat, running: real)
    requires TieCandidates(p, c, ordered)
    requires IsRunningMaximum(p, c, ordered, i, running) && i < |ordered|
    ensures c[ordered[i].key] <= Next(ordered, i, running)
    ensures Next(ordered, i, running) == running || Next(ordered, i, running) == c[ordered[i].key]
  {
    LoopCandidate(p, c, ordered, i);
    if i > 0 && ordered[i - 1].p == ordered[i].p {
      TiesShareCandidate(p, c, ordered, i - 1, i);
    }
  }

  lemma LaterTiesCovered(p: map<Key, real>, c: map<Key, real>, ordered: seq<Item>, i: nat, next: real, k: Key)
    requires TieCandidates(p, c, ordered) && i < |ordered|
    requires forall j | 0 <= j <= i :: c[ordered[j].key] <= next
    requires k in p && p[k] <= ordered[i].p
    ensures c[k] <= next
  {
    var j := KeyIndex(ordered, k);
    if j > i { TiesShareCandidate(p, c, ordered, j, i); }
  }

  lemma RunningMaximumGrows(p: map<Key, real>, c: map<Key, real>, ordered: seq<Item>, i: nat, running: real, next: real)
    requires IsRunningMaximum(p, c, ordered, i, running) && i < |ordered|
    requires running <= next && c[ordered[i].key] <= next
    requires next == running || next == c[ordered[i].key]
    ensures IsRunningMaximum(p, c, ordered, i + 1, next)
  {
    if next != 0.0 && next == running {
      var j :| 0 <= j < i && c[ordered[j].key] == running;
    }
  }

  /** One loop step: the new running maximum is the adjusted value of the item just read. */
  lemma RunningMaximumStep(p: map<Key, real>, c: map<Key, real>, ordered: seq<Item>, i: nat, running: real)
    requires TieCandidates(p, c, ordered)
    requires IsRunningMaximum(p, c, ordered, i, running) && i < |ordered|
    ensures var next := Next(ordered, i, running);
      IsRunningMaximum(p, c, ordered, i + 1, next) && IsMaxBelow(p, c, ordered[i].key, next)
  {
    var next := Next(ordered, i, running);
    NextCovers(p, c, ordered, i, running);
    RunningMaximumGrows(p, c, ordered, i, running, next);
    RunningIsMaxBelow(p, c, ordered, i, next);
  }

  lemma RunningIsMaxBelow(p: map<Key, real>, c: map<Key, real>, ordered: seq<Item>, i: nat, next: real)
    requires TieCandidates(p, c, ordered) && i < |ordered|
    requires IsRunningMaximum(p, c, ordered, i + 1, next)
    ensures IsMaxBelow(p, c, ordered[i].key, next)
  {
    forall k | k in p && p[k] <= ordered[i].p
      ensures c[k] <= next
    {
      LaterTiesCovered(p, c, ordered, i, next, k);
    }
    if next != 0.0 {
      var j :| 0 <= j < i + 1 && c[ordered[j].key] == next;
      assert ordered[j].p <= ordered[i].p;
    }
  }

  // -- consequences ---------------------------------------------------------

  lemma MaximumIsUnique(p: map<Key, real>, c: map<Key, real>, k: Key, r: real, s: real)
    requires k in p && c.Keys == p.Keys
    requires IsMaxBelow(p, c, k, r) && IsMaxBelow(p, c, k, s)
    ensures r == s
  {}

  lemma MaximaAgree(p: map<Key, real>, c: map<Key, real>, a: map<Key, real>, b: map<Key, real>)
    requires IsMaximum(p, c, a) && IsMaximum(p, c, b)
    ensures forall k | k in p :: a[k] == b[k]
  {
    forall k | k in p ensures a[k] == b[k] {
      MaximumIsUnique(p, c, k, a[k], b[k]);
    }
  }

  /** The result depends only on the dictionary as a map: neither its order nor the order of ties matters. */
  lemma AdjustmentIsUnique(p: map<Key, real>, a: map<Key, real>, b: map<Key, real>)
    requires IsAdjusted(p, a) && IsAdjusted(p, b)
    ensures a.Keys == b.Keys == p.Keys && forall k | k in p :: a[k] == b[k]
  {
    MaximaAgree(p, Candidates(p), a, b);
  }

  lemma CandidateBounds(p: map<Key, real>, k: Key)
    requires k in p && p[k] <= 1.0
    ensures Candidates(p)[k] <= 1.0
    ensures p[k] >= 0.0 ==> p[k] <= Candidates(p)[k]
  {
    assert k in AtLeast(p, p[k]);
    if p[k] >= 0.0 { TimesMonotone(1, |AtLeast(p, p[k])|, p[k]); }
  }

  lemma MaximumIsMonotone(p: map<Key, real>, c: map<Key, real>, adjusted: map<Key, real>, j: Key, k: Key)
    requires IsMaximum(p, c, adjusted) && j in p && k in p && p[j] <= p[k]
    ensures adjusted[j] <= adjusted[k]
  {
    hide IsMaxBelow;
    assert IsMaxBelow(p, c, j, adjusted[j]) && IsMaxBelow(p, c, k, adjusted[k]);
    MaxBelowIsMonotone(p, c, j, k, adjusted[j], adjusted[k]);
  }

  lemma MaxBelowIsMonotone(p: map<Key, real>, c: map<Key, real>, j: Key, k: Key, r: real, t: real)
    requires j in p && k in p && c.Keys == p.Keys && p[j] <= p[k]
    requires IsMaxBelow(p, c, j, r) && IsMaxBelow(p, c, k, t)
    ensures r <= t
  {
    if r != 0.0 {
      var w :| w in p && p[w] <= p[j] && c[w] == r;
    }
  }

  lemma MaxBelowBounds(p: map<Key, real>, c: map<Key, real>, k: Key, r: real)
    requires k in p && c.Keys == p.Keys && IsMaxBelow(p, c, k, r)
    requires forall w | w in p && p[w] <= p[k] :: c[w] <= 1.0
    ensures c[k] <= r && 0.0 <= r <= 1.0
  {
    if r != 0.0 {
      var w :| w in p && p[w] <= p[k] && c[w] == r;
    }
  }

  /** Adjusting never lowers a p-value, keeps it in [0, 1], and keeps the order of the raw values. */
  lemma AdjustmentBounds(p: map<Key, real>, adjusted: map<Key, real>, k: Key)
    requires IsAdjusted(p, adjusted) && k in p && p[k] <= 1.0
    ensures p[k] <= adjusted[k] && 0.0 <= adjusted[k] <= 1.0
    ensures forall j | j in p && p[j] <= p[k] :: adjusted[j] <= adjusted[k]
  {
    hide Candidates, AtLeast, Times, IsMaxBelow;
    var c := Candidates(p);
    CandidateBounds(p, k);
    assert IsMaxBelow(p, c, k, adjusted[k]);
    forall w | w in p && p[w] <= p[k] ensures c[w] <= 1.0 {
      CandidateBounds(p, w);
    }
    MaxBelowBounds(p, c, k, adjusted[k]);
    AdjustmentKeepsOrder(p, adjusted, k);
  }

  lemma AdjustmentKeepsOrder(p: map<Key, real>, adjusted: map<Key, real>, k: Key)
    requires IsAdjusted(p, adjusted) && k in p
    ensures forall j | j in p && p[j] <= p[k] :: adjusted[j] <= adjusted[k]
  {
    hide Candidates, IsMaxBelow;
    forall j | j in p && p[j] <= p[k] ensures adjusted[j] <= adjusted[k] {
      MaximumIsMonotone(p, Candidates(p), adjusted, j, k);
    }
  }

  /** The textbook step-down procedure: reject in ascending order while (m - i) * p_i < alpha, then stop. */
  function StepDown(ordered: seq<Item>, alpha: real, i: nat): nat
    requires i <= |ordered|
    decreases |ordered| - i
  {
    if i < |ordered| && Times(|ordered| - i, ordered[i].p) < alpha then StepDown(ordered, alpha, i + 1) else i
  }

  lemma {:induction false} StepDownRejects(ordered: seq<Item>, alpha: real, from: nat, i: nat)
    requires from <= i < |ordered|
    ensures i < StepDown(ordered, alpha, from)
       <==> forall j | from <= j <= i :: Times(|ordered| - j, ordered[j].p) < alpha
    decreases |ordered| - from
  {
    if Times(|ordered| - from, ordered[from].p) < alpha {
      if from < i {
        StepDownRejects(ordered, alpha, from + 1, i);
      } else {
        StepDownGrows(ordered, alpha, from + 1);
      }
    }
  }

  lemma {:induction false} StepDownGrows(ordered: seq<Item>, alpha: real, i: nat)
    requires i <= |ordered|
    ensures StepDown(ordered, alpha, i) >= i
    decreases |ordered| - i
  {
    if i < |ordered| { StepDownGrows(ordered, alpha, i + 1); }
  }

  ghost predicate AllBelow(p: map<Key, real>, c: map<Key, real>, v: real, alpha: real)
    requires c.Keys == p.Keys
  {
    forall w | w in p && p[w] <= v :: c[w] < alpha
  }

  /** Below alpha means every candidate that counts is below alpha. */
  lemma MaximumBelow(p: map<Key, real>, c: map<Key, real>, adjusted: map<Key, real>, k: Key, alpha: real)
    requires IsMaximum(p, c, adjusted) && k in p && alpha > 0.0
    ensures adjusted[k] < alpha <==> AllBelow(p, c, p[k], alpha)
  {
    assert IsMaxBelow(p, c, k, adjusted[k]);
  }

  lemma BelowToStep(p: map<Key, real>, c: map<Key, real>, ordered: seq<Item>, i: nat, j: nat, alpha: real)
    requires TieCandidates(p, c, ordered) && j <= i < |ordered| && 0.0 < alpha <= 1.0
    requires AllBelow(p, c, p[ordered[i].key], alpha)
    ensures Times(|ordered| - j, ordered[j].p) < alpha
  {
    var f := FindTieStart(ordered, j);
    assert c[ordered[j].key] < alpha;
    LoopFactor(|ordered| - j, |ordered| - f, ordered[j].p);
  }

  lemma StepToBelow(p: map<Key, real>, c: map<Key, real>, ordered: seq<Item>, i: nat, w: Key, alpha: real)
    requires TieCandidates(p, c, ordered) && i < |ordered|
    requires forall j | 0 <= j <= i :: Times(|ordered| - j, ordered[j].p) < alpha
    requires w in p && p[w] <= p[ordered[i].key]
    ensures c[w] < alpha
  {
    var j := KeyIndex(ordered, w);
    var f := FindTieStart(ordered, j);
    FirstOfTie(ordered, i, f);
  }

  /** Below alpha means every scaled p-value up to this one is below alpha. */
  lemma MaximumBelowSteps(p: map<Key, real>, c: map<Key, real>, adjusted: map<Key, real>, ordered: seq<Item>,
                          alpha: real, i: nat)
    requires IsMaximum(p, c, adjusted) && TieCandidates(p, c, ordered) && i < |ordered|
    requires 0.0 < alpha <= 1.0
    ensures adjusted[ordered[i].key] < alpha <==> forall j | 0 <= j <= i :: Times(|ordered| - j, ordered[j].p) < alpha
  {
    var k := ordered[i].key;
    MaximumBelow(p, c, adjusted, k, alpha);
    if AllBelow(p, c, p[k], alpha) {
      forall j | 0 <= j <= i
        ensures Times(|ordered| - j, ordered[j].p) < alpha
      {
        BelowToStep(p, c, ordered, i, j, alpha);
      }
    }
    if forall j | 0 <= j <= i :: Times(|ordered| - j, ordered[j].p) < alpha {
      forall w | w in p && p[w] <= p[k]
        ensures c[w] < alpha
      {
        StepToBelow(p, c, ordered, i, w, alpha);
      }
    }
  }

  /** A comparison is significant after adjustment exactly when the step-down procedure rejects it. */
  lemma SignificantIffRejected(p: map<Key, real>, adjusted: map<Key, real>, ordered: seq<Item>, alpha: real, i: nat)
    requires IsAdjusted(p, adjusted) && Arrangement(p, ordered) && i < |ordered|
    requires 0.0 < alpha <= 1.0
    ensures adjusted[ordered[i].key] < alpha <==> i < StepDown(ordered, alpha, 0)
  {
    CandidatesOfArrangement(p, ordered);
    MaximumBelowSteps(p, Candidates(p), adjusted, ordered, alpha, i);
    StepDownRejects(ordered, alpha, 0, i);
  }

  lemma FirstOfTie(ordered: seq<Item>, i: nat, f: nat)
    requires Sorted(ordered) && i < |ordered| && f < |ordered| && ordered[f].p <= ordered[i].p
    requires f == 0 || ordered[f - 1].p < ordered[f].p
    ensures f <= i
  {}
}
