/** A pruned deque over a whole run of calls, in whatever order their instants come: exactly what it holds, and exactly
    when its length is the count of a window (the deques of collectors/transition.py and evidence/counters.py). */
module WindowRuns {
  import opened Base
  import opened Window

  /** A call on the deque: one that adds its instant, pruning first, or one that only prunes. */
  datatype Call = Add(at: Instant) | Trim(at: Instant)

  /** Every instant ever added. */
  function Added(calls: seq<Call>): seq<Instant> {
    if calls == [] then []
    else
      var n := |calls| - 1;
      Added(calls[..n]) + if calls[n].Add? then [calls[n].at] else []
  }

  function Deque(calls: seq<Call>, window: int): seq<Instant> {
    if calls == [] then []
    else
      var n := |calls| - 1;
      Prune(Deque(calls[..n], window), calls[n].at - window) + if calls[n].Add? then [calls[n].at] else []
  }

  lemma OneMoreCall(calls: seq<Call>, c: Call, window: int)
    ensures Added(calls + [c]) == Added(calls) + if c.Add? then [c.at] else []
    ensures Deque(calls + [c], window)
         == Prune(Deque(calls, window), c.at - window) + if c.Add? then [c.at] else []
  {
    assert (calls + [c])[..|calls|] == calls;
  }

  /** Appending before pruning comes to the same, in a window that reaches back. */
  lemma {:induction false} AppendThenPrune(history: seq<Instant>, at: Instant, window: int)
    requires window >= 0
    ensures Prune(history + [at], at - window) == Prune(history, at - window) + [at]
  {
    if history != [] {
      assert (history + [at])[1..] == history[1..] + [at];
      AppendThenPrune(history[1..], at, window);
    }
  }

  // -- what is still there ------------------------------------------------------------

  /** How many instants had been added before the p-th call. */
  function Rank(calls: seq<Call>, p: nat): nat
    requires p <= |calls|
  {
    |Added(calls[..p])|
  }

  /** The instant added by the p-th call is still in the deque. */
  ghost predicate Kept(calls: seq<Call>, window: int, p: nat) {
    p < |calls| && calls[p].Add? && Rank(calls, p) + |Deque(calls, window)| >= |Added(calls)|
  }

  /** No call after the p-th has a window that begins after the instant it added. */
  ghost predicate Standing(calls: seq<Call>, window: int, p: nat) {
    && p < |calls| && calls[p].Add?
    && forall m | p < m < |calls| :: calls[m].at - window <= calls[p].at
  }

  lemma {:induction false} DequeIsSuffix(calls: seq<Call>, window: int)
    ensures IsSuffix(Deque(calls, window), Added(calls))
  {
    hide Prune;
    if calls != [] {
      var n := |calls| - 1;
      DequeIsSuffix(calls[..n], window);
      PruneKeepsSuffix(Deque(calls[..n], window), Added(calls[..n]), calls[n].at - window);
    }
  }

  /** The p-th call's instant stands at its rank. */
  lemma {:induction false} RankedAt(calls: seq<Call>, p: nat)
    requires p < |calls| && calls[p].Add?
    ensures Rank(calls, p) < |Added(calls)| && Added(calls)[Rank(calls, p)] == calls[p].at
    decreases |calls|
  {
    var n := |calls| - 1;
    if p < n {
      RankedAt(calls[..n], p);
      assert calls[..n][..p] == calls[..p];
    }
  }

  /** Every rank belongs to some call. */
  lemma {:induction false} CallOfRank(calls: seq<Call>, k: nat) returns (p: nat)
    requires k < |Added(calls)|
    ensures p < |calls| && calls[p].Add? && Rank(calls, p) == k
  {
    var n := |calls| - 1;
    if k < |Added(calls[..n])| {
      p := CallOfRank(calls[..n], k);
      assert calls[..n][..p] == calls[..p];
    } else {
      p := n;
    }
  }

  lemma AscendingBefore(calls: seq<Call>)
    requires calls != [] && Ascending(Added(calls))
    ensures Ascending(Added(calls[..|calls| - 1]))
  {
    var before := Added(calls[..|calls| - 1]);
    assert forall i | 0 <= i < |before| :: before[i] == Added(calls)[i];
  }

  /** When instants are added in order: one is still in the deque exactly when no later call's window began after it. */
  lemma {:induction false} KeptIffStanding(calls: seq<Call>, window: int, p: nat)
    requires Ascending(Added(calls)) && p < |calls| && calls[p].Add?
    ensures Kept(calls, window, p) <==> Standing(calls, window, p)
    decreases |calls|
  {
    hide Prune, Deque, Added, Ascending;
    var n := |calls| - 1;
    var before, c := calls[..n], calls[n];
    assert calls == before + [c];
    OneMoreCall(before, c, window);
    if p < n {
      AscendingBefore(calls);
      KeptIffStanding(before, window, p);
      assert before[..p] == calls[..p];
      RankedAt(before, p);
      DequeIsSuffix(before, window);
      CutAt(Deque(before, window), Added(before), Rank(before, p), c.at - window);
      assert Standing(calls, window, p) <==> Standing(before, window, p) && c.at - window <= calls[p].at;
    } else {
      assert calls[..p] == before;
    }
  }

  /** One prune of a sorted deque keeps exactly what is not before its cutoff. */
  lemma CutAt(history: seq<Instant>, log: seq<Instant>, k: nat, cutoff: Instant)
    requires Ascending(log) && IsSuffix(history, log) && k < |log|
    ensures |Prune(history, cutoff)| <= |history|
    ensures k + |Prune(history, cutoff)| >= |log| <==> k + |history| >= |log| && log[k] >= cutoff
  {
    hide Prune;
    PruneDrops(history, cutoff);
    var r, d := Prune(history, cutoff), |log| - |history|;
    if k >= d {
      assert log[k] == history[k - d];
      if r != [] && k >= |log| - |r| { assert log[|log| - |r|] == r[0]; }
    }
  }

  // -- when it is a window ---------------------------------------------------------------

  /** After a query at q the deque holds exactly the instants of [q - window, q]. */
  ghost predicate Exact(calls: seq<Call>, window: int, q: Instant) {
    var asked := calls + [Trim(q)];
    forall p: nat | p < |calls| && calls[p].Add? :: Kept(asked, window, p) <==> q - window <= calls[p].at <= q
  }

  /** No instant of the window has been cut by a later call. */
  ghost predicate NoneLost(calls: seq<Call>, window: int, q: Instant) {
    forall p: nat | p < |calls| && calls[p].Add? && q - window <= calls[p].at <= q :: Standing(calls, window, p)
  }

  /** Every instant after q has been cut by a later call. */
  ghost predicate NoneAhead(calls: seq<Call>, window: int, q: Instant) {
    forall p: nat | p < |calls| && calls[p].Add? && calls[p].at > q :: !Standing(calls, window, p)
  }

  lemma StandingAsked(calls: seq<Call>, window: int, q: Instant, p: nat)
    requires p < |calls| && calls[p].Add?
    ensures Standing(calls + [Trim(q)], window, p) <==> Standing(calls, window, p) && q - window <= calls[p].at
  {
    var asked := calls + [Trim(q)];
    assert forall m | 0 <= m < |calls| :: asked[m] == calls[m];
    assert asked[|calls|] == Trim(q);
  }

  /** Over any run that adds in order, queries coming in any order: a query at q finds exactly the window exactly when
      no instant of the window was cut by a later call and every instant after q was. */
  lemma ExactIff(calls: seq<Call>, window: int, q: Instant)
    requires Ascending(Added(calls)) && window >= 0
    ensures Exact(calls, window, q) <==> NoneLost(calls, window, q) && NoneAhead(calls, window, q)
  {
    hide Kept, Standing, Ascending;
    var asked := calls + [Trim(q)];
    OneMoreCall(calls, Trim(q), window);
    forall p: nat | p < |calls| && calls[p].Add?
      ensures Kept(asked, window, p) <==> Standing(calls, window, p) && q - window <= calls[p].at
    {
      assert asked[p] == calls[p];
      assert Added(asked) == Added(calls);
      KeptIffStanding(asked, window, p);
      StandingAsked(calls, window, q, p);
    }
  }

  /** And then its length is the window's count. */
  lemma ExactCounts(calls: seq<Call>, window: int, q: Instant)
    requires Exact(calls, window, q)
    ensures |Deque(calls + [Trim(q)], window)| == Count(Added(calls), q - window, q)
  {
    hide Deque, Added, Count;
    var asked := calls + [Trim(q)];
    OneMoreCall(calls, Trim(q), window);
    DequeIsSuffix(asked, window);
    var log := Added(calls);
    var k := |log| - |Deque(asked, window)|;
    forall i | 0 <= i < |log| ensures i >= k <==> q - window <= log[i] <= q {
      var p := CallOfRank(calls, i);
      RankedAt(calls, p);
      assert asked[..p] == calls[..p];
      assert Kept(asked, window, p) <==> i >= k;
    }
    CountSuffix(log, k, q - window, q);
  }

  lemma CountSuffix(log: seq<Instant>, k: nat, from: Instant, to: Instant)
    requires k <= |log| && forall i | 0 <= i < |log| :: i >= k <==> from <= log[i] <= to
    ensures Count(log, from, to) == |log| - k
  {
    hide Count;
    assert log == log[..k] + log[k..];
    CountSplit(log[..k], log[k..], from, to);
    CountOut(log[..k], from, to);
    CountAll(log[k..], from, to);
  }

  lemma {:induction false} CountOut(times: seq<Instant>, from: Instant, to: Instant)
    requires forall i | 0 <= i < |times| :: !(from <= times[i] <= to)
    ensures Count(times, from, to) == 0
  {
    if times != [] { CountOut(times[..|times| - 1], from, to); }
  }

  // -- queries no earlier than what came before ----------------------------------------------

  ghost predicate NoneLater(calls: seq<Call>, q: Instant) {
    forall i | 0 <= i < |calls| :: calls[i].at <= q
  }

  lemma LateIsExact(calls: seq<Call>, window: int, q: Instant)
    requires Ascending(Added(calls)) && window >= 0 && NoneLater(calls, q)
    ensures NoneLost(calls, window, q) && NoneAhead(calls, window, q)
    ensures |Deque(calls + [Trim(q)], window)| == Count(Added(calls), q - window, q)
  {
    ExactIff(calls, window, q);
    ExactCounts(calls, window, q);
  }

  /** Whatever a call has cut is before the window of any query that is not earlier than all calls. */
  lemma {:induction false} CutIsOld(calls: seq<Call>, window: int, q: Instant)
    requires NoneLater(calls, q)
    ensures Retains(Deque(calls, window), Added(calls), q - window)
  {
    hide Prune, Retains;
    if calls == [] {
      NothingCut(q - window);
    } else {
      var n := |calls| - 1;
      var before, c := calls[..n], calls[n];
      CutIsOld(before, window, q);
      CutsOlder(Deque(before, window), Added(before), c.at - window, q - window);
      if c.Add? {
        AppendRetains(Prune(Deque(before, window), c.at - window), Added(before), c.at, q - window);
      } else {
        assert Added(before) + [] == Added(before);
        assert Prune(Deque(before, window), c.at - window) + [] == Prune(Deque(before, window), c.at - window);
      }
    }
  }

  lemma NothingCut(cutoff: Instant)
    ensures Retains([], [], cutoff)
  {}

  lemma CutsOlder(history: seq<Instant>, log: seq<Instant>, cutoff: Instant, later: Instant)
    requires Retains(history, log, later) && cutoff <= later
    ensures Retains(Prune(history, cutoff), log, later)
  {
    hide Prune;
    var r := Prune(history, cutoff);
    var dropped := |log| - |history|;
    PruneDrops(history, cutoff);
    forall i | 0 <= i < |log| - |r| ensures log[i] < later {
      if i >= dropped { assert log[i] == history[i - dropped]; }
    }
  }

  /** Instants added in any order: a call that is not earlier than those before it counts its window exactly when
      nothing older than the window is left in the deque behind a younger instant. */
  lemma LateCountIff(calls: seq<Call>, c: Call, window: int)
    requires NoneLater(calls, c.at)
    ensures var left, from := Deque(calls + [c], window), c.at - window;
      |left| == Count(Added(calls + [c]), from, c.at) <==> forall i | 0 <= i < |left| :: left[i] >= from
  {
    hide Deque, Added, Prune, Count;
    var made, q := calls + [c], c.at;
    assert NoneLater(made, q);
    CutIsOld(made, window, q);
    AddedNoLater(made, q);
    var left, log := Deque(made, window), Added(made);
    var k := |log| - |left|;
    assert log == log[..k] + left;
    assert forall i | 0 <= i < k :: log[..k][i] == log[i] < q - window;
    CountSplit(log[..k], left, q - window, q);
    CountOut(log[..k], q - window, q);
    CountFull(left, q - window, q);
  }

  /** In order, nothing is. */
  lemma LateCount(calls: seq<Call>, c: Call, window: int)
    requires NoneLater(calls, c.at) && Ascending(Added(calls + [c])) && window >= 0
    ensures |Deque(calls + [c], window)| == Count(Added(calls + [c]), c.at - window, c.at)
  {
    hide Deque, Added, Prune, Count, Ascending;
    LateCountIff(calls, c, window);
    OneMoreCall(calls, c, window);
    AscendingPrefix(Added(calls), if c.Add? then [c.at] else []);
    DequeIsSuffix(calls, window);
    PrunedFloor(Deque(calls, window), Added(calls), c.at - window);
  }

  lemma AscendingPrefix(a: seq<Instant>, b: seq<Instant>)
    requires Ascending(a + b)
    ensures Ascending(a)
  {
    assert forall i | 0 <= i < |a| :: (a + b)[i] == a[i];
  }

  lemma PrunedFloor(history: seq<Instant>, log: seq<Instant>, cutoff: Instant)
    requires Ascending(log) && IsSuffix(history, log)
    ensures forall i | 0 <= i < |Prune(history, cutoff)| :: Prune(history, cutoff)[i] >= cutoff
  {
    hide Prune;
    PruneDrops(history, cutoff);
    var r := Prune(history, cutoff);
    var k := |log| - |r|;
    forall i | 0 <= i < |r| ensures r[i] >= cutoff {
      assert r[i] == log[k + i] && r[0] == log[k];
    }
  }

  /** Out of order it can be: added at 10 and then at 5, both are still counted at 12 in a window of 3. */
  lemma OutOfOrder()
    ensures var calls := [Add(10), Add(5), Trim(12)];
      |Deque(calls, 3)| == 2 && Count(Added(calls), 9, 12) == 1
  {
    hide Deque, Added, Count, Prune;
    var none: seq<Call> := [];
    NothingAdded();
    OneMoreCall(none, Add(10), 3);
    OneMoreCall(none + [Add(10)], Add(5), 3);
    OneMoreCall(none + [Add(10)] + [Add(5)], Trim(12), 3);
    assert none + [Add(10)] + [Add(5)] + [Trim(12)] == [Add(10), Add(5), Trim(12)];
    NotPruned([], 7);
    NotPruned([10], 2);
    NotPruned([10, 5], 9);
    assert [] + [10] == [10] && [10] + [5] == [10, 5] && [10, 5] + [] == [10, 5];
    CountSplit([10], [5], 9, 12);
    CountAll([10], 9, 12);
    CountOut([5], 9, 12);
  }

  lemma NothingAdded()
    ensures Deque([], 3) == [] && Added([]) == []
  {}

  lemma NotPruned(history: seq<Instant>, cutoff: Instant)
    ensures history == [] || history[0] >= cutoff ==> Prune(history, cutoff) == history
  {}

  lemma {:induction false} AddedNoLater(calls: seq<Call>, q: Instant)
    requires NoneLater(calls, q)
    ensures forall i | 0 <= i < |Added(calls)| :: Added(calls)[i] <= q
  {
    if calls != [] { AddedNoLater(calls[..|calls| - 1], q); }
  }

  lemma {:induction false} CountFull(times: seq<Instant>, from: Instant, to: Instant)
    requires forall i | 0 <= i < |times| :: times[i] <= to
    ensures Count(times, from, to) <= |times|
    ensures Count(times, from, to) == |times| <==> forall i | 0 <= i < |times| :: times[i] >= from
  {
    if times != [] {
      var n := |times| - 1;
      CountFull(times[..n], from, to);
      assert forall i | 0 <= i < n :: times[..n][i] == times[i];
    }
  }

  // -- queries no earlier than what was added -------------------------------------------------

  /** A query that is not earlier than any instant added counts its window exactly when none of it was cut. */
  lemma CountIffNoneLost(calls: seq<Call>, window: int, q: Instant)
    requires Ascending(Added(calls)) && window >= 0
    requires forall i | 0 <= i < |Added(calls)| :: Added(calls)[i] <= q
    ensures |Deque(calls + [Trim(q)], window)| == Count(Added(calls), q - window, q) <==> NoneLost(calls, window, q)
  {
    hide Deque, Added, Count, Ascending, Exact, NoneLost, Standing;
    assert NoneAhead(calls, window, q) by {
      forall p: nat | p < |calls| && calls[p].Add? ensures calls[p].at <= q { RankedAt(calls, p); }
    }
    ExactIff(calls, window, q);
    if Exact(calls, window, q) {
      ExactCounts(calls, window, q);
    } else if |Deque(calls + [Trim(q)], window)| == Count(Added(calls), q - window, q) {
      FullCountIsExact(calls, window, q);
    }
  }

  /** As many as there are in the window, all of them in it: then they are the window. */
  lemma FullCountIsExact(calls: seq<Call>, window: int, q: Instant)
    requires Ascending(Added(calls)) && forall i | 0 <= i < |Added(calls)| :: Added(calls)[i] <= q
    requires |Deque(calls + [Trim(q)], window)| == Count(Added(calls), q - window, q)
    ensures Exact(calls, window, q)
  {
    hide Deque, Added, Count, Prune;
    var asked, log := calls + [Trim(q)], Added(calls);
    OneMoreCall(calls, Trim(q), window);
    assert log + [] == log;
    DequeIsSuffix(calls, window);
    DequeIsSuffix(asked, window);
    var left := Deque(asked, window);
    assert left == Prune(Deque(calls, window), q - window) by {
      assert Prune(Deque(calls, window), q - window) + [] == Prune(Deque(calls, window), q - window);
    }
    PruneDrops(Deque(calls, window), q - window);
    var k := |log| - |left|;
    assert left != [] ==> log[k] == left[0] >= q - window;
    SortedCount(log, k, q - window, q);
    forall p: nat | p < |calls| && calls[p].Add?
      ensures Kept(asked, window, p) <==> q - window <= calls[p].at <= q
    {
      RankedAt(calls, p);
      assert asked[..p] == calls[..p] && asked[p] == calls[p];
    }
  }

  /** In a sorted list whose part from k on is in the window, the window has that part's length only if nothing before k
      is in it. */
  lemma SortedCount(log: seq<Instant>, k: nat, from: Instant, to: Instant)
    requires Ascending(log) && k <= |log| && forall i | 0 <= i < |log| :: log[i] <= to
    requires k < |log| ==> log[k] >= from
    requires Count(log, from, to) == |log| - k
    ensures forall i | 0 <= i < |log| :: i >= k <==> from <= log[i]
  {
    hide Count;
    assert log == log[..k] + log[k..];
    CountSplit(log[..k], log[k..], from, to);
    CountAll(log[k..], from, to);
    if k > 0 && log[k - 1] >= from {
      assert log[..k] == log[..k - 1] + [log[k - 1]];
      CountSplit(log[..k - 1], [log[k - 1]], from, to);
      CountAll([log[k - 1]], from, to);
    }
  }

  /** When only queries are known not to be later than q, and nothing added is either, no call is. */
  lemma AddsAndTrims(calls: seq<Call>, q: Instant)
    requires forall i | 0 <= i < |Added(calls)| :: Added(calls)[i] <= q
    requires forall m | 0 <= m < |calls| && calls[m].Trim? :: calls[m].at <= q
    ensures NoneLater(calls, q)
  {
    hide Added;
    forall m | 0 <= m < |calls| ensures calls[m].at <= q {
      if calls[m].Add? { RankedAt(calls, m); }
    }
  }
}
