/** Deques of instants that are pruned from the left: the sliding windows of
    collectors/transition.py and evidence/counters.py. */
module Window {
  import opened Base

  predicate Ascending(times: seq<Instant>) {
    forall i, j | 0 <= i < j < |times| :: times[i] <= times[j]
  }

  /** What is left after `while history and history[0] < cutoff: history.popleft()`. */
  function Prune(history: seq<Instant>, cutoff: Instant): seq<Instant> {
    if history != [] && history[0] < cutoff then Prune(history[1..], cutoff) else history
  }

  /** How many of the times lie in [from, to]. */
  function Count(times: seq<Instant>, from: Instant, to: Instant): nat {
    if times == [] then 0
    else
      var n := |times| - 1;
      Count(times[..n], from, to) + if from <= times[n] <= to then 1 else 0
  }

  ghost predicate IsSuffix(history: seq<Instant>, log: seq<Instant>) {
    |history| <= |log| && history == log[|log| - |history|..]
  }

  /** The history is the log without some of its oldest entries, all of them before `cutoff`. */
  ghost predicate Retains(history: seq<Instant>, log: seq<Instant>, cutoff: Instant) {
    && IsSuffix(history, log)
    && forall i | 0 <= i < |log| - |history| :: log[i] < cutoff
  }

  lemma {:induction false} PruneDrops(history: seq<Instant>, cutoff: Instant)
    ensures var r := Prune(history, cutoff);
      && IsSuffix(r, history)
      && (forall i | 0 <= i < |history| - |r| :: history[i] < cutoff)
      && (r != [] ==> r[0] >= cutoff)
  {
    if history != [] && history[0] < cutoff {
      PruneDrops(history[1..], cutoff);
      var r := Prune(history[1..], cutoff);
      forall i | 0 <= i < |history| - |r| ensures history[i] < cutoff {
        if i > 0 { assert history[i] == history[1..][i - 1]; }
      }
    }
  }

  lemma PruneKeepsSuffix(history: seq<Instant>, log: seq<Instant>, cutoff: Instant)
    requires IsSuffix(history, log)
    ensures IsSuffix(Prune(history, cutoff), log)
  {
    PruneDrops(history, cutoff);
  }

  lemma AppendKeepsSuffix(history: seq<Instant>, log: seq<Instant>, t: Instant)
    requires IsSuffix(history, log)
    ensures IsSuffix(history + [t], log + [t])
  {}

  lemma AppendRetains(history: seq<Instant>, log: seq<Instant>, t: Instant, cutoff: Instant)
    requires Retains(history, log, cutoff)
    ensures Retains(history + [t], log + [t], cutoff)
  {}

  lemma {:induction false} CountSplit(a: seq<Instant>, b: seq<Instant>, from: Instant, to: Instant)
    ensures Count(a + b, from, to) == Count(a, from, to) + Count(b, from, to)
  {
    if b == [] {
      assert a + b == a;
    } else {
      var n := |b| - 1;
      assert (a + b)[..|a + b| - 1] == a + b[..n];
      CountSplit(a, b[..n], from, to);
    }
  }

  lemma {:induction false} CountAll(times: seq<Instant>, from: Instant, to: Instant)
    requires forall i | 0 <= i < |times| :: from <= times[i] <= to
    ensures Count(times, from, to) == |times|
  {
    if times != [] { CountAll(times[..|times| - 1], from, to); }
  }

  /** The loop itself. */
  method PopExpired(history: seq<Instant>, cutoff: Instant) returns (r: seq<Instant>)
    ensures r == Prune(history, cutoff)
  {
    r := history;
    while |r| > 0 && r[0] < cutoff
      invariant Prune(r, cutoff) == Prune(history, cutoff)
      decreases |r|
    {
      r := r[1..];
    }
  }
}
