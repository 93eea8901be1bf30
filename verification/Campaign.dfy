/** The conditions of the final campaign (scripts/run_final_campaign.py): every combination of scenario, device level,
    strategy and seed. */
module Campaign {
  /** `Condition.label`. */
  datatype Tag = Default | Devices(count: nat)

  /** `Condition.key`. */
  datatype Key = Key(scenario: string, strategy: string, seed: int, tag: Tag)

  /** `E13_DEVICE_LEVELS`, for the one scenario executed at several device levels. */
  function Levels(scenario: string): seq<Tag> {
    if scenario == "E13" then [Devices(1), Devices(5), Devices(10), Devices(25)] else [Default]
  }

  function ForSeeds(scenario: string, tag: Tag, strategy: string, seeds: seq<int>): seq<Key> {
    if seeds == [] then []
    else
      var n := |seeds| - 1;
      ForSeeds(scenario, tag, strategy, seeds[..n]) + [Key(scenario, strategy, seeds[n], tag)]
  }

  function ForStrategies(scenario: string, tag: Tag, strategies: seq<string>, seeds: seq<int>): seq<Key> {
    if strategies == [] then []
    else
      var n := |strategies| - 1;
      ForStrategies(scenario, tag, strategies[..n], seeds) + ForSeeds(scenario, tag, strategies[n], seeds)
  }

  function ForLevels(scenario: string, levels: seq<Tag>, strategies: seq<string>, seeds: seq<int>): seq<Key> {
    if levels == [] then []
    else
      var n := |levels| - 1;
      ForLevels(scenario, levels[..n], strategies, seeds) + ForStrategies(scenario, levels[n], strategies, seeds)
  }

  /** `build_conditions`. */
  function Conditions(scenarios: seq<string>, strategies: seq<string>, seeds: seq<int>): seq<Key> {
    if scenarios == [] then []
    else
      var n := |scenarios| - 1;
      Conditions(scenarios[..n], strategies, seeds) + ForLevels(scenarios[n], Levels(scenarios[n]), strategies, seeds)
  }

  method BuildConditions(scenarios: seq<string>, strategies: seq<string>, seeds: seq<int>) returns (keys: seq<Key>)
    ensures keys == Conditions(scenarios, strategies, seeds)
  {
    hide ForSeeds, ForStrategies, ForLevels, Conditions, Levels;
    keys := [];
    assert Conditions(scenarios[..0], strategies, seeds) == [] by { NoConditions(strategies, seeds); }
    for a := 0 to |scenarios|
      invariant keys == Conditions(scenarios[..a], strategies, seeds)
    {
      var found := ScenarioConditions(scenarios[a], strategies, seeds);
      OneMoreScenario(scenarios, a, strategies, seeds);
      keys := keys + found;
    }
    assert scenarios[..|scenarios|] == scenarios;
  }

  lemma NoConditions(strategies: seq<string>, seeds: seq<int>)
    ensures Conditions([], strategies, seeds) == []
  {}

  lemma OneMoreScenario(scenarios: seq<string>, a: nat, strategies: seq<string>, seeds: seq<int>)
    requires a < |scenarios|
    ensures Conditions(scenarios[..a + 1], strategies, seeds)
         == Conditions(scenarios[..a], strategies, seeds)
            + ForLevels(scenarios[a], Levels(scenarios[a]), strategies, seeds)
  {
    assert scenarios[..a + 1][..a] == scenarios[..a];
  }

  /** The three inner loops. */
  method ScenarioConditions(scenario: string, strategies: seq<string>, seeds: seq<int>) returns (keys: seq<Key>)
    ensures keys == ForLevels(scenario, Levels(scenario), strategies, seeds)
  {
    hide Levels, ForSeeds, ForStrategies, ForLevels;
    keys := [];
    var levels := Levels(scenario);
    NextLevel(scenario, levels, strategies, seeds, 0);
    assert levels[..0] == [];
    for b := 0 to |levels|
      invariant keys == ForLevels(scenario, levels[..b], strategies, seeds)
    {
      ghost var done := keys;
      NextLevel(scenario, levels, strategies, seeds, b);
      NextStrategy(scenario, levels[b], strategies, seeds, 0);
      assert strategies[..0] == [];
      for c := 0 to |strategies|
        invariant keys == done + ForStrategies(scenario, levels[b], strategies[..c], seeds)
      {
        ghost var begun := keys;
        NextStrategy(scenario, levels[b], strategies, seeds, c);
        NextSeed(scenario, levels[b], strategies[c], seeds, 0);
        assert seeds[..0] == [];
        for d := 0 to |seeds|
          invariant keys == begun + ForSeeds(scenario, levels[b], strategies[c], seeds[..d])
        {
          NextSeed(scenario, levels[b], strategies[c], seeds, d);
          keys := keys + [Key(scenario, strategies[c], seeds[d], levels[b])];
        }
        assert seeds[..|seeds|] == seeds;
      }
      assert strategies[..|strategies|] == strategies;
    }
    assert levels[..|levels|] == levels;
  }

  lemma NextLevel(scenario: string, levels: seq<Tag>, strategies: seq<string>, seeds: seq<int>, b: nat)
    ensures b == 0 ==> ForLevels(scenario, [], strategies, seeds) == []
    ensures b < |levels| ==>
      ForLevels(scenario, levels[..b + 1], strategies, seeds)
        == ForLevels(scenario, levels[..b], strategies, seeds) + ForStrategies(scenario, levels[b], strategies, seeds)
  {
    hide ForStrategies;
    if b < |levels| { assert levels[..b + 1][..b] == levels[..b]; }
  }

  lemma NextStrategy(scenario: string, tag: Tag, strategies: seq<string>, seeds: seq<int>, c: nat)
    ensures c == 0 ==> ForStrategies(scenario, tag, [], seeds) == []
    ensures c < |strategies| ==>
      ForStrategies(scenario, tag, strategies[..c + 1], seeds)
        == ForStrategies(scenario, tag, strategies[..c], seeds) + ForSeeds(scenario, tag, strategies[c], seeds)
  {
    hide ForSeeds;
    if c < |strategies| { assert strategies[..c + 1][..c] == strategies[..c]; }
  }

  lemma NextSeed(scenario: string, tag: Tag, strategy: string, seeds: seq<int>, d: nat)
    ensures d == 0 ==> ForSeeds(scenario, tag, strategy, []) == []
    ensures d < |seeds| ==>
      ForSeeds(scenario, tag, strategy, seeds[..d + 1])
        == ForSeeds(scenario, tag, strategy, seeds[..d]) + [Key(scenario, strategy, seeds[d], tag)]
  {
    if d < |seeds| { assert seeds[..d + 1][..d] == seeds[..d]; }
  }

  /** How often a value occurs. */
  function Times<T(==)>(s: seq<T>, v: T): nat {
    if s == [] then 0 else Times(s[..|s| - 1], v) + if s[|s| - 1] == v then 1 else 0
  }

  lemma {:induction false} TimesAdd<T>(s: seq<T>, t: seq<T>, v: T)
    ensures Times(s + t, v) == Times(s, v) + Times(t, v)
  {
    if t == [] {
      assert s + t == s;
    } else {
      var n := |t| - 1;
      assert (s + t)[..|s + t| - 1] == s + t[..n];
      TimesAdd(s, t[..n], v);
    }
  }

  ghost predicate Distinct<T>(s: seq<T>) {
    forall i, j | 0 <= i < j < |s| :: s[i] != s[j]
  }

  lemma {:induction false} TimesOf<T>(s: seq<T>, v: T)
    ensures Times(s, v) == 0 <==> v !in s
    ensures Distinct(s) ==> Times(s, v) <= 1
  {
    if s != [] {
      var n := |s| - 1;
      TimesOf(s[..n], v);
      assert s == s[..n] + [s[n]];
    }
  }

  /** A repeated value occurs at least twice. */
  lemma {:induction false} RepeatedTwice<T>(s: seq<T>) returns (v: T)
    requires !Distinct(s)
    ensures Times(s, v) >= 2
  {
    var n := |s| - 1;
    assert s == s[..n] + [s[n]];
    if Distinct(s[..n]) {
      v := s[n];
      var i :| 0 <= i < n && s[i] == s[n];
      assert s[..n][i] == v;
      TimesOf(s[..n], v);
    } else {
      v := RepeatedTwice(s[..n]);
    }
  }

  lemma TimesNone<T>(v: T)
    ensures Times([], v) == 0
  {}

  lemma TimesSplit<T>(s: seq<T>, v: T)
    requires s != []
    ensures Times(s, v) == Times(s[..|s| - 1], v) + if s[|s| - 1] == v then 1 else 0
  {}

  lemma {:induction false} TimesForSeeds(scenario: string, tag: Tag, strategy: string, seeds: seq<int>, k: Key)
    ensures Times(ForSeeds(scenario, tag, strategy, seeds), k)
         == if k.scenario == scenario && k.tag == tag && k.strategy == strategy then Times(seeds, k.seed) else 0
  {
    hide Times;
    TimesNone(k);
    if seeds == [] {
      TimesNone(k.seed);
    } else {
      var n := |seeds| - 1;
      TimesSplit(seeds, k.seed);
      TimesNone(k);
      TimesSplit([Key(scenario, strategy, seeds[n], tag)], k);
      TimesForSeeds(scenario, tag, strategy, seeds[..n], k);
      TimesAdd(ForSeeds(scenario, tag, strategy, seeds[..n]), [Key(scenario, strategy, seeds[n], tag)], k);
    }
  }

  lemma OneMore(a: nat, b: nat)
    ensures 0 * b == 0 && (a + 1) * b == a * b + b
  {}

  lemma {:induction false} TimesForStrategies(scenario: string, tag: Tag, strategies: seq<string>, seeds: seq<int>,
                                              k: Key)
    ensures Times(ForStrategies(scenario, tag, strategies, seeds), k)
         == if k.scenario == scenario && k.tag == tag then Times(strategies, k.strategy) * Times(seeds, k.seed) else 0
  {
    hide Times, ForSeeds;
    if strategies == [] {
      TimesNone(k);
      TimesNone(k.strategy);
      OneMore(0, Times(seeds, k.seed));
    } else {
      var n := |strategies| - 1;
      TimesSplit(strategies, k.strategy);
      TimesForStrategies(scenario, tag, strategies[..n], seeds, k);
      TimesForSeeds(scenario, tag, strategies[n], seeds, k);
      TimesAdd(ForStrategies(scenario, tag, strategies[..n], seeds), ForSeeds(scenario, tag, strategies[n], seeds), k);
      OneMore(Times(strategies[..n], k.strategy), Times(seeds, k.seed));
    }
  }

  lemma {:induction false} TimesForLevels(scenario: string, levels: seq<Tag>, strategies: seq<string>,
                                          seeds: seq<int>, k: Key)
    ensures var each := Times(strategies, k.strategy) * Times(seeds, k.seed);
      Times(ForLevels(scenario, levels, strategies, seeds), k)
        == if k.scenario == scenario then Times(levels, k.tag) * each else 0
  {
    var each := Times(strategies, k.strategy) * Times(seeds, k.seed);
    hide Times, ForStrategies;
    if levels == [] {
      TimesNone(k);
      TimesNone(k.tag);
      OneMore(0, each);
    } else {
      var n := |levels| - 1;
      TimesSplit(levels, k.tag);
      TimesForLevels(scenario, levels[..n], strategies, seeds, k);
      TimesForStrategies(scenario, levels[n], strategies, seeds, k);
      TimesAdd(ForLevels(scenario, levels[..n], strategies, seeds),
               ForStrategies(scenario, levels[n], strategies, seeds), k);
      OneMore(Times(levels[..n], k.tag), each);
    }
  }

  /** E13 runs at 1, 5, 10 and 25 devices, any other scenario once. */
  predicate RunsAt(scenario: string, tag: Tag) {
    if scenario == "E13" then tag.Devices? && tag.count in {1, 5, 10, 25} else tag == Default
  }

  lemma LevelsDistinct(scenario: string)
    ensures Distinct(Levels(scenario)) && Levels(scenario) != []
  {}

  lemma LevelsAre(scenario: string, tag: Tag)
    ensures tag in Levels(scenario) <==> RunsAt(scenario, tag)
  {}

  /** Every combination occurs as often as its scenario, its strategy and its seed are listed, and nothing else
      occurs. */
  lemma {:induction false} EveryCombination(scenarios: seq<string>, strategies: seq<string>, seeds: seq<int>, k: Key)
    ensures var each := Times(strategies, k.strategy) * Times(seeds, k.seed);
      Times(Conditions(scenarios, strategies, seeds), k)
        == if RunsAt(k.scenario, k.tag) then Times(scenarios, k.scenario) * each else 0
  {
    hide Levels, ForLevels, Times, Distinct, RunsAt;
    var each := Times(strategies, k.strategy) * Times(seeds, k.seed);
    LevelsAre(k.scenario, k.tag);
    if scenarios == [] {
      TimesOf(scenarios, k.scenario);
      TimesOf(Conditions(scenarios, strategies, seeds), k);
      OneMore(0, each);
    } else {
      var n := |scenarios| - 1;
      var last := scenarios[n];
      EveryCombination(scenarios[..n], strategies, seeds, k);
      TimesForLevels(last, Levels(last), strategies, seeds, k);
      TimesAdd(Conditions(scenarios[..n], strategies, seeds), ForLevels(last, Levels(last), strategies, seeds), k);
      TimesSplit(scenarios, k.scenario);
      LevelsDistinct(last);
      OnceAt(Levels(last), k.tag);
      OneMore(Times(scenarios[..n], k.scenario), each);
    }
  }

  lemma OnceAt(levels: seq<Tag>, tag: Tag)
    ensures Distinct(levels) ==> Times(levels, tag) == if tag in levels then 1 else 0
  {
    TimesOf(levels, tag);
  }

  lemma AtMostOne(a: nat, b: nat)
    requires a <= 1 && b <= 1
    ensures a * b <= 1
  {}

  lemma AtLeast(a: nat, b: nat, least: nat)
    requires a >= least && b >= 1
    ensures a * b >= least && b * a >= least
  {}

  /** The conditions are distinct exactly when there are none or each of the three lists is. */
  lemma DistinctConditions(scenarios: seq<string>, strategies: seq<string>, seeds: seq<int>)
    ensures Distinct(Conditions(scenarios, strategies, seeds))
       <==> || scenarios == [] || strategies == [] || seeds == []
            || (Distinct(scenarios) && Distinct(strategies) && Distinct(seeds))
  {
    hide Conditions, Times, Levels, Distinct;
    var all := Conditions(scenarios, strategies, seeds);
    if !Distinct(all) {
      var k := RepeatedTwice(all);
      EveryCombination(scenarios, strategies, seeds, k);
      TimesOf(scenarios, k.scenario);
      TimesOf(strategies, k.strategy);
      TimesOf(seeds, k.seed);
      var a, b, c := Times(scenarios, k.scenario), Times(strategies, k.strategy), Times(seeds, k.seed);
      ProductOfThree(a, b, c);
    } else if scenarios != [] && strategies != [] && seeds != [] {
      forall k ensures Times(all, k) <= 1 { TimesOf(all, k); }
      NoRepeats(scenarios, strategies, seeds, all);
    }
  }

  /** A product of three counts above 1 has no zero factor, and some factor above 1. */
  lemma ProductOfThree(a: nat, b: nat, c: nat)
    ensures a == 0 || b == 0 || c == 0 ==> a * (b * c) == 0
    ensures a <= 1 && b <= 1 && c <= 1 ==> a * (b * c) <= 1
  {
    if b <= 1 && c <= 1 { AtMostOne(b, c); }
    if a <= 1 && b * c <= 1 { AtMostOne(a, b * c); }
  }

  /** A repeated scenario, strategy or seed repeats a condition. */
  lemma NoRepeats(scenarios: seq<string>, strategies: seq<string>, seeds: seq<int>, all: seq<Key>)
    requires scenarios != [] && strategies != [] && seeds != []
    requires all == Conditions(scenarios, strategies, seeds) && forall k :: Times(all, k) <= 1
    ensures Distinct(scenarios) && Distinct(strategies) && Distinct(seeds)
  {
    hide Conditions, Times, Levels, Distinct;
    var scenario, strategy, seed := scenarios[0], strategies[0], seeds[0];
    if !Distinct(scenarios) { scenario := RepeatedTwice(scenarios); }
    if !Distinct(strategies) { strategy := RepeatedTwice(strategies); }
    if !Distinct(seeds) { seed := RepeatedTwice(seeds); }
    LevelsDistinct(scenario);
    var k := Key(scenario, strategy, seed, Levels(scenario)[0]);
    LevelsAre(scenario, k.tag);
    EveryCombination(scenarios, strategies, seeds, k);
    TimesOf(scenarios, scenario);
    TimesOf(strategies, strategy);
    TimesOf(seeds, seed);
    var a, b, c := Times(scenarios, scenario), Times(strategies, strategy), Times(seeds, seed);
    assert a >= 1 && b >= 1 && c >= 1;
    OnlyOnes(a, b, c);
    assert Times(all, k) <= 1;
  }

  lemma OnlyOnes(a: nat, b: nat, c: nat)
    requires a >= 1 && b >= 1 && c >= 1
    ensures a * (b * c) <= 1 ==> a == 1 && b == 1 && c == 1
  {
    AtLeast(b, c, b);
    AtLeast(c, b, c);
    AtLeast(a, b * c, a);
    AtLeast(b * c, a, b * c);
  }
}
