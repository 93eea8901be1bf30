/** Granting a subscription filter, as far as the topic names a PUBLISH may legally carry can tell
    (enforcement/interface.py against sections 4.7.1 and 4.7.3 of MQTT 3.1.1). */
module TopicNames {
  import opened Base
  import opened Topics

  /** No wildcard and no null character. */
  predicate Plain(s: Text) {
    PLUS !in s && HASH !in s && 0 !in s
  }

  /** A topic name, its length and encoding aside: at least one character, none of them a wildcard or null. */
  predicate LegalName(topic: Text) {
    topic != [] && Plain(topic)
  }

  /** Every legal topic name the filter selects is one the pattern matches. */
  ghost predicate ContainsNames(pattern: Text, filter: Text) {
    forall topic: Text | LegalName(topic) :: TopicMatches(filter, topic) ==> TopicMatches(pattern, topic)
  }

  /** Every level is `+`, the final `#`, or plain: what section 4.7.1 asks of a filter. */
  ghost predicate WellFormed(filter: seq<Text>) {
    forall i | 0 <= i < |filter| ::
      filter[i] == WILD_ONE || (filter[i] == WILD_REST && i == |filter| - 1) || Plain(filter[i])
  }

  lemma {:induction false} PlainLevels(s: Text)
    requires Plain(s)
    ensures forall i | 0 <= i < |Split(s)| :: Plain(Split(s)[i])
  {
    if s != [] {
      PlainLevels(s[1..]);
      assert s[0] in s;
      var rest := Split(s[1..]);
      assert Plain([s[0]] + rest[0]);
    }
  }

  lemma {:induction false} PlainJoin(levels: seq<Text>)
    requires |levels| >= 1 && forall i | 0 <= i < |levels| :: Plain(levels[i])
    ensures Plain(Join(levels)) && |Join(levels)| >= |levels| - 1
    ensures |levels| == 1 ==> Join(levels) == levels[0]
  {
    if |levels| > 1 { PlainJoin(levels[1..]); }
  }

  /** The filter's first n levels, with the name `a` for every `+`. */
  function Named(filter: seq<Text>, n: nat): seq<Text>
    requires n <= |filter|
  {
    seq(n, i requires 0 <= i < n => if filter[i] == WILD_ONE then [97] else filter[i])
  }

  /** A legal name with these levels separates the filter from the pattern. */
  lemma Separates(pattern: Text, filter: Text, levels: seq<Text>)
    requires |levels| >= 1 && forall i | 0 <= i < |levels| :: Plain(levels[i]) && NoSlash(levels[i])
    requires |levels| > 1 || levels[0] != []
    requires FilterCovers(Split(filter), levels) && !FilterCovers(Split(pattern), levels)
    ensures !ContainsNames(pattern, filter)
  {
    hide FilterCovers, Split, Join, TopicMatches;
    var topic := Join(levels);
    PlainJoin(levels);
    SplitOfJoin(levels);
    TopicMatchesIsCover(filter, topic);
    TopicMatchesIsCover(pattern, topic);
    assert LegalName(topic);
  }

  /** The pattern ends in `+` where the filter has `#`: a deeper name separates them. */
  lemma DeeperName(pattern: Text, filter: Text)
    requires FilterCovers(Split(pattern), Split(filter)) && WellFormed(Split(filter))
    requires HashUnderPlus(Split(pattern), Split(filter)) && |Split(pattern)| == |Split(filter)|
    ensures !ContainsNames(pattern, filter)
  {
    hide Split, TopicMatches;
    var f := Split(filter);
    var h := |f| - 1;
    var levels := Named(f, h) + [[97], [97]];
    SplitLevels(filter);
    forall i | 0 <= i < h ensures LevelMatches(f[i], levels[i]) && Plain(levels[i]) && NoSlash(levels[i]) {}
    Separates(pattern, filter, levels);
  }

  /** The pattern goes on with `#` after that `+`: the name that stops short of both separates them, if it is one. */
  lemma ShorterName(pattern: Text, filter: Text)
    requires FilterCovers(Split(pattern), Split(filter)) && WellFormed(Split(filter))
    requires HashUnderPlus(Split(pattern), Split(filter)) && |Split(pattern)| == |Split(filter)| + 1
    requires |Split(filter)| > 2 || (|Split(filter)| == 2 && Split(filter)[0] != [])
    ensures !ContainsNames(pattern, filter)
  {
    hide Split, TopicMatches;
    var f := Split(filter);
    var h := |f| - 1;
    var levels := Named(f, h);
    SplitLevels(filter);
    forall i | 0 <= i < h ensures LevelMatches(f[i], levels[i]) && Plain(levels[i]) && NoSlash(levels[i]) {}
    Separates(pattern, filter, levels);
  }

  /** A filter that is not well formed selects no legal name. */
  lemma SelectsNoName(filter: Text, topic: Text)
    requires LegalName(topic) && TopicMatches(filter, topic)
    ensures WellFormed(Split(filter))
  {
    hide Split, TopicMatches;
    TopicMatchesIsCover(filter, topic);
    PlainLevels(topic);
    var f, t := Split(filter), Split(topic);
    forall i | 0 <= i < |f|
      ensures f[i] == WILD_ONE || (f[i] == WILD_REST && i == |f| - 1) || Plain(f[i])
    {
      if i < |t| && f[i] != WILD_ONE && !(f[i] == WILD_REST && i == |f| - 1) {
        assert LevelMatches(f[i], t[i]);
      }
    }
  }

  /** In the exceptional pairs the names that stop short are no legal names. */
  lemma NoShorterName(pattern: Text, filter: Text, topic: Text)
    requires LegalName(topic) && FilterCovers(Split(pattern), Split(filter))
    requires FilterCovers(Split(filter), Split(topic))
    requires HashUnderPlus(Split(pattern), Split(filter)) && |Split(pattern)| == |Split(filter)| + 1
    requires |Split(filter)| == 1 || (|Split(filter)| == 2 && Split(filter)[0] == [])
    ensures FilterCovers(Split(pattern), Split(topic))
  {
    hide Split;
    var p, f, t := Split(pattern), Split(filter), Split(topic);
    var h := |f| - 1;
    if |t| == h {
      assert LevelMatches(f[0], t[0]);
      assert t == [[]];
      OnlyEmptySplits(topic);
    }
    forall i | 0 <= i < |p| - 1 ensures LevelMatches(p[i], t[i]) {
      assert LevelMatches(p[i], f[i]);
      if i < h { assert LevelMatches(f[i], t[i]); }
    }
  }

  lemma OnlyEmptySplits(topic: Text)
    ensures Split(topic) == [[]] <==> topic == []
  {
    if topic != [] { assert |Split(topic)[0]| > 0 || |Split(topic)| > 1; }
  }

  /** When a pattern accepts a filter as the gateway tests it, it contains every legal topic name the filter selects
      exactly when the filter is not well formed, or its final `#` is not under a `+`, or the pattern goes on with `#`
      after that `+` and the filter is `#` or `/#`. */
  lemma GrantContainsNames(pattern: Text, filter: Text)
    requires TopicMatches(pattern, filter)
    ensures var p, f := Split(pattern), Split(filter);
      ContainsNames(pattern, filter) <==>
        || !WellFormed(f)
        || !HashUnderPlus(p, f)
        || (|p| == |f| + 1 && (|f| == 1 || (|f| == 2 && f[0] == [])))
  {
    hide Split, TopicMatches, WellFormed;
    var p, f := Split(pattern), Split(filter);
    TopicMatchesIsCover(pattern, filter);
    if WellFormed(f) && HashUnderPlus(p, f) && !(|p| == |f| + 1 && (|f| == 1 || (|f| == 2 && f[0] == []))) {
      if |p| == |f| {
        DeeperName(pattern, filter);
      } else {
        ShorterName(pattern, filter);
      }
    } else {
      forall topic: Text | LegalName(topic) && TopicMatches(filter, topic) ensures TopicMatches(pattern, topic) {
        SelectsNoName(filter, topic);
        TopicMatchesIsCover(filter, topic);
        TopicMatchesIsCover(pattern, topic);
        if HashUnderPlus(p, f) {
          NoShorterName(pattern, filter, topic);
        } else {
          CoverTransfers(p, f, Split(topic));
        }
      }
    }
  }
}
