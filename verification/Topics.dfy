/** Topic filters (enforcement/interface.py), access scopes (policy/models.py) and the
    gateway's scope test (enforcement/mqtt_gateway.py). */
module Topics {
  import opened Base

  const SLASH: byte := 47
  const PLUS: byte := 43
  const HASH: byte := 35
  const WILD_ONE: Text := [PLUS]
  const WILD_REST: Text := [HASH]

  // -- splitting ----------------------------------------------------------

  /** `str.split("/")`: the level before the first slash, then the rest. Never empty. */
  function Split(s: Text): (levels: seq<Text>)
    ensures |levels| >= 1
  {
    if s == [] then [[]]
    else
      var rest := Split(s[1..]);
      if s[0] == SLASH then [[]] + rest else [[s[0]] + rest[0]] + rest[1..]
  }

  /** `"/".join(levels)`. */
  function Join(levels: seq<Text>): Text
    requires |levels| >= 1
  {
    if |levels| == 1 then levels[0] else levels[0] + [SLASH] + Join(levels[1..])
  }

  ghost predicate NoSlash(s: Text) { SLASH !in s }

  lemma {:induction false} SplitLevels(s: Text)
    ensures forall i | 0 <= i < |Split(s)| :: NoSlash(Split(s)[i])
  {
    if s != [] { SplitLevels(s[1..]); }
  }

  lemma {:induction false} SplitOfLevel(a: Text)
    requires NoSlash(a)
    ensures Split(a) == [a]
  {
    if a != [] {
      SplitOfLevel(a[1..]);
      assert a[0] in a;
      assert [a[0]] + a[1..] == a;
    }
  }

  lemma {:induction false} SplitAfterLevel(a: Text, s: Text)
    requires NoSlash(a)
    ensures Split(a + [SLASH] + s) == [a] + Split(s)
  {
    var t := a + [SLASH] + s;
    if a == [] {
      assert t[1..] == s;
    } else {
      assert t[1..] == a[1..] + [SLASH] + s;
      SplitAfterLevel(a[1..], s);
      assert a[0] in a;
      assert [a[0]] + a[1..] == a;
    }
  }

  lemma {:induction false} SplitOfJoin(levels: seq<Text>)
    requires |levels| >= 1
    requires forall i | 0 <= i < |levels| :: NoSlash(levels[i])
    ensures Split(Join(levels)) == levels
  {
    if |levels| == 1 {
      SplitOfLevel(levels[0]);
    } else {
      SplitOfJoin(levels[1..]);
      SplitAfterLevel(levels[0], Join(levels[1..]));
    }
  }

  // -- matching -----------------------------------------------------------

  /** The scan of `topic_matches` from level `index` on. */
  function MatchFrom(pattern: seq<Text>, topic: seq<Text>, index: nat): bool
    requires index <= |pattern|
    decreases |pattern| - index
  {
    if index == |pattern| then |pattern| == |topic|
    else if pattern[index] == WILD_REST then index == |pattern| - 1
    else if index >= |topic| then false
    else if pattern[index] == WILD_ONE || pattern[index] == topic[index] then MatchFrom(pattern, topic, index + 1)
    else false
  }

  /** `topic_matches`. */
  function TopicMatches(pattern: Text, topic: Text): bool {
    if pattern == WILD_REST then true else MatchFrom(Split(pattern), Split(topic), 0)
  }

  /** One level of section 4.7.1 of MQTT 3.1.1: `+` stands for any one level, anything else for itself. */
  predicate LevelMatches(level: Text, name: Text) {
    level != WILD_REST && (level == WILD_ONE || level == name)
  }

  /** Section 4.7.1 of MQTT 3.1.1 without a scan: `#` is only allowed last, stands for any number of levels
      including none, and every level before it matches in place. */
  ghost predicate FilterCovers(pattern: seq<Text>, topic: seq<Text>) {
    if |pattern| > 0 && pattern[|pattern| - 1] == WILD_REST then
      && |pattern| - 1 <= |topic|
      && forall i | 0 <= i < |pattern| - 1 :: LevelMatches(pattern[i], topic[i])
    else
      && |pattern| == |topic|
      && forall i | 0 <= i < |pattern| :: LevelMatches(pattern[i], topic[i])
  }

  lemma {:induction false} ScanIsCover(pattern: seq<Text>, topic: seq<Text>, index: nat)
    requires index <= |pattern| && index <= |topic|
    requires forall i | 0 <= i < index :: LevelMatches(pattern[i], topic[i])
    ensures MatchFrom(pattern, topic, index) <==> FilterCovers(pattern, topic)
    decreases |pattern| - index
  {
    if index < |pattern| && index < |topic| && LevelMatches(pattern[index], topic[index]) {
      ScanIsCover(pattern, topic, index + 1);
    }
  }

  /** The scan, including its shortcut for a lone `#`, decides section 4.7.1's relation. */
  lemma TopicMatchesIsCover(pattern: Text, topic: Text)
    ensures TopicMatches(pattern, topic) <==> FilterCovers(Split(pattern), Split(topic))
  {
    if pattern == WILD_REST {
      SplitOfLevel(pattern);
    } else {
      ScanIsCover(Split(pattern), Split(topic), 0);
    }
  }

  // -- granting a filter ------------------------------------------------------

  /** Every topic the filter selects is one the pattern matches. */
  ghost predicate Contains(pattern: Text, filter: Text) {
    forall topic: Text :: TopicMatches(filter, topic) ==> TopicMatches(pattern, topic)
  }

  /** The filter's final `#` stands where the pattern has a `+`. */
  predicate HashUnderPlus(pattern: seq<Text>, filter: seq<Text>) {
    var h := |filter| - 1;
    h >= 0 && filter[h] == WILD_REST && h < |pattern| && pattern[h] == WILD_ONE
  }

  /** A filter with `#` anywhere but last selects nothing. */
  ghost predicate Selects(filter: seq<Text>) {
    forall i | 0 <= i < |filter| - 1 :: filter[i] != WILD_REST
  }

  lemma CoverTransfers(pattern: seq<Text>, filter: seq<Text>, topic: seq<Text>)
    requires FilterCovers(pattern, filter) && FilterCovers(filter, topic)
    requires |pattern| > 0 && |filter| > 0
    requires !HashUnderPlus(pattern, filter)
    ensures FilterCovers(pattern, topic)
  {
    var n := if pattern[|pattern| - 1] == WILD_REST then |pattern| - 1 else |pattern|;
    forall i | 0 <= i < n
      ensures i < |topic| && LevelMatches(pattern[i], topic[i])
    {
      assert LevelMatches(pattern[i], filter[i]);
      assert filter[i] != WILD_REST;
    }
  }

  /** The topic whose levels are the filter's own, with everything from the final `#` dropped. */
  lemma TruncatedWitness(pattern: Text, filter: Text)
    requires TopicMatches(pattern, filter)
    requires Selects(Split(filter)) && HashUnderPlus(Split(pattern), Split(filter))
    requires |Split(filter)| > 1
    ensures !Contains(pattern, filter)
  {
    hide FilterCovers, TopicMatches, Split, Join, Selects, HashUnderPlus;
    var f := Split(filter);
    var h := |f| - 1;
    SplitLevels(filter);
    var topic := Join(f[..h]);
    SplitOfJoin(f[..h]);
    TopicMatchesIsCover(filter, topic);
    TopicMatchesIsCover(pattern, topic);
    TopicMatchesIsCover(pattern, filter);
    DroppedHash(Split(pattern), f);
  }

  /** Without its `#` the filter still selects its own levels, but the pattern's `+` then has nothing to stand for. */
  lemma DroppedHash(p: seq<Text>, f: seq<Text>)
    requires FilterCovers(p, f) && Selects(f) && HashUnderPlus(p, f)
    ensures var topic := f[..|f| - 1]; FilterCovers(f, topic) && !FilterCovers(p, topic)
  {
    var h := |f| - 1;
    forall i | 0 <= i < h ensures LevelMatches(f[i], f[..h][i]) {
      assert f[i] != WILD_REST;
    }
  }

  lemma LoneHash(pattern: Text)
    requires TopicMatches(pattern, WILD_REST) && HashUnderPlus(Split(pattern), [WILD_REST])
    ensures Contains(pattern, WILD_REST) <==> Split(pattern) == [WILD_ONE, WILD_REST]
  {
    var p := Split(pattern);
    SplitOfLevel(WILD_REST);
    TopicMatchesIsCover(pattern, WILD_REST);
    if p == [WILD_ONE, WILD_REST] {
      forall topic: Text ensures TopicMatches(pattern, topic) {
        TopicMatchesIsCover(pattern, topic);
      }
    } else {
      assert p == [WILD_ONE];
      var levels: seq<Text> := [[], []];
      var topic := Join(levels);
      SplitOfJoin(levels);
      TopicMatchesIsCover(pattern, topic);
      assert TopicMatches(WILD_REST, topic);
    }
  }

  /** When a pattern accepts a filter, the filter is contained in it exactly when the filter selects nothing,
      or its final `#` does not stand under a `+`, or the two are `+/#` and `#`. */
  lemma GrantContainment(pattern: Text, filter: Text)
    requires TopicMatches(pattern, filter)
    ensures Contains(pattern, filter) <==>
      || !Selects(Split(filter))
      || !HashUnderPlus(Split(pattern), Split(filter))
      || (filter == WILD_REST && Split(pattern) == [WILD_ONE, WILD_REST])
  {
    var p, f := Split(pattern), Split(filter);
    TopicMatchesIsCover(pattern, filter);
    if !Selects(f) || !HashUnderPlus(p, f) {
      forall topic: Text | TopicMatches(filter, topic) ensures TopicMatches(pattern, topic) {
        TopicMatchesIsCover(filter, topic);
        TopicMatchesIsCover(pattern, topic);
        assert Selects(f);
        CoverTransfers(p, f, Split(topic));
      }
    } else if |f| > 1 {
      TruncatedWitness(pattern, filter);
      assert filter != WILD_REST by { if filter == WILD_REST { SplitOfLevel(filter); } }
    } else {
      SingleLevel(filter);
      LoneHash(pattern);
    }
  }

  lemma SingleLevel(s: Text)
    requires |Split(s)| == 1
    ensures Split(s) == [s]
  {
    if s != [] {
      SingleLevel(s[1..]);
      assert [s[0]] + s[1..] == s;
    }
  }

  /** `a/+` accepts the filter `a/#` as the gateway tests it, yet the filter also selects `a`. */
  lemma PlusAcceptsHash()
    ensures TopicMatches([97, SLASH, PLUS], [97, SLASH, HASH])
    ensures !Contains([97, SLASH, PLUS], [97, SLASH, HASH])
  {
    var pattern: Text, filter: Text := [97, SLASH, PLUS], [97, SLASH, HASH];
    SplitOfJoin([[97], WILD_ONE]);
    SplitOfJoin([[97], WILD_REST]);
    assert Join([[97], WILD_ONE]) == pattern && Join([[97], WILD_REST]) == filter;
    TopicMatchesIsCover(pattern, filter);
    GrantContainment(pattern, filter);
  }

  // -- scopes -------------------------------------------------------------

  datatype AccessScope = AccessScope(name: Text, allow: seq<Text>, deny: seq<Text>)

  /** `{device_id}`. */
  const PLACEHOLDER: Text := [123, 100, 101, 118, 105, 99, 101, 95, 105, 100, 125]

  /** `str.replace`: left to right, without overlaps. */
  function Replace(s: Text, id: Text): Text {
    if s == [] then []
    else if PLACEHOLDER <= s then id + Replace(s[|PLACEHOLDER|..], id)
    else [s[0]] + Replace(s[1..], id)
  }

  function ReplaceAll(patterns: seq<Text>, id: Text): (r: seq<Text>)
    ensures |r| == |patterns|
  {
    seq(|patterns|, i requires 0 <= i < |patterns| => Replace(patterns[i], id))
  }

  /** `AccessScope.resolve`. */
  function Resolve(scope: AccessScope, id: Text): AccessScope {
    scope.(allow := ReplaceAll(scope.allow, id), deny := ReplaceAll(scope.deny, id))
  }

  /** The device ids the registry accepts: nonempty, over letters, digits, '-', '_' and '.'. */
  predicate RegistryCharset(id: Text) {
    id != [] && forall b | b in id ::
      97 <= b <= 122 || 65 <= b <= 90 || 48 <= b <= 57 || b == 45 || b == 95 || b == 46
  }

  predicate AnyMatches(patterns: seq<Text>, topic: Text) {
    exists i | 0 <= i < |patterns| :: TopicMatches(patterns[i], topic)
  }

  /** Deny wins, the default is deny. */
  predicate ScopePermits(scope: AccessScope, topic: Text) {
    !AnyMatches(scope.deny, topic) && AnyMatches(scope.allow, topic)
  }

  lemma ReplaceStep(s: Text, id: Text)
    requires s != []
    ensures PLACEHOLDER <= s ==> Replace(s, id) == id + Replace(s[|PLACEHOLDER|..], id)
    ensures !(PLACEHOLDER <= s) ==> Replace(s, id) == [s[0]] + Replace(s[1..], id)
  {}

  ghost predicate PlaceholderAt(s: Text, i: nat)
    requires i <= |s|
  {
    PLACEHOLDER <= s[i..]
  }

  lemma PlaceholderInRest(s: Text, i: nat)
    requires i < |s|
    ensures PlaceholderAt(s[1..], i) == PlaceholderAt(s, i + 1) && PlaceholderAt(s, 0) == (PLACEHOLDER <= s)
    ensures s[1..][i..] == s[i + 1..] && s[0..] == s
  {}

  /** The leftmost placeholder goes first, and the scan goes on behind it, not in what it put there. */
  lemma {:induction false} ReplaceLeftmost(s: Text, n: nat, id: Text)
    requires n + |PLACEHOLDER| <= |s| && PlaceholderAt(s, n) && forall i | 0 <= i < n :: !PlaceholderAt(s, i)
    ensures Replace(s, id) == s[..n] + id + Replace(s[n + |PLACEHOLDER|..], id)
  {
    hide Replace, PlaceholderAt;
    ReplaceStep(s, id);
    PlaceholderInRest(s, 0);
    if n > 0 {
      forall i | 0 <= i < n ensures PlaceholderAt(s[1..], i) == PlaceholderAt(s, i + 1) {
        PlaceholderInRest(s, i);
      }
      ReplaceLeftmost(s[1..], n - 1, id);
      Regroup(s, n, id, Replace(s[n + |PLACEHOLDER|..], id));
    }
  }

  lemma Regroup(s: Text, n: nat, id: Text, rest: Text)
    requires 0 < n && n + |PLACEHOLDER| <= |s|
    ensures [s[0]] + (s[1..][..n - 1] + id + rest) == s[..n] + id + rest
    ensures s[1..][n - 1 + |PLACEHOLDER|..] == s[n + |PLACEHOLDER|..]
  {}

  /** Without a placeholder nothing changes. */
  lemma {:induction false} ReplaceNothing(s: Text, id: Text)
    requires forall i | 0 <= i < |s| :: !PlaceholderAt(s, i)
    ensures Replace(s, id) == s
  {
    hide PlaceholderAt;
    if s != [] {
      ReplaceStep(s, id);
      PlaceholderInRest(s, 0);
      forall i | 0 <= i < |s| - 1 ensures !PlaceholderAt(s[1..], i) {
        PlaceholderInRest(s, i);
      }
      ReplaceNothing(s[1..], id);
    }
  }

  /** A slash ends every occurrence of the placeholder, so replacing distributes over it. */
  lemma {:induction false} ReplaceAcrossSlash(a: Text, s: Text, id: Text)
    requires NoSlash(a)
    ensures Replace(a + [SLASH] + s, id) == Replace(a, id) + [SLASH] + Replace(s, id)
    decreases |a|
  {
    var t := a + [SLASH] + s;
    if a == [] {
      assert !(PLACEHOLDER <= t) by { assert t[0] == SLASH; }
      assert t[1..] == s;
    } else if PLACEHOLDER <= t {
      PlaceholderInLevel(a, s);
      var b := a[|PLACEHOLDER|..];
      assert t[|PLACEHOLDER|..] == b + [SLASH] + s;
      ReplaceAcrossSlash(b, s, id);
      assert id + (Replace(b, id) + [SLASH] + Replace(s, id)) == id + Replace(b, id) + [SLASH] + Replace(s, id);
    } else {
      PrefixExtends(a, [SLASH] + s);
      assert a + ([SLASH] + s) == t;
      assert t[1..] == a[1..] + [SLASH] + s;
      ReplaceAcrossSlash(a[1..], s, id);
      assert [a[0]] + (Replace(a[1..], id) + [SLASH] + Replace(s, id))
        == [a[0]] + Replace(a[1..], id) + [SLASH] + Replace(s, id);
    }
  }

  lemma PrefixExtends(a: Text, s: Text)
    ensures PLACEHOLDER <= a ==> PLACEHOLDER <= a + s
  {}

  lemma PlaceholderInLevel(a: Text, s: Text)
    requires NoSlash(a) && PLACEHOLDER <= a + [SLASH] + s
    ensures PLACEHOLDER <= a
  {
    var t, n := a + [SLASH] + s, |PLACEHOLDER|;
    assert forall i | 0 <= i < n :: t[i] == PLACEHOLDER[i];
    assert |a| >= n by {
      assert t[|a|] == SLASH;
      assert forall i | 0 <= i < n :: PLACEHOLDER[i] != SLASH;
    }
    assert forall i | 0 <= i < n :: a[i] == t[i];
  }

  lemma {:induction false} ReplaceKeepsLevel(a: Text, id: Text)
    requires NoSlash(a) && NoSlash(id)
    ensures NoSlash(Replace(a, id))
    decreases |a|
  {
    if a != [] {
      if PLACEHOLDER <= a {
        ReplaceKeepsLevel(a[|PLACEHOLDER|..], id);
      } else {
        assert a[0] in a;
        ReplaceKeepsLevel(a[1..], id);
      }
    }
  }

  lemma {:induction false} FirstLevel(s: Text) returns (a: Text, rest: Text)
    requires |Split(s)| > 1
    ensures NoSlash(a) && s == a + [SLASH] + rest && Split(s) == [a] + Split(rest) && |rest| < |s|
  {
    if s[0] == SLASH {
      a, rest := [], s[1..];
      assert s == [] + [SLASH] + rest;
    } else {
      var b;
      b, rest := FirstLevel(s[1..]);
      a := [s[0]] + b;
      assert s == [s[0]] + s[1..];
    }
  }

  /** Splitting a resolved pattern is resolving each level of the split pattern. */
  lemma {:induction false} SplitOfReplace(s: Text, id: Text)
    requires NoSlash(id)
    ensures Split(Replace(s, id)) == ReplaceAll(Split(s), id)
    decreases |s|
  {
    hide Split, Replace;
    if |Split(s)| == 1 {
      LoneLevel(s, id);
    } else {
      var a, rest := FirstLevel(s);
      ReplaceAcrossSlash(a, rest, id);
      ReplaceKeepsLevel(a, id);
      SplitAfterLevel(Replace(a, id), Replace(rest, id));
      SplitOfReplace(rest, id);
      assert ReplaceAll([a] + Split(rest), id) == [Replace(a, id)] + ReplaceAll(Split(rest), id);
    }
  }

  lemma LoneLevel(s: Text, id: Text)
    requires NoSlash(id) && |Split(s)| == 1
    ensures Split(Replace(s, id)) == ReplaceAll(Split(s), id)
  {
    hide Split, Replace;
    SplitLevels(s);
    SingleLevel(s);
    assert NoSlash(Split(s)[0]);
    ReplaceKeepsLevel(s, id);
    SplitOfLevel(Replace(s, id));
  }

  lemma ReplacePlaceholder(id: Text)
    ensures Replace(PLACEHOLDER, id) == id
  {
    assert PLACEHOLDER[|PLACEHOLDER|..] == [];
    ReplaceStep(PLACEHOLDER, id);
    assert id + [] == id;
  }

  lemma ConcreteLevel(p: seq<Text>, t: seq<Text>, k: nat)
    requires FilterCovers(p, t) && k < |p| && p[k] != WILD_ONE && p[k] != WILD_REST
    ensures k < |t| && t[k] == p[k]
  {
    assert k < |t| && LevelMatches(p[k], t[k]);
  }

  predicate IsPlain(c: char) {
    'a' <= c <= 'z' || 'A' <= c <= 'Z' || '0' <= c <= '9' || c == '-' || c == '_' || c == '.'
  }

  /** In characters. */
  lemma CharsetIs(id: Text)
    ensures RegistryCharset(id) <==> id != [] && forall i | 0 <= i < |id| :: IsPlain(id[i] as char)
  {
    if id != [] && forall i | 0 <= i < |id| :: IsPlain(id[i] as char) {
      forall b | b in id
        ensures 97 <= b <= 122 || 65 <= b <= 90 || 48 <= b <= 57 || b == 45 || b == 95 || b == 46
      {
        var i :| 0 <= i < |id| && id[i] == b;
        assert IsPlain(id[i] as char);
      }
    } else {
      assert forall i | 0 <= i < |id| :: id[i] in id;
    }
  }

  lemma IdIsConcrete(id: Text)
    requires RegistryCharset(id)
    ensures NoSlash(id) && id != WILD_ONE && id != WILD_REST
  {
    assert id[0] in id;
  }

  /** The level that a resolved pattern demands of every topic it matches. */
  lemma ResolvedLevelIsId(pattern: Text, id: Text, k: nat, topic: Text)
    requires k < |Split(pattern)| && Split(pattern)[k] == PLACEHOLDER
    requires RegistryCharset(id)
    requires TopicMatches(Replace(pattern, id), topic)
    ensures k < |Split(topic)| && Split(topic)[k] == id
  {
    IdIsConcrete(id);
    TopicMatchesIsCover(Replace(pattern, id), topic);
    var p := Split(Replace(pattern, id));
    assert k < |p| && p[k] == id by {
      SplitOfReplace(pattern, id);
      ReplacePlaceholder(id);
    }
    ConcreteLevel(p, Split(topic), k);
  }

  /** Two devices' resolved patterns never match the same topic when both name the device at the same level. */
  lemma DevicesAreDisjoint(p1: Text, p2: Text, id1: Text, id2: Text, k: nat, topic: Text)
    requires k < |Split(p1)| && Split(p1)[k] == PLACEHOLDER
    requires k < |Split(p2)| && Split(p2)[k] == PLACEHOLDER
    requires RegistryCharset(id1) && RegistryCharset(id2) && id1 != id2
    ensures !(TopicMatches(Replace(p1, id1), topic) && TopicMatches(Replace(p2, id2), topic))
  {
    if TopicMatches(Replace(p1, id1), topic) && TopicMatches(Replace(p2, id2), topic) {
      ResolvedLevelIsId(p1, id1, k, topic);
      ResolvedLevelIsId(p2, id2, k, topic);
    }
  }

  /** Every allow pattern of the scope names the device at level k. */
  ghost predicate NamesDeviceAt(scope: AccessScope, k: nat) {
    forall i | 0 <= i < |scope.allow| :: k < |Split(scope.allow[i])| && Split(scope.allow[i])[k] == PLACEHOLDER
  }

  /** Whatever such a scope permits, topic or filter, has the device's id at level k. */
  lemma PermittedLevelIsId(scope: AccessScope, id: Text, k: nat, topic: Text)
    requires NamesDeviceAt(scope, k) && RegistryCharset(id) && ScopePermits(Resolve(scope, id), topic)
    ensures k < |Split(topic)| && Split(topic)[k] == id
  {
    var i :| 0 <= i < |scope.allow| && TopicMatches(Resolve(scope, id).allow[i], topic);
    ResolvedLevelIsId(scope.allow[i], id, k, topic);
  }

  /** Hence no topic is permitted to two devices by scopes whose allow patterns all name the device at level k. */
  lemma ScopesIsolateDevices(s1: AccessScope, s2: AccessScope, id1: Text, id2: Text, k: nat, topic: Text)
    requires NamesDeviceAt(s1, k) && NamesDeviceAt(s2, k)
    requires RegistryCharset(id1) && RegistryCharset(id2) && id1 != id2
    ensures !(ScopePermits(Resolve(s1, id1), topic) && ScopePermits(Resolve(s2, id2), topic))
  {
    if ScopePermits(Resolve(s1, id1), topic) && ScopePermits(Resolve(s2, id2), topic) {
      PermittedLevelIsId(s1, id1, k, topic);
      PermittedLevelIsId(s2, id2, k, topic);
    }
  }

  /** A filter with the device's id at level k selects only topics that have it there too. */
  lemma FilterKeepsLevel(filter: Text, id: Text, k: nat, topic: Text)
    requires RegistryCharset(id) && k < |Split(filter)| && Split(filter)[k] == id && TopicMatches(filter, topic)
    ensures k < |Split(topic)| && Split(topic)[k] == id
  {
    IdIsConcrete(id);
    TopicMatchesIsCover(filter, topic);
    ConcreteLevel(Split(filter), Split(topic), k);
  }

  /** Topics and filters with different devices' ids at one level have nothing in common. */
  lemma LevelsApart(a: Text, id1: Text, b: Text, id2: Text, k: nat)
    requires RegistryCharset(id1) && RegistryCharset(id2) && id1 != id2
    requires k < |Split(a)| && Split(a)[k] == id1 && k < |Split(b)| && Split(b)[k] == id2
    ensures a != b && !TopicMatches(a, b)
    ensures forall topic: Text :: !(TopicMatches(a, topic) && TopicMatches(b, topic))
  {
    hide TopicMatches, Split, RegistryCharset;
    forall topic: Text | TopicMatches(a, topic) ensures k < |Split(topic)| && Split(topic)[k] == id1 {
      FilterKeepsLevel(a, id1, k, topic);
    }
    forall topic: Text | TopicMatches(b, topic) ensures k < |Split(topic)| && Split(topic)[k] == id2 {
      FilterKeepsLevel(b, id2, k, topic);
    }
  }

  /** Every allow pattern names the device at level k, or is one of those shared by all devices. */
  ghost predicate NamesOrShares(scope: AccessScope, k: nat, shared: seq<Text>) {
    forall i | 0 <= i < |scope.allow| ::
      || (k < |Split(scope.allow[i])| && Split(scope.allow[i])[k] == PLACEHOLDER)
      || scope.allow[i] in shared
  }

  /** Some shared pattern accepts the topic. */
  ghost predicate InCommon(shared: seq<Text>, id: Text, topic: Text) {
    AnyMatches(ReplaceAll(shared, id), topic)
  }

  /** Whatever such a scope permits has the device's id at level k, unless a shared pattern accepts it. */
  lemma PermittedLevelOrShared(scope: AccessScope, id: Text, k: nat, shared: seq<Text>, topic: Text)
    requires NamesOrShares(scope, k, shared) && RegistryCharset(id) && ScopePermits(Resolve(scope, id), topic)
    ensures InCommon(shared, id, topic) || (k < |Split(topic)| && Split(topic)[k] == id)
  {
    hide TopicMatches, Replace, Split, RegistryCharset;
    var i :| 0 <= i < |scope.allow| && TopicMatches(Resolve(scope, id).allow[i], topic);
    if scope.allow[i] in shared {
      var j :| 0 <= j < |shared| && shared[j] == scope.allow[i];
      assert TopicMatches(ReplaceAll(shared, id)[j], topic);
    } else {
      ResolvedLevelIsId(scope.allow[i], id, k, topic);
    }
  }

  /** And isolation survives every granted filter, although a filter may reach beyond the pattern that granted it: no
      topic that a filter permitted to one device selects is permitted to another, or selected by a filter that is. */
  lemma FiltersIsolateDevices(s1: AccessScope, s2: AccessScope, id1: Text, id2: Text, k: nat, filter: Text, topic: Text)
    requires NamesDeviceAt(s1, k) && NamesDeviceAt(s2, k)
    requires RegistryCharset(id1) && RegistryCharset(id2) && id1 != id2
    requires ScopePermits(Resolve(s1, id1), filter) && TopicMatches(filter, topic)
    ensures k < |Split(topic)| && Split(topic)[k] == id1
    ensures !ScopePermits(Resolve(s2, id2), topic)
    ensures forall other: Text | ScopePermits(Resolve(s2, id2), other) :: !TopicMatches(other, topic)
  {
    hide ScopePermits, TopicMatches, Resolve, Split, NamesDeviceAt;
    PermittedLevelIsId(s1, id1, k, filter);
    FilterKeepsLevel(filter, id1, k, topic);
    if ScopePermits(Resolve(s2, id2), topic) {
      PermittedLevelIsId(s2, id2, k, topic);
    }
    forall other: Text | ScopePermits(Resolve(s2, id2), other) ensures !TopicMatches(other, topic) {
      PermittedLevelIsId(s2, id2, k, other);
      if TopicMatches(other, topic) {
        FilterKeepsLevel(other, id2, k, topic);
      }
    }
  }
}
