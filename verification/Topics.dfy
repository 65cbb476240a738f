/**
 Topic matching and filter containment (internal/acl/effective.go).

 `Matches` states section 4.7.1 of MQTT Version 3.1.1 level by level; `Covers` is the level-wise
 containment test. The main theorem says exactly when that test agrees with containment of the
 two sets of topics.
 */
module Topics {
  import opened Strings
  import opened Rules

  // ---------------------------------------------------------------- matching

  predicate LevelMatches(filterLevel: string, topicLevel: string) {
    filterLevel != "#" && (filterLevel == "+" || filterLevel == topicLevel)
  }

  predicate LevelsMatch(filter: seq<string>, topic: seq<string>)
    requires |filter| >= 1
  {
    var n := |filter| - 1;
    if filter[n] == "#" then
      n <= |topic| && forall i :: 0 <= i < n ==> LevelMatches(filter[i], topic[i])
    else
      |filter| == |topic| && forall i :: 0 <= i < |filter| ==> LevelMatches(filter[i], topic[i])
  }

  predicate Matches(filter: string, topic: string) {
    filter != "" && topic != "" && LevelsMatch(Split(filter, '/'), Split(topic, '/'))
  }

  /* `#` is the last level, if it is one at all. */
  predicate Matchable(filter: string) {
    var levels := Split(filter, '/');
    filter != "" && forall i :: 0 <= i < |levels| - 1 ==> levels[i] != "#"
  }

  /* Such filters, and no others, match some topic. */
  lemma MatchableExactly(filter: string)
    ensures Matchable(filter) <==> exists topic :: Matches(filter, topic)
    ensures Matchable(filter) ==> Matches(filter, filter)
  {
    hide Split;
    var levels := Split(filter, '/');
    if topic :| Matches(filter, topic) {
      var t := Split(topic, '/');
      forall i | 0 <= i < |levels| - 1 ensures levels[i] != "#" {
        assert LevelMatches(levels[i], t[i]);
      }
    }
    if Matchable(filter) {
      forall i | 0 <= i < |levels| && levels[i] != "#" ensures LevelMatches(levels[i], levels[i]) {}
      assert Matches(filter, filter);
    }
  }

  method TopicMatchesFilter(filter: string, topic: string) returns (matched: bool)
    ensures matched == Matches(filter, topic)
  {
    if filter == "" || topic == "" {
      return false;
    }
    var filterLevels := Split(filter, '/');
    var topicLevels := Split(topic, '/');
    var idx := 0;
    while idx < |filterLevels|
      invariant 0 <= idx <= |filterLevels| && idx <= |topicLevels|
      invariant forall i :: 0 <= i < idx ==> LevelMatches(filterLevels[i], topicLevels[i])
    {
      var level := filterLevels[idx];
      if level == "#" {
        return idx == |filterLevels| - 1;
      }
      if idx >= |topicLevels| {
        return false;
      }
      if level != "+" && level != topicLevels[idx] {
        return false;
      }
      idx := idx + 1;
    }
    return idx == |topicLevels|;
  }

  // ---------------------------------------------------------------- laws of matching

  lemma {:induction false} LevelsWithout(s: string, c: char)
    requires c !in s
    ensures Free(Split(s, '/'), c)
  {
    if s != "" {
      LevelsWithout(s[1..], c);
    }
  }

  lemma SameLevels(a: string, b: string)
    requires Split(a, '/') == Split(b, '/')
    ensures a == b
  {
    JoinSplit(a, '/');
    JoinSplit(b, '/');
  }

  lemma NoWildcards(filter: string)
    requires '+' !in filter && '#' !in filter
    ensures forall i :: 0 <= i < |Split(filter, '/')| ==> Split(filter, '/')[i] != "+" && Split(filter, '/')[i] != "#"
  {
    hide Split;
    LevelsWithout(filter, '+');
    LevelsWithout(filter, '#');
    assert '+' in "+" && '#' in "#";
  }

  /* A filter without wildcards matches the topic of that name and no other. */
  lemma PlainMatches(filter: string, topic: string)
    requires '+' !in filter && '#' !in filter
    ensures Matches(filter, topic) <==> filter != "" && topic == filter
  {
    hide Split;
    NoWildcards(filter);
    if Matches(filter, topic) {
      assert Split(filter, '/') == Split(topic, '/');
      SameLevels(filter, topic);
    }
  }

  lemma EverythingMatches(topic: string)
    ensures Matches("#", topic) <==> topic != ""
  {
    SplitWhole("#", '/');
  }

  /* `#` below a prefix matches the prefix itself and everything below it. */
  lemma SubtreeMatches(prefix: string, topic: string)
    requires '+' !in prefix && '#' !in prefix
    ensures Matches(prefix + "/#", topic) <==> topic != "" && (topic == prefix || HasPrefix(topic, prefix + "/"))
  {
    hide Split;
    NoWildcards(prefix);
    var filter, p, t := prefix + "/#", Split(prefix, '/'), Split(topic, '/');
    assert filter == prefix + ['/'] + "#";
    SplitConcat(prefix, "#", '/');
    SplitWhole("#", '/');
    assert Split(filter, '/') == p + ["#"];
    if Matches(filter, topic) {
      Below(prefix, topic);
    }
    if HasPrefix(topic, prefix + "/") {
      SplitBelow(prefix, topic);
    }
  }

  /* `+` below a prefix matches what is exactly one level below it. */
  lemma ChildMatches(prefix: string, topic: string)
    requires '+' !in prefix && '#' !in prefix
    ensures Matches(prefix + "/+", topic) <==>
              HasPrefix(topic, prefix + "/") && '/' !in topic[|prefix| + 1..]
  {
    hide Split;
    NoWildcards(prefix);
    var filter, p, t := prefix + "/+", Split(prefix, '/'), Split(topic, '/');
    assert filter == prefix + ['/'] + "+";
    SplitConcat(prefix, "+", '/');
    SplitWhole("+", '/');
    assert Split(filter, '/') == p + ["+"];
    if Matches(filter, topic) {
      Below(prefix, topic);
      SplitBelow(prefix, topic);
      SplitFree(topic[|prefix| + 1..], '/');
      assert t[|p|..] == [Split(topic[|prefix| + 1..], '/')[0]];
      JoinSplit(topic[|prefix| + 1..], '/');
    }
    if HasPrefix(topic, prefix + "/") && '/' !in topic[|prefix| + 1..] {
      SplitBelow(prefix, topic);
      SplitWhole(topic[|prefix| + 1..], '/');
    }
  }

  lemma SplitBelow(prefix: string, topic: string)
    requires HasPrefix(topic, prefix + "/")
    ensures Split(topic, '/') == Split(prefix, '/') + Split(topic[|prefix| + 1..], '/')
  {
    assert topic == prefix + ['/'] + topic[|prefix| + 1..];
    SplitConcat(prefix, topic[|prefix| + 1..], '/');
  }

  /* A topic whose levels start with those of a prefix is the prefix or lies below it. */
  lemma Below(prefix: string, topic: string)
    requires Split(prefix, '/') <= Split(topic, '/')
    ensures topic == prefix || HasPrefix(topic, prefix + "/")
    ensures |Split(topic, '/')| > |Split(prefix, '/')| ==> HasPrefix(topic, prefix + "/")
  {
    hide Split;
    var p, t := Split(prefix, '/'), Split(topic, '/');
    if |t| == |p| {
      SameLevels(prefix, topic);
    } else {
      var rest := t[|p|..];
      SplitFree(topic, '/');
      SplitJoin(rest, '/');
      SplitConcat(prefix, Join(rest, "/"), '/');
      SameLevels(topic, prefix + ['/'] + Join(rest, "/"));
    }
  }

  // ---------------------------------------------------------------- containment

  predicate LevelCovers(denyLevel: string, grantLevel: string) {
    if denyLevel == "+" then grantLevel != "#"
    else grantLevel != "#" && denyLevel == grantLevel
  }

  predicate LevelsCover(deny: seq<string>, grant: seq<string>)
    requires |deny| >= 1
  {
    var n := |deny| - 1;
    if deny[n] == "#" then
      n <= |grant| && forall i :: 0 <= i < n ==> LevelCovers(deny[i], grant[i])
    else
      |deny| == |grant| && forall i :: 0 <= i < |deny| ==> LevelCovers(deny[i], grant[i])
  }

  predicate Covers(deny: string, grant: string) {
    deny != "" && grant != "" && LevelsCover(Split(deny, '/'), Split(grant, '/'))
  }

  method FilterCovers(denyFilter: string, grantFilter: string) returns (covers: bool)
    ensures covers == Covers(denyFilter, grantFilter)
  {
    if denyFilter == "" || grantFilter == "" {
      return false;
    }
    var denyLevels := Split(denyFilter, '/');
    var grantLevels := Split(grantFilter, '/');
    if denyLevels[|denyLevels| - 1] == "#" {
      var prefix := denyLevels[..|denyLevels| - 1];
      if |grantLevels| < |prefix| {
        return false;
      }
      for idx := 0 to |prefix|
        invariant forall i :: 0 <= i < idx ==> LevelCovers(denyLevels[i], grantLevels[i])
      {
        if !LevelCovers(prefix[idx], grantLevels[idx]) {
          return false;
        }
      }
      return true;
    }
    if |denyLevels| != |grantLevels| {
      return false;
    }
    for idx := 0 to |denyLevels|
      invariant forall i :: 0 <= i < idx ==> LevelCovers(denyLevels[i], grantLevels[i])
    {
      if !LevelCovers(denyLevels[idx], grantLevels[idx]) {
        return false;
      }
    }
    return true;
  }

  /* Containment is sound for every pair of strings, well-formed filters or not. */
  lemma CoversSound(deny: string, grant: string, topic: string)
    requires Covers(deny, grant) && Matches(grant, topic)
    ensures Matches(deny, topic)
  {
    var d, g, t := Split(deny, '/'), Split(grant, '/'), Split(topic, '/');
    var n := if d[|d| - 1] == "#" then |d| - 1 else |d|;
    forall i | 0 <= i < n
      ensures i < |t| && LevelMatches(d[i], t[i])
    {
      assert LevelCovers(d[i], g[i]);
      assert LevelMatches(g[i], t[i]);
    }
  }

  // ---------------------------------------------------------------- completeness

  /* The three pairs where the test says no although every topic of the grant matches the deny:
     the one topic that would tell them apart is the empty one, which never matches. */
  predicate EmptyTopicGap(deny: string, grant: string) {
    || (grant == "#" && deny == "+/#")
    || (grant == "/#" && (deny == "/+/#" || deny == "+/+/#"))
  }

  /* A level longer than every given one. */
  function FreshLevel(levels: seq<string>): (w: string)
    ensures w != "" && forall i :: 0 <= i < |w| ==> w[i] == 'x'
    ensures forall i :: 0 <= i < |levels| ==> |levels[i]| < |w|
  {
    if levels == [] then "x"
    else
      var w := FreshLevel(levels[1..]);
      var r := seq(|w| + |levels[0]|, _ => 'x');
      assert forall i :: 0 <= i < |levels| ==> levels[i] == (if i == 0 then levels[0] else levels[1..][i - 1]);
      r
  }

  /* The levels of a filter with every single-level wildcard made concrete. */
  function Concrete(levels: seq<string>, w: string): (r: seq<string>)
    ensures |r| == |levels|
  {
    seq(|levels|, i requires 0 <= i < |levels| => if levels[i] == "+" then w else levels[i])
  }

  predicate PlainLevels(levels: seq<string>) {
    forall i :: 0 <= i < |levels| ==> levels[i] != "#"
  }

  /* The concrete levels of a grant match a deny only where the deny covers the grant. */
  lemma ConcreteMatch(deny: seq<string>, grant: seq<string>, extra: seq<string>, w: string)
    requires |deny| >= 1 && PlainLevels(grant)
    requires forall i :: 0 <= i < |deny| ==> |deny[i]| < |w|
    requires |w| > 1
    requires LevelsMatch(deny, Concrete(grant, w) + extra)
    ensures forall i :: 0 <= i < |deny| && i < |grant| && deny[i] != "#" ==> LevelCovers(deny[i], grant[i])
  {
    var t := Concrete(grant, w) + extra;
    forall i | 0 <= i < |deny| && i < |grant| && deny[i] != "#"
      ensures LevelCovers(deny[i], grant[i])
    {
      assert t[i] == if grant[i] == "+" then w else grant[i];
      assert LevelMatches(deny[i], t[i]);
    }
  }

  lemma ValidLevels(filter: string)
    requires ValidTopicFilter(filter)
    ensures var f := Split(filter, '/');
            && Free(f, '/') && f != [""] && PlainLevels(f[..|f| - 1])
            && Join(f, "/") == filter
  {
    SplitFree(filter, '/');
    SplitEmpty(filter, '/');
    JoinSplit(filter, '/');
    var f := Split(filter, '/');
    var prefix := f[..|f| - 1];
    forall i | 0 <= i < |prefix| ensures prefix[i] != "#" {
      assert '#' !in f[i];
    }
  }

  lemma TopicOfLevels(levels: seq<string>) returns (topic: string)
    requires |levels| >= 1 && Free(levels, '/') && levels != [""]
    ensures topic == Join(levels, "/") && topic != "" && Split(topic, '/') == levels
  {
    topic := Join(levels, "/");
    SplitJoin(levels, '/');
    SplitEmpty(topic, '/');
  }

  /* The topic levels that tell an uncovered grant from the deny. */
  function Separating(d: seq<string>, g: seq<string>): seq<string>
    requires |d| >= 1 && |g| >= 1
  {
    var w := FreshLevel(d + ["x"]);
    var m := |g| - 1;
    if g[m] != "#" then Concrete(g, w)
    else
      var p := Concrete(g[..m], w);
      if d[|d| - 1] != "#" then p + seq(|d| + 1, _ => w)
      else if |d| - 1 <= m then p + [w]
      else if m == 0 || (m == 1 && g[0] == "") then p + [w]
      else p
  }

  lemma SeparatingShape(d: seq<string>, g: seq<string>)
    requires |d| >= 1 && |g| >= 1 && Free(g, '/') && PlainLevels(g[..|g| - 1]) && g != [""]
    ensures var t := Separating(d, g); |t| >= 1 && Free(t, '/') && t != [""] && LevelsMatch(g, t)
  {
    var w := FreshLevel(d + ["x"]);
    var t := Separating(d, g);
    var m := |g| - 1;
    assert '/' !in w;
    forall i | 0 <= i < |t| ensures '/' !in t[i] && (i < m ==> LevelMatches(g[i], t[i])) {
      assert t[i] == w || (i < |g| && t[i] == g[i]);
      if i < m {
        assert g[..m][i] != "#";
      }
    }
    assert t != [""] by {
      if |t| == 1 { assert t[0] == w || t[0] == g[0]; }
    }
  }

  lemma SeparatingPlain(d: seq<string>, g: seq<string>, c: char)
    requires |d| >= 1 && |g| >= 1 && c != 'x'
    requires forall i :: 0 <= i < |g| && c in g[i] ==> g[i] == "+" || (g[i] == "#" && i == |g| - 1)
    ensures Free(Separating(d, g), c)
  {
    var t := Separating(d, g);
    var w := FreshLevel(d + ["x"]);
    forall i | 0 <= i < |t| ensures c !in t[i] {
      assert t[i] == w || (i < |g| && t[i] == g[i] && g[i] != "+" && (i == |g| - 1 ==> g[i] != "#"));
    }
  }

  /* Where the test says no, and the pair is not one of the three gaps, some topic of the
     grant escapes the deny: a topic name, free of wildcard characters. */
  lemma NotCoveredWitness(deny: string, grant: string) returns (topic: string)
    requires ValidTopicFilter(deny) && ValidTopicFilter(grant)
    requires !Covers(deny, grant) && !EmptyTopicGap(deny, grant)
    ensures Matches(grant, topic) && !Matches(deny, topic)
    ensures '+' !in topic && '#' !in topic
  {
    hide Separating, LevelsMatch, LevelsCover, EmptyTopicGap, Join, PlainLevels;
    ValidLevels(deny);
    ValidLevels(grant);
    var d, g := Split(deny, '/'), Split(grant, '/');
    SeparatingShape(d, g);
    var t := Separating(d, g);
    topic := TopicOfLevels(t);
    forall c | c == '+' || c == '#' ensures c !in topic {
      SeparatingPlain(d, g, c);
      JoinCharacters(t, "/", c);
    }
    if LevelsMatch(d, t) {
      SeparatingEscapes(d, g);
      assert false;
    }
  }

  /* Matching the separating topic forces the deny to cover the grant, the gaps apart. */
  lemma SeparatingEscapes(d: seq<string>, g: seq<string>)
    requires |d| >= 1 && |g| >= 1
    requires PlainLevels(d[..|d| - 1]) && PlainLevels(g[..|g| - 1])
    requires LevelsMatch(d, Separating(d, g))
    ensures LevelsCover(d, g) || EmptyTopicGap(Join(d, "/"), Join(g, "/"))
  {
    hide FreshLevel, LevelsMatch, LevelsCover, EmptyTopicGap, Join, PlainLevels, LevelCovers;
    FreshIsLonger(d);
    var n, m := |d| - 1, |g| - 1;
    if g[m] != "#" {
      PlainGrantCovered(d, g);
    } else if d[n] != "#" {
      LongTailEscapes(d, g);
    } else if n <= m {
      TailCovered(d, g);
    } else {
      PlainPrefix(d);
      GapShapes(d, g, FreshLevel(d + ["x"]));
    }
  }

  lemma FreshIsLonger(d: seq<string>)
    ensures var w := FreshLevel(d + ["x"]); |w| > 1 && forall i :: 0 <= i < |d| ==> |d[i]| < |w|
  {
    var all := d + ["x"];
    assert all[|d|] == "x";
    forall i | 0 <= i < |d| ensures |d[i]| < |FreshLevel(all)| { assert all[i] == d[i]; }
  }

  lemma PlainGrantCovered(d: seq<string>, g: seq<string>)
    requires |d| >= 1 && |g| >= 1 && g[|g| - 1] != "#"
    requires PlainLevels(d[..|d| - 1]) && PlainLevels(g[..|g| - 1])
    requires LevelsMatch(d, Separating(d, g))
    ensures LevelsCover(d, g)
  {
    hide FreshLevel, LevelCovers, Concrete;
    var w := FreshLevel(d + ["x"]);
    FreshIsLonger(d);
    assert PlainLevels(g) by {
      forall i | 0 <= i < |g| ensures g[i] != "#" { assert i < |g| - 1 ==> g[..|g| - 1][i] == g[i]; }
    }
    assert Separating(d, g) == Concrete(g, w) + [];
    ConcreteMatch(d, g, [], w);
    PlainPrefix(d);
  }

  lemma LongTailEscapes(d: seq<string>, g: seq<string>)
    requires |d| >= 1 && |g| >= 1 && g[|g| - 1] == "#" && d[|d| - 1] != "#"
    ensures !LevelsMatch(d, Separating(d, g))
  {
    hide FreshLevel, LevelMatches, Concrete;
  }

  lemma TailCovered(d: seq<string>, g: seq<string>)
    requires 1 <= |d| <= |g| && g[|g| - 1] == "#" && d[|d| - 1] == "#"
    requires PlainLevels(d[..|d| - 1]) && PlainLevels(g[..|g| - 1])
    requires LevelsMatch(d, Separating(d, g))
    ensures LevelsCover(d, g)
  {
    hide FreshLevel, LevelCovers, Concrete;
    var w, m := FreshLevel(d + ["x"]), |g| - 1;
    FreshIsLonger(d);
    ConcreteMatch(d, g[..m], [w], w);
    PlainPrefix(d);
    forall i | 0 <= i < |d| - 1 ensures LevelCovers(d[i], g[i]) { assert g[..m][i] == g[i]; }
  }

  lemma PlainPrefix(d: seq<string>)
    requires |d| >= 1 && PlainLevels(d[..|d| - 1])
    ensures forall i :: 0 <= i < |d| - 1 ==> d[i] != "#"
  {
    forall i | 0 <= i < |d| - 1 ensures d[i] != "#" { assert d[..|d| - 1][i] == d[i]; }
  }

  lemma GapShapes(d: seq<string>, g: seq<string>, w: string)
    requires |d| >= 1 && |g| >= 1 && |g| < |d|
    requires d[|d| - 1] == "#" && g[|g| - 1] == "#"
    requires w == FreshLevel(d + ["x"])
    requires forall i :: 0 <= i < |d| ==> |d[i]| < |w|
    requires PlainLevels(d[..|d| - 1])
    requires LevelsMatch(d, Separating(d, g))
    ensures EmptyTopicGap(Join(d, "/"), Join(g, "/"))
  {
    var t := Separating(d, g);
    var m, k := |g| - 1, |d| - 1;
    if m == 0 {
      assert t == [w] && k == 1;
      assert LevelMatches(d[0], t[0]);
      assert d == ["+", "#"] && g == ["#"];
      assert Join(d, "/") == "+" + "/" + Join(["#"], "/");
    } else {
      assert m == 1 && g[0] == "" && k == 2;
      assert LevelMatches(d[0], t[0]) && LevelMatches(d[1], t[1]);
      assert t[0] == "" && t[1] == w;
      assert g == ["", "#"] && d == [d[0], "+", "#"];
      assert Join(g, "/") == "" + "/" + Join(["#"], "/");
      assert d[1..] == ["+", "#"];
      assert Join(d[1..], "/") == "+" + "/" + Join(["#"], "/");
    }
  }

  lemma GapLevels()
    ensures Split("#", '/') == ["#"]
    ensures Split("+/#", '/') == ["+", "#"]
    ensures Split("/#", '/') == ["", "#"]
    ensures Split("/+/#", '/') == ["", "+", "#"]
    ensures Split("+/+/#", '/') == ["+", "+", "#"]
  {
    SplitWhole("#", '/');
    SplitWhole("+", '/');
    SplitConcat("+", "#", '/');
    assert "+" + ['/'] + "#" == "+/#";
    SplitConcat("", "#", '/');
    assert "" + ['/'] + "#" == "/#";
    SplitConcat("", "+/#", '/');
    assert "" + ['/'] + "+/#" == "/+/#";
    SplitConcat("+", "+/#", '/');
    assert "+" + ['/'] + "+/#" == "+/+/#";
  }

  /* The gaps really are gaps: the test says no and containment holds. */
  lemma GapContained(deny: string, grant: string, topic: string)
    requires EmptyTopicGap(deny, grant) && Matches(grant, topic)
    ensures !Covers(deny, grant) && Matches(deny, topic)
  {
    SplitEmpty(topic, '/');
    GapLevels();
    var d, g, t := Split(deny, '/'), Split(grant, '/'), Split(topic, '/');
    var n := |g|;
    assert d[|d| - 1] == "#" && |d| - 1 == n && d[n - 1] == "+" && g[n - 1] == "#";
    assert !LevelCovers(d[n - 1], g[n - 1]);
    if n == 2 {
      assert LevelMatches(g[0], t[0]);
      assert LevelMatches(d[0], t[0]);
      assert |t| >= 2;
    }
  }

  /* For valid filters the test decides containment of the topic sets, the three gaps apart. */
  lemma CoversDecidesContainment(deny: string, grant: string)
    requires ValidTopicFilter(deny) && ValidTopicFilter(grant)
    ensures Covers(deny, grant) || EmptyTopicGap(deny, grant)
       <==> forall topic :: Matches(grant, topic) ==> Matches(deny, topic)
  {
    if Covers(deny, grant) || EmptyTopicGap(deny, grant) {
      forall topic | Matches(grant, topic) ensures Matches(deny, topic) {
        if Covers(deny, grant) {
          CoversSound(deny, grant, topic);
        } else {
          GapContained(deny, grant, topic);
        }
      }
    } else {
      var topic := NotCoveredWitness(deny, grant);
    }
  }
}
