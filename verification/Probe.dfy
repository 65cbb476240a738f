/**
 Choosing what the deploy verifier exercises (`pickVerificationProbe` and `concreteProbeTopic`,
 internal/deploy/service.go).
 */
module Probe {
  import opened Options
  import opened Strings
  import opened Rules
  import opened Topics
  import opened Effective
  import opened AclFile

  const PROBE_SEGMENT := "mcm-verify"

  /* A value that can stand as one level of a topic name. */
  predicate ValidProbeLevel(level: string) {
    level != "" && '/' !in level && '+' !in level && '#' !in level && '\0' !in level
  }

  /* Whether a level of a filter can be made concrete for the identity. */
  predicate UsableLevel(level: string, last: bool, identity: string, pattern: bool) {
    if level == "#" then last
    else if level == "+" then true
    else if pattern && level == "%u" then ValidProbeLevel(identity)
    else if pattern && (Contains(level, "%u") || Contains(level, "%c")) then false
    else '+' !in level && '#' !in level
  }

  /* A user's filter can be made concrete exactly when it is valid. */
  lemma UsableExactly(filter: string, identity: string)
    requires !HasControl(filter)
    ensures UsableFilter(filter, identity, false) <==> ValidTopicFilter(filter)
  {
    hide Split, HasControl, Contains, ValidProbeLevel;
    assert '#' in "#" && '+' in "+" && '+' !in "#" && '#' !in "+";
    if ValidTopicFilter(filter) {
      forall i | 0 <= i < |Split(filter, '/')|
        ensures UsableLevel(Split(filter, '/')[i], i == |Split(filter, '/')| - 1, identity, false)
      {
        assert '#' in Split(filter, '/')[i] || '#' !in Split(filter, '/')[i];
      }
    }
    if UsableFilter(filter, identity, false) {
      forall i | 0 <= i < |Split(filter, '/')|
        ensures '#' in Split(filter, '/')[i] ==> Split(filter, '/')[i] == "#" && i == |Split(filter, '/')| - 1
        ensures '+' in Split(filter, '/')[i] ==> Split(filter, '/')[i] == "+"
      {
        assert UsableLevel(Split(filter, '/')[i], i == |Split(filter, '/')| - 1, identity, false);
      }
    }
  }

  /* A valid pattern can be made concrete for a user exactly when no level of it is the client id and the
     username can stand as a level, if one is the username. */
  lemma UsablePatternExactly(filter: string, identity: string)
    requires ValidTopicFilter(filter) && ValidPlaceholders(filter)
    ensures UsableFilter(filter, identity, true) <==>
              && "%c" !in Split(filter, '/')
              && ("%u" in Split(filter, '/') ==> ValidProbeLevel(identity))
  {
    hide Split, HasControl, Contains, ValidProbeLevel;
    var levels := Split(filter, '/');
    forall i | 0 <= i < |levels|
      ensures UsableLevel(levels[i], i == |levels| - 1, identity, true) <==>
                levels[i] != "%c" && (levels[i] == "%u" ==> ValidProbeLevel(identity))
    {
      PatternLevelUsable(levels[i], i == |levels| - 1, identity);
    }
  }

  lemma PatternLevelUsable(level: string, last: bool, identity: string)
    requires '#' in level ==> level == "#" && last
    requires '+' in level ==> level == "+"
    requires Contains(level, "%u") || Contains(level, "%c") ==> level in ["%u", "%c"]
    ensures UsableLevel(level, last, identity, true) <==>
              level != "%c" && (level == "%u" ==> ValidProbeLevel(identity))
  {
    hide ValidProbeLevel;
    assert '#' in "#" && '+' in "+";
    if level == "%c" {
      assert OccursAt(level, "%c", 0);
    }
  }

  function ProbeLevel(level: string, identity: string, pattern: bool): string {
    if level == "#" || level == "+" then PROBE_SEGMENT
    else if pattern && level == "%u" then identity
    else level
  }

  predicate UsableFilter(filter: string, identity: string, pattern: bool) {
    filter != "" &&
    var levels := Split(filter, '/');
    forall i :: 0 <= i < |levels| ==> UsableLevel(levels[i], i == |levels| - 1, identity, pattern)
  }

  /* The topic hits the rule's filter for the identity, whatever its client id, and names one topic. */
  ghost predicate Concretizes(topic: string, filter: string, identity: string, pattern: bool) {
    && '+' !in topic && '#' !in topic
    && forall clientId: string :: Matches(AppliedFilter(filter, Identity(identity, clientId), pattern), topic)
  }

  /* The filter as the broker reads it for the identity. */
  function AppliedFilter(filter: string, identity: Identity, pattern: bool): string {
    if pattern then Substitute(filter, identity) else filter
  }

  function AppliedLevels(levels: seq<string>, identity: Identity, pattern: bool): (r: seq<string>)
    ensures |r| == |levels|
  {
    if pattern then SubstituteLevels(levels, identity) else levels
  }

  lemma AppliedKeepsLevels(filter: string, identity: Identity, pattern: bool)
    ensures Split(AppliedFilter(filter, identity, pattern), '/') == AppliedLevels(Split(filter, '/'), identity, pattern)
  {
    hide Split, Substitute;
    SubstituteKeepsLevels(filter, identity);
  }

  method ConcreteProbeTopic(filter: string, identity: string, pattern: bool) returns (topic: Option<string>)
    ensures topic.Some? <==> UsableFilter(filter, identity, pattern)
    ensures topic.Some? ==> Concretizes(topic.value, filter, identity, pattern)
  {
    hide Contains, ValidProbeLevel, Concretizes;
    if filter == "" {
      return None;
    }
    var levels := Split(filter, '/');
    var out: seq<string> := [];
    for i := 0 to |levels|
      invariant |out| == i
      invariant forall k :: 0 <= k < i ==> UsableLevel(levels[k], k == |levels| - 1, identity, pattern)
      invariant forall k :: 0 <= k < i ==> out[k] == ProbeLevel(levels[k], identity, pattern)
    {
      var level := levels[i];
      if level == "#" {
        if i != |levels| - 1 {
          return None;
        }
        out := out + [PROBE_SEGMENT];
      } else if level == "+" {
        out := out + [PROBE_SEGMENT];
      } else if pattern && level == "%u" {
        if !ValidProbeLevel(identity) {
          return None;
        }
        out := out + [identity];
      } else if pattern && (Contains(level, "%u") || Contains(level, "%c")) {
        return None;
      } else if '+' in level || '#' in level {
        return None;
      } else {
        out := out + [level];
      }
    }
    var joined := Join(out, "/");
    ProbeTopicMatches(filter, identity, pattern, out);
    if joined == "" {
      return None;
    }
    topic := Some(joined);
  }

  lemma ProbeLevelShape(level: string, last: bool, identity: string, pattern: bool)
    requires UsableLevel(level, last, identity, pattern) && '/' !in level
    ensures var o := ProbeLevel(level, identity, pattern);
            && '/' !in o && '+' !in o && '#' !in o
            && (level != "" ==> o != "")
  {
  }

  lemma ProbeLevelMatches(levels: seq<string>, k: nat, identity: string, pattern: bool, clientId: string)
    requires k < |levels| && UsableLevel(levels[k], k == |levels| - 1, identity, pattern)
    ensures var f := AppliedLevels(levels, Identity(identity, clientId), pattern)[k];
            && (f == "#" ==> k == |levels| - 1)
            && (f == "#" || LevelMatches(f, ProbeLevel(levels[k], identity, pattern)))
  {
    if pattern && levels[k] == "%c" {
      assert OccursAt(levels[k], "%c", 0);
    }
    assert '#' in "#";
  }

  lemma ProbeTopicMatches(filter: string, identity: string, pattern: bool, out: seq<string>)
    requires UsableFilter(filter, identity, pattern)
    requires |out| == |Split(filter, '/')|
    requires forall k :: 0 <= k < |out| ==> out[k] == ProbeLevel(Split(filter, '/')[k], identity, pattern)
    ensures Join(out, "/") != "" && Concretizes(Join(out, "/"), filter, identity, pattern)
  {
    hide UsableLevel, ProbeLevel, Matches, Split, AppliedFilter;
    var levels := Split(filter, '/');
    SplitFree(filter, '/');
    SplitEmpty(filter, '/');
    forall k | 0 <= k < |out|
      ensures '/' !in out[k] && '+' !in out[k] && '#' !in out[k] && (levels[k] != "" ==> out[k] != "")
    {
      ProbeLevelShape(levels[k], k == |levels| - 1, identity, pattern);
    }
    SplitJoin(out, '/');
    JoinCharacters(out, "/", '+');
    JoinCharacters(out, "/", '#');
    var topic := Join(out, "/");
    SplitEmpty(topic, '/');
    assert topic != "" by {
      assert |levels| == 1 ==> levels[0] != "";
    }
    forall clientId: string ensures Matches(AppliedFilter(filter, Identity(identity, clientId), pattern), topic) {
      ProbeMatchesFor(filter, identity, pattern, out, topic, clientId);
    }
  }

  lemma ProbeMatchesFor(filter: string, identity: string, pattern: bool, out: seq<string>, topic: string, clientId: string)
    requires UsableFilter(filter, identity, pattern)
    requires |out| == |Split(filter, '/')| && Split(topic, '/') == out && topic != ""
    requires forall k :: 0 <= k < |out| ==> out[k] == ProbeLevel(Split(filter, '/')[k], identity, pattern)
    ensures Matches(AppliedFilter(filter, Identity(identity, clientId), pattern), topic)
  {
    hide UsableLevel, ProbeLevel, LevelMatches, AppliedFilter, AppliedLevels, Split;
    var who := Identity(identity, clientId);
    var levels := Split(filter, '/');
    var f := AppliedLevels(levels, who, pattern);
    AppliedKeepsLevels(filter, who, pattern);
    forall k | 0 <= k < |f|
      ensures f[k] == "#" ==> k == |f| - 1
      ensures f[k] == "#" || LevelMatches(f[k], out[k])
    {
      ProbeLevelMatches(levels, k, identity, pattern, clientId);
    }
    SplitEmpty(AppliedFilter(filter, who, pattern), '/');
    SplitEmpty(topic, '/');
    assert |out| == 1 && out[0] == "" ==> out == [""];
    if f == [""] {
      EmptyLevel(out[0]);
    }
  }

  lemma EmptyLevel(level: string)
    requires LevelMatches("", level)
    ensures level == ""
  {
  }

  // ---------------------------------------------------------------- picking

  datatype ProbeKind = UserGrant | PatternGrant | ServiceGrant

  datatype VerificationProbe = VerificationProbe(
    username: string, password: string, allowedTopic: string, deniedTopic: string, kind: ProbeKind)

  /* The managed service account; an empty username means there is none. */
  datatype ServiceAccount = ServiceAccount(username: string, password: string)

  predicate IsServiceAccount(service: ServiceAccount, username: string) {
    username != "" && username == service.username
  }

  function CleartextPassword(passwords: map<string, string>, username: string): Option<string> {
    if username != "" && username in passwords then Some(passwords[username]) else None
  }

  predicate UserRuleFor(r: Rule, identity: string) {
    r.EffectiveSelector() == User && r.principal == identity
  }

  /* The filter of the first deny rule of a user, and nothing when there is none. */
  function DeniedFilter(rules: seq<Rule>, identity: string): string {
    if rules == [] then ""
    else if IsDenyFor(rules[0], identity) then rules[0].filter
    else DeniedFilter(rules[1..], identity)
  }

  /* What the result says: there is a first deny rule and it has this filter, or there is none. */
  lemma {:induction false} DeniedFilterOfFirst(rules: seq<Rule>, identity: string)
    ensures || (DeniedFilter(rules, identity) == "" && forall r :: r in rules ==> !IsDenyFor(r, identity))
            || exists k :: 0 <= k < |rules| && IsDenyFor(rules[k], identity) && rules[k].filter == DeniedFilter(rules, identity)
                           && forall i :: 0 <= i < k ==> !IsDenyFor(rules[i], identity)
  {
    if rules != [] && !IsDenyFor(rules[0], identity) {
      DeniedFilterOfFirst(rules[1..], identity);
      if k :| 0 <= k < |rules[1..]| && IsDenyFor(rules[1..][k], identity)
              && rules[1..][k].filter == DeniedFilter(rules[1..], identity)
              && forall i :: 0 <= i < k ==> !IsDenyFor(rules[1..][i], identity) {
        forall i | 0 <= i < k + 1 ensures !IsDenyFor(rules[i], identity) {
          if i > 0 { assert rules[i] == rules[1..][i - 1]; }
        }
        assert IsDenyFor(rules[k + 1], identity);
      }
    }
  }

  /* Some readwrite rule of the list applies to the probed user and its filter matches the topic. */
  ghost predicate Justified(rules: seq<Rule>, username: string, topic: string) {
    exists r :: r in rules && r.permission == ReadWrite
                && forall clientId: string :: Hits(r.Meaning(), Identity(username, clientId), topic)
  }

  ghost predicate GoodProbe(rules: seq<Rule>, usernames: seq<string>, p: VerificationProbe) {
    && p.username in usernames && p.password != ""
    && '+' !in p.allowedTopic && '#' !in p.allowedTopic
    && Justified(rules, p.username, p.allowedTopic)
    && p.deniedTopic == DeniedFilter(rules, p.username)
  }

  lemma UserProbeJustified(rules: seq<Rule>, r: Rule, username: string, topic: string)
    requires r in rules && r.permission == ReadWrite && UserRuleFor(r, username) && username != ""
    requires Concretizes(topic, r.filter, username, false)
    ensures Justified(rules, username, topic)
  {
    hide Matches, Substitute;
    forall clientId: string ensures Hits(r.Meaning(), Identity(username, clientId), topic) {}
  }

  lemma PatternProbeJustified(rules: seq<Rule>, r: Rule, username: string, topic: string)
    requires r in rules && r.permission == ReadWrite && r.EffectiveSelector() == Pattern
    requires Concretizes(topic, r.filter, username, true)
    ensures Justified(rules, username, topic)
  {
    hide Matches, Substitute;
    forall clientId: string ensures Hits(r.Meaning(), Identity(username, clientId), topic) {}
  }

  predicate IsDenyFor(r: Rule, identity: string) {
    UserRuleFor(r, identity) && r.permission == Deny
  }

  method DeniedTopicFor(rules: seq<Rule>, identity: string) returns (filter: string)
    ensures filter == DeniedFilter(rules, identity)
  {
    assert rules[0..] == rules;
    for k := 0 to |rules|
      invariant DeniedFilter(rules, identity) == DeniedFilter(rules[k..], identity)
    {
      var r := rules[k];
      assert rules[k..][1..] == rules[k + 1..];
      if !UserRuleFor(r, identity) || r.permission != Deny {
        continue;
      }
      return r.filter;
    }
    return "";
  }

  function FirstReadWrite(rules: seq<Rule>, identity: string): Option<Rule> {
    if rules == [] then None
    else
      var last := rules[|rules| - 1];
      var earlier := FirstReadWrite(rules[..|rules| - 1], identity);
      if earlier.Some? then earlier
      else if UserRuleFor(last, identity) && last.permission == ReadWrite then Some(last)
      else None
  }

  predicate ReadWriteRuleFor(r: Rule, identity: string) {
    UserRuleFor(r, identity) && r.permission == ReadWrite
  }

  /* The rule taken is the first readwrite rule of the user, and none is taken only where there is none. */
  lemma {:induction false} FirstReadWriteIsFirst(rules: seq<Rule>, identity: string)
    ensures var r := FirstReadWrite(rules, identity);
            && (r.None? ==> forall i :: 0 <= i < |rules| ==> !ReadWriteRuleFor(rules[i], identity))
            && (r.Some? ==>
                  exists k :: 0 <= k < |rules| && rules[k] == r.value && ReadWriteRuleFor(rules[k], identity)
                              && forall i :: 0 <= i < k ==> !ReadWriteRuleFor(rules[i], identity))
  {
    if rules != [] {
      FirstReadWriteIsFirst(rules[..|rules| - 1], identity);
      assert forall i :: 0 <= i < |rules| - 1 ==> rules[..|rules| - 1][i] == rules[i];
    }
  }

  lemma FirstReadWriteIsRule(rules: seq<Rule>, identity: string)
    ensures var r := FirstReadWrite(rules, identity);
            r.Some? ==> r.value in rules && r.value.permission == ReadWrite && UserRuleFor(r.value, identity)
  {
    FirstReadWriteIsFirst(rules, identity);
  }

  predicate HasGrant(rules: seq<Rule>, identity: string) {
    exists r :: r in rules && UserRuleFor(r, identity) && r.permission != Deny
  }

  predicate KnownPassword(passwords: map<string, string>, username: string) {
    username != "" && username in passwords && passwords[username] != ""
  }

  /* The user has a grant, and MCM does not know the password to try it with. */
  predicate Blocked(rules: seq<Rule>, service: ServiceAccount, passwords: map<string, string>, u: string) {
    !IsServiceAccount(service, u) && HasGrant(rules, u) && !KnownPassword(passwords, u)
  }

  /* The user can be probed on the first readwrite rule granted to it. */
  predicate Offers(rules: seq<Rule>, service: ServiceAccount, passwords: map<string, string>, u: string) {
    && !IsServiceAccount(service, u) && HasGrant(rules, u) && KnownPassword(passwords, u)
    && var r := FirstReadWrite(rules, u); r.Some? && UsableFilter(r.value.filter, u, false)
  }

  predicate Undecided(rules: seq<Rule>, service: ServiceAccount, passwords: map<string, string>, users: seq<string>) {
    forall u :: u in users ==> !Blocked(rules, service, passwords, u) && !Offers(rules, service, passwords, u)
  }

  /* The search ends without a probe at the first user that decides it. */
  ghost predicate Stops(rules: seq<Rule>, service: ServiceAccount, passwords: map<string, string>, users: seq<string>) {
    exists k :: 0 <= k < |users| && Blocked(rules, service, passwords, users[k])
                && Undecided(rules, service, passwords, users[..k])
  }

  /* The search ends with a probe at the first user that decides it. */
  ghost predicate OffersFirst(rules: seq<Rule>, service: ServiceAccount, passwords: map<string, string>, users: seq<string>) {
    exists k :: 0 <= k < |users| && Offers(rules, service, passwords, users[k])
                && Undecided(rules, service, passwords, users[..k])
  }

  /* The probe of the first user that can be probed: on its first readwrite rule, with its password. */
  ghost predicate UserProbeOf(rules: seq<Rule>, service: ServiceAccount, passwords: map<string, string>,
                              users: seq<string>, k: nat, p: VerificationProbe) {
    && k < |users| && p.username == users[k] && Undecided(rules, service, passwords, users[..k])
    && Offers(rules, service, passwords, users[k]) && p.password == passwords[users[k]]
    && Concretizes(p.allowedTopic, FirstReadWrite(rules, users[k]).value.filter, users[k], false)
    && p.deniedTopic == DeniedFilter(rules, users[k]) && p.kind == UserGrant
  }

  /* No list of users is decided both ways. */
  lemma DecidedOnce(rules: seq<Rule>, service: ServiceAccount, passwords: map<string, string>, users: seq<string>)
    requires OffersFirst(rules, service, passwords, users)
    ensures !Stops(rules, service, passwords, users) && !Undecided(rules, service, passwords, users)
  {
    hide FirstReadWrite, UsableFilter, HasGrant;
    var j :| 0 <= j < |users| && Offers(rules, service, passwords, users[j])
             && Undecided(rules, service, passwords, users[..j]);
    assert forall i :: 0 <= i < j ==> users[i] in users[..j];
    forall k | 0 <= k < |users| && Blocked(rules, service, passwords, users[k])
      ensures !Undecided(rules, service, passwords, users[..k])
    {
      assert j < k;
      assert users[..k][j] == users[j];
    }
  }

  predicate CanTry(service: ServiceAccount, passwords: map<string, string>, u: string) {
    !IsServiceAccount(service, u) && KnownPassword(passwords, u)
  }

  predicate UsablePattern(r: Rule, u: string) {
    r.EffectiveSelector() == Pattern && r.permission == ReadWrite && UsableFilter(r.filter, u, true)
  }

  predicate PatternOffers(rules: seq<Rule>, service: ServiceAccount, passwords: map<string, string>, u: string) {
    CanTry(service, passwords, u) && exists r :: r in rules && UsablePattern(r, u)
  }

  /* The probe on a pattern: the first pattern that works for anybody, as the first user it works for. */
  ghost predicate PatternProbeOf(rules: seq<Rule>, service: ServiceAccount, passwords: map<string, string>,
                                 users: seq<string>, k: nat, j: nat, p: VerificationProbe) {
    && k < |rules| && (forall u :: u in users ==> !PatternOffers(rules[..k], service, passwords, u))
    && PatternProbeAt(rules, rules[k], service, passwords, users, j, p)
  }

  ghost predicate PatternProbeAt(rules: seq<Rule>, r: Rule, service: ServiceAccount, passwords: map<string, string>,
                                 users: seq<string>, j: nat, p: VerificationProbe) {
    && j < |users| && p.username == users[j]
    && (forall u :: u in users[..j] ==> !(CanTry(service, passwords, u) && UsablePattern(r, u)))
    && CanTry(service, passwords, users[j]) && UsablePattern(r, users[j]) && p.password == passwords[users[j]]
    && Concretizes(p.allowedTopic, r.filter, users[j], true)
    && p.deniedTopic == DeniedFilter(rules, users[j]) && p.kind == PatternGrant
  }

  /* What one more rule of a loop adds to the offers. */
  lemma PatternStep(rules: seq<Rule>, k: nat, service: ServiceAccount, passwords: map<string, string>, u: string)
    requires k < |rules|
    ensures PatternOffers(rules[..k + 1], service, passwords, u)
       <==> PatternOffers(rules[..k], service, passwords, u) || (CanTry(service, passwords, u) && UsablePattern(rules[k], u))
    ensures PatternOffers(rules[..k + 1], service, passwords, u) ==> PatternOffers(rules, service, passwords, u)
  {
    hide UsablePattern, CanTry;
    PrefixStep(rules, k);
    assert forall r :: r in rules[..k + 1] ==> r in rules;
    assert rules[k] in rules[..k + 1];
  }

  predicate ServiceOffers(rules: seq<Rule>, service: ServiceAccount, users: seq<string>) {
    && service.username != "" && service.password != "" && service.username in users
    && exists r :: r in rules && UserRuleFor(r, service.username) && r.permission == ReadWrite && r.filter == HEALTHCHECK_TOPIC
  }

  /* Whether the identity has a grant at all, and its first readwrite grant. */
  method UserScopedGrants(rules: seq<Rule>, identity: string) returns (hasGrant: bool, readwrite: Option<Rule>)
    ensures readwrite == FirstReadWrite(rules, identity)
    ensures hasGrant == HasGrant(rules, identity)
  {
    readwrite := None;
    hasGrant := false;
    for k := 0 to |rules|
      invariant readwrite == FirstReadWrite(rules[..k], identity)
      invariant hasGrant == HasGrant(rules[..k], identity)
    {
      PrefixStep(rules, k);
      assert rules[..k + 1][..k] == rules[..k];
      var r := rules[k];
      if !UserRuleFor(r, identity) || r.permission == Deny {
        continue;
      }
      hasGrant := true;
      if r.permission == ReadWrite && readwrite.None? {
        readwrite := Some(r);
      }
    }
    assert rules[..|rules|] == rules;
  }

  lemma TwoPlainLevels(filter: string, a: string, b: string, identity: string)
    requires filter == a + ['/'] + b
    requires '/' !in a && '+' !in a && '#' !in a
    requires '/' !in b && '+' !in b && '#' !in b
    ensures UsableFilter(filter, identity, false)
  {
    hide Split, Contains;
    SplitConcat(a, b, '/');
    SplitWhole(a, '/');
    SplitWhole(b, '/');
    assert '+' in "+" && '#' in "#";
  }

  lemma HealthcheckUsable(identity: string)
    ensures UsableFilter(HEALTHCHECK_TOPIC, identity, false)
  {
    hide UsableFilter;
    assert HEALTHCHECK_TOPIC == "mcm" + ['/'] + "healthcheck";
    TwoPlainLevels(HEALTHCHECK_TOPIC, "mcm", "healthcheck", identity);
  }

  lemma HealthcheckTopic(topic: string, identity: string)
    requires Concretizes(topic, HEALTHCHECK_TOPIC, identity, false)
    ensures topic == "mcm/healthcheck"
  {
    hide Matches;
    assert Matches(AppliedFilter(HEALTHCHECK_TOPIC, Identity(identity, ""), false), topic);
    PlainMatches(HEALTHCHECK_TOPIC, topic);
  }

  method ServiceVerificationProbe(usernames: seq<string>, rules: seq<Rule>, service: ServiceAccount)
    returns (probe: Option<VerificationProbe>)
    ensures probe.Some? ==> GoodProbe(rules, usernames, probe.value) && probe.value.username == service.username
    ensures probe.Some? ==>
              probe.value == VerificationProbe(service.username, service.password, "mcm/healthcheck",
                                               DeniedFilter(rules, service.username), ServiceGrant)
    ensures probe.Some? <==> ServiceOffers(rules, service, usernames)
  {
    hide Concretizes, Justified, UsableFilter;
    if service.username == "" || service.password == "" || service.username !in usernames {
      return None;
    }
    HealthcheckUsable(service.username);
    for k := 0 to |rules|
      invariant forall r :: r in rules[..k] ==>
        !(UserRuleFor(r, service.username) && r.permission == ReadWrite && r.filter == HEALTHCHECK_TOPIC)
    {
      PrefixStep(rules, k);
      var r := rules[k];
      if !UserRuleFor(r, service.username) || r.permission != ReadWrite || r.filter != HEALTHCHECK_TOPIC {
        continue;
      }
      var topic := ConcreteProbeTopic(r.filter, service.username, false);
      if topic.None? {
        continue;
      }
      var denied := DeniedTopicFor(rules, service.username);
      UserProbeJustified(rules, r, service.username, topic.value);
      ConcretizesPlain(topic.value, r.filter, service.username, false);
      HealthcheckTopic(topic.value, service.username);
      return Some(VerificationProbe(service.username, service.password, topic.value, denied, ServiceGrant));
    }
    assert rules[..|rules|] == rules;
    return None;
  }

  lemma ConcretizesPlain(topic: string, filter: string, identity: string, pattern: bool)
    requires Concretizes(topic, filter, identity, pattern)
    ensures '+' !in topic && '#' !in topic
  {
  }

  lemma NobodyDecides(rules: seq<Rule>, service: ServiceAccount, passwords: map<string, string>, users: seq<string>)
    requires Undecided(rules, service, passwords, users)
    ensures !Stops(rules, service, passwords, users) && !OffersFirst(rules, service, passwords, users)
  {
    hide Offers, Blocked;
    assert forall k :: 0 <= k < |users| ==> users[k] in users;
  }

  /* The first phase: a readwrite grant of a user, as that user. A user with a grant and no known
     password ends the search: no probe at all. */
  method PickUserProbe(usernames: seq<string>, rules: seq<Rule>, service: ServiceAccount, passwords: map<string, string>)
    returns (probe: Option<VerificationProbe>, stop: bool)
    ensures probe.Some? ==> GoodProbe(rules, usernames, probe.value) && probe.value.username != service.username
    ensures probe.Some? ==> probe.value.kind == UserGrant && Offers(rules, service, passwords, probe.value.username)
    ensures probe.Some? ==> exists k :: UserProbeOf(rules, service, passwords, usernames, k, probe.value)
    ensures stop ==> probe.None?
    ensures stop <==> Stops(rules, service, passwords, usernames)
    ensures probe.Some? <==> OffersFirst(rules, service, passwords, usernames)
    ensures probe.None? && !stop ==> Undecided(rules, service, passwords, usernames)
  {
    hide Concretizes, Justified, UsableFilter, HasGrant, FirstReadWrite;
    stop := false;
    for k := 0 to |usernames|
      invariant Undecided(rules, service, passwords, usernames[..k])
    {
      PrefixStep(usernames, k);
      var u := usernames[k];
      if IsServiceAccount(service, u) {
        continue;
      }
      var hasGrant, readwrite := UserScopedGrants(rules, u);
      if !hasGrant {
        continue;
      }
      var password := CleartextPassword(passwords, u);
      if password.None? || password.value == "" {
        assert Blocked(rules, service, passwords, usernames[k]);
        assert Stops(rules, service, passwords, usernames);
        if OffersFirst(rules, service, passwords, usernames) {
          DecidedOnce(rules, service, passwords, usernames);
        }
        return None, true;
      }
      if readwrite.None? {
        continue;
      }
      var topic := ConcreteProbeTopic(readwrite.value.filter, u, false);
      if topic.None? {
        continue;
      }
      var denied := DeniedTopicFor(rules, u);
      FirstReadWriteIsRule(rules, u);
      UserProbeJustified(rules, readwrite.value, u, topic.value);
      ConcretizesPlain(topic.value, readwrite.value.filter, u, false);
      assert Offers(rules, service, passwords, usernames[k]);
      DecidedOnce(rules, service, passwords, usernames);
      probe := Some(VerificationProbe(u, password.value, topic.value, denied, UserGrant));
      assert UserProbeOf(rules, service, passwords, usernames, k, probe.value);
      return probe, false;
    }
    assert usernames[..|usernames|] == usernames;
    NobodyDecides(rules, service, passwords, usernames);
    return None, false;
  }

  /* The second phase: a readwrite pattern, as the first user it can be made concrete for. */
  method PickPatternProbe(usernames: seq<string>, rules: seq<Rule>, service: ServiceAccount, passwords: map<string, string>)
    returns (probe: Option<VerificationProbe>)
    ensures probe.Some? ==> GoodProbe(rules, usernames, probe.value) && probe.value.username != service.username
    ensures probe.Some? ==> probe.value.kind == PatternGrant
    ensures probe.Some? ==> exists k, j :: PatternProbeOf(rules, service, passwords, usernames, k, j, probe.value)
    ensures probe.Some? <==> exists u :: u in usernames && PatternOffers(rules, service, passwords, u)
  {
    hide Concretizes, Justified, UsableFilter, PatternOffers, GoodProbe, PatternProbeAt;
    NoPatterns(service, passwords);
    assert rules[..0] == [];
    for k := 0 to |rules|
      invariant forall u :: u in usernames ==> !PatternOffers(rules[..k], service, passwords, u)
    {
      probe := PatternProbeOn(usernames, rules, k, service, passwords);
      forall u | u in usernames
        ensures PatternOffers(rules[..k + 1], service, passwords, u)
           <==> CanTry(service, passwords, u) && UsablePattern(rules[k], u)
        ensures PatternOffers(rules[..k + 1], service, passwords, u) ==> PatternOffers(rules, service, passwords, u)
      {
        PatternStep(rules, k, service, passwords, u);
      }
      if probe.Some? {
        ghost var j :| PatternProbeAt(rules, rules[k], service, passwords, usernames, j, probe.value);
        assert PatternProbeOf(rules, service, passwords, usernames, k, j, probe.value);
        return;
      }
    }
    assert rules[..|rules|] == rules;
    return None;
  }

  lemma NoPatterns(service: ServiceAccount, passwords: map<string, string>)
    ensures forall u :: !PatternOffers([], service, passwords, u)
  {
  }

  /* One pattern rule, tried as each user in turn. */
  method PatternProbeOn(usernames: seq<string>, rules: seq<Rule>, k: nat, service: ServiceAccount, passwords: map<string, string>)
    returns (probe: Option<VerificationProbe>)
    requires k < |rules|
    ensures probe.Some? ==> GoodProbe(rules, usernames, probe.value) && probe.value.username != service.username
    ensures probe.Some? ==> probe.value.kind == PatternGrant
    ensures probe.Some? ==> exists j :: PatternProbeAt(rules, rules[k], service, passwords, usernames, j, probe.value)
    ensures probe.Some? <==> exists u :: u in usernames && CanTry(service, passwords, u) && UsablePattern(rules[k], u)
  {
    hide Concretizes, Justified, UsableFilter;
    var r := rules[k];
    if r.EffectiveSelector() != Pattern || r.permission != ReadWrite {
      return None;
    }
    for j := 0 to |usernames|
      invariant forall u :: u in usernames[..j] ==> !(CanTry(service, passwords, u) && UsablePattern(r, u))
    {
      PrefixStep(usernames, j);
      var u := usernames[j];
      if IsServiceAccount(service, u) {
        continue;
      }
      var password := CleartextPassword(passwords, u);
      if password.None? || password.value == "" {
        continue;
      }
      var topic := ConcreteProbeTopic(r.filter, u, true);
      if topic.None? {
        continue;
      }
      var denied := DeniedTopicFor(rules, u);
      PatternProbeJustified(rules, r, u, topic.value);
      ConcretizesPlain(topic.value, r.filter, u, true);
      probe := Some(VerificationProbe(u, password.value, topic.value, denied, PatternGrant));
      assert PatternProbeAt(rules, rules[k], service, passwords, usernames, j, probe.value);
      return probe;
    }
    assert usernames[..|usernames|] == usernames;
    return None;
  }

  /* Which probe is chosen: a user's before that of a pattern, and a pattern's before that of MCM itself. */
  ghost predicate Chosen(rules: seq<Rule>, service: ServiceAccount, passwords: map<string, string>, users: seq<string>,
                         p: VerificationProbe) {
    match p.kind
    case UserGrant => exists k :: UserProbeOf(rules, service, passwords, users, k, p)
    case PatternGrant =>
      && Undecided(rules, service, passwords, users)
      && exists k, j :: PatternProbeOf(rules, service, passwords, users, k, j, p)
    case ServiceGrant =>
      && Undecided(rules, service, passwords, users)
      && (forall u :: u in users ==> !PatternOffers(rules, service, passwords, u))
      && p == VerificationProbe(service.username, service.password, "mcm/healthcheck",
                                DeniedFilter(rules, service.username), ServiceGrant)
  }

  /* Whatever probe is chosen, its topic is one topic name that some readwrite rule of the parsed file
     grants to the probed user; and a probe is missing exactly when every phase has none to offer, or
     a granted user without a known password comes before any that can be probed. */
  method PickVerificationProbe(aclBody: string, usernames: seq<string>, service: ServiceAccount, passwords: map<string, string>)
    returns (probe: Option<VerificationProbe>)
    ensures probe.Some? ==> GoodProbe(ReadFile(aclBody), usernames, probe.value)
    ensures probe.Some? ==> (probe.value.kind == ServiceGrant <==> probe.value.username == service.username)
    ensures probe.Some? ==> Chosen(ReadFile(aclBody), service, passwords, usernames, probe.value)
    ensures probe.None? <==>
              || Stops(ReadFile(aclBody), service, passwords, usernames)
              || (&& Undecided(ReadFile(aclBody), service, passwords, usernames)
                  && (forall u :: u in usernames ==> !PatternOffers(ReadFile(aclBody), service, passwords, u))
                  && !ServiceOffers(ReadFile(aclBody), service, usernames))
  {
    hide GoodProbe, ReadFile, Offers, Blocked, PatternOffers, HasGrant, Stops, OffersFirst, ServiceOffers, Undecided,
         UserProbeOf, PatternProbeOf;
    var rules := ParseACLFile(aclBody);
    if |usernames| == 0 {
      NoUsers(rules, service, passwords);
      return None;
    }
    var stop;
    probe, stop := PickUserProbe(usernames, rules, service, passwords);
    if probe.Some? {
      DecidedOnce(rules, service, passwords, usernames);
      return;
    }
    if stop {
      return;
    }
    probe := PickPatternProbe(usernames, rules, service, passwords);
    if probe.Some? {
      return;
    }
    probe := ServiceVerificationProbe(usernames, rules, service);
  }

  lemma NoUsers(rules: seq<Rule>, service: ServiceAccount, passwords: map<string, string>)
    ensures Undecided(rules, service, passwords, []) && !ServiceOffers(rules, service, [])
  {
  }
}
