/**
 The effective-permission resolver (internal/acl/effective.go).

 `Allowed` is the documented Mosquitto semantics on a set of rule meanings: neither the order nor
 the multiplicity of rules matters, and a matching deny wins over every grant. The resolver and the
 grants view are loops proved against it.
 */
module Effective {
  import opened Strings
  import opened Rules
  import opened Topics

  datatype Access = AccessRead | AccessWrite

  /* An empty username means an anonymous client. */
  datatype Identity = Identity(username: string, clientId: string) {
    predicate IsAnonymous() { username == "" }
  }

  // ---------------------------------------------------------------- placeholders

  function ReplaceSlash(s: string): (r: string)
    ensures |r| == |s| && '/' !in r
    ensures '/' !in s ==> r == s
  {
    seq(|s|, i requires 0 <= i < |s| => if s[i] == '/' then '_' else s[i])
  }

  function SubstituteLevel(level: string, identity: Identity): string {
    if level == "%u" then ReplaceSlash(identity.username)
    else if level == "%c" then ReplaceSlash(identity.clientId)
    else level
  }

  function SubstituteLevels(levels: seq<string>, identity: Identity): (r: seq<string>)
    ensures |r| == |levels|
    ensures forall i :: 0 <= i < |levels| ==> r[i] == SubstituteLevel(levels[i], identity)
  {
    seq(|levels|, i requires 0 <= i < |levels| => SubstituteLevel(levels[i], identity))
  }

  function Substitute(filter: string, identity: Identity): string {
    Join(SubstituteLevels(Split(filter, '/'), identity), "/")
  }

  /* A username or client id never adds or removes a topic level. */
  lemma SubstituteKeepsLevels(filter: string, identity: Identity)
    ensures Split(Substitute(filter, identity), '/') == SubstituteLevels(Split(filter, '/'), identity)
  {
    SplitFree(filter, '/');
    SplitJoin(SubstituteLevels(Split(filter, '/'), identity), '/');
  }

  /* The laws of substitution: level by level, a level that is a placeholder becomes the name of the client,
     with `_` for every slash of it, and any other level stays. */
  lemma SubstituteByLevel(a: string, b: string, identity: Identity)
    ensures Substitute(a + "/" + b, identity) == Substitute(a, identity) + "/" + Substitute(b, identity)
  {
    hide Split, Substitute;
    SubstituteKeepsLevels(a, identity);
    SubstituteKeepsLevels(b, identity);
    var whole := a + ['/'] + b;
    assert a + "/" + b == whole;
    SubstituteKeepsLevels(whole, identity);
    SplitConcat(a, b, '/');
    var parts := Substitute(a, identity) + ['/'] + Substitute(b, identity);
    SplitConcat(Substitute(a, identity), Substitute(b, identity), '/');
    assert Split(Substitute(whole, identity), '/') == Split(parts, '/');
    SameLevels(Substitute(whole, identity), parts);
  }

  lemma SubstituteOneLevel(level: string, identity: Identity)
    requires '/' !in level
    ensures level != "%u" && level != "%c" ==> Substitute(level, identity) == level
    ensures level == "%u" && '/' !in identity.username ==> Substitute(level, identity) == identity.username
    ensures level == "%c" && '/' !in identity.clientId ==> Substitute(level, identity) == identity.clientId
    ensures level == "%u" ==> SlashesReplaced(identity.username, Substitute(level, identity))
    ensures level == "%c" ==> SlashesReplaced(identity.clientId, Substitute(level, identity))
  {
    SplitWhole(level, '/');
  }

  predicate SlashesReplaced(name: string, r: string) {
    |r| == |name| && forall i :: 0 <= i < |r| ==> r[i] == if name[i] == '/' then '_' else name[i]
  }

  /* A level that is a placeholder makes the filter contain that placeholder. */
  lemma {:induction false} LevelOccurs(s: string, sep: char, i: nat)
    requires i < |Split(s, sep)|
    ensures Contains(s, Split(s, sep)[i])
  {
    var level := Split(s, sep)[i];
    if s == "" {
      assert OccursAt(s, level, 0);
    } else {
      var rest := Split(s[1..], sep);
      if s[0] == sep && i == 0 {
        assert OccursAt(s, level, 0);
      } else if s[0] != sep && i == 0 {
        LevelPrefix(s, sep);
        assert OccursAt(s, level, 0);
      } else {
        var j := if s[0] == sep then i - 1 else i;
        LevelOccurs(s[1..], sep, j);
        var k :| 0 <= k <= |s[1..]| && OccursAt(s[1..], level, k);
        assert s[1..][k..k + |level|] == s[k + 1..k + 1 + |level|];
        assert OccursAt(s, level, k + 1);
      }
    }
  }

  lemma {:induction false} LevelPrefix(s: string, sep: char)
    ensures Split(s, sep)[0] <= s
  {
    if s != "" && s[0] != sep {
      LevelPrefix(s[1..], sep);
      assert s == [s[0]] + s[1..];
    }
  }

  method SubstitutePlaceholders(filter: string, identity: Identity) returns (r: string)
    ensures r == Substitute(filter, identity)
  {
    var levels := Split(filter, '/');
    if !Contains(filter, "%u") && !Contains(filter, "%c") {
      forall i | 0 <= i < |levels| ensures SubstituteLevel(levels[i], identity) == levels[i] {
        LevelOccurs(filter, '/', i);
      }
      assert SubstituteLevels(levels, identity) == levels;
      JoinSplit(filter, '/');
      return filter;
    }
    ghost var original := levels;
    for idx := 0 to |levels|
      invariant |levels| == |original|
      invariant forall i :: 0 <= i < idx ==> levels[i] == SubstituteLevel(original[i], identity)
      invariant forall i :: idx <= i < |levels| ==> levels[i] == original[i]
    {
      if levels[idx] == "%u" {
        levels := levels[idx := ReplaceSlash(identity.username)];
      } else if levels[idx] == "%c" {
        levels := levels[idx := ReplaceSlash(identity.clientId)];
      }
    }
    assert levels == SubstituteLevels(original, identity);
    return Join(levels, "/");
  }

  // ---------------------------------------------------------------- semantics

  predicate PermissionGrants(permission: Permission, access: Access) {
    match access
    case AccessRead => permission == Read || permission == ReadWrite
    case AccessWrite => permission == Write || permission == ReadWrite
  }

  /* The anonymous section is for anonymous clients only, a user section for its user, and the
     pattern section for everyone. */
  predicate Applies(rule: Core, identity: Identity) {
    match rule.selector
    case Pattern => true
    case Anonymous => identity.IsAnonymous()
    case User => !identity.IsAnonymous() && rule.principal == identity.username
    case _ => false
  }

  function FilterFor(rule: Core, identity: Identity): string {
    if rule.selector == Pattern then Substitute(rule.filter, identity) else rule.filter
  }

  predicate Hits(rule: Core, identity: Identity, topic: string) {
    Applies(rule, identity) && Matches(FilterFor(rule, identity), topic)
  }

  predicate Denied(rules: set<Core>, identity: Identity, topic: string) {
    exists r | r in rules :: r.permission == Deny && Hits(r, identity, topic)
  }

  predicate Granted(rules: set<Core>, identity: Identity, topic: string, access: Access) {
    exists r | r in rules :: PermissionGrants(r.permission, access) && Hits(r, identity, topic)
  }

  predicate Allowed(rules: set<Core>, identity: Identity, topic: string, access: Access) {
    !Denied(rules, identity, topic) && Granted(rules, identity, topic, access)
  }

  // ---------------------------------------------------------------- laws of the decision

  /* What cannot be read or written in any way is never allowed: reading does not follow from writing,
     nor writing from reading. */
  lemma NoGrantNoAccess(rules: seq<Rule>, identity: Identity, topic: string)
    ensures (forall r :: r in rules ==> r.permission != Write && r.permission != ReadWrite) ==>
              !Allowed(CoresOf(rules), identity, topic, AccessWrite)
    ensures (forall r :: r in rules ==> r.permission != Read && r.permission != ReadWrite) ==>
              !Allowed(CoresOf(rules), identity, topic, AccessRead)
  {
    hide Hits;
  }

  /* A readwrite rule is a read rule and a write rule. */
  lemma ReadWriteIsBoth(before: seq<Rule>, rule: Rule, after: seq<Rule>, identity: Identity, topic: string, access: Access)
    requires rule.permission == ReadWrite
    ensures Allowed(CoresOf(before + [rule] + after), identity, topic, access)
         == Allowed(CoresOf(before + [rule.(permission := Read), rule.(permission := Write)] + after), identity, topic, access)
  {
    hide FilterFor, Matches;
    var read, write := rule.(permission := Read), rule.(permission := Write);
    var one, two := before + [rule] + after, before + [read, write] + after;
    assert forall r :: r in one <==> r in before || r == rule || r in after;
    assert forall r :: r in two <==> r in before || r == read || r == write || r in after;
    CoresMembers(one);
    CoresMembers(two);
    var a, b := CoresOf(one), CoresOf(two);
    forall c | c in a && c != rule.Meaning() ensures c in b {}
    forall c | c in b && c != read.Meaning() && c != write.Meaning() ensures c in a {}
    assert rule.Meaning() in a && read.Meaning() in b && write.Meaning() in b;
    SameHits(rule, read, identity, topic);
    SameHits(rule, write, identity, topic);
    SplitGrant(a, b, rule.Meaning(), read.Meaning(), write.Meaning(), identity, topic, access);
  }

  /* Who a rule is for and what it matches has nothing to do with its permission. */
  lemma SameHits(a: Rule, b: Rule, identity: Identity, topic: string)
    requires b == a.(permission := b.permission)
    ensures Hits(a.Meaning(), identity, topic) <==> Hits(b.Meaning(), identity, topic)
  {
    hide Matches, Substitute;
  }

  lemma SplitGrant(a: set<Core>, b: set<Core>, both: Core, read: Core, write: Core, identity: Identity, topic: string, access: Access)
    requires both in a && read in b && write in b
    requires both.permission == ReadWrite && read.permission == Read && write.permission == Write
    requires forall c :: c in a && c != both ==> c in b
    requires forall c :: c in b && c != read && c != write ==> c in a
    requires Hits(both, identity, topic) == Hits(read, identity, topic) == Hits(write, identity, topic)
    ensures Allowed(a, identity, topic, access) == Allowed(b, identity, topic, access)
  {
    hide Hits;
    assert Denied(a, identity, topic) == Denied(b, identity, topic);
    if Granted(a, identity, topic, access) {
      var c :| c in a && PermissionGrants(c.permission, access) && Hits(c, identity, topic);
      var d := if c != both then c else if access == AccessRead then read else write;
      assert d in b && PermissionGrants(d.permission, access) && Hits(d, identity, topic);
    }
    if Granted(b, identity, topic, access) {
      var c :| c in b && PermissionGrants(c.permission, access) && Hits(c, identity, topic);
      var d := if c == read || c == write then both else c;
      assert d in a && PermissionGrants(d.permission, access) && Hits(d, identity, topic);
    }
  }

  lemma CoresMembers(rules: seq<Rule>)
    ensures forall c :: c in CoresOf(rules) <==> exists r :: r in rules && r.Meaning() == c
    ensures forall r :: r in rules ==> r.Meaning() in CoresOf(rules)
  {
  }

  /* A rule for a client: for everybody a pattern with the names filled in, for a named client the rules
     of that name, for a client without a name the anonymous ones. */
  lemma OneRuleDecides(rule: Rule, identity: Identity, topic: string)
    ensures var hit := match rule.EffectiveSelector()
                       case Pattern => Matches(Substitute(rule.filter, identity), topic)
                       case User => identity.username != "" && rule.principal == identity.username && Matches(rule.filter, topic)
                       case Anonymous => identity.username == "" && Matches(rule.filter, topic)
                       case _ => false;
            && (Allowed(CoresOf([rule]), identity, topic, AccessRead) <==> hit && rule.permission in {Read, ReadWrite})
            && (Allowed(CoresOf([rule]), identity, topic, AccessWrite) <==> hit && rule.permission in {Write, ReadWrite})
  {
    hide Matches, Substitute;
    CoresMembers([rule]);
    assert CoresOf([rule]) == {rule.Meaning()};
  }

  /* A deny that stands alone against any grants wins. */
  lemma DenyWins(rules: seq<Rule>, deny: Rule, identity: Identity, topic: string, access: Access)
    requires deny in rules && deny.permission == Deny
    requires Allowed(CoresOf([deny.(permission := ReadWrite)]), identity, topic, AccessRead)
    ensures !Allowed(CoresOf(rules), identity, topic, access)
  {
    hide Hits;
    CoresMembers(rules);
    var grant := deny.(permission := ReadWrite);
    CoresMembers([grant]);
    assert CoresOf([grant]) == {grant.Meaning()};
    SameHits(deny, grant, identity, topic);
  }

  /* The rules that are not anonymous, or not of other users. */
  function Without(rules: seq<Rule>, dropped: Rule -> bool): (kept: seq<Rule>)
    ensures forall r :: r in kept <==> r in rules && !dropped(r)
  {
    if rules == [] then []
    else
      var n := |rules| - 1;
      var kept := Without(rules[..n], dropped);
      assert rules == rules[..n] + [rules[n]];
      if dropped(rules[n]) then kept else kept + [rules[n]]
  }

  /* The anonymous section is nothing to a named user, the sections of others are nothing to anybody. */
  lemma ForeignRulesDoNotMatter(rules: seq<Rule>, identity: Identity, topic: string, access: Access)
    ensures identity.username != "" ==>
              (Allowed(CoresOf(rules), identity, topic, access)
               == Allowed(CoresOf(Without(rules, (r: Rule) => r.EffectiveSelector() == Anonymous)), identity, topic, access))
    ensures Allowed(CoresOf(rules), identity, topic, access)
         == Allowed(CoresOf(Without(rules, (r: Rule) => r.EffectiveSelector() == User && r.principal != identity.username)),
                    identity, topic, access)
    ensures identity.username == "" ==>
              (Allowed(CoresOf(rules), identity, topic, access)
               == Allowed(CoresOf(Without(rules, (r: Rule) => r.EffectiveSelector() == User)), identity, topic, access))
  {
    var anonymous := (r: Rule) => r.EffectiveSelector() == Anonymous;
    var others := (r: Rule) => r.EffectiveSelector() == User && r.principal != identity.username;
    var users := (r: Rule) => r.EffectiveSelector() == User;
    if identity.username != "" {
      DroppedDoNotMatter(rules, anonymous, identity, topic, access);
    } else {
      DroppedDoNotMatter(rules, users, identity, topic, access);
    }
    DroppedDoNotMatter(rules, others, identity, topic, access);
  }

  lemma DroppedDoNotMatter(rules: seq<Rule>, dropped: Rule -> bool, identity: Identity, topic: string, access: Access)
    requires forall r :: dropped(r) ==> !Applies(r.Meaning(), identity)
    ensures Allowed(CoresOf(rules), identity, topic, access) == Allowed(CoresOf(Without(rules, dropped)), identity, topic, access)
  {
    hide Applies, FilterFor, Matches, PermissionGrants;
    CoresMembers(rules);
    CoresMembers(Without(rules, dropped));
    forall c | Hits(c, identity, topic) ensures c in CoresOf(rules) <==> c in CoresOf(Without(rules, dropped)) {}
  }

  // ---------------------------------------------------------------- the resolver

  datatype Reason = DenyCovers | GrantCovers | NothingGrants

  datatype Decision = Decision(allowed: bool, reason: Reason, matching: seq<Rule>)

  method ResolvedFilter(rule: Rule, identity: Identity) returns (filter: string)
    ensures filter == FilterFor(rule.Meaning(), identity)
  {
    filter := rule.filter;
    if rule.EffectiveSelector() == Pattern {
      filter := SubstitutePlaceholders(rule.filter, identity);
    }
  }

  method RuleHits(rule: Rule, identity: Identity, topic: string) returns (hit: bool)
    ensures hit == Hits(rule.Meaning(), identity, topic)
  {
    if !Applies(rule.Meaning(), identity) {
      return false;
    }
    var filter := ResolvedFilter(rule, identity);
    hit := TopicMatchesFilter(filter, topic);
  }

  /* The rules that hit, in order. */
  function HitRules(rules: seq<Rule>, identity: Identity, topic: string): seq<Rule> {
    if rules == [] then []
    else
      var n := |rules| - 1;
      var earlier := HitRules(rules[..n], identity, topic);
      if Hits(rules[n].Meaning(), identity, topic) then earlier + [rules[n]] else earlier
  }

  lemma {:induction false} HitRulesMembers(rules: seq<Rule>, identity: Identity, topic: string)
    ensures forall r :: r in HitRules(rules, identity, topic) <==> r in rules && Hits(r.Meaning(), identity, topic)
  {
    hide Hits;
    if rules != [] {
      var n := |rules| - 1;
      HitRulesMembers(rules[..n], identity, topic);
      assert rules == rules[..n] + [rules[n]];
    }
  }

  method EffectivePermission(rules: seq<Rule>, identity: Identity, topic: string, access: Access)
    returns (decision: Decision)
    ensures decision.allowed == Allowed(CoresOf(rules), identity, topic, access)
    ensures decision.reason.DenyCovers? <==> Denied(CoresOf(rules), identity, topic)
    ensures decision.reason.GrantCovers? <==> decision.allowed
    ensures decision.matching == HitRules(rules, identity, topic)
  {
    hide Hits;
    var matched: seq<Rule> := [];
    var denied, granted := false, false;
    for k := 0 to |rules|
      invariant matched == HitRules(rules[..k], identity, topic)
      invariant denied <==> exists r :: r in matched && r.permission == Deny
      invariant granted <==> exists r :: r in matched && PermissionGrants(r.permission, access)
    {
      var rule := rules[k];
      assert rules[..k + 1][..k] == rules[..k];
      var hit := RuleHits(rule, identity, topic);
      if hit {
        matched := matched + [rule];
        if rule.permission == Deny {
          denied := true;
        } else if PermissionGrants(rule.permission, access) {
          granted := true;
        }
      }
    }
    assert rules[..|rules|] == rules;
    HitRulesMembers(rules, identity, topic);
    MeaningWitnesses(rules, identity, topic, access);
    if denied {
      return Decision(false, DenyCovers, matched);
    } else if granted {
      return Decision(true, GrantCovers, matched);
    } else {
      return Decision(false, NothingGrants, matched);
    }
  }

  lemma MeaningWitnesses(rules: seq<Rule>, identity: Identity, topic: string, access: Access)
    ensures Denied(CoresOf(rules), identity, topic)
       <==> exists r :: r in rules && r.permission == Deny && Hits(r.Meaning(), identity, topic)
    ensures Granted(CoresOf(rules), identity, topic, access)
       <==> exists r :: r in rules && PermissionGrants(r.permission, access) && Hits(r.Meaning(), identity, topic)
  {
    forall r | r in rules ensures r.Meaning() in CoresOf(rules) {}
    if Denied(CoresOf(rules), identity, topic) {
      var c :| c in CoresOf(rules) && c.permission == Deny && Hits(c, identity, topic);
      var r :| r in rules && r.Meaning() == c;
      assert r.permission == Deny;
    }
    if Granted(CoresOf(rules), identity, topic, access) {
      var c :| c in CoresOf(rules) && PermissionGrants(c.permission, access) && Hits(c, identity, topic);
      var r :| r in rules && r.Meaning() == c;
      assert PermissionGrants(r.permission, access);
    }
  }

  // ---------------------------------------------------------------- the grants view

  datatype EffectiveGrant = EffectiveGrant(
    filter: string, permission: Permission, selector: Selector, principal: string,
    denied: bool, deniedBy: seq<string>)

  /* The filters of the deny rules that apply, in order. */
  function DenyFilters(rules: seq<Rule>, identity: Identity): seq<string> {
    if rules == [] then []
    else
      var n := |rules| - 1;
      var earlier := DenyFilters(rules[..n], identity);
      if rules[n].permission == Deny && Applies(rules[n].Meaning(), identity)
      then earlier + [FilterFor(rules[n].Meaning(), identity)] else earlier
  }

  lemma {:induction false} DenyFiltersMembers(rules: seq<Rule>, identity: Identity)
    ensures forall f :: f in DenyFilters(rules, identity) <==>
              exists d :: d in rules && d.permission == Deny && Applies(d.Meaning(), identity)
                          && FilterFor(d.Meaning(), identity) == f
  {
    hide Applies, FilterFor;
    if rules != [] {
      var n := |rules| - 1;
      DenyFiltersMembers(rules[..n], identity);
      assert rules == rules[..n] + [rules[n]];
    }
  }

  /* Those of the filters that cover a grant, in order. */
  function Covering(filters: seq<string>, grant: string): seq<string> {
    if filters == [] then []
    else
      var n := |filters| - 1;
      var earlier := Covering(filters[..n], grant);
      if Covers(filters[n], grant) then earlier + [filters[n]] else earlier
  }

  lemma {:induction false} CoveringMembers(filters: seq<string>, grant: string)
    ensures forall f :: f in Covering(filters, grant) <==> f in filters && Covers(f, grant)
  {
    hide Covers;
    if filters != [] {
      var n := |filters| - 1;
      CoveringMembers(filters[..n], grant);
      assert filters == filters[..n] + [filters[n]];
    }
  }

  /* The entry the view must show for one grant rule. */
  function ShownGrant(rules: seq<Rule>, identity: Identity, rule: Rule): EffectiveGrant {
    var filter := FilterFor(rule.Meaning(), identity);
    var deniedBy := Covering(DenyFilters(rules, identity), filter);
    EffectiveGrant(filter, rule.permission, rule.EffectiveSelector(), rule.principal, deniedBy != [], deniedBy)
  }

  predicate Listed(rule: Rule, identity: Identity) {
    rule.permission != Deny && Applies(rule.Meaning(), identity)
  }

  function GrantRules(rules: seq<Rule>, identity: Identity): seq<Rule> {
    if rules == [] then []
    else
      var last := rules[|rules| - 1];
      var init := GrantRules(rules[..|rules| - 1], identity);
      if Listed(last, identity) then init + [last] else init
  }

  lemma {:induction false} GrantRulesMembers(rules: seq<Rule>, identity: Identity)
    ensures forall r :: r in GrantRules(rules, identity) <==> r in rules && Listed(r, identity)
  {
    if rules != [] {
      GrantRulesMembers(rules[..|rules| - 1], identity);
      assert rules == rules[..|rules| - 1] + [rules[|rules| - 1]];
    }
  }

  function ShownGrants(rules: seq<Rule>, identity: Identity, listed: seq<Rule>): (grants: seq<EffectiveGrant>)
    ensures |grants| == |listed|
    ensures forall i :: 0 <= i < |listed| ==> grants[i] == ShownGrant(rules, identity, listed[i])
  {
    seq(|listed|, i requires 0 <= i < |listed| => ShownGrant(rules, identity, listed[i]))
  }

  // ---------------------------------------------------------------- display order

  /* The alphabetical order of the names of the selectors a grant can have. */
  function SelectorRank(selector: Selector): nat {
    match selector
    case Anonymous => 0
    case Pattern => 1
    case _ => 2
  }

  predicate Before(a: EffectiveGrant, b: EffectiveGrant) {
    || SelectorRank(a.selector) < SelectorRank(b.selector)
    || (SelectorRank(a.selector) == SelectorRank(b.selector)
        && (Less(a.principal, b.principal) || (a.principal == b.principal && Less(a.filter, b.filter))))
  }

  function InsertGrant(grant: EffectiveGrant, sorted: seq<EffectiveGrant>): seq<EffectiveGrant> {
    if sorted == [] || !Before(sorted[0], grant) then [grant] + sorted
    else [sorted[0]] + InsertGrant(grant, sorted[1..])
  }

  /* A stable sort: a grant goes in front of the later ones it is not behind. */
  function SortGrants(grants: seq<EffectiveGrant>): seq<EffectiveGrant> {
    if grants == [] then [] else InsertGrant(grants[0], SortGrants(grants[1..]))
  }

  predicate InOrder(grants: seq<EffectiveGrant>) {
    forall i, j :: 0 <= i < j < |grants| ==> !Before(grants[j], grants[i])
  }

  lemma NotBeforeTransitive(a: EffectiveGrant, b: EffectiveGrant, c: EffectiveGrant)
    requires !Before(b, a) && !Before(c, b)
    ensures !Before(c, a)
  {
    LessTotal(a.principal, b.principal);
    LessTotal(b.principal, c.principal);
    LessTotal(a.filter, b.filter);
    LessTotal(b.filter, c.filter);
    LessIrreflexive(a.principal);
    LessIrreflexive(a.filter);
    NotLessTransitive(a.principal, b.principal, c.principal);
    NotLessTransitive(a.filter, b.filter, c.filter);
  }

  lemma NotLessTransitive(a: string, b: string, c: string)
    ensures Less(a, b) && Less(b, c) ==> Less(a, c)
    ensures Less(a, c) ==> !Less(c, a)
  {
    if Less(a, b) && Less(b, c) {
      LessTransitive(a, b, c);
    }
    if Less(a, c) && Less(c, a) {
      LessTransitive(a, c, a);
      LessIrreflexive(a);
    }
  }

  lemma BeforeAsymmetric(a: EffectiveGrant, b: EffectiveGrant)
    requires Before(a, b)
    ensures !Before(b, a)
  {
    NotLessTransitive(a.principal, b.principal, b.principal);
    NotLessTransitive(a.filter, b.filter, b.filter);
    LessIrreflexive(a.principal);
  }

  lemma {:induction false} InsertGrantSorts(grant: EffectiveGrant, sorted: seq<EffectiveGrant>)
    requires InOrder(sorted)
    ensures InOrder(InsertGrant(grant, sorted))
    ensures multiset(InsertGrant(grant, sorted)) == multiset(sorted) + multiset{grant}
  {
    hide Before;
    if sorted == [] || !Before(sorted[0], grant) {
      forall j | 0 <= j < |sorted| ensures !Before(sorted[j], grant) {
        if j > 0 { NotBeforeTransitive(grant, sorted[0], sorted[j]); }
      }
    } else {
      var rest := sorted[1..];
      assert sorted == [sorted[0]] + rest;
      InsertGrantSorts(grant, rest);
      BeforeAsymmetric(sorted[0], grant);
      var more := InsertGrant(grant, rest);
      forall j | 0 <= j < |more| ensures !Before(more[j], sorted[0]) {
        assert more[j] in multiset(more);
        assert more[j] == grant || more[j] in rest;
      }
    }
  }

  /* The sort keeps every grant as often as it is there and puts none behind a later one. */
  lemma {:induction false} SortGrantsSorts(grants: seq<EffectiveGrant>)
    ensures InOrder(SortGrants(grants))
    ensures multiset(SortGrants(grants)) == multiset(grants)
  {
    hide Before, InsertGrant;
    if grants != [] {
      SortGrantsSorts(grants[1..]);
      InsertGrantSorts(grants[0], SortGrants(grants[1..]));
      assert grants == [grants[0]] + grants[1..];
    }
  }

  /* One entry per grant rule, in display order. */
  method EffectiveGrants(rules: seq<Rule>, identity: Identity) returns (grants: seq<EffectiveGrant>)
    ensures grants == SortGrants(ShownGrants(rules, identity, GrantRules(rules, identity)))
  {
    hide Applies, FilterFor, Covers;
    var denies: seq<string> := [];
    for k := 0 to |rules|
      invariant denies == DenyFilters(rules[..k], identity)
    {
      assert rules[..k + 1][..k] == rules[..k];
      if rules[k].permission == Deny && Applies(rules[k].Meaning(), identity) {
        var f := ResolvedFilter(rules[k], identity);
        denies := denies + [f];
      }
    }
    assert rules[..|rules|] == rules;
    var shown: seq<EffectiveGrant> := [];
    for k := 0 to |rules|
      invariant shown == ShownGrants(rules, identity, GrantRules(rules[..k], identity))
    {
      var rule := rules[k];
      assert rules[..k + 1][..k] == rules[..k];
      if Listed(rule, identity) {
        var filter := ResolvedFilter(rule, identity);
        var deniedBy := CoveringDenies(denies, filter);
        shown := shown + [EffectiveGrant(filter, rule.permission, rule.EffectiveSelector(), rule.principal,
                                         |deniedBy| > 0, deniedBy)];
      }
    }
    return SortGrants(shown);
  }

  method CoveringDenies(denies: seq<string>, filter: string) returns (deniedBy: seq<string>)
    ensures deniedBy == Covering(denies, filter)
  {
    hide Covers;
    deniedBy := [];
    for j := 0 to |denies|
      invariant deniedBy == Covering(denies[..j], filter)
    {
      assert denies[..j + 1][..j] == denies[..j];
      var covers := FilterCovers(denies[j], filter);
      if covers {
        deniedBy := deniedBy + [denies[j]];
      }
    }
    assert denies[..|denies|] == denies;
  }

  /* What the view shows: an entry for every grant rule, and no other. */
  ghost predicate GrantsView(rules: seq<Rule>, identity: Identity, grants: seq<EffectiveGrant>) {
    && (forall r :: r in GrantRules(rules, identity) ==> ShownGrant(rules, identity, r) in grants)
    && (forall g :: g in grants ==> exists r :: r in GrantRules(rules, identity) && g == ShownGrant(rules, identity, r))
  }

  lemma SortedIsView(rules: seq<Rule>, identity: Identity)
    ensures GrantsView(rules, identity, SortGrants(ShownGrants(rules, identity, GrantRules(rules, identity))))
    ensures InOrder(SortGrants(ShownGrants(rules, identity, GrantRules(rules, identity))))
  {
    hide ShownGrant, SortGrants, InOrder;
    var listed := GrantRules(rules, identity);
    var shown := ShownGrants(rules, identity, listed);
    SortGrantsSorts(shown);
    assert forall g :: g in SortGrants(shown) <==> g in multiset(SortGrants(shown));
    assert forall g :: g in shown <==> g in multiset(shown);
    forall r | r in listed ensures ShownGrant(rules, identity, r) in shown {
      var i :| 0 <= i < |listed| && listed[i] == r;
      assert shown[i] in shown;
    }
  }

  /* A shown grant names the filters of exactly those denies of the client that cover it, and is marked
     denied exactly when there is one. */
  lemma MarkedExactly(rules: seq<Rule>, identity: Identity, rule: Rule)
    ensures var grant := ShownGrant(rules, identity, rule);
            && (forall f :: f in grant.deniedBy <==>
                  Covers(f, grant.filter)
                  && exists d :: d in rules && d.permission == Deny && Applies(d.Meaning(), identity)
                                 && FilterFor(d.Meaning(), identity) == f)
            && (grant.denied <==>
                  exists d :: d in rules && d.permission == Deny && Applies(d.Meaning(), identity)
                              && Covers(FilterFor(d.Meaning(), identity), grant.filter))
  {
    hide FilterFor, Applies, Covers;
    var grant := ShownGrant(rules, identity, rule);
    DenyFiltersMembers(rules, identity);
    CoveringMembers(DenyFilters(rules, identity), grant.filter);
    if grant.denied {
      assert grant.deniedBy[0] in grant.deniedBy;
    }
    if d :| d in rules && d.permission == Deny && Applies(d.Meaning(), identity)
            && Covers(FilterFor(d.Meaning(), identity), grant.filter) {
      assert FilterFor(d.Meaning(), identity) in grant.deniedBy;
    }
  }

  /* A deny that covers a shown grant. */
  lemma DenyBehind(rules: seq<Rule>, identity: Identity, rule: Rule, topic: string)
    requires ShownGrant(rules, identity, rule).denied && Matches(ShownGrant(rules, identity, rule).filter, topic)
    ensures exists d :: d in rules && d.permission == Deny && Hits(d.Meaning(), identity, topic)
  {
    hide FilterFor, Applies, Matches, Covers;
    var grant := ShownGrant(rules, identity, rule);
    var f := grant.deniedBy[0];
    assert f in grant.deniedBy;
    DenyFiltersMembers(rules, identity);
    CoveringMembers(DenyFilters(rules, identity), grant.filter);
    var d :| d in rules && d.permission == Deny && Applies(d.Meaning(), identity) && FilterFor(d.Meaning(), identity) == f;
    CoversSound(f, grant.filter, topic);
    assert Hits(d.Meaning(), identity, topic);
  }

  /* A grant shown as denied is refused on every topic it matches, for both accesses. */
  lemma DeniedGrantIsRefused(rules: seq<Rule>, identity: Identity, grants: seq<EffectiveGrant>, grant: EffectiveGrant,
                             topic: string, access: Access)
    requires GrantsView(rules, identity, grants)
    requires grant in grants && grant.denied && Matches(grant.filter, topic)
    ensures !Allowed(CoresOf(rules), identity, topic, access)
  {
    hide ShownGrant, Matches, Hits;
    var r :| r in GrantRules(rules, identity) && grant == ShownGrant(rules, identity, r);
    DenyBehind(rules, identity, r, topic);
    MeaningWitnesses(rules, identity, topic, access);
  }

  /* Every allowed request is justified by a shown grant that is not marked denied. */
  lemma AllowedIsJustified(rules: seq<Rule>, identity: Identity, grants: seq<EffectiveGrant>,
                           topic: string, access: Access) returns (grant: EffectiveGrant)
    requires GrantsView(rules, identity, grants)
    requires Allowed(CoresOf(rules), identity, topic, access)
    ensures grant in grants && !grant.denied
    ensures Matches(grant.filter, topic) && PermissionGrants(grant.permission, access)
  {
    hide Matches, Applies, FilterFor;
    MeaningWitnesses(rules, identity, topic, access);
    var r :| r in rules && PermissionGrants(r.permission, access) && Hits(r.Meaning(), identity, topic);
    GrantRulesMembers(rules, identity);
    grant := ShownGrant(rules, identity, r);
    if grant.denied {
      DeniedGrantIsRefused(rules, identity, grants, grant, topic, access);
    }
  }

  /* For a request some shown grant matches and permits, "no shown grant is marked denied" is not
     enough: a deny that overlaps without covering still refuses part of it. Exactly: the request
     is allowed if and only if a shown grant permits it and no deny rule hits the topic. */
  lemma GrantsViewDecides(rules: seq<Rule>, identity: Identity, grants: seq<EffectiveGrant>,
                          topic: string, access: Access)
    requires GrantsView(rules, identity, grants)
    ensures Allowed(CoresOf(rules), identity, topic, access)
       <==> && !Denied(CoresOf(rules), identity, topic)
            && exists g :: g in grants && Matches(g.filter, topic) && PermissionGrants(g.permission, access)
  {
    hide Matches, Applies, FilterFor;
    if Allowed(CoresOf(rules), identity, topic, access) {
      var g := AllowedIsJustified(rules, identity, grants, topic, access);
    }
    if g :| g in grants && Matches(g.filter, topic) && PermissionGrants(g.permission, access) {
      GrantRulesMembers(rules, identity);
      var r :| r in GrantRules(rules, identity) && g == ShownGrant(rules, identity, r);
      assert Hits(r.Meaning(), identity, topic);
      MeaningWitnesses(rules, identity, topic, access);
    }
  }
}
