/**
 Where the managed rules end up in a composed document (`ComposeACLDocument`, internal/mosquitto/acldoc.go):
 behind the topics of their own section, in the order of the list, and nowhere else.
 */
module CompositionPlaces {
  import opened Options
  import opened Rules
  import opened AclDocument
  import opened Composition

  // ---------------------------------------------------------------- the rules of a section

  /* The topics of a principal up to the next header. */
  function TopicsAhead(entries: seq<Entry>, principal: string): seq<Entry> {
    if entries == [] || entries[0].kind == UserHeader then []
    else (if IsTopicOf(entries[0], principal) then [entries[0]] else []) + TopicsAhead(entries[1..], principal)
  }

  /* The topics of the first section of a principal. */
  function SectionTopics(entries: seq<Entry>, principal: string): seq<Entry> {
    if entries == [] then []
    else if IsHeader(entries[0], principal) then TopicsAhead(entries[1..], principal)
    else SectionTopics(entries[1..], principal)
  }

  /* The entries of a kind before the first header. */
  function Leading(entries: seq<Entry>, kind: Kind): seq<Entry> {
    if entries == [] || entries[0].kind == UserHeader then []
    else (if entries[0].kind == kind then [entries[0]] else []) + Leading(entries[1..], kind)
  }

  // ---------------------------------------------------------------- the rules that are inserted

  /* The managed rules whose key neither the source nor an earlier managed rule has. */
  function InsertedRules(source: seq<Entry>, managed: seq<Rule>): seq<Rule> {
    if managed == [] then []
    else
      var n := |managed| - 1;
      var earlier := InsertedRules(source, managed[..n]);
      if ManagedRuleKey(managed[n]) in Keys(source) + ManagedKeys(managed[..n]) then earlier
      else earlier + [managed[n].Normalize()]
  }

  /* Where in a document a rule belongs. */
  datatype Section = PatternSection | AnonymousSection | SectionOf(principal: string)

  function Belongs(rule: Rule): Section {
    if rule.EffectiveSelector() == Pattern then PatternSection
    else if rule.EffectiveSelector() == Anonymous then AnonymousSection
    else SectionOf(rule.principal)
  }

  function RuleEntry(rule: Rule): Entry {
    match Belongs(rule)
    case PatternSection => Entry(PatternEntry, PatternLine(rule), "", Some(rule))
    case AnonymousSection => Entry(TopicEntry, TopicLine(rule), "", Some(rule))
    case SectionOf(principal) => Entry(TopicEntry, TopicLine(rule), principal, Some(rule))
  }

  /* Those of one section, in order, as entries. */
  function EntriesOf(rules: seq<Rule>, section: Section): seq<Entry> {
    if rules == [] then []
    else
      var n := |rules| - 1;
      var earlier := EntriesOf(rules[..n], section);
      if Belongs(rules[n]) == section then earlier + [RuleEntry(rules[n])] else earlier
  }

  /* What a document holds in a section: the topics of the first section of a principal, or what of its
     kind comes before the first header. */
  function Held(entries: seq<Entry>, section: Section): seq<Entry> {
    match section
    case PatternSection => Leading(entries, PatternEntry)
    case AnonymousSection => Leading(entries, TopicEntry)
    case SectionOf(principal) => SectionTopics(entries, principal)
  }

  // ---------------------------------------------------------------- one insertion

  /* A topic put where the section ends is the last one of the section. */
  lemma {:induction false} AheadGrows(entries: seq<Entry>, principal: string, i: nat, e: Entry)
    requires i <= |entries| && NoHeaders(entries, 0, i) && IsTopicOf(e, principal)
    requires forall k :: i <= k < |entries| && NoHeaders(entries, i, k + 1) ==> !IsTopicOf(entries[k], principal)
    ensures TopicsAhead(Insert(entries, i, e), principal) == TopicsAhead(entries, principal) + [e]
  {
    var after := Insert(entries, i, e);
    if i == 0 {
      NothingAhead(entries, principal);
      assert after[1..] == entries;
    } else {
      var rest := entries[1..];
      forall k | i - 1 <= k < |rest| && NoHeaders(rest, i - 1, k + 1) ensures !IsTopicOf(rest[k], principal) {
        assert rest[k] == entries[k + 1];
        assert NoHeaders(entries, i, k + 2) by {
          forall m | i <= m < k + 2 ensures entries[m].kind != UserHeader { assert entries[m] == rest[m - 1]; }
        }
      }
      AheadGrows(rest, principal, i - 1, e);
      assert after[1..] == Insert(rest, i - 1, e);
    }
  }

  lemma {:induction false} NothingAhead(entries: seq<Entry>, principal: string)
    requires forall k :: 0 <= k < |entries| && NoHeaders(entries, 0, k + 1) ==> !IsTopicOf(entries[k], principal)
    ensures TopicsAhead(entries, principal) == []
  {
    if entries != [] && entries[0].kind != UserHeader {
      var rest := entries[1..];
      assert NoHeaders(entries, 0, 1);
      forall k | 0 <= k < |rest| && NoHeaders(rest, 0, k + 1) ensures !IsTopicOf(rest[k], principal) {
        assert rest[k] == entries[k + 1];
        assert NoHeaders(entries, 0, k + 2) by {
          forall m | 0 <= m < k + 2 ensures entries[m].kind != UserHeader { assert m > 0 ==> entries[m] == rest[m - 1]; }
        }
      }
      NothingAhead(rest, principal);
    }
  }

  /* What neither is a header nor a topic of the principal leaves the topics ahead alone. */
  lemma {:induction false} AheadKept(entries: seq<Entry>, principal: string, i: nat, e: Entry)
    requires i <= |entries| && e.kind != UserHeader && !IsTopicOf(e, principal)
    ensures TopicsAhead(Insert(entries, i, e), principal) == TopicsAhead(entries, principal)
  {
    var after := Insert(entries, i, e);
    if i == 0 {
      assert after[1..] == entries;
    } else if entries[0].kind != UserHeader {
      AheadKept(entries[1..], principal, i - 1, e);
      assert after[1..] == Insert(entries[1..], i - 1, e);
    }
  }

  lemma {:induction false} SectionKept(entries: seq<Entry>, principal: string, i: nat, e: Entry)
    requires i <= |entries| && e.kind != UserHeader && !IsTopicOf(e, principal)
    ensures SectionTopics(Insert(entries, i, e), principal) == SectionTopics(entries, principal)
  {
    var after := Insert(entries, i, e);
    if i == 0 {
      assert after[1..] == entries;
    } else {
      assert after[1..] == Insert(entries[1..], i - 1, e);
      if IsHeader(entries[0], principal) {
        AheadKept(entries[1..], principal, i - 1, e);
      } else {
        SectionKept(entries[1..], principal, i - 1, e);
      }
    }
  }

  lemma {:induction false} SectionGrows(entries: seq<Entry>, principal: string, h: nat, index: nat, e: Entry)
    requires EndsSection(entries, principal, h, index) && IsTopicOf(e, principal)
    ensures SectionTopics(Insert(entries, index, e), principal) == SectionTopics(entries, principal) + [e]
  {
    var after, rest := Insert(entries, index, e), entries[1..];
    assert after[1..] == Insert(rest, index - 1, e);
    assert after[0] == entries[0];
    EndsSectionAhead(entries, principal, h, index);
    if h == 0 {
      AheadGrows(rest, principal, index - 1, e);
    } else {
      SectionGrows(rest, principal, h - 1, index - 1, e);
    }
  }

  /* The end of a section, seen from behind the first entry. */
  lemma EndsSectionAhead(entries: seq<Entry>, principal: string, h: nat, index: nat)
    requires EndsSection(entries, principal, h, index)
    ensures var rest := entries[1..];
            && index - 1 <= |rest|
            && (forall k :: index - 1 <= k < |rest| && NoHeaders(rest, index - 1, k + 1) ==> !IsTopicOf(rest[k], principal))
            && (h == 0 ==> NoHeaders(rest, 0, index - 1))
            && (h > 0 ==> EndsSection(rest, principal, h - 1, index - 1))
  {
    var rest := entries[1..];
    forall k | index - 1 <= k < |rest| && NoHeaders(rest, index - 1, k + 1) ensures !IsTopicOf(rest[k], principal) {
      assert rest[k] == entries[k + 1];
      assert NoHeaders(entries, index, k + 2) by {
        forall m | index <= m < k + 2 ensures entries[m].kind != UserHeader { assert entries[m] == rest[m - 1]; }
      }
    }
    forall m | h <= m < index - 1 ensures rest[m].kind != UserHeader { assert rest[m] == entries[m + 1]; }
    if h > 0 {
      assert rest[h - 1] == entries[h];
      forall k | 0 <= k < h - 1 ensures !IsHeader(rest[k], principal) { assert rest[k] == entries[k + 1]; }
      assert rest[index - 2] == entries[index - 1];
    }
  }

  /* A new section at the end. */
  lemma {:induction false} SectionOpens(entries: seq<Entry>, header: Entry, e: Entry, principal: string)
    requires header.kind == UserHeader && e.kind == TopicEntry && header.principal == e.principal
    requires header.principal == principal ==> forall k :: 0 <= k < |entries| ==> !IsHeader(entries[k], principal)
    ensures SectionTopics(entries + [header, e], principal)
         == if header.principal == principal then [e] else SectionTopics(entries, principal)
  {
    var after := entries + [header, e];
    if entries == [] {
      assert after[1..] == [e] && [e][1..] == [];
      assert SectionTopics([e], principal) == [];
      assert TopicsAhead([e], principal) == if e.principal == principal then [e] else [];
    } else {
      assert after[1..] == entries[1..] + [header, e];
      if IsHeader(entries[0], principal) {
        AheadOfSection(entries[1..], header, e, principal);
      } else {
        forall k | 0 <= k < |entries[1..]| && header.principal == principal ensures !IsHeader(entries[1..][k], principal) {
          assert entries[1..][k] == entries[k + 1];
        }
        SectionOpens(entries[1..], header, e, principal);
      }
    }
  }

  lemma {:induction false} AheadOfSection(entries: seq<Entry>, header: Entry, e: Entry, principal: string)
    requires header.kind == UserHeader
    ensures TopicsAhead(entries + [header, e], principal) == TopicsAhead(entries, principal)
  {
    if entries != [] && entries[0].kind != UserHeader {
      assert (entries + [header, e])[1..] == entries[1..] + [header, e];
      AheadOfSection(entries[1..], header, e, principal);
    }
  }

  // ---------------------------------------------------------------- before the first header

  /* An entry put before the first header, behind the last of its kind there. */
  lemma {:induction false} LeadingGrows(entries: seq<Entry>, i: nat, e: Entry)
    requires i <= |entries| && NoHeaders(entries, 0, i) && e.kind != UserHeader
    requires forall k :: i <= k < |entries| && NoHeaders(entries, i, k + 1) ==> entries[k].kind != e.kind
    ensures Leading(Insert(entries, i, e), e.kind) == Leading(entries, e.kind) + [e]
  {
    var after := Insert(entries, i, e);
    if i == 0 {
      NothingLeads(entries, e.kind);
      assert after[1..] == entries;
    } else {
      var rest := entries[1..];
      forall k | i - 1 <= k < |rest| && NoHeaders(rest, i - 1, k + 1) ensures rest[k].kind != e.kind {
        assert rest[k] == entries[k + 1];
        assert NoHeaders(entries, i, k + 2) by {
          forall m | i <= m < k + 2 ensures entries[m].kind != UserHeader { assert entries[m] == rest[m - 1]; }
        }
      }
      LeadingGrows(rest, i - 1, e);
      assert after[1..] == Insert(rest, i - 1, e) && after[0] == entries[0];
    }
  }

  /* An entry of another kind. */
  lemma {:induction false} LeadingSame(entries: seq<Entry>, kind: Kind, i: nat, e: Entry)
    requires i <= |entries| && e.kind != UserHeader && e.kind != kind
    ensures Leading(Insert(entries, i, e), kind) == Leading(entries, kind)
  {
    var after := Insert(entries, i, e);
    if i == 0 {
      assert after[1..] == entries;
    } else {
      LeadingSame(entries[1..], kind, i - 1, e);
      assert after[1..] == Insert(entries[1..], i - 1, e) && after[0] == entries[0];
    }
  }

  lemma {:induction false} NothingLeads(entries: seq<Entry>, kind: Kind)
    requires forall k :: 0 <= k < |entries| && NoHeaders(entries, 0, k + 1) ==> entries[k].kind != kind
    ensures Leading(entries, kind) == []
  {
    if entries != [] && entries[0].kind != UserHeader {
      var rest := entries[1..];
      assert NoHeaders(entries, 0, 1);
      forall k | 0 <= k < |rest| && NoHeaders(rest, 0, k + 1) ensures rest[k].kind != kind {
        assert rest[k] == entries[k + 1];
        assert NoHeaders(entries, 0, k + 2) by {
          forall m | 0 <= m < k + 2 ensures entries[m].kind != UserHeader { assert m > 0 ==> entries[m] == rest[m - 1]; }
        }
      }
      NothingLeads(rest, kind);
    }
  }

  /* Nothing behind the first header leads. */
  lemma {:induction false} LeadingUntilHeader(entries: seq<Entry>, kind: Kind, h: nat, other: seq<Entry>)
    requires h < |entries| && h < |other| && entries[h].kind == other[h].kind == UserHeader && entries[..h] == other[..h]
    ensures Leading(other, kind) == Leading(entries, kind)
  {
    if h > 0 {
      assert entries[0] == entries[..h][0] == other[0];
      if entries[0].kind != UserHeader {
        assert entries[1..][..h - 1] == entries[..h][1..] && other[1..][..h - 1] == other[..h][1..];
        LeadingUntilHeader(entries[1..], kind, h - 1, other[1..]);
      }
    }
  }

  lemma {:induction false} LeadingBeforeHeader(entries: seq<Entry>, kind: Kind, tail: seq<Entry>)
    requires tail != [] && tail[0].kind == UserHeader
    ensures Leading(entries + tail, kind) == Leading(entries, kind)
  {
    if entries == [] {
      assert entries + tail == tail;
    } else {
      assert (entries + tail)[1..] == entries[1..] + tail;
      LeadingBeforeHeader(entries[1..], kind, tail);
    }
  }

  // ---------------------------------------------------------------- one rule

  /* At the first header nothing more leads. */
  lemma NothingBehind(entries: seq<Entry>, i: nat, kind: Kind)
    requires PatternPlace(entries, i) && kind != UserHeader
    ensures forall k :: i <= k < |entries| && NoHeaders(entries, i, k + 1) ==> entries[k].kind != kind
  {
  }

  lemma PatternPlaced(entries: seq<Entry>, rule: Rule, section: Section)
    requires Belongs(rule) == PatternSection && section != SectionOf("")
    ensures Held(InsertRule(entries, rule), section)
         == if section == PatternSection then Held(entries, section) + [RuleEntry(rule)] else Held(entries, section)
  {
    hide Leading, SectionTopics, FirstHeader;
    FirstHeaderPlace(entries);
    var i, e := FirstHeader(entries), RuleEntry(rule);
    assert InsertRule(entries, rule) == Insert(entries, i, e);
    match section
    case PatternSection =>
      NothingBehind(entries, i, PatternEntry);
      LeadingGrows(entries, i, e);
    case AnonymousSection => LeadingSame(entries, TopicEntry, i, e);
    case SectionOf(principal) => SectionKept(entries, principal, i, e);
  }

  lemma AnonymousPlaced(entries: seq<Entry>, rule: Rule, section: Section)
    requires Belongs(rule) == AnonymousSection && section != SectionOf("")
    ensures Held(InsertRule(entries, rule), section)
         == if section == AnonymousSection then Held(entries, section) + [RuleEntry(rule)] else Held(entries, section)
  {
    hide Leading, SectionTopics, AnonymousEnd;
    AnonymousEndPlace(entries);
    var i, e := AnonymousEnd(entries), RuleEntry(rule);
    assert InsertRule(entries, rule) == Insert(entries, i, e);
    match section
    case PatternSection => LeadingSame(entries, PatternEntry, i, e);
    case AnonymousSection => LeadingGrows(entries, i, e);
    case SectionOf(principal) => SectionKept(entries, principal, i, e);
  }

  /* A user rule goes behind the header of its section. */
  lemma UserLeading(entries: seq<Entry>, rule: Rule, kind: Kind)
    requires Belongs(rule) == SectionOf(rule.principal)
    ensures Leading(InsertRule(entries, rule), kind) == Leading(entries, kind)
  {
    hide Leading, InsertRule;
    UserIndexPlace(entries, rule.principal);
    var (index, needsHeader) := UserInsertIndex(entries, rule.principal);
    if needsHeader {
      NewSection(entries, rule);
      LeadingBeforeHeader(entries, kind, [Header(rule.principal), RuleEntry(rule)]);
    } else {
      var h: nat :| EndsSection(entries, rule.principal, h, index);
      JoinsSection(entries, rule);
      var after := Insert(entries, index, RuleEntry(rule));
      assert after[h] == entries[h] && after[..h] == entries[..h];
      LeadingUntilHeader(entries, kind, h, after);
    }
  }

  lemma NewSection(entries: seq<Entry>, rule: Rule)
    requires Belongs(rule) == SectionOf(rule.principal) && UserInsertIndex(entries, rule.principal) == (|entries|, true)
    ensures InsertRule(entries, rule) == entries + [Header(rule.principal), RuleEntry(rule)]
  {
    var n := |entries|;
    assert Insert(entries, n, Header(rule.principal)) == entries + [Header(rule.principal)];
  }

  lemma JoinsSection(entries: seq<Entry>, rule: Rule)
    requires Belongs(rule) == SectionOf(rule.principal) && !UserInsertIndex(entries, rule.principal).1
    ensures InsertRule(entries, rule) == Insert(entries, UserInsertIndex(entries, rule.principal).0, RuleEntry(rule))
  {
    hide FindHeader, SectionEnd;
  }

  lemma UserPlaced(entries: seq<Entry>, rule: Rule, principal: string)
    requires Belongs(rule) == SectionOf(rule.principal)
    ensures SectionTopics(InsertRule(entries, rule), principal)
         == if principal == rule.principal then SectionTopics(entries, principal) + [RuleEntry(rule)]
            else SectionTopics(entries, principal)
  {
    hide SectionTopics, InsertRule;
    UserIndexPlace(entries, rule.principal);
    var (index, needsHeader) := UserInsertIndex(entries, rule.principal);
    var e := RuleEntry(rule);
    if needsHeader {
      NewSection(entries, rule);
      SectionOpens(entries, Header(rule.principal), e, principal);
      if principal == rule.principal {
        NoSection(entries, principal);
      }
    } else if principal == rule.principal {
      JoinsSection(entries, rule);
      var h: nat :| EndsSection(entries, principal, h, index);
      SectionGrows(entries, principal, h, index, e);
    } else {
      JoinsSection(entries, rule);
      SectionKept(entries, principal, index, e);
    }
  }

  lemma {:induction false} NoSection(entries: seq<Entry>, principal: string)
    requires forall k :: 0 <= k < |entries| ==> !IsHeader(entries[k], principal)
    ensures SectionTopics(entries, principal) == []
  {
    if entries != [] {
      forall k | 0 <= k < |entries[1..]| ensures !IsHeader(entries[1..][k], principal) { assert entries[1..][k] == entries[k + 1]; }
      NoSection(entries[1..], principal);
    }
  }

  lemma RulePlaced(entries: seq<Entry>, rule: Rule, section: Section)
    requires section != SectionOf("")
    ensures Held(InsertRule(entries, rule), section)
         == if section == Belongs(rule) then Held(entries, section) + [RuleEntry(rule)] else Held(entries, section)
  {
    hide Leading, SectionTopics, InsertRule, RuleEntry;
    match Belongs(rule)
    case PatternSection => PatternPlaced(entries, rule, section);
    case AnonymousSection => AnonymousPlaced(entries, rule, section);
    case SectionOf(p) =>
      if section.SectionOf? {
        UserPlaced(entries, rule, section.principal);
      } else {
        UserLeading(entries, rule, if section == PatternSection then PatternEntry else TopicEntry);
      }
  }

  /* Main theorem: in every section the source's rules come first, as they were, and then the managed
     rules of that section that were inserted, in the order of the list. */
  lemma {:induction false} ManagedRulesPlaced(source: seq<Entry>, managed: seq<Rule>, section: Section)
    requires section != SectionOf("")
    ensures Held(ComposeAll(source, managed), section)
         == Held(source, section) + EntriesOf(InsertedRules(source, managed), section)
  {
    hide Held, InsertRule, Keys, ManagedKeys, ManagedRuleKey, Belongs, RuleEntry, EntriesOf;
    NoEntries(section);
    if managed != [] {
      var n := |managed| - 1;
      ManagedRulesPlaced(source, managed[..n], section);
      if ManagedRuleKey(managed[n]) !in Keys(source) + ManagedKeys(managed[..n]) {
        var rule := managed[n].Normalize();
        RulePlaced(ComposeAll(source, managed[..n]), rule, section);
        EntriesSnoc(InsertedRules(source, managed[..n]), rule, section);
      }
    }
  }

  lemma NoEntries(section: Section)
    ensures EntriesOf([], section) == []
  {
  }

  lemma EntriesSnoc(rules: seq<Rule>, rule: Rule, section: Section)
    ensures EntriesOf(rules + [rule], section)
         == if Belongs(rule) == section then EntriesOf(rules, section) + [RuleEntry(rule)] else EntriesOf(rules, section)
  {
    hide Belongs, RuleEntry;
    assert (rules + [rule])[..|rules|] == rules;
  }
}
