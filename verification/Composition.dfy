/**
 Merging the managed rules into an adopted ACL document (`ComposeACLDocument`,
 internal/mosquitto/acldoc.go).

 Rules are spliced into the sections they belong to, and a rule whose key is taken is skipped.
 */
module Composition {
  import opened Options
  import opened Strings
  import opened Rules
  import opened AclDocument

  // ---------------------------------------------------------------- where a rule must go

  predicate IsHeader(e: Entry, principal: string) {
    e.kind == UserHeader && e.principal == principal
  }

  predicate IsTopicOf(e: Entry, principal: string) {
    e.kind == TopicEntry && e.principal == principal
  }

  /* No header from one index up to the other, which is not looked at. */
  predicate NoHeaders(entries: seq<Entry>, from: nat, to: nat)
    requires to <= |entries|
  {
    forall k :: from <= k < to ==> entries[k].kind != UserHeader
  }

  predicate FirstHeaderOf(entries: seq<Entry>, principal: string, h: nat) {
    h < |entries| && IsHeader(entries[h], principal) && forall k :: 0 <= k < h ==> !IsHeader(entries[k], principal)
  }

  /* The index is behind the last topic of the principal in its first section, or behind the header of
     that section when it has none. */
  ghost predicate EndsSection(entries: seq<Entry>, principal: string, h: nat, index: nat) {
    && FirstHeaderOf(entries, principal, h) && h < index <= |entries| && NoHeaders(entries, h + 1, index)
    && (index - 1 == h || IsTopicOf(entries[index - 1], principal))
    && forall k :: index <= k < |entries| && NoHeaders(entries, index, k + 1) ==> !IsTopicOf(entries[k], principal)
  }

  /* A user rule joins the first section of its principal, or a new section at the end. */
  ghost predicate UserPlace(entries: seq<Entry>, principal: string, index: nat, needsHeader: bool) {
    && (needsHeader <==> forall k :: 0 <= k < |entries| ==> !IsHeader(entries[k], principal))
    && (needsHeader ==> index == |entries|)
    && (!needsHeader ==> exists h :: EndsSection(entries, principal, h, index))
  }

  /* A pattern goes before the first header of all. */
  predicate PatternPlace(entries: seq<Entry>, index: nat) {
    index <= |entries| && NoHeaders(entries, 0, index) && (index < |entries| ==> entries[index].kind == UserHeader)
  }

  /* An anonymous topic goes behind the last topic before the first header, or to the very beginning. */
  predicate AnonymousPlace(entries: seq<Entry>, index: nat) {
    && index <= |entries| && NoHeaders(entries, 0, index)
    && (index == 0 || entries[index - 1].kind == TopicEntry)
    && forall k :: index <= k < |entries| && NoHeaders(entries, index, k + 1) ==> entries[k].kind != TopicEntry
  }

  // ---------------------------------------------------------------- where a rule goes

  /* The first index from `from` on that holds the header of the principal, or the length. */
  function FindHeader(entries: seq<Entry>, principal: string, from: nat): (i: nat)
    requires from <= |entries|
    ensures from <= i <= |entries|
    ensures i < |entries| ==> entries[i].kind == UserHeader && entries[i].principal == principal
    decreases |entries| - from
  {
    if from == |entries| then from
    else if entries[from].kind == UserHeader && entries[from].principal == principal then from
    else FindHeader(entries, principal, from + 1)
  }

  /* The end of the section's rules: after the last topic of the principal before the next header. */
  function SectionEnd(entries: seq<Entry>, principal: string, from: nat, best: nat): (i: nat)
    requires best <= from <= |entries|
    ensures best <= i <= |entries|
    ensures forall k :: from <= k < i ==> entries[k].kind != UserHeader
    decreases |entries| - from
  {
    if from == |entries| || entries[from].kind == UserHeader then best
    else SectionEnd(entries, principal, from + 1,
                    if entries[from].kind == TopicEntry && entries[from].principal == principal then from + 1 else best)
  }

  function UserInsertIndex(entries: seq<Entry>, principal: string): (r: (nat, bool))
    ensures r.0 <= |entries|
  {
    var header := FindHeader(entries, principal, 0);
    if header == |entries| then (|entries|, true)
    else (SectionEnd(entries, principal, header + 1, header + 1), false)
  }

  lemma {:induction false} FoundHeader(entries: seq<Entry>, principal: string, from: nat)
    requires from <= |entries| && forall k :: 0 <= k < from ==> !IsHeader(entries[k], principal)
    ensures var h := FindHeader(entries, principal, from);
            if h < |entries| then FirstHeaderOf(entries, principal, h)
            else forall k :: 0 <= k < |entries| ==> !IsHeader(entries[k], principal)
    decreases |entries| - from
  {
    if from < |entries| && !IsHeader(entries[from], principal) {
      FoundHeader(entries, principal, from + 1);
    }
  }

  /* `best` is the place as far as it has been looked. */
  lemma {:induction false} FoundEnd(entries: seq<Entry>, principal: string, h: nat, from: nat, best: nat)
    requires FirstHeaderOf(entries, principal, h) && h < best <= from <= |entries| && NoHeaders(entries, h + 1, from)
    requires best - 1 == h || IsTopicOf(entries[best - 1], principal)
    requires forall k :: best <= k < from ==> !IsTopicOf(entries[k], principal)
    ensures EndsSection(entries, principal, h, SectionEnd(entries, principal, from, best))
    decreases |entries| - from
  {
    if from == |entries| {
    } else if entries[from].kind == UserHeader {
      forall k | best <= k < |entries| && NoHeaders(entries, best, k + 1) ensures !IsTopicOf(entries[k], principal) {
        if from <= k {
          assert false;
        }
      }
    } else {
      FoundEnd(entries, principal, h, from + 1, if IsTopicOf(entries[from], principal) then from + 1 else best);
    }
  }

  lemma UserIndexPlace(entries: seq<Entry>, principal: string)
    ensures var (index, needsHeader) := UserInsertIndex(entries, principal); UserPlace(entries, principal, index, needsHeader)
  {
    FoundHeader(entries, principal, 0);
    var h := FindHeader(entries, principal, 0);
    if h < |entries| {
      FoundEnd(entries, principal, h, h + 1, h + 1);
    }
  }

  method ComposeUserInsertIndex(entries: seq<Entry>, principal: string) returns (index: nat, needsHeader: bool)
    ensures (index, needsHeader) == UserInsertIndex(entries, principal)
    ensures UserPlace(entries, principal, index, needsHeader)
  {
    hide UserPlace;
    UserIndexPlace(entries, principal);
    for i := 0 to |entries|
      invariant FindHeader(entries, principal, 0) == FindHeader(entries, principal, i)
    {
      if entries[i].kind == UserHeader && entries[i].principal == principal {
        var insertAt := i + 1;
        var j := i + 1;
        while j < |entries| && entries[j].kind != UserHeader
          invariant i + 1 <= insertAt <= j <= |entries|
          invariant SectionEnd(entries, principal, i + 1, i + 1) == SectionEnd(entries, principal, j, insertAt)
        {
          if entries[j].kind == TopicEntry && entries[j].principal == principal {
            insertAt := j + 1;
          }
          j := j + 1;
        }
        return insertAt, false;
      }
    }
    return |entries|, true;
  }

  /* The index of the first `user` header, or the length. */
  function FirstHeader(entries: seq<Entry>): (i: nat)
    ensures i <= |entries|
    ensures forall k :: 0 <= k < i ==> entries[k].kind != UserHeader
  {
    if entries == [] || entries[0].kind == UserHeader then 0 else 1 + FirstHeader(entries[1..])
  }

  /* After the last topic of the anonymous section, or the very beginning. */
  function AnonymousEnd(entries: seq<Entry>): (i: nat)
    ensures i <= FirstHeader(entries)
  {
    if entries == [] || entries[0].kind == UserHeader then 0
    else
      var rest := AnonymousEnd(entries[1..]);
      if rest > 0 then rest + 1
      else if entries[0].kind == TopicEntry then 1
      else 0
  }

  lemma {:induction false} FirstHeaderPlace(entries: seq<Entry>)
    ensures PatternPlace(entries, FirstHeader(entries))
  {
    if entries != [] && entries[0].kind != UserHeader {
      FirstHeaderPlace(entries[1..]);
    }
  }

  lemma {:induction false} AnonymousEndPlace(entries: seq<Entry>)
    ensures AnonymousPlace(entries, AnonymousEnd(entries))
  {
    if entries != [] && entries[0].kind != UserHeader {
      var rest, index := entries[1..], AnonymousEnd(entries);
      AnonymousEndPlace(rest);
      forall k | index <= k < |entries| && NoHeaders(entries, index, k + 1) ensures entries[k].kind != TopicEntry {
        if k > 0 {
          var end := AnonymousEnd(rest);
          assert rest[k - 1] == entries[k];
          assert NoHeaders(rest, end, k) by {
            forall m | end <= m < k ensures rest[m].kind != UserHeader { assert rest[m] == entries[m + 1]; }
          }
        }
      }
    }
  }

  method ComposeInsertIndex(entries: seq<Entry>, selector: Selector) returns (index: nat)
    requires selector == Pattern || selector == Anonymous
    ensures index == if selector == Pattern then FirstHeader(entries) else AnonymousEnd(entries)
    ensures if selector == Pattern then PatternPlace(entries, index) else AnonymousPlace(entries, index)
  {
    hide PatternPlace, AnonymousPlace;
    FirstHeaderPlace(entries);
    AnonymousEndPlace(entries);
    var last := -1;
    var i := 0;
    while i < |entries| && entries[i].kind != UserHeader
      invariant 0 <= i <= |entries| && -1 <= last < i
      invariant FirstHeader(entries) == i + FirstHeader(entries[i..])
      invariant AnonymousEnd(entries)
             == if AnonymousEnd(entries[i..]) > 0 then i + AnonymousEnd(entries[i..]) else last + 1
    {
      assert entries[i..][1..] == entries[i + 1..];
      if entries[i].kind == TopicEntry {
        last := i;
      }
      i := i + 1;
    }
    index := if selector == Pattern then i else last + 1;
  }

  // ---------------------------------------------------------------- composition

  function Insert<T>(s: seq<T>, i: nat, x: T): seq<T>
    requires i <= |s|
  {
    s[..i] + [x] + s[i..]
  }

  function InsertRule(entries: seq<Entry>, rule: Rule): seq<Entry> {
    if rule.EffectiveSelector() == Pattern then
      Insert(entries, FirstHeader(entries), Entry(PatternEntry, PatternLine(rule), "", Some(rule)))
    else if rule.EffectiveSelector() == Anonymous then
      Insert(entries, AnonymousEnd(entries), Entry(TopicEntry, TopicLine(rule), "", Some(rule)))
    else InsertUserRule(entries, rule)
  }

  function InsertUserRule(entries: seq<Entry>, rule: Rule): seq<Entry> {
    var (index, needsHeader) := UserInsertIndex(entries, rule.principal);
    var entry := Entry(TopicEntry, TopicLine(rule), rule.principal, Some(rule));
    if needsHeader then
      Insert(Insert(entries, index, Header(rule.principal)), index + 1, entry)
    else Insert(entries, index, entry)
  }

  function Header(principal: string): Entry {
    Entry(UserHeader, "user " + principal, principal, None)
  }

  function ManagedKeys(managed: seq<Rule>): set<string> {
    set r | r in managed :: ManagedRuleKey(r)
  }

  /* A rule whose key the source or an earlier managed rule has is skipped. */
  function ComposeAll(entries: seq<Entry>, managed: seq<Rule>): seq<Entry> {
    if managed == [] then entries
    else
      var n := |managed| - 1;
      var before := ComposeAll(entries, managed[..n]);
      if ManagedRuleKey(managed[n]) in Keys(entries) + ManagedKeys(managed[..n]) then before
      else InsertRule(before, managed[n].Normalize())
  }

  function Compose(doc: Document, managed: seq<Rule>): Document {
    Document(ComposeAll(doc.entries, managed), doc.endsWithNewline)
  }

  datatype Warning = Skipped(key: string) | Inserted(key: string)

  method ComposeUserRule(entries: seq<Entry>, rule: Rule) returns (r: seq<Entry>)
    ensures r == InsertUserRule(entries, rule)
  {
    r := entries;
    var index, needsHeader := ComposeUserInsertIndex(entries, rule.principal);
    if needsHeader {
      r := Insert(r, index, Header(rule.principal));
      index := index + 1;
    }
    r := Insert(r, index, Entry(TopicEntry, TopicLine(rule), rule.principal, Some(rule)));
  }

  ghost predicate WarningsFor(entries: seq<Entry>, managed: seq<Rule>, warnings: seq<Warning>) {
    && |warnings| == |managed|
    && forall i :: 0 <= i < |managed| ==>
         warnings[i] == if ManagedRuleKey(managed[i]) in Keys(entries) + ManagedKeys(managed[..i])
                        then Skipped(ManagedRuleKey(managed[i])) else Inserted(ManagedRuleKey(managed[i]))
  }

  lemma WarningsStep(entries: seq<Entry>, managed: seq<Rule>, k: nat, warnings: seq<Warning>)
    requires k < |managed| && WarningsFor(entries, managed[..k], warnings)
    ensures var key := ManagedRuleKey(managed[k]);
            WarningsFor(entries, managed[..k + 1],
                        warnings + [if key in Keys(entries) + ManagedKeys(managed[..k]) then Skipped(key) else Inserted(key)])
  {
    hide Keys, ManagedKeys, ManagedRuleKey;
    forall i | 0 <= i <= k ensures managed[..k + 1][..i] == managed[..i] {}
    forall i | 0 <= i < k ensures managed[..k][..i] == managed[..i] {}
  }

  lemma ManagedKeysSnoc(managed: seq<Rule>, rule: Rule)
    ensures ManagedKeys(managed + [rule]) == ManagedKeys(managed) + {ManagedRuleKey(rule)}
  {
    hide ManagedRuleKey;
    assert forall r :: r in managed + [rule] <==> r in managed || r == rule;
    assert rule in managed + [rule];
  }

  method ComposeACLDocument(doc: Document, managed: seq<Rule>) returns (composed: Document, warnings: seq<Warning>)
    ensures composed == Compose(doc, managed)
    ensures WarningsFor(doc.entries, managed, warnings)
  {
    hide InsertUserRule, Keys, ManagedRuleKey, ManagedKeys, WarningsFor;
    var entries := doc.entries;
    var existing := Keys(entries);
    warnings := [];
    NoWarnings(doc.entries);
    assert managed[..0] == [];
    for k := 0 to |managed|
      invariant entries == ComposeAll(doc.entries, managed[..k])
      invariant existing == Keys(doc.entries) + ManagedKeys(managed[..k])
      invariant WarningsFor(doc.entries, managed[..k], warnings)
    {
      var rule := managed[k];
      PrefixStep(managed, k);
      ManagedKeysSnoc(managed[..k], rule);
      assert managed[..k + 1][..k] == managed[..k];
      WarningsStep(doc.entries, managed, k, warnings);
      var key := ManagedRuleKey(rule);
      if key in existing {
        warnings := warnings + [Skipped(key)];
      } else {
        existing := existing + {key};
        var normalized := rule.Normalize();
        var selector := normalized.EffectiveSelector();
        if selector == Pattern {
          var index := ComposeInsertIndex(entries, selector);
          entries := Insert(entries, index, Entry(PatternEntry, PatternLine(normalized), "", Some(normalized)));
        } else if selector == Anonymous {
          var index := ComposeInsertIndex(entries, selector);
          entries := Insert(entries, index, Entry(TopicEntry, TopicLine(normalized), "", Some(normalized)));
        } else {
          entries := ComposeUserRule(entries, normalized);
        }
        warnings := warnings + [Inserted(key)];
      }
    }
    assert managed[..|managed|] == managed;
    composed := Document(entries, doc.endsWithNewline);
  }

  lemma NoWarnings(entries: seq<Entry>)
    ensures WarningsFor(entries, [], []) && ManagedKeys([]) == {}
  {
  }

  // ---------------------------------------------------------------- keys of inserted entries

  lemma InsertKeys(entries: seq<Entry>, i: nat, e: Entry)
    requires i <= |entries|
    ensures Keys(Insert(entries, i, e)) == Keys(entries) + Keys([e])
    ensures Meanings(Insert(entries, i, e)) == Meanings(entries) + Meanings([e])
  {
    assert entries == entries[..i] + entries[i..];
    assert forall x :: x in Insert(entries, i, e) <==> x in entries || x in [e];
  }

  lemma OneEntry(e: Entry)
    ensures Keys([e]) == if SemanticKey(e) == "" then {} else {SemanticKey(e)}
    ensures Meanings([e]) == if e.rule.Some? then {e.rule.value.Meaning()} else {}
  {
    assert e in [e];
  }

  lemma InsertedKey(entries: seq<Entry>, rule: Rule)
    requires ValidRule(rule)
    ensures Keys(InsertRule(entries, rule.Normalize())) == Keys(entries) + {ManagedRuleKey(rule)}
    ensures Meanings(InsertRule(entries, rule.Normalize())) == Meanings(entries) + {rule.Meaning()}
  {
    hide ValidRule, Keys, Meanings, InsertUserRule, PatternLine, TopicLine, FirstHeader, AnonymousEnd;
    ValidSelector(rule);
    var n := rule.Normalize();
    if n.EffectiveSelector() == Pattern {
      InsertedEntryKey(entries, FirstHeader(entries), Entry(PatternEntry, PatternLine(n), "", Some(n)), n);
    } else if n.EffectiveSelector() == Anonymous {
      InsertedEntryKey(entries, AnonymousEnd(entries), Entry(TopicEntry, TopicLine(n), "", Some(n)), n);
    } else {
      InsertedUserKey(entries, n);
    }
  }

  lemma InsertedEntryKey(entries: seq<Entry>, i: nat, e: Entry, rule: Rule)
    requires i <= |entries|
    requires e.rule == Some(rule)
    requires if rule.EffectiveSelector() == Pattern then e.kind == PatternEntry
             else e.kind == TopicEntry && e.principal == rule.principal
    requires rule.EffectiveSelector() in {User, Anonymous, Pattern}
    requires rule.EffectiveSelector() == User <==> rule.principal != ""
    ensures Keys(Insert(entries, i, e)) == Keys(entries) + {ManagedRuleKey(rule)}
    ensures Meanings(Insert(entries, i, e)) == Meanings(entries) + {rule.Meaning()}
  {
    hide Keys, Meanings;
    OneEntry(e);
    InsertKeys(entries, i, e);
  }

  lemma InsertedUserKey(entries: seq<Entry>, rule: Rule)
    requires rule.EffectiveSelector() == User && rule.principal != ""
    ensures Keys(InsertUserRule(entries, rule)) == Keys(entries) + {ManagedRuleKey(rule)}
    ensures Meanings(InsertUserRule(entries, rule)) == Meanings(entries) + {rule.Meaning()}
  {
    hide Keys, Meanings;
    var (index, needsHeader) := UserInsertIndex(entries, rule.principal);
    var e := Entry(TopicEntry, TopicLine(rule), rule.principal, Some(rule));
    if needsHeader {
      var h := Header(rule.principal);
      OneEntry(h);
      InsertKeys(entries, index, h);
      InsertedEntryKey(Insert(entries, index, h), index + 1, e, rule);
    } else {
      InsertedEntryKey(entries, index, e, rule);
    }
  }

  lemma ValidSelector(rule: Rule)
    requires ValidRule(rule)
    ensures rule.EffectiveSelector() in {User, Anonymous, Pattern}
    ensures rule.EffectiveSelector() == User <==> rule.principal != ""
  {
    hide ValidTopicFilter, ValidPlaceholders;
    assert TrimSpace("") == "";
  }

  lemma PrincipalIsWord(rule: Rule)
    requires WellFormed(rule)
    ensures rule.EffectiveSelector() in {User, Anonymous, Pattern}
    ensures rule.EffectiveSelector() == User ==> IsWord(rule.principal)
    ensures rule.EffectiveSelector() != User ==> rule.principal == ""
  {
    hide ValidTopicFilter, ValidPlaceholders;
    assert TrimSpace("") == "";
  }
}
