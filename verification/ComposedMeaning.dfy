/**
 What composition means: the composed text reads back, under Mosquitto's scoping rule, as the source's
 rules together with the managed rules.
 */
module ComposedMeaning {
  import opened Options
  import opened Strings
  import opened Rules
  import opened AclDocument
  import opened Composition

  // ---------------------------------------------------------------- scopes

  function ScopeAfter(entries: seq<Entry>, scope: string): string {
    if entries == [] then scope else ScopeAfter(entries[1..], NextScope(entries[0], scope))
  }

  predicate ReadsBack(e: Entry, scope: string) {
    Same(e, ParseEntry(e.raw, scope))
  }

  /* Every entry is what its line reads as in the scope in effect there. */
  predicate Consistent(entries: seq<Entry>, scope: string) {
    entries == [] ||
    (ReadsBack(entries[0], scope) && Consistent(entries[1..], NextScope(entries[0], scope)))
  }

  lemma {:induction false} ParsedConsistent(lines: seq<string>, scope: string)
    ensures Consistent(ParseLines(lines, scope), scope)
  {
    hide ParseEntry;
    if lines != [] {
      ParsedConsistent(lines[1..], NextScope(ParseEntry(lines[0], scope), scope));
    }
  }

  lemma {:induction false} ConsistentConcat(a: seq<Entry>, b: seq<Entry>, scope: string)
    ensures Consistent(a + b, scope) <==> Consistent(a, scope) && Consistent(b, ScopeAfter(a, scope))
    ensures ScopeAfter(a + b, scope) == ScopeAfter(b, ScopeAfter(a, scope))
  {
    hide ReadsBack;
    if a == [] {
      assert a + b == b;
    } else {
      assert (a + b)[1..] == a[1..] + b;
      ConsistentConcat(a[1..], b, NextScope(a[0], scope));
    }
  }

  lemma ConsistentInsert(entries: seq<Entry>, i: nat, e: Entry)
    requires i <= |entries| && Consistent(entries, "")
    requires ReadsBack(e, ScopeAfter(entries[..i], ""))
    requires i == |entries| || e.kind != UserHeader
    ensures Consistent(Insert(entries, i, e), "")
    ensures i == |entries| ==> ScopeAfter(Insert(entries, i, e), "") == NextScope(e, ScopeAfter(entries, ""))
  {
    hide ReadsBack, Consistent, ScopeAfter, NextScope;
    assert entries == entries[..i] + entries[i..];
    ConsistentBetween(entries[..i], e, entries[i..]);
  }

  lemma ConsistentBetween(a: seq<Entry>, e: Entry, b: seq<Entry>)
    requires Consistent(a + b, "") && ReadsBack(e, ScopeAfter(a, ""))
    requires b == [] || e.kind != UserHeader
    ensures Consistent(a + [e] + b, "")
    ensures b == [] ==> ScopeAfter(a + [e] + b, "") == NextScope(e, ScopeAfter(a + b, ""))
  {
    hide ReadsBack;
    ConsistentConcat(a, b, "");
    ConsistentConcat(a, [e], "");
    ConsistentConcat(a + [e], b, "");
  }

  lemma {:induction false} ConsistentReparse(entries: seq<Entry>, scope: string)
    requires Consistent(entries, scope)
    ensures var parsed := ParseLines(Raws(entries), scope);
            forall i :: 0 <= i < |entries| ==> Same(entries[i], parsed[i])
  {
    hide ParseEntry;
    if entries != [] {
      var next := NextScope(entries[0], scope);
      ConsistentReparse(entries[1..], next);
      assert Raws(entries)[1..] == Raws(entries[1..]);
      var parsed := ParseLines(Raws(entries), scope);
      assert parsed[1..] == ParseLines(Raws(entries[1..]), next);
      forall i | 0 <= i < |entries| ensures Same(entries[i], parsed[i]) {
        if i > 0 { assert entries[i] == entries[1..][i - 1] && parsed[i] == parsed[1..][i - 1]; }
      }
    }
  }

  /* Entries that agree one by one carry the same keys and the same rules. */
  lemma SameMeanings(a: seq<Entry>, b: seq<Entry>)
    requires |a| == |b| && forall i :: 0 <= i < |a| ==> Same(a[i], b[i])
    ensures Keys(a) == Keys(b) && Meanings(a) == Meanings(b)
  {
    forall k | k in Keys(a) ensures k in Keys(b) {
      var i :| 0 <= i < |a| && SemanticKey(a[i]) == k;
      SameKey(a[i], b[i]);
      assert b[i] in b;
    }
    forall k | k in Keys(b) ensures k in Keys(a) {
      var i :| 0 <= i < |b| && SemanticKey(b[i]) == k;
      SameKey(a[i], b[i]);
      assert a[i] in a;
    }
    hide Same;
    forall m | m in Meanings(a) ensures m in Meanings(b) {
      var i :| 0 <= i < |a| && a[i].rule.Some? && a[i].rule.value.Meaning() == m;
      SameRule(a[i], b[i]);
      assert b[i] in b;
    }
    forall m | m in Meanings(b) ensures m in Meanings(a) {
      var i :| 0 <= i < |b| && b[i].rule.Some? && b[i].rule.value.Meaning() == m;
      SameRule(a[i], b[i]);
      assert a[i] in a;
    }
  }

  lemma SameRule(a: Entry, b: Entry)
    requires Same(a, b)
    ensures a.rule.Some? <==> b.rule.Some?
    ensures a.rule.Some? ==> a.rule.value.Meaning() == b.rule.value.Meaning()
  {
  }

  // ---------------------------------------------------------------- lines of managed rules

  lemma DirectiveWords()
    ensures IsWord("topic") && IsWord("pattern") && IsWord("user")
    ensures ToLower("topic") == "topic" && ToLower("pattern") == "pattern" && ToLower("user") == "user"
  {
  }

  lemma PermissionWord(p: Permission)
    requires !p.Unsupported?
    ensures IsWord(PermissionText(p)) && ToLower(PermissionText(p)) == PermissionText(p)
    ensures PermissionOf(PermissionText(p)) == p
  {
  }

  /* A line whose first word is no comment is classified by its words. */
  lemma ParseByFields(raw: string, scope: string)
    requires Fields(raw) != [] && Fields(raw)[0][0] != '#'
    ensures ParseEntry(raw, scope) == ParseDirective(raw, ToLower(Fields(raw)[0]), Fields(raw), scope)
  {
    hide ParseDirective, ToLower, Fields, TrimSpace, HasPrefix;
    FieldsTrim(raw);
    TrimmedHead(raw);
    NotPrefix(TrimSpace(raw), "#", 0);
  }

  lemma FilterWords(rule: Rule)
    requires WellFormed(rule)
    ensures Fields(rule.filter) != [] && rule.filter == Join(Fields(rule.filter), " ")
    ensures !rule.permission.Unsupported?
  {
    hide ValidTopicFilter, ValidPlaceholders, Fields, Join, TrimSpace;
    FieldsTrim(rule.filter);
  }

  lemma LineFields(keyword: string, perm: string, filter: string)
    requires IsWord(keyword) && IsWord(perm)
    ensures Fields(keyword + " " + perm + " " + filter) == [keyword, perm] + Fields(filter)
  {
    hide IsWord, Fields;
    var rest := perm + " " + filter;
    assert keyword + " " + perm + " " + filter == keyword + " " + rest;
    FieldsStep(keyword, rest);
    FieldsStep(perm, filter);
  }

  lemma DirectiveOfWords(raw: string, keyword: string, perm: string, words: seq<string>, scope: string)
    requires words != [] && keyword in {"topic", "pattern"}
    ensures ParseDirective(raw, keyword, [keyword, perm] + words, scope)
         == if keyword == "topic" then
              Entry(TopicEntry, raw, scope, BuildRule(if scope == "" then Anonymous else User, scope, perm, Join(words, " ")))
            else Entry(PatternEntry, raw, "", BuildRule(Pattern, "", perm, Join(words, " ")))
  {
    hide BuildRule, Join;
    assert ([keyword, perm] + words)[2..] == words;
  }

  /* The typed rule a directive of a well-formed rule is read as. */
  lemma BuiltRule(selector: Selector, principal: string, word: string, filter: string, rule: Rule)
    requires WellFormed(rule) && rule.EffectiveSelector() == selector && rule.principal == principal
    requires rule.filter == filter && PermissionText(rule.permission) == ToLower(word)
    ensures BuildRule(selector, principal, word, filter).Some?
    ensures BuildRule(selector, principal, word, filter).value.Meaning() == rule.Meaning()
  {
    hide ValidTopicFilter, ValidPlaceholders, HasSpace, Fields, Join, TrimSpace, HasControl, ToLower;
    PermissionWord(rule.permission);
  }

  /* The line of a well-formed rule reads as the directive with its permission and filter. */
  lemma ManagedLineReads(raw: string, keyword: string, rule: Rule, scope: string)
    requires WellFormed(rule) && keyword in {"topic", "pattern"}
    requires raw == keyword + " " + PermissionText(rule.permission) + " " + rule.filter
    ensures ParseEntry(raw, scope)
         == (var perm := PermissionText(rule.permission);
             if keyword == "topic" then
               Entry(TopicEntry, raw, scope, BuildRule(if scope == "" then Anonymous else User, scope, perm, rule.filter))
             else Entry(PatternEntry, raw, "", BuildRule(Pattern, "", perm, rule.filter)))
  {
    DirectiveWords();
    FilterWords(rule);
    PermissionWord(rule.permission);
    hide WellFormed, BuildRule, ToLower, IsWord, ParseEntry, Fields, PermissionText, ParseDirective, Join;
    var perm := PermissionText(rule.permission);
    LineFields(keyword, perm, rule.filter);
    assert Fields(raw)[0] == keyword;
    ParseByFields(raw, scope);
    DirectiveOfWords(raw, keyword, perm, Fields(rule.filter), scope);
  }

  lemma LineShapes(rule: Rule)
    ensures TopicLine(rule) == "topic" + " " + PermissionText(rule.permission) + " " + rule.filter
    ensures PatternLine(rule) == "pattern" + " " + PermissionText(rule.permission) + " " + rule.filter
  {
  }

  lemma TopicLineReads(rule: Rule, scope: string)
    requires WellFormed(rule) && rule.EffectiveSelector() == (if scope == "" then Anonymous else User)
    requires rule.principal == scope
    ensures ReadsBack(Entry(TopicEntry, TopicLine(rule), scope, Some(rule)), scope)
  {
    hide WellFormed, BuildRule, ParseEntry, PermissionText, TopicLine;
    assert ParseEntry(TopicLine(rule), scope)
        == Entry(TopicEntry, TopicLine(rule), scope,
                 BuildRule(rule.EffectiveSelector(), scope, PermissionText(rule.permission), rule.filter)) by {
      LineShapes(rule);
      ManagedLineReads(TopicLine(rule), "topic", rule, scope);
    }
    FilterWords(rule);
    PermissionWord(rule.permission);
    BuiltRule(rule.EffectiveSelector(), scope, PermissionText(rule.permission), rule.filter, rule);
  }

  lemma PatternLineReads(rule: Rule, scope: string)
    requires WellFormed(rule) && rule.EffectiveSelector() == Pattern
    ensures ReadsBack(Entry(PatternEntry, PatternLine(rule), "", Some(rule)), scope)
  {
    hide WellFormed, BuildRule, ParseEntry, PermissionText, PatternLine;
    assert ParseEntry(PatternLine(rule), scope)
        == Entry(PatternEntry, PatternLine(rule), "",
                 BuildRule(Pattern, "", PermissionText(rule.permission), rule.filter)) by {
      LineShapes(rule);
      ManagedLineReads(PatternLine(rule), "pattern", rule, scope);
    }
    PrincipalIsWord(rule);
    FilterWords(rule);
    PermissionWord(rule.permission);
    BuiltRule(Pattern, "", PermissionText(rule.permission), rule.filter, rule);
  }

  lemma HeaderReads(principal: string, scope: string)
    requires IsWord(principal)
    ensures ReadsBack(Header(principal), scope)
  {
    DirectiveWords();
    assert "user " + principal == "user" + " " + principal;
    assert principal == principal + "";
    FieldsCons(principal, "");
    FieldsStep("user", principal);
    hide ParseEntry, Fields, ToLower, IsWord;
    ParseByFields("user " + principal, scope);
  }

  // ---------------------------------------------------------------- insertion points

  lemma {:induction false} NoHeaderKeepsScope(entries: seq<Entry>, scope: string)
    requires forall k :: 0 <= k < |entries| ==> entries[k].kind != UserHeader
    ensures ScopeAfter(entries, scope) == scope
  {
    if entries != [] {
      NoHeaderKeepsScope(entries[1..], scope);
    }
  }

  /* Both anonymous and pattern rules land before the first `user` header. */
  lemma BeforeFirstHeader(entries: seq<Entry>, i: nat)
    requires i <= FirstHeader(entries)
    ensures ScopeAfter(entries[..i], "") == ""
  {
    NoHeaderKeepsScope(entries[..i], "");
  }

  /* A user rule lands inside the section of its principal. */
  lemma InsideSection(entries: seq<Entry>, principal: string)
    requires !UserInsertIndex(entries, principal).1
    ensures ScopeAfter(entries[..UserInsertIndex(entries, principal).0], "") == principal
  {
    hide ReadsBack, Consistent;
    var header := FindHeader(entries, principal, 0);
    var index := UserInsertIndex(entries, principal).0;
    var a, b := entries[..header + 1], entries[header + 1..index];
    assert entries[..index] == a + b;
    assert a == entries[..header] + [entries[header]];
    ConsistentConcat(entries[..header], [entries[header]], "");
    assert ScopeAfter(a, "") == principal;
    ConsistentConcat(a, b, "");
    forall k | 0 <= k < |b| ensures b[k].kind != UserHeader { assert b[k] == entries[header + 1 + k]; }
    NoHeaderKeepsScope(b, principal);
  }

  /* One insertion keeps the document consistent with the scoping rule. */
  lemma InsertRuleConsistent(entries: seq<Entry>, rule: Rule)
    requires Consistent(entries, "") && WellFormed(rule)
    ensures Consistent(InsertRule(entries, rule), "")
  {
    PrincipalIsWord(rule);
    hide WellFormed, Consistent, ReadsBack;
    if rule.EffectiveSelector() == Pattern {
      var i := FirstHeader(entries);
      BeforeFirstHeader(entries, i);
      PatternLineReads(rule, "");
      ConsistentInsert(entries, i, Entry(PatternEntry, PatternLine(rule), "", Some(rule)));
    } else if rule.EffectiveSelector() == Anonymous {
      var i := AnonymousEnd(entries);
      BeforeFirstHeader(entries, i);
      TopicLineReads(rule, "");
      ConsistentInsert(entries, i, Entry(TopicEntry, TopicLine(rule), "", Some(rule)));
    } else {
      InsertUserRuleConsistent(entries, rule);
    }
  }

  lemma InsertUserRuleConsistent(entries: seq<Entry>, rule: Rule)
    requires Consistent(entries, "") && WellFormed(rule)
    requires rule.EffectiveSelector() == User && IsWord(rule.principal)
    ensures Consistent(InsertUserRule(entries, rule), "")
  {
    hide WellFormed, Consistent, ReadsBack;
    var p := rule.principal;
    var e := Entry(TopicEntry, TopicLine(rule), p, Some(rule));
    TopicLineReads(rule, p);
    var (index, needsHeader) := UserInsertIndex(entries, p);
    if needsHeader {
      HeaderReads(p, ScopeAfter(entries[..index], ""));
      ConsistentInsert(entries, index, Header(p));
      var withHeader := Insert(entries, index, Header(p));
      assert withHeader[..index + 1] == withHeader && entries[..index] == entries;
      ConsistentInsert(withHeader, index + 1, e);
    } else {
      InsideSection(entries, p);
      ConsistentInsert(entries, index, e);
    }
  }

  // ---------------------------------------------------------------- keys determine rules

  lemma StripPrefix(p: string, a: string, b: string)
    requires p + a == p + b
    ensures a == b
  {
    assert (p + a)[|p|..] == a && (p + b)[|p|..] == b;
  }

  lemma UserKeyInjective(p: string, q: string, f: string, p': string, q': string, f': string)
    requires ' ' !in p && ' ' !in p' && ' ' !in q && ' ' !in q'
    requires "user " + p + " | topic " + q + " " + f == "user " + p' + " | topic " + q' + " " + f'
    ensures p == p' && q == q' && f == f'
  {
    var t, t' := q + " " + f, q' + " " + f';
    assert "user " + p + " | topic " + q + " " + f == "user " + (p + " " + ("| topic " + t));
    assert "user " + p' + " | topic " + q' + " " + f' == "user " + (p' + " " + ("| topic " + t'));
    StripPrefix("user ", p + " " + ("| topic " + t), p' + " " + ("| topic " + t'));
    CutAt(p, "| topic " + t, p', "| topic " + t', ' ');
    StripPrefix("| topic ", t, t');
    CutAt(q, f, q', f', ' ');
  }

  lemma PrefixKeyInjective(prefix: string, q: string, f: string, q': string, f': string)
    requires ' ' !in q && ' ' !in q'
    requires prefix + q + " " + f == prefix + q' + " " + f'
    ensures q == q' && f == f'
  {
    assert prefix + q + " " + f == prefix + (q + " " + f);
    assert prefix + q' + " " + f' == prefix + (q' + " " + f');
    StripPrefix(prefix, q + " " + f, q' + " " + f');
    CutAt(q, f, q', f', ' ');
  }

  lemma LowerWord(w: string)
    requires IsWord(w)
    ensures ' ' !in ToLower(w)
  {
    forall i | 0 <= i < |w| ensures ToLower(w)[i] != ' ' {
      assert !IsSpace(w[i]);
    }
  }

  lemma WordNoBlank(w: string)
    requires IsWord(w)
    ensures ' ' !in w
  {
    forall i | 0 <= i < |w| ensures w[i] != ' ' { assert !IsSpace(w[i]); }
  }

  /* A line is blank, a comment, or what its words say. */
  lemma ParseShape(raw: string, scope: string)
    ensures var e := ParseEntry(raw, scope);
            || e == Entry(Blank, raw, "", None)
            || e == Entry(Comment, raw, "", None)
            || (Fields(raw) != [] && e == ParseDirective(raw, ToLower(Fields(raw)[0]), Fields(raw), scope))
  {
    hide ParseDirective, ToLower;
    FieldsTrim(raw);
  }

  /* The words of a directive, and what its key is made of. */
  lemma DirectiveKey(raw: string, scope: string)
    requires ParseEntry(raw, scope).kind in {TopicEntry, PatternEntry}
    ensures var e := ParseEntry(raw, scope); var fields := Fields(raw);
            && |fields| >= 3
            && PermissionAndFilter(e) == (ToLower(fields[1]), Join(fields[2..], " "))
            && (e.kind == TopicEntry ==>
                  && e.principal == scope
                  && e.rule == BuildRule(if scope == "" then Anonymous else User, scope, fields[1], Join(fields[2..], " ")))
            && (e.kind == PatternEntry ==> e.rule == BuildRule(Pattern, "", fields[1], Join(fields[2..], " ")))
  {
    ParseShape(raw, scope);
    FieldsTrim(raw);
    hide ParseEntry, BuildRule, ToLower, Join, Fields, TrimSpace;
    var e, fields := ParseEntry(raw, scope), Fields(raw);
    assert |fields| >= 3;
    var filter := Join(fields[2..], " ");
    if e.kind == PatternEntry {
      BuiltText(Pattern, "", fields[1], filter);
    } else {
      BuiltText(if scope == "" then Anonymous else User, scope, fields[1], filter);
    }
  }

  lemma BuiltText(selector: Selector, principal: string, word: string, filter: string)
    ensures var rule := BuildRule(selector, principal, word, filter);
            rule.Some? ==> PermissionText(rule.value.permission) == ToLower(word) && rule.value.filter == filter
  {
    hide ValidRule, ToLower;
    SupportedText(ToLower(word));
  }

  lemma SupportedText(word: string)
    ensures !PermissionOf(word).Unsupported? ==> PermissionText(PermissionOf(word)) == word
  {
  }

  /* The kind of a managed key is visible in its first two characters. */
  lemma KeyShapes(e: Entry, rule: Rule)
    requires SemanticKey(e) == ManagedRuleKey(rule)
    requires rule.EffectiveSelector() in {User, Anonymous, Pattern}
    ensures rule.EffectiveSelector() == Pattern <==> e.kind == PatternEntry
    ensures rule.EffectiveSelector() == Anonymous <==> e.kind == TopicEntry && e.principal == ""
    ensures rule.EffectiveSelector() == User <==> e.kind == TopicEntry && e.principal != ""
  {
    hide PermissionAndFilter, PermissionText, TrimSpace;
    var k := ManagedRuleKey(rule);
    assert k[0] == (match rule.EffectiveSelector() case Anonymous => 'a' case Pattern => 'p' case _ => 'u');
    assert rule.EffectiveSelector() == User ==> k[1] == 's';
    assert ("unknown | " + TrimSpace(e.raw))[1] == 'n';
  }

  /* A line that carries the key of a well-formed rule is read as that rule. */
  lemma KeyDeterminesRule(raw: string, scope: string, rule: Rule)
    requires WellFormed(rule) && (scope == "" || IsWord(scope))
    requires SemanticKey(ParseEntry(raw, scope)) == ManagedRuleKey(rule)
    ensures var e := ParseEntry(raw, scope); e.rule.Some? && e.rule.value.Meaning() == rule.Meaning()
  {
    PrincipalIsWord(rule);
    FilterWords(rule);
    PermissionWord(rule.permission);
    var e := ParseEntry(raw, scope);
    KeyShapes(e, rule);
    DirectiveKey(raw, scope);
    var fields := Fields(raw);
    LowerWord(fields[1]);
    WordNoBlank(PermissionText(rule.permission));
    hide WellFormed, ParseEntry, BuildRule, Fields, ToLower, PermissionText;
    var q, f := ToLower(fields[1]), Join(fields[2..], " ");
    if rule.EffectiveSelector() == Pattern {
      PrefixKeyInjective("pattern | ", q, f, PermissionText(rule.permission), rule.filter);
    } else if rule.EffectiveSelector() == Anonymous {
      PrefixKeyInjective("anonymous | topic ", q, f, PermissionText(rule.permission), rule.filter);
    } else {
      WordNoBlank(scope);
      WordNoBlank(rule.principal);
      UserKeyInjective(scope, q, f, rule.principal, PermissionText(rule.permission), rule.filter);
    }
    BuiltRule(rule.EffectiveSelector(), rule.principal, fields[1], f, rule);
  }

  lemma ScopeIsWord(raw: string, scope: string)
    requires scope == "" || IsWord(scope)
    ensures var next := NextScope(ParseEntry(raw, scope), scope); next == "" || IsWord(next)
  {
    ParseShape(raw, scope);
    hide ParseEntry, BuildRule, ToLower, Join, Fields, IsWord;
  }

  /* A skipped rule is one the document already reads as. */
  lemma {:induction false} SkippedRuleIsPresent(entries: seq<Entry>, scope: string, rule: Rule)
    requires Consistent(entries, scope) && WellFormed(rule) && (scope == "" || IsWord(scope))
    requires ManagedRuleKey(rule) in Keys(entries)
    ensures rule.Meaning() in Meanings(entries)
  {
    hide WellFormed, ParseEntry, SemanticKey, ManagedRuleKey, IsWord;
    var e := entries[0];
    assert entries == [e] + entries[1..];
    KeysConcat([e], entries[1..]);
    MeaningsConcat([e], entries[1..]);
    OneEntry(e);
    if SemanticKey(e) == ManagedRuleKey(rule) {
      SameKey(e, ParseEntry(e.raw, scope));
      KeyDeterminesRule(e.raw, scope, rule);
    } else {
      ScopeIsWord(e.raw, scope);
      SkippedRuleIsPresent(entries[1..], NextScope(e, scope), rule);
    }
  }
}
