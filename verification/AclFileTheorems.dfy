/**
 A rendered ACL file reads back as the rules it was rendered from.
 */
module AclFileTheorems {
  import opened Options
  import opened Strings
  import opened Rules
  import opened Composition
  import opened ComposedMeaning
  import opened CompositionTheorems
  import opened AclFile

  /* What printing needs of a rule; weaker than `WellFormed`, which also validates the filter. */
  predicate FileReadable(rule: Rule) {
    && rule.EffectiveSelector() in {User, Anonymous, Pattern}
    && (if rule.EffectiveSelector() == User then IsWord(rule.principal) else rule.principal == "")
    && Fields(rule.filter) != [] && rule.filter == Join(Fields(rule.filter), " ")
    && !rule.permission.Unsupported?
  }

  lemma WellFormedIsFileReadable(rule: Rule)
    requires WellFormed(rule)
    ensures FileReadable(rule)
  {
    hide WellFormed, Fields, Join, IsWord;
    PrincipalIsWord(rule);
    FilterWords(rule);
  }

  function MeaningsOf(rules: seq<Rule>): (cores: seq<Core>)
    ensures |cores| == |rules|
  {
    seq(|rules|, i requires 0 <= i < |rules| => rules[i].Meaning())
  }

  lemma MeaningsOfConcat(a: seq<Rule>, b: seq<Rule>)
    ensures MeaningsOf(a + b) == MeaningsOf(a) + MeaningsOf(b)
  {
  }

  lemma SameMeaningsSameCores(a: seq<Rule>, b: seq<Rule>)
    requires MeaningsOf(a) == MeaningsOf(b)
    ensures CoresOf(a) == CoresOf(b)
  {
    forall c | c in CoresOf(a) ensures c in CoresOf(b) {
      var i :| 0 <= i < |a| && a[i].Meaning() == c;
      assert MeaningsOf(b)[i] == c;
      assert b[i] in b;
    }
    forall c | c in CoresOf(b) ensures c in CoresOf(a) {
      var i :| 0 <= i < |b| && b[i].Meaning() == c;
      assert MeaningsOf(a)[i] == c;
      assert a[i] in a;
    }
  }

  // ---------------------------------------------------------------- single lines

  lemma ReadByFields(raw: string, user: string)
    requires Fields(raw) != [] && Fields(raw)[0][0] != '#'
    ensures ReadLine(raw, user) == ReadDirective(Fields(raw), user)
  {
    hide ReadDirective, Fields;
    FieldsTrim(raw);
    TrimmedHead(raw);
    assert !HasPrefix(TrimSpace(raw), "#");
  }

  lemma BlankLine(user: string)
    ensures ReadLine("", user) == (None, user)
  {
    FieldsTrim("");
  }

  lemma DirectiveRule(selector: Selector, principal: string, keyword: string, rule: Rule)
    requires FileReadable(rule)
    requires selector == rule.EffectiveSelector() && principal == rule.principal
    ensures FileRule(selector, principal, [keyword, PermissionText(rule.permission)] + Fields(rule.filter)).Meaning()
         == rule.Meaning()
  {
    hide Fields, Join, ToLower, IsWord;
    PermissionWord(rule.permission);
    assert ([keyword, PermissionText(rule.permission)] + Fields(rule.filter))[2..] == Fields(rule.filter);
  }

  lemma RuleLineReads(raw: string, keyword: string, rule: Rule, user: string)
    requires FileReadable(rule)
    requires raw == keyword + " " + PermissionText(rule.permission) + " " + rule.filter
    requires (keyword == "topic" && rule.EffectiveSelector() == (if user == "" then Anonymous else User) && rule.principal == user)
          || (keyword == "pattern" && rule.EffectiveSelector() == Pattern)
    ensures ReadLine(raw, user).0.Some? && ReadLine(raw, user).0.value.Meaning() == rule.Meaning()
    ensures ReadLine(raw, user).1 == user
  {
    hide Fields, Join, IsWord, ToLower, ReadLine, PermissionText, FileRule;
    DirectiveWords();
    PermissionWord(rule.permission);
    LineFields(keyword, PermissionText(rule.permission), rule.filter);
    ReadByFields(raw, user);
    DirectiveRule(rule.EffectiveSelector(), rule.principal, keyword, rule);
  }

  lemma TopicLineRead(rule: Rule, user: string)
    requires FileReadable(rule)
    requires rule.EffectiveSelector() == (if user == "" then Anonymous else User) && rule.principal == user
    ensures ReadLine(TopicLine(rule), user).0.Some?
    ensures ReadLine(TopicLine(rule), user).0.value.Meaning() == rule.Meaning()
    ensures ReadLine(TopicLine(rule), user).1 == user
  {
    hide FileReadable, ReadLine, TopicLine, PermissionText;
    LineShapes(rule);
    RuleLineReads(TopicLine(rule), "topic", rule, user);
  }

  lemma PatternLineRead(rule: Rule, user: string)
    requires FileReadable(rule) && rule.EffectiveSelector() == Pattern
    ensures ReadLine(PatternLine(rule), user).0.Some?
    ensures ReadLine(PatternLine(rule), user).0.value.Meaning() == rule.Meaning()
    ensures ReadLine(PatternLine(rule), user).1 == user
  {
    hide FileReadable, ReadLine, PatternLine, PermissionText;
    LineShapes(rule);
    RuleLineReads(PatternLine(rule), "pattern", rule, user);
  }

  lemma HeaderLineRead(principal: string, user: string)
    requires IsWord(principal)
    ensures ReadLine("user " + principal, user) == (None, principal)
  {
    hide ReadLine, Fields, ToLower, IsWord;
    DirectiveWords();
    assert "user " + principal == "user" + " " + principal;
    assert principal == principal + "";
    FieldsCons(principal, "");
    FieldsStep("user", principal);
    EmptyFields();
    ReadByFields("user " + principal, user);
  }

  lemma EmptyFields()
    ensures Fields("") == []
  {
  }

  // ---------------------------------------------------------------- sections

  lemma {:induction false} TopicLinesRead(rules: seq<Rule>, user: string)
    requires forall r :: r in rules ==> FileReadable(r) && r.principal == user
    requires forall r :: r in rules ==> r.EffectiveSelector() == (if user == "" then Anonymous else User)
    ensures MeaningsOf(ReadLines(TopicLines(rules), user)) == MeaningsOf(rules)
    ensures UserAfter(TopicLines(rules), user) == user
  {
    hide FileReadable, ReadLine, TopicLine;
    if rules != [] {
      TopicLineRead(rules[0], user);
      TopicLinesRead(rules[1..], user);
      assert TopicLines(rules)[1..] == TopicLines(rules[1..]);
      SplitMeanings(rules, ReadLine(TopicLine(rules[0]), user).0.value, ReadLines(TopicLines(rules[1..]), user));
    }
  }

  lemma SplitMeanings(rules: seq<Rule>, head: Rule, tail: seq<Rule>)
    requires rules != [] && head.Meaning() == rules[0].Meaning() && MeaningsOf(tail) == MeaningsOf(rules[1..])
    ensures MeaningsOf([head] + tail) == MeaningsOf(rules)
  {
    MeaningsOfConcat([head], tail);
    MeaningsOfConcat([rules[0]], rules[1..]);
    assert rules == [rules[0]] + rules[1..];
  }

  lemma {:induction false} PatternLinesRead(rules: seq<Rule>, user: string)
    requires forall r :: r in rules ==> FileReadable(r) && r.EffectiveSelector() == Pattern
    ensures MeaningsOf(ReadLines(PatternLines(rules), user)) == MeaningsOf(rules)
    ensures UserAfter(PatternLines(rules), user) == user
  {
    hide FileReadable, ReadLine, PatternLine;
    if rules != [] {
      PatternLineRead(rules[0], user);
      PatternLinesRead(rules[1..], user);
      assert PatternLines(rules)[1..] == PatternLines(rules[1..]);
      SplitMeanings(rules, ReadLine(PatternLine(rules[0]), user).0.value, ReadLines(PatternLines(rules[1..]), user));
    }
  }

  lemma UserSectionRead(rules: seq<Rule>, principal: string, user: string)
    requires forall r :: r in rules ==> FileReadable(r)
    requires IsWord(principal)
    ensures MeaningsOf(ReadLines(UserSection(rules, principal), user)) == MeaningsOf(Group(rules, principal))
    ensures UserAfter(UserSection(rules, principal), user) == principal
  {
    var group := Group(rules, principal);
    GroupShape(rules, principal);
    hide FileReadable, ReadLine, IsWord, Group;
    HeaderLineRead(principal, user);
    TopicLinesRead(group, principal);
    assert UserSection(rules, principal)[1..] == TopicLines(group);
  }

  lemma GroupShape(rules: seq<Rule>, principal: string)
    requires forall r :: r in rules ==> FileReadable(r)
    requires IsWord(principal)
    ensures principal != ""
    ensures forall r :: r in Group(rules, principal) ==>
              FileReadable(r) && r.principal == principal && r.EffectiveSelector() == User
  {
    hide Fields, Join;
  }

  /* The lines of a file: its sections, one blank line between each two. */
  function Interleave(sections: seq<seq<string>>): seq<string> {
    if |sections| == 0 then [""]
    else if |sections| == 1 then sections[0]
    else sections[0] + [""] + Interleave(sections[1..])
  }

  lemma {:induction false} SplitSections(sections: seq<seq<string>>)
    requires AllFree(sections) && forall i :: 0 <= i < |sections| ==> sections[i] != []
    ensures Split(Join(SectionTexts(sections), "\n\n"), '\n') == Interleave(sections)
  {
    if |sections| > 0 {
      SplitJoin(sections[0], '\n');
      if |sections| > 1 {
        hide Split, Free;
        var rest := Join(SectionTexts(sections[1..]), "\n\n");
        SplitSections(sections[1..]);
        assert SectionTexts(sections)[1..] == SectionTexts(sections[1..]);
        var first := Join(sections[0], "\n");
        assert Join(SectionTexts(sections), "\n\n") == first + "\n\n" + rest;
        assert first + "\n\n" + rest == first + ['\n'] + ("" + ['\n'] + rest);
        SplitConcat(first, "" + ['\n'] + rest, '\n');
        SplitConcat("", rest, '\n');
        SplitWhole("", '\n');
        assert sections[0] + ([""] + Interleave(sections[1..])) == sections[0] + [""] + Interleave(sections[1..]);
      }
    }
  }

  function ReadSections(sections: seq<seq<string>>, user: string): seq<Rule> {
    if sections == [] then []
    else ReadLines(sections[0], user) + ReadSections(sections[1..], UserAfter(sections[0], user))
  }

  lemma {:induction false} ReadInterleave(sections: seq<seq<string>>, user: string)
    ensures ReadLines(Interleave(sections), user) == ReadSections(sections, user)
  {
    hide ReadLine;
    BlankLine(user);
    if |sections| > 1 {
      var next := UserAfter(sections[0], user);
      BlankLine(next);
      ReadLinesConcat(sections[0] + [""], Interleave(sections[1..]), user);
      ReadLinesConcat(sections[0], [""], user);
      ReadInterleave(sections[1..], next);
    } else if |sections| == 1 {
      assert sections[1..] == [];
    }
  }

  // ---------------------------------------------------------------- the whole file

  function Groups(rules: seq<Rule>, principals: seq<string>): seq<Rule> {
    if principals == [] then [] else Group(rules, principals[0]) + Groups(rules, principals[1..])
  }

  /* The rules in file order: anonymous, patterns, then the users by name; stable inside each. */
  function Arranged(rules: seq<Rule>): seq<Rule> {
    AnonymousRules(rules) + PatternRules(rules) + Groups(rules, Principals(rules))
  }

  lemma {:induction false} UserSectionsRead(rules: seq<Rule>, principals: seq<string>, user: string)
    requires forall r :: r in rules ==> FileReadable(r)
    requires forall p :: p in principals ==> IsWord(p)
    ensures MeaningsOf(ReadSections(UserSections(rules, principals), user)) == MeaningsOf(Groups(rules, principals))
  {
    hide FileReadable, IsWord, Group, UserSection, ReadLines, UserAfter;
    if principals != [] {
      var p := principals[0];
      assert p in principals;
      UserSectionRead(rules, p, user);
      UserSectionsRead(rules, principals[1..], p);
      assert UserSections(rules, principals)[1..] == UserSections(rules, principals[1..]);
      MeaningsOfConcat(ReadLines(UserSection(rules, p), user), ReadSections(UserSections(rules, principals[1..]), p));
      MeaningsOfConcat(Group(rules, p), Groups(rules, principals[1..]));
    }
  }

  lemma ReadNonEmpty(lines: seq<string>, rest: seq<seq<string>>, user: string)
    requires UserAfter(lines, user) == user
    ensures MeaningsOf(ReadSections(NonEmpty(lines) + rest, user))
         == MeaningsOf(ReadLines(lines, user)) + MeaningsOf(ReadSections(rest, user))
  {
    hide ReadLine;
    if lines == [] {
      assert NonEmpty(lines) + rest == rest;
    } else {
      var all := [lines] + rest;
      assert all[1..] == rest;
      MeaningsOfConcat(ReadLines(lines, user), ReadSections(rest, user));
    }
  }

  lemma AnonymousShape(rules: seq<Rule>)
    requires forall r :: r in rules ==> FileReadable(r)
    ensures forall r :: r in AnonymousRules(rules) ==> FileReadable(r) && r.EffectiveSelector() == Anonymous && r.principal == ""
    ensures forall r :: r in PatternRules(rules) ==> FileReadable(r) && r.EffectiveSelector() == Pattern
  {
    hide Fields, Join, IsWord;
  }

  lemma LinesFree(rules: seq<Rule>)
    requires forall r :: r in rules ==> FileReadable(r)
    ensures forall i :: 0 <= i < |rules| ==> '\n' !in TopicLine(rules[i]) && '\n' !in PatternLine(rules[i])
  {
    hide FileReadable, TopicLine, PatternLine;
    forall i | 0 <= i < |rules| ensures '\n' !in TopicLine(rules[i]) && '\n' !in PatternLine(rules[i]) {
      assert rules[i] in rules;
      LineFree(rules[i]);
    }
  }

  lemma LineFree(rule: Rule)
    requires FileReadable(rule)
    ensures '\n' !in TopicLine(rule) && '\n' !in PatternLine(rule)
  {
    var words := Fields(rule.filter);
    forall i | 0 <= i < |words| ensures '\n' !in words[i] { WordFree(words[i]); }
    hide FileReadable, Fields, PermissionText;
    JoinCharacters(words, " ", '\n');
    PermissionPrintable(rule.permission);
    ThreeParts(TopicLine(rule), "topic ", PermissionText(rule.permission), rule.filter);
    ThreeParts(PatternLine(rule), "pattern ", PermissionText(rule.permission), rule.filter);
  }

  lemma WordFree(w: string)
    requires IsWord(w)
    ensures '\n' !in w
  {
    forall i | 0 <= i < |w| ensures w[i] != '\n' { assert !IsSpace(w[i]); }
  }

  lemma PrincipalsAreWords(rules: seq<Rule>)
    requires forall r :: r in rules ==> FileReadable(r)
    ensures forall p :: p in Principals(rules) ==> IsWord(p)
  {
    hide Fields, Join, IsWord;
    forall p | p in Principals(rules) ensures IsWord(p) {
      var r :| r in rules && Grouped(r) && r.principal == p;
      assert FileReadable(r);
    }
  }

  lemma UserSectionFree(rules: seq<Rule>, principal: string)
    requires forall r :: r in rules ==> FileReadable(r)
    requires IsWord(principal)
    ensures Free(UserSection(rules, principal), '\n')
  {
    WordFree(principal);
    GroupShape(rules, principal);
    hide FileReadable, IsWord, TopicLine, Group;
    LinesFree(Group(rules, principal));
    var section := UserSection(rules, principal);
    var header := "user " + principal;
    forall i | 0 <= i < |header| ensures header[i] != '\n' {
      assert header[i] == if i < 5 then "user "[i] else principal[i - 5];
    }
  }

  predicate AllFree(sections: seq<seq<string>>) {
    forall i :: 0 <= i < |sections| ==> Free(sections[i], '\n')
  }

  lemma AllFreeConcat(a: seq<seq<string>>, b: seq<seq<string>>)
    requires AllFree(a) && AllFree(b)
    ensures AllFree(a + b)
  {
    hide Free;
  }

  lemma SectionsFree(rules: seq<Rule>)
    requires forall r :: r in rules ==> FileReadable(r)
    ensures AllFree(Sections(rules))
  {
    AnonymousShape(rules);
    hide FileReadable, AnonymousRules, PatternRules, TopicLine, PatternLine, Principals, UserSection, IsWord;
    LinesFree(AnonymousRules(rules));
    LinesFree(PatternRules(rules));
    PrincipalsAreWords(rules);
    var sections := UserSections(rules, Principals(rules));
    forall i | 0 <= i < |sections| ensures Free(sections[i], '\n') {
      UserSectionFree(rules, Principals(rules)[i]);
    }
    AllFreeConcat(NonEmpty(PatternLines(PatternRules(rules))), sections);
    AllFreeConcat(NonEmpty(TopicLines(AnonymousRules(rules))), NonEmpty(PatternLines(PatternRules(rules))) + sections);
  }

  /* Main theorem, in order: the file reads back as its rules, arranged by section. */
  lemma RenderedFileReadsBack(rules: seq<Rule>)
    requires forall r :: r in rules ==> FileReadable(r)
    ensures MeaningsOf(ReadFile(RenderFile(rules))) == MeaningsOf(Arranged(rules))
  {
    hide FileReadable, AnonymousRules, PatternRules, Principals, UserSections, ReadLines, UserAfter, Groups, Split,
         TopicLines, PatternLines, NonEmpty, ReadSections, MeaningsOf, Interleave, SectionTexts, Join, IsWord;
    AnonymousShape(rules);
    var anon, pats := AnonymousRules(rules), PatternRules(rules);
    SectionsFree(rules);
    SplitSections(Sections(rules));
    ReadInterleave(Sections(rules), "");
    var users := UserSections(rules, Principals(rules));
    TopicLinesRead(anon, "");
    PatternLinesRead(pats, "");
    ReadNonEmpty(TopicLines(anon), NonEmpty(PatternLines(pats)) + users, "");
    ReadNonEmpty(PatternLines(pats), users, "");
    PrincipalsAreWords(rules);
    UserSectionsRead(rules, Principals(rules), "");
    ThreeMeanings(anon, pats, Groups(rules, Principals(rules)));
  }

  lemma ThreeMeanings(a: seq<Rule>, b: seq<Rule>, c: seq<Rule>)
    ensures MeaningsOf(a + b + c) == MeaningsOf(a) + (MeaningsOf(b) + MeaningsOf(c))
  {
  }

  lemma {:induction false} GroupsMembers(rules: seq<Rule>, principals: seq<string>)
    ensures forall r :: r in Groups(rules, principals) <==> r in rules && Grouped(r) && r.principal in principals
  {
    if principals != [] {
      GroupsMembers(rules, principals[1..]);
      assert principals == [principals[0]] + principals[1..];
    }
  }

  lemma ArrangedMembers(rules: seq<Rule>)
    ensures forall r :: r in Arranged(rules) <==> r in rules
  {
    GroupsMembers(rules, Principals(rules));
  }

  /* No access is lost and none is added. */
  lemma RenderedFileMeanings(rules: seq<Rule>)
    requires forall r :: r in rules ==> FileReadable(r)
    ensures CoresOf(ReadFile(RenderFile(rules))) == CoresOf(rules)
  {
    hide FileReadable, ReadFile, RenderFile, Arranged;
    RenderedFileReadsBack(rules);
    SameMeaningsSameCores(ReadFile(RenderFile(rules)), Arranged(rules));
    ArrangedMembers(rules);
    assert CoresOf(Arranged(rules)) == CoresOf(rules);
  }

  // ---------------------------------------------------------------- exactness

  lemma ReadLineReadable(raw: string, user: string)
    requires !HasSpace(user)
    ensures !HasSpace(ReadLine(raw, user).1)
    ensures ReadLine(raw, user).0.Some? ==> Readable(ReadLine(raw, user).0.value.Meaning())
  {
    hide ReadDirective, Fields, HasSpace, TrimSpace, Readable;
    DirectiveReadable(TrimSpace(raw), user);
  }

  lemma DirectiveReadable(line: string, user: string)
    requires !HasSpace(user)
    ensures var r := ReadDirective(Fields(line), user);
            !HasSpace(r.1) && (r.0.Some? ==> Readable(r.0.value.Meaning()))
  {
    hide Fields, Join, HasSpace, ToLower, FileRule, Readable;
    var fields := Fields(line);
    forall i | 0 <= i < |fields| ensures !HasSpace(fields[i]) { assert IsWord(fields[i]); }
    if |fields| >= 3 {
      EmptyHasNoSpace();
      FileRuleReadable(if user == "" then Anonymous else User, user, fields);
      FileRuleReadable(Pattern, "", fields);
    }
  }

  lemma FileRuleReadable(selector: Selector, principal: string, fields: seq<string>)
    requires |fields| >= 3 && !HasSpace(principal)
    requires forall i :: 0 <= i < |fields| ==> IsWord(fields[i])
    ensures Readable(FileRule(selector, principal, fields).Meaning())
  {
    hide Fields, Join, HasSpace, ToLower, IsWord;
    FieldsJoin(fields[2..]);
  }

  lemma {:induction false} ReadLinesReadable(lines: seq<string>, user: string, rule: Rule)
    requires !HasSpace(user) && rule in ReadLines(lines, user)
    ensures Readable(rule.Meaning())
  {
    hide ReadLine, HasSpace, Readable;
    var (first, next) := ReadLine(lines[0], user);
    ReadLineReadable(lines[0], user);
    if rule in ReadLines(lines[1..], next) {
      ReadLinesReadable(lines[1..], next, rule);
    }
  }

  /* Valid rules survive the file exactly when each of them reads back as itself. */
  lemma RenderedFileExact(rules: seq<Rule>)
    requires forall r :: r in rules ==> ValidRule(r)
    ensures CoresOf(ReadFile(RenderFile(rules))) == CoresOf(rules) <==> forall r :: r in rules ==> WellFormed(r)
  {
    hide ValidRule, WellFormed, FileReadable, RenderFile, ReadLines, Split;
    if forall r :: r in rules ==> WellFormed(r) {
      forall r | r in rules ensures FileReadable(r) { WellFormedIsFileReadable(r); }
      RenderedFileMeanings(rules);
    } else if CoresOf(ReadFile(RenderFile(rules))) == CoresOf(rules) {
      forall r | r in rules ensures WellFormed(r) {
        assert r.Meaning() in CoresOf(rules);
        var q :| q in ReadFile(RenderFile(rules)) && q.Meaning() == r.Meaning();
        EmptyHasNoSpace();
        ReadLinesReadable(Split(RenderFile(rules), '\n'), "", q);
        ReadableIsWellFormed(r);
      }
    }
  }
}
