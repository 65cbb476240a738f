/**
 The two readers of an ACL file. A deploy reads a body as a document (internal/mosquitto/acldoc.go) and
 looks for something to verify with the plain parser (internal/mosquitto/acl.go). Both read the
 same rules, except on a `user` line of more than one name.
 */
module Readers {
  import opened Options
  import opened Strings
  import opened Rules
  import opened AclDocument
  import opened AclFile
  import opened AclFileTheorems
  import opened Composition
  import opened ComposedMeaning

  /* A line that is no `user` line of more than one name. */
  predicate PlainHeader(line: string) {
    |Fields(line)| > 2 ==> ToLower(Fields(line)[0]) != "user"
  }

  predicate PlainHeaders(lines: seq<string>) {
    forall line :: line in lines ==> PlainHeader(line)
  }

  /* The rules that validation accepts. */
  function Accepted(rules: seq<Rule>): seq<Rule> {
    if rules == [] then []
    else (if ValidRule(rules[0]) then [rules[0]] else []) + Accepted(rules[1..])
  }

  lemma {:induction false} AcceptedMembers(rules: seq<Rule>)
    ensures forall r :: r in Accepted(rules) <==> r in rules && ValidRule(r)
  {
    hide ValidRule;
    if rules != [] {
      AcceptedMembers(rules[1..]);
      assert rules == [rules[0]] + rules[1..];
    }
  }

  lemma BuildsWhatIsRead(selector: Selector, principal: string, fields: seq<string>)
    requires |fields| >= 3
    ensures var rule := FileRule(selector, principal, fields);
            var built := BuildRule(selector, principal, fields[1], Join(fields[2..], " "));
            && (built.Some? <==> ValidRule(rule))
            && (built.Some? ==> built.value.Meaning() == rule.Meaning())
  {
    hide ValidTopicFilter, ValidPlaceholders, ValidPrincipal, Join, ToLower, TrimSpace;
  }

  /* What both readers make of one line. */
  lemma LineAgrees(line: string, scope: string)
    requires PlainHeader(line)
    ensures ReadLine(line, scope).1 == NextScope(ParseEntry(line, scope), scope)
    ensures ParseEntry(line, scope).rule.Some? <==>
              ReadLine(line, scope).0.Some? && ValidRule(ReadLine(line, scope).0.value)
    ensures ParseEntry(line, scope).rule.Some? ==>
              ParseEntry(line, scope).rule.value.Meaning() == ReadLine(line, scope).0.value.Meaning()
  {
    hide Fields, TrimSpace, FileRule, BuildRule, ValidRule, Join, ToLower;
    FieldsTrim(line);
    var fields := Fields(line);
    if |fields| >= 3 {
      BuildsWhatIsRead(if scope == "" then Anonymous else User, scope, fields);
      BuildsWhatIsRead(Pattern, "", fields);
    }
    DirectiveAgrees(line, scope);
  }

  lemma DirectiveAgrees(line: string, scope: string)
    requires PlainHeader(line)
    ensures TrimSpace(line) == "" || HasPrefix(TrimSpace(line), "#") ==>
              ReadLine(line, scope) == (None, scope) && ParseEntry(line, scope).kind in {Blank, Comment}
              && ParseEntry(line, scope).rule.None?
    ensures !(TrimSpace(line) == "" || HasPrefix(TrimSpace(line), "#")) ==>
              && Fields(line) != []
              && ReadLine(line, scope) == ReadDirective(Fields(line), scope)
              && ParseEntry(line, scope) == ParseDirective(line, ToLower(Fields(line)[0]), Fields(line), scope)
  {
    hide Fields, TrimSpace, ReadDirective, ParseDirective, ToLower;
    FieldsTrim(line);
  }

  lemma {:induction false} LinesAgree(lines: seq<string>, scope: string)
    requires PlainHeaders(lines)
    ensures MeaningsOf(TypedRules(ParseLines(lines, scope))) == MeaningsOf(Accepted(ReadLines(lines, scope)))
  {
    hide ParseEntry, ReadLine, ValidRule, PlainHeader, NextScope;
    if lines != [] {
      var entry := ParseEntry(lines[0], scope);
      var (rule, next) := ReadLine(lines[0], scope);
      LineAgrees(lines[0], scope);
      LinesAgree(lines[1..], next);
      var head: seq<Rule> := if entry.rule.Some? then [entry.rule.value] else [];
      var rest := ParseLines(lines[1..], next);
      assert ParseLines(lines, scope) == [entry] + rest;
      assert TypedRules([entry] + rest) == head + TypedRules(rest) by {
        assert ([entry] + rest)[1..] == rest;
      }
      AcceptedStep(rule, ReadLines(lines[1..], next));
      MeaningsOfConcat(head, TypedRules(rest));
      MeaningsOfConcat(Accepted(OptionSeq(rule)), Accepted(ReadLines(lines[1..], next)));
      assert MeaningsOf(head) == MeaningsOf(Accepted(OptionSeq(rule)));
    }
  }

  lemma AcceptedStep(rule: Option<Rule>, rest: seq<Rule>)
    ensures Accepted(OptionSeq(rule) + rest) == Accepted(OptionSeq(rule)) + Accepted(rest)
    ensures Accepted(OptionSeq(rule)) == if rule.Some? && ValidRule(rule.value) then [rule.value] else []
  {
    hide ValidRule;
    if rule.Some? {
      assert (OptionSeq(rule) + rest)[1..] == rest;
    } else {
      assert OptionSeq(rule) + rest == rest;
    }
  }

  /* Main theorem: the typed rules of the document are the valid rules of the file, in order. */
  lemma ReadersAgree(body: string)
    requires PlainHeaders(Split(body, '\n'))
    ensures MeaningsOf(TypedRules(ParseDocument(body).entries)) == MeaningsOf(Accepted(ReadFile(body)))
  {
    hide ParseLines, ReadLine, Split, PlainHeader;
    var lines := Lines(body);
    if body == "" {
      SplitWhole(body, '\n');
      NoLines();
    } else if EndsWithNewline(body) {
      FinalNewline(body);
      assert Split(body, '\n') == lines + [""];
      assert forall line :: line in lines ==> line in Split(body, '\n');
      LinesAgree(lines, "");
      ReadLinesConcat(lines, [""], "");
      LastBlank(UserAfter(lines, ""));
      assert ReadLines(lines, "") + [] == ReadLines(lines, "");
    } else {
      LinesAgree(lines, "");
    }
  }

  lemma LastBlank(user: string)
    ensures ReadLines([""], user) == []
  {
    BlankLine(user);
    assert [""][1..] == [];
  }

  lemma NoLines()
    ensures ParseLines([], "") == [] && ReadLines([""], "") == []
  {
    LastBlank("");
  }

  /* A line that adds one rule with this meaning and leaves the user in effect. */
  predicate ReadsAs(line: string, user: string, c: Core) {
    ReadLine(line, user).0.Some? && ReadLine(line, user).0.value.Meaning() == c && ReadLine(line, user).1 == user
  }

  /* What the lines of a file mean, word by word. */
  lemma LinesMean(name: string, user: string, filter: string)
    requires IsWord(name) && IsWord(filter) && (user == "" || IsWord(user))
    ensures var selector := if user == "" then Anonymous else User;
            && ReadLine("user " + name, user) == (None, name)
            && ReadsAs("topic " + "read" + " " + filter, user, Core(selector, user, Read, filter))
            && ReadsAs("topic " + "write" + " " + filter, user, Core(selector, user, Write, filter))
            && ReadsAs("topic " + "readwrite" + " " + filter, user, Core(selector, user, ReadWrite, filter))
            && ReadsAs("topic " + "deny" + " " + filter, user, Core(selector, user, Deny, filter))
            && ReadsAs("pattern " + "read" + " " + filter, user, Core(Pattern, "", Read, filter))
            && ReadsAs("pattern " + "write" + " " + filter, user, Core(Pattern, "", Write, filter))
            && ReadsAs("pattern " + "readwrite" + " " + filter, user, Core(Pattern, "", ReadWrite, filter))
            && ReadsAs("pattern " + "deny" + " " + filter, user, Core(Pattern, "", Deny, filter))
  {
    hide ReadsAs, ReadLine, IsWord;
    HeaderLineRead(name, user);
    forall permission: Permission | !permission.Unsupported?
      ensures ReadsAs("topic " + PermissionText(permission) + " " + filter, user,
                      Core(if user == "" then Anonymous else User, user, permission, filter))
      ensures ReadsAs("pattern " + PermissionText(permission) + " " + filter, user, Core(Pattern, "", permission, filter))
    {
      LineMeans("topic " + PermissionText(permission) + " " + filter, user, permission, filter);
      PatternMeans("pattern " + PermissionText(permission) + " " + filter, user, permission, filter);
    }
    assert PermissionText(Read) == "read" && PermissionText(Write) == "write";
    assert PermissionText(ReadWrite) == "readwrite" && PermissionText(Deny) == "deny";
  }

  lemma LineMeans(line: string, user: string, permission: Permission, filter: string)
    requires IsWord(filter) && (user == "" || IsWord(user)) && !permission.Unsupported?
    requires line == "topic " + PermissionText(permission) + " " + filter
    ensures ReadsAs(line, user, Core(if user == "" then Anonymous else User, user, permission, filter))
  {
    hide ReadLine, IsWord, Fields, PermissionText;
    var rule := Rule("", if user == "" then Anonymous else User, Global, "", user, filter, permission, "");
    WordFields(filter);
    assert line == "topic" + " " + PermissionText(permission) + " " + filter;
    RuleLineReads(line, "topic", rule, user);
  }

  lemma PatternMeans(line: string, user: string, permission: Permission, filter: string)
    requires IsWord(filter) && !permission.Unsupported?
    requires line == "pattern " + PermissionText(permission) + " " + filter
    ensures ReadsAs(line, user, Core(Pattern, "", permission, filter))
  {
    hide ReadLine, IsWord, Fields, PermissionText;
    var rule := Rule("", Pattern, Global, "", "", filter, permission, "");
    WordFields(filter);
    assert line == "pattern" + " " + PermissionText(permission) + " " + filter;
    RuleLineReads(line, "pattern", rule, user);
  }

  /* A `user` line of two names opens a scope for the plain parser and none for the document: the topic
     below it is granted to the first name by the one and to anonymous clients by the other. */
  lemma TwoNamesDisagree(a: string, b: string, rule: Rule)
    requires IsWord(a) && IsWord(b) && WellFormed(rule) && rule.EffectiveSelector() == Anonymous
    ensures var lines := ["user " + a + " " + b, TopicLine(rule)];
            && MeaningsOf(TypedRules(ParseLines(lines, ""))) == [rule.Meaning()]
            && MeaningsOf(ReadLines(lines, "")) == [Core(User, a, rule.permission, rule.filter)]
  {
    hide ParseEntry, ReadLine, WellFormed, FileReadable, TopicLine, Fields;
    var first, second := "user " + a + " " + b, TopicLine(rule);
    TwoNamesLine(a, b);
    PrincipalIsWord(rule);
    TopicLineReads(rule, "");
    ForAnother(rule, a);
    var granted := rule.(selector := User, principal := a);
    TopicLineRead(granted, a);
    assert TopicLine(granted) == second by {
      LineShapes(rule);
      LineShapes(granted);
    }
    assert [first, second][1..] == [second] && [second][1..] == [];
    var entries := [ParseEntry(first, ""), ParseEntry(second, "")];
    assert ParseLines([first, second], "") == entries;
    assert entries[1..] == [entries[1]] && [entries[1]][1..] == [];
    assert TypedRules([entries[1]]) == [entries[1].rule.value];
    assert ReadLines([second], a) == [ReadLine(second, a).0.value];
  }

  lemma ForAnother(rule: Rule, principal: string)
    requires WellFormed(rule) && IsWord(principal)
    ensures FileReadable(rule.(selector := User, principal := principal))
  {
    hide WellFormed, IsWord, Fields, Join;
    WellFormedIsFileReadable(rule);
  }

  lemma TwoNamesLine(a: string, b: string)
    requires IsWord(a) && IsWord(b)
    ensures var line := "user " + a + " " + b;
            && ReadLine(line, "") == (None, a)
            && ParseEntry(line, "").kind == Unknown && ParseEntry(line, "").rule.None?
  {
    hide ReadLine, ParseEntry, Fields, ToLower, IsWord;
    DirectiveWords();
    WordFields(b);
    LineFields("user", a, b);
    var line := "user " + a + " " + b;
    assert line == "user" + " " + a + " " + b;
    ReadByFields(line, "");
    ParseByFields(line, "");
  }

  lemma WordFields(w: string)
    requires IsWord(w)
    ensures Fields(w) == [w]
  {
    assert w == w + "";
    FieldsCons(w, "");
  }
}
