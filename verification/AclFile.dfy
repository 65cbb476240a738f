/**
 Rendering rules into a Mosquitto ACL file and reading one back (internal/mosquitto/acl.go).

 A `topic` line belongs to the most recent `user` line, so the printed sections and their order carry
 meaning. The main theorem: a printed file reads back as the same rules, grouped but unchanged.
 */
module AclFile {
  import opened Options
  import opened Strings
  import opened Rules
  import opened AclDocument

  // ---------------------------------------------------------------- reading

  /* The rule a line states, if any, and the user in effect after it. */
  function ReadLine(raw: string, user: string): (Option<Rule>, string) {
    var line := TrimSpace(raw);
    if line == "" || HasPrefix(line, "#") then (None, user)
    else ReadDirective(Fields(line), user)
  }

  function ReadDirective(fields: seq<string>, user: string): (Option<Rule>, string) {
    if |fields| < 2 then (None, user)
    else
      var keyword := ToLower(fields[0]);
      if keyword == "user" then (None, fields[1])
      else if keyword == "topic" && |fields| >= 3 then
        (Some(FileRule(if user == "" then Anonymous else User, user, fields)), user)
      else if keyword == "pattern" && |fields| >= 3 then
        (Some(FileRule(Pattern, "", fields)), user)
      else (None, user)
  }

  function FileRule(selector: Selector, principal: string, fields: seq<string>): Rule
    requires |fields| >= 3
  {
    Rule("", selector, Global, "", principal, Join(fields[2..], " "), PermissionOf(ToLower(fields[1])), "")
  }

  function OptionSeq<T>(o: Option<T>): seq<T> {
    match o
    case None => []
    case Some(x) => [x]
  }

  function ReadLines(lines: seq<string>, user: string): seq<Rule> {
    if lines == [] then []
    else
      var (rule, next) := ReadLine(lines[0], user);
      OptionSeq(rule) + ReadLines(lines[1..], next)
  }

  function UserAfter(lines: seq<string>, user: string): string {
    if lines == [] then user else UserAfter(lines[1..], ReadLine(lines[0], user).1)
  }

  function ReadFile(body: string): seq<Rule> {
    ReadLines(Split(body, '\n'), "")
  }

  method ParseACLFile(body: string) returns (rules: seq<Rule>)
    ensures rules == ReadFile(body)
  {
    hide ReadLine;
    var lines := Split(body, '\n');
    rules := [];
    var currentUser := "";
    for k := 0 to |lines|
      invariant rules + ReadLines(lines[k..], currentUser) == ReadLines(lines, "")
    {
      assert lines[k..][1..] == lines[k + 1..];
      var (rule, next) := ReadLine(lines[k], currentUser);
      if rule.Some? {
        rules := rules + [rule.value];
      }
      currentUser := next;
    }
  }

  lemma {:induction false} ReadLinesConcat(a: seq<string>, b: seq<string>, user: string)
    ensures ReadLines(a + b, user) == ReadLines(a, user) + ReadLines(b, UserAfter(a, user))
    ensures UserAfter(a + b, user) == UserAfter(b, UserAfter(a, user))
  {
    hide ReadLine;
    if a == [] {
      assert a + b == b;
    } else {
      assert (a + b)[1..] == a[1..] + b;
      ReadLinesConcat(a[1..], b, ReadLine(a[0], user).1);
    }
  }

  // ---------------------------------------------------------------- printing

  function AnonymousRules(rules: seq<Rule>): seq<Rule> {
    Select(rules, (r: Rule) => r.EffectiveSelector() == Anonymous)
  }

  function PatternRules(rules: seq<Rule>): seq<Rule> {
    Select(rules, (r: Rule) => r.EffectiveSelector() == Pattern)
  }

  predicate Grouped(r: Rule) {
    r.EffectiveSelector() != Anonymous && r.EffectiveSelector() != Pattern
  }

  function Group(rules: seq<Rule>, principal: string): seq<Rule> {
    Select(rules, (r: Rule) => Grouped(r) && r.principal == principal)
  }

  function Select(rules: seq<Rule>, keep: Rule -> bool): (r: seq<Rule>)
    ensures forall x :: x in r <==> x in rules && keep(x)
    ensures (forall x :: x in rules ==> !keep(x)) ==> r == []
  {
    if rules == [] then []
    else
      var last := rules[|rules| - 1];
      var init := Select(rules[..|rules| - 1], keep);
      assert forall x :: x in rules <==> x in rules[..|rules| - 1] || x == last by {
        assert rules == rules[..|rules| - 1] + [last];
      }
      if keep(last) then init + [last] else init
  }

  /* The principals of the grouped rules, in lexicographic order. */
  function Principals(rules: seq<Rule>): (names: seq<string>)
    ensures StrictlySorted(names)
    ensures forall p :: p in names <==> exists r :: r in rules && Grouped(r) && r.principal == p
  {
    if rules == [] then []
    else
      var last := rules[|rules| - 1];
      var init := Principals(rules[..|rules| - 1]);
      assert forall x :: x in rules <==> x in rules[..|rules| - 1] || x == last by {
        assert rules == rules[..|rules| - 1] + [last];
      }
      if Grouped(last) then SortedInsert(init, last.principal) else init
  }

  function TopicLines(rules: seq<Rule>): (lines: seq<string>)
    ensures |lines| == |rules|
  {
    seq(|rules|, i requires 0 <= i < |rules| => TopicLine(rules[i]))
  }

  function PatternLines(rules: seq<Rule>): (lines: seq<string>)
    ensures |lines| == |rules|
  {
    seq(|rules|, i requires 0 <= i < |rules| => PatternLine(rules[i]))
  }

  function UserSection(rules: seq<Rule>, principal: string): (lines: seq<string>)
    ensures |lines| >= 1
  {
    ["user " + principal] + TopicLines(Group(rules, principal))
  }

  function UserSections(rules: seq<Rule>, principals: seq<string>): (sections: seq<seq<string>>)
    ensures |sections| == |principals|
    ensures forall i :: 0 <= i < |sections| ==> sections[i] == UserSection(rules, principals[i])
  {
    seq(|principals|, i requires 0 <= i < |principals| => UserSection(rules, principals[i]))
  }

  /* The lines of the file, section by section. */
  function Sections(rules: seq<Rule>): (sections: seq<seq<string>>)
    ensures forall i :: 0 <= i < |sections| ==> sections[i] != []
  {
    NonEmpty(TopicLines(AnonymousRules(rules)))
    + (NonEmpty(PatternLines(PatternRules(rules))) + UserSections(rules, Principals(rules)))
  }

  /* A section without lines is not printed. */
  function NonEmpty(lines: seq<string>): (sections: seq<seq<string>>)
    ensures forall i :: 0 <= i < |sections| ==> sections[i] != []
  {
    if lines == [] then [] else [lines]
  }

  function SectionTexts(sections: seq<seq<string>>): (texts: seq<string>)
    ensures |texts| == |sections|
    ensures forall i :: 0 <= i < |texts| ==> texts[i] == Join(sections[i], "\n")
  {
    seq(|sections|, i requires 0 <= i < |sections| => Join(sections[i], "\n"))
  }

  function RenderFile(rules: seq<Rule>): string {
    Join(SectionTexts(Sections(rules)), "\n\n")
  }

  /* Every line is written with a newline; the last newline of the section is cut. */
  method RenderLines(lines: seq<string>) returns (text: string)
    ensures text == Join(lines, "\n")
  {
    var b := "";
    for k := 0 to |lines|
      invariant b == if k == 0 then "" else Join(lines[..k], "\n") + "\n"
    {
      assert lines[..k + 1] == lines[..k] + [lines[k]];
      if k > 0 {
        JoinSnoc(lines[..k], lines[k], "\n");
      }
      b := b + lines[k];
      b := b + "\n";
    }
    assert lines[..|lines|] == lines;
    text := if |lines| > 0 then b[..|b| - 1] else b;
  }

  /* What one more rule adds to the groups. */
  lemma GroupStep(rules: seq<Rule>, k: nat)
    requires k < |rules|
    ensures var r, before, after := rules[k], rules[..k], rules[..k + 1];
            && AnonymousRules(after) == AnonymousRules(before) + (if r.EffectiveSelector() == Anonymous then [r] else [])
            && PatternRules(after) == PatternRules(before) + (if r.EffectiveSelector() == Pattern then [r] else [])
            && Principals(after) == (if Grouped(r) then SortedInsert(Principals(before), r.principal) else Principals(before))
            && forall p :: Group(after, p) == Group(before, p) + (if Grouped(r) && r.principal == p then [r] else [])
  {
    assert rules[..k + 1][..k] == rules[..k];
  }

  lemma NoRules()
    ensures AnonymousRules([]) == [] && PatternRules([]) == [] && Principals([]) == []
    ensures forall p :: Group([], p) == []
  {
  }

  method GroupRules(rules: seq<Rule>)
    returns (anonymous: seq<Rule>, patterns: seq<Rule>, groups: map<string, seq<Rule>>, principals: seq<string>)
    ensures anonymous == AnonymousRules(rules) && patterns == PatternRules(rules)
    ensures principals == Principals(rules)
    ensures forall p :: p in principals ==> p in groups && groups[p] == Group(rules, p)
  {
    hide AnonymousRules, PatternRules, Principals, Group, SortedInsert, StrictlySorted;
    NoRules();
    anonymous, patterns, groups, principals := [], [], map[], [];
    assert rules[..0] == [];
    for k := 0 to |rules|
      invariant anonymous == AnonymousRules(rules[..k]) && patterns == PatternRules(rules[..k])
      invariant principals == Principals(rules[..k])
      invariant forall p :: p in groups <==> p in principals
      invariant forall p :: p in groups ==> groups[p] == Group(rules[..k], p)
    {
      var r := rules[k];
      GroupStep(rules, k);
      if r.EffectiveSelector() == Anonymous {
        anonymous := anonymous + [r];
      } else if r.EffectiveSelector() == Pattern {
        patterns := patterns + [r];
      } else {
        NoGroupYet(rules[..k], r.principal);
        var sofar := if r.principal in groups then groups[r.principal] else [];
        groups := groups[r.principal := sofar + [r]];
        principals := SortedInsert(principals, r.principal);
      }
    }
    assert rules[..|rules|] == rules;
  }

  lemma NoGroupYet(rules: seq<Rule>, principal: string)
    ensures principal in Principals(rules) || Group(rules, principal) == []
  {
  }

  lemma SectionTextsConcat(a: seq<seq<string>>, b: seq<seq<string>>)
    ensures SectionTexts(a + b) == SectionTexts(a) + SectionTexts(b)
  {
  }

  lemma UserSectionsStep(rules: seq<Rule>, principals: seq<string>, i: nat)
    requires i < |principals|
    ensures SectionTexts(UserSections(rules, principals[..i + 1]))
         == SectionTexts(UserSections(rules, principals[..i])) + [Join(UserSection(rules, principals[i]), "\n")]
  {
    hide UserSection, Join;
    assert UserSections(rules, principals[..i + 1]) == UserSections(rules, principals[..i]) + [UserSection(rules, principals[i])];
    SectionTextsConcat(UserSections(rules, principals[..i]), [UserSection(rules, principals[i])]);
  }

  method RenderUserSections(rules: seq<Rule>, groups: map<string, seq<Rule>>, principals: seq<string>)
    returns (sections: seq<string>)
    requires forall p :: p in principals ==> p in groups && groups[p] == Group(rules, p)
    ensures sections == SectionTexts(UserSections(rules, principals))
  {
    hide Group, Join;
    sections := [];
    for i := 0 to |principals|
      invariant sections == SectionTexts(UserSections(rules, principals[..i]))
    {
      UserSectionsStep(rules, principals, i);
      var text := RenderLines(["user " + principals[i]] + TopicLines(groups[principals[i]]));
      sections := sections + [text];
    }
    assert principals[..|principals|] == principals;
  }

  method RenderSection(lines: seq<string>) returns (sections: seq<string>)
    ensures sections == SectionTexts(NonEmpty(lines))
  {
    sections := [];
    if |lines| > 0 {
      var text := RenderLines(lines);
      sections := sections + [text];
    }
  }

  method RenderACLFile(rules: seq<Rule>) returns (body: string)
    ensures body == RenderFile(rules)
  {
    hide AnonymousRules, PatternRules, Principals, Group, UserSections, Join, SectionTexts, TopicLines, PatternLines;
    if |rules| == 0 {
      NoSections();
      return "";
    }
    var anonymous, patterns, groups, principals := GroupRules(rules);
    var first := RenderSection(TopicLines(anonymous));
    var second := RenderSection(PatternLines(patterns));
    var users := RenderUserSections(rules, groups, principals);
    ThreeSections(NonEmpty(TopicLines(anonymous)), NonEmpty(PatternLines(patterns)), UserSections(rules, principals));
    return Join(first + second + users, "\n\n");
  }

  lemma NoSections()
    ensures RenderFile([]) == ""
  {
  }

  lemma ThreeSections(a: seq<seq<string>>, b: seq<seq<string>>, c: seq<seq<string>>)
    ensures SectionTexts(a + (b + c)) == SectionTexts(a) + SectionTexts(b) + SectionTexts(c)
  {
    hide Join;
  }
}
