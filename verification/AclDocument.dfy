/**
 The lossless ACL document (internal/mosquitto/acldoc.go): every line of a file becomes one entry
 that keeps its verbatim text, classified under the `user` scope in effect.
 */
module AclDocument {
  import opened Options
  import opened Strings
  import opened Rules

  datatype Kind = Blank | Comment | UserHeader | TopicEntry | PatternEntry | Unknown

  /* One line. `rule` is present when the line could be interpreted; the explanation text of a
     line that could not is not modelled. */
  datatype Entry = Entry(kind: Kind, raw: string, principal: string, rule: Option<Rule>)

  datatype Document = Document(entries: seq<Entry>, endsWithNewline: bool)

  // ---------------------------------------------------------------- parsing

  function PermissionOf(word: string): Permission {
    if word == "read" then Read
    else if word == "write" then Write
    else if word == "readwrite" then ReadWrite
    else if word == "deny" then Deny
    else Unsupported("")
  }

  function BuildRule(selector: Selector, principal: string, permission: string, filter: string): Option<Rule> {
    var rule := Rule("", selector, UnsetScope, "", principal, filter, PermissionOf(ToLower(permission)), "");
    if rule.permission.Unsupported? || !ValidRule(rule) then None else Some(rule)
  }

  function ParseEntry(raw: string, scope: string): (entry: Entry)
    ensures entry.raw == raw
  {
    hide TrimSpace, Fields, ParseDirective;
    var trimmed := TrimSpace(raw);
    if trimmed == "" then Entry(Blank, raw, "", None)
    else if HasPrefix(trimmed, "#") then Entry(Comment, raw, "", None)
    else
      FieldsTrim(raw);
      var fields := Fields(trimmed);
      ParseDirective(raw, ToLower(fields[0]), fields, scope)
  }

  function ParseDirective(raw: string, keyword: string, fields: seq<string>, scope: string): (entry: Entry)
    requires |fields| >= 1
    ensures entry.raw == raw
  {
    hide BuildRule, Join;
    if keyword == "user" then
      if |fields| != 2 then Entry(Unknown, raw, "", None)
      else Entry(UserHeader, raw, fields[1], None)
    else if keyword == "topic" then
      if |fields| < 3 then Entry(Unknown, raw, "", None)
      else Entry(TopicEntry, raw, scope,
                 BuildRule(if scope == "" then Anonymous else User, scope, fields[1], Join(fields[2..], " ")))
    else if keyword == "pattern" then
      if |fields| < 3 then Entry(Unknown, raw, "", None)
      else Entry(PatternEntry, raw, "", BuildRule(Pattern, "", fields[1], Join(fields[2..], " ")))
    else Entry(Unknown, raw, "", None)
  }

  /* Only a `user` header opens a new scope. */
  function NextScope(entry: Entry, scope: string): string {
    if entry.kind == UserHeader then entry.principal else scope
  }

  function ParseLines(lines: seq<string>, scope: string): (entries: seq<Entry>)
    ensures |entries| == |lines|
  {
    if lines == [] then []
    else
      var entry := ParseEntry(lines[0], scope);
      [entry] + ParseLines(lines[1..], NextScope(entry, scope))
  }

  predicate EndsWithNewline(body: string) {
    body != "" && body[|body| - 1] == '\n'
  }

  /* The lines of a body: a trailing newline ends the last line instead of opening another. */
  function Lines(body: string): seq<string> {
    if body == "" then []
    else if EndsWithNewline(body) then Split(body[..|body| - 1], '\n')
    else Split(body, '\n')
  }

  function ParseDocument(body: string): Document {
    Document(ParseLines(Lines(body), ""), EndsWithNewline(body))
  }

  lemma FinalNewline(body: string)
    requires EndsWithNewline(body)
    ensures Split(body, '\n') == Lines(body) + [""]
  {
    assert body == body[..|body| - 1] + ['\n'] + "";
    SplitConcat(body[..|body| - 1], "", '\n');
  }

  method ParseACLDocument(body: string) returns (doc: Document)
    ensures doc == ParseDocument(body)
  {
    hide ParseLines;
    if body == "" {
      return Document([], false);
    }
    var lines := Split(body, '\n');
    var ends := EndsWithNewline(body);
    if ends {
      FinalNewline(body);
      lines := lines[..|lines| - 1];
    }
    var entries := ParseAll(lines);
    doc := Document(entries, ends);
  }

  method ParseAll(lines: seq<string>) returns (entries: seq<Entry>)
    ensures entries == ParseLines(lines, "")
  {
    hide ParseEntry;
    entries := [];
    var scope := "";
    for k := 0 to |lines|
      invariant entries + ParseLines(lines[k..], scope) == ParseLines(lines, "")
    {
      var entry := ParseEntry(lines[k], scope);
      assert lines[k..][1..] == lines[k + 1..];
      entries := entries + [entry];
      scope := NextScope(entry, scope);
    }
  }

  // ---------------------------------------------------------------- rendering

  function Raws(entries: seq<Entry>): (raws: seq<string>)
    ensures |raws| == |entries|
    ensures forall i :: 0 <= i < |raws| ==> raws[i] == entries[i].raw
  {
    seq(|entries|, i requires 0 <= i < |entries| => entries[i].raw)
  }

  function Render(doc: Document): string {
    if doc.entries == [] then ""
    else Join(Raws(doc.entries), "\n") + (if doc.endsWithNewline then "\n" else "")
  }

  lemma {:induction false} ParsedRaws(lines: seq<string>, scope: string)
    ensures Raws(ParseLines(lines, scope)) == lines
  {
    hide ParseEntry;
    if lines != [] {
      var entry := ParseEntry(lines[0], scope);
      ParsedRaws(lines[1..], NextScope(entry, scope));
      assert Raws(ParseLines(lines, scope)) == [lines[0]] + Raws(ParseLines(lines[1..], NextScope(entry, scope)));
    }
  }

  /* Rendering a parsed body reproduces it, whatever the body. */
  lemma RenderInvertsParse(body: string)
    ensures Render(ParseDocument(body)) == body
  {
    hide ParseLines;
    ParsedRaws(Lines(body), "");
    if body != "" {
      var text := if EndsWithNewline(body) then body[..|body| - 1] else body;
      JoinSplit(text, '\n');
      assert EndsWithNewline(body) ==> body == text + "\n";
    }
  }

  /* A document that parsing can produce: whole lines, and a last line that is empty only when a
     newline follows it. */
  predicate Printable(doc: Document) {
    && Free(Raws(doc.entries), '\n')
    && (doc.entries == [] ==> !doc.endsWithNewline)
    && (doc.entries != [] && !doc.endsWithNewline ==> doc.entries[|doc.entries| - 1].raw != "")
  }

  lemma ParsedIsPrintable(body: string)
    ensures Printable(ParseDocument(body))
  {
    hide ParseLines;
    var lines := Lines(body);
    ParsedRaws(lines, "");
    if body != "" {
      SplitFree(if EndsWithNewline(body) then body[..|body| - 1] else body, '\n');
      if !EndsWithNewline(body) {
        SplitLast(body);
      }
    }
  }

  lemma {:induction false} SplitLast(s: string)
    requires s != "" && s[|s| - 1] != '\n'
    ensures var parts := Split(s, '\n'); parts[|parts| - 1] != ""
  {
    if |s| > 1 {
      SplitLast(s[1..]);
    }
  }

  /* Re-parsing the rendered text of a printable document reads its own lines back. */
  lemma ParseInvertsRender(doc: Document)
    requires Printable(doc)
    ensures ParseDocument(Render(doc)) == Document(ParseLines(Raws(doc.entries), ""), doc.endsWithNewline)
  {
    hide ParseLines;
    var raws := Raws(doc.entries);
    if raws == [] {
      assert Lines(Render(doc)) == raws;
    } else {
      var text := Join(raws, "\n");
      SplitJoin(raws, '\n');
      if doc.endsWithNewline {
        assert Render(doc)[..|text|] == text;
      } else {
        assert Render(doc) == text;
        JoinLast(raws);
      }
    }
  }

  lemma {:induction false} JoinLast(parts: seq<string>)
    requires parts != [] && parts[|parts| - 1] != "" && Free(parts, '\n')
    ensures var s := Join(parts, "\n"); s != "" && !EndsWithNewline(s)
  {
    var last := parts[|parts| - 1];
    if |parts| == 1 {
      assert last[|last| - 1] != '\n';
    } else {
      JoinLast(parts[1..]);
    }
  }

  // ---------------------------------------------------------------- meaning of a document

  function RuleMeaning(rule: Option<Rule>): Option<Core> {
    match rule
    case None => None
    case Some(r) => Some(r.Meaning())
  }

  /* Two entries that differ at most in the bookkeeping fields of their rules. */
  predicate Same(a: Entry, b: Entry) {
    && a.kind == b.kind && a.raw == b.raw && a.principal == b.principal
    && RuleMeaning(a.rule) == RuleMeaning(b.rule)
  }

  /* The typed rules of a document, as meanings. */
  function Meanings(entries: seq<Entry>): set<Core> {
    set e | e in entries && e.rule.Some? :: e.rule.value.Meaning()
  }

  function TypedRules(entries: seq<Entry>): seq<Rule> {
    if entries == [] then []
    else (if entries[0].rule.Some? then [entries[0].rule.value] else []) + TypedRules(entries[1..])
  }

  lemma {:induction false} TypedRulesMeanings(entries: seq<Entry>)
    ensures CoresOf(TypedRules(entries)) == Meanings(entries)
  {
    if entries != [] {
      TypedRulesMeanings(entries[1..]);
      var e := entries[0];
      var head: seq<Rule> := if e.rule.Some? then [e.rule.value] else [];
      CoresConcat(head, TypedRules(entries[1..]));
      MeaningsConcat([e], entries[1..]);
      assert entries == [e] + entries[1..];
      assert CoresOf(head) == Meanings([e]) by {
        if e.rule.Some? {
          assert e.rule.value in head;
          assert e in [e];
        }
      }
    }
  }

  lemma CoresConcat(a: seq<Rule>, b: seq<Rule>)
    ensures CoresOf(a + b) == CoresOf(a) + CoresOf(b)
  {
    assert forall r :: r in a + b <==> r in a || r in b;
  }

  lemma MeaningsConcat(a: seq<Entry>, b: seq<Entry>)
    ensures Meanings(a + b) == Meanings(a) + Meanings(b)
  {
    assert forall e :: e in a + b <==> e in a || e in b;
  }

  // ---------------------------------------------------------------- semantic keys

  /* The permission and filter of a directive, from its rule or else from its words. */
  function PermissionAndFilter(e: Entry): (string, string) {
    match e.rule
    case Some(rule) => (PermissionText(rule.permission), rule.filter)
    case None =>
      var fields := Fields(TrimSpace(e.raw));
      if |fields| < 3 then ("", "") else (ToLower(fields[1]), Join(fields[2..], " "))
  }

  function TopicKey(principal: string, permission: string, filter: string): string {
    if principal == "" then "anonymous | topic " + permission + " " + filter
    else "user " + principal + " | topic " + permission + " " + filter
  }

  function PatternKey(permission: string, filter: string): string {
    "pattern | " + permission + " " + filter
  }

  /* What an entry grants, independent of its formatting; empty for lines without semantics. */
  function SemanticKey(e: Entry): string {
    match e.kind
    case TopicEntry => var (perm, filter) := PermissionAndFilter(e); TopicKey(e.principal, perm, filter)
    case PatternEntry => var (perm, filter) := PermissionAndFilter(e); PatternKey(perm, filter)
    case Unknown => "unknown | " + TrimSpace(e.raw)
    case _ => ""
  }

  function ManagedRuleKey(rule: Rule): string {
    match rule.EffectiveSelector()
    case Anonymous => "anonymous | topic " + PermissionText(rule.permission) + " " + rule.filter
    case Pattern => PatternKey(PermissionText(rule.permission), rule.filter)
    case _ => "user " + rule.principal + " | topic " + PermissionText(rule.permission) + " " + rule.filter
  }

  function Keys(entries: seq<Entry>): set<string> {
    set e | e in entries && SemanticKey(e) != "" :: SemanticKey(e)
  }

  lemma KeysConcat(a: seq<Entry>, b: seq<Entry>)
    ensures Keys(a + b) == Keys(a) + Keys(b)
  {
    assert forall e :: e in a + b <==> e in a || e in b;
  }

  lemma SameKey(a: Entry, b: Entry)
    requires Same(a, b)
    ensures SemanticKey(a) == SemanticKey(b)
  {
  }

  /* The keys the base document has and the next one lacks, sorted. */
  method MissingSemanticEntries(base: Document, next: Document) returns (missing: seq<string>)
    ensures StrictlySorted(missing)
    ensures forall k :: k in missing <==> k in Keys(base.entries) && k !in Keys(next.entries)
  {
    missing := [];
    var present := Keys(next.entries);
    for i := 0 to |base.entries|
      invariant StrictlySorted(missing)
      invariant forall k :: k in missing <==> k in Keys(base.entries[..i]) && k !in present
    {
      PrefixStep(base.entries, i);
      var key := SemanticKey(base.entries[i]);
      KeysConcat(base.entries[..i], [base.entries[i]]);
      assert Keys([base.entries[i]]) == (if key == "" then {} else {key}) by {
        assert base.entries[i] in [base.entries[i]];
      }
      if key != "" && key !in present {
        missing := SortedInsert(missing, key);
      }
    }
    assert base.entries[..|base.entries|] == base.entries;
  }
}
