/**
 The theorems about composing managed rules into an adopted ACL source: nothing of the source is lost,
 the composed text decides requests as both rule sets together, and composing again changes nothing.
 */
module CompositionTheorems {
  import opened Options
  import opened Strings
  import opened Rules
  import opened AclDocument
  import opened Effective
  import opened Composition
  import opened ComposedMeaning

  // ---------------------------------------------------------------- kept lines

  ghost predicate Subsequence<T>(a: seq<T>, b: seq<T>) {
    a == [] ||
    (b != [] && ((a[0] == b[0] && Subsequence(a[1..], b[1..])) || Subsequence(a, b[1..])))
  }

  lemma {:induction false} SubsequenceSelf<T>(a: seq<T>)
    ensures Subsequence(a, a)
  {
    if a != [] {
      SubsequenceSelf(a[1..]);
    }
  }

  lemma {:induction false} SubsequenceInsert<T>(a: seq<T>, b: seq<T>, i: nat, x: T)
    requires i <= |b| && Subsequence(a, b)
    ensures Subsequence(a, Insert(b, i, x))
    decreases |b|
  {
    var r := Insert(b, i, x);
    if i == 0 {
      assert r[1..] == b;
    } else {
      assert r[0] == b[0] && r[1..] == Insert(b[1..], i - 1, x);
      if a != [] {
        if a[0] == b[0] && Subsequence(a[1..], b[1..]) {
          SubsequenceInsert(a[1..], b[1..], i - 1, x);
        } else {
          SubsequenceInsert(a, b[1..], i - 1, x);
        }
      }
    }
  }

  lemma RawsInsert(entries: seq<Entry>, i: nat, e: Entry)
    requires i <= |entries|
    ensures Raws(Insert(entries, i, e)) == Insert(Raws(entries), i, e.raw)
  {
  }

  // ---------------------------------------------------------------- one insertion

  /* What every step of the composition keeps, with respect to the source lines. */
  ghost predicate Sound(source: seq<Entry>, entries: seq<Entry>, ends: bool) {
    && Consistent(entries, "")
    && Printable(Document(entries, ends))
    && Subsequence(Raws(source), Raws(entries))
  }

  lemma InsertPrintable(source: seq<Entry>, entries: seq<Entry>, ends: bool, i: nat, e: Entry)
    requires i <= |entries|
    requires Printable(Document(entries, ends)) && Subsequence(Raws(source), Raws(entries))
    requires e.raw != "" && '\n' !in e.raw
    ensures Printable(Document(Insert(entries, i, e), ends))
    ensures Subsequence(Raws(source), Raws(Insert(entries, i, e)))
  {
    hide Subsequence;
    RawsInsert(entries, i, e);
    SubsequenceInsert(Raws(source), Raws(entries), i, e.raw);
    var r := Insert(entries, i, e);
    forall k | 0 <= k < |r| ensures '\n' !in Raws(r)[k] {
      assert r[k] == (if k < i then entries[k] else if k == i then e else entries[k - 1]);
      assert k != i ==> '\n' !in Raws(entries)[if k < i then k else k - 1];
    }
  }

  lemma NoNewline(rule: Rule)
    requires WellFormed(rule)
    ensures '\n' !in rule.filter && '\n' !in rule.principal
  {
    hide Fields, Join, TrimSpace, Split, ValidPlaceholders;
    forall i | 0 <= i < |rule.filter| ensures rule.filter[i] != '\n' { assert !IsControl(rule.filter[i]); }
    forall i | 0 <= i < |rule.principal| ensures rule.principal[i] != '\n' { assert !IsSpace(rule.principal[i]); }
  }

  lemma ThreeParts(line: string, a: string, b: string, c: string)
    requires line == a + b + " " + c
    requires a != "" && '\n' !in a && '\n' !in b && '\n' !in c
    ensures line != "" && '\n' !in line
  {
    assert forall x :: x in a + b + " " + c <==> x in a || x in b || x == ' ' || x in c;
    assert line[0] == a[0];
  }

  lemma PermissionPrintable(p: Permission)
    requires !p.Unsupported?
    ensures '\n' !in PermissionText(p)
  {
  }

  lemma TopicLinePrintable(rule: Rule)
    requires WellFormed(rule)
    ensures TopicLine(rule) != "" && '\n' !in TopicLine(rule)
  {
    hide WellFormed, PermissionText;
    NoNewline(rule);
    FilterWords(rule);
    PermissionPrintable(rule.permission);
    ThreeParts(TopicLine(rule), "topic ", PermissionText(rule.permission), rule.filter);
  }

  lemma PatternLinePrintable(rule: Rule)
    requires WellFormed(rule)
    ensures PatternLine(rule) != "" && '\n' !in PatternLine(rule)
  {
    hide WellFormed, PermissionText;
    NoNewline(rule);
    FilterWords(rule);
    PermissionPrintable(rule.permission);
    ThreeParts(PatternLine(rule), "pattern ", PermissionText(rule.permission), rule.filter);
  }

  lemma HeaderPrintable(rule: Rule)
    requires WellFormed(rule)
    ensures Header(rule.principal).raw != "" && '\n' !in Header(rule.principal).raw
  {
    hide WellFormed;
    NoNewline(rule);
    var line := Header(rule.principal).raw;
    forall i | 0 <= i < |line| ensures line[i] != '\n' {
      assert line[i] == if i < 5 then "user "[i] else rule.principal[i - 5];
    }
  }

  lemma InsertRuleSound(source: seq<Entry>, entries: seq<Entry>, ends: bool, rule: Rule)
    requires Sound(source, entries, ends) && WellFormed(rule)
    ensures Sound(source, InsertRule(entries, rule), ends)
  {
    hide WellFormed, Consistent, Printable, Subsequence, Raws, TopicLine, PatternLine;
    InsertRuleConsistent(entries, rule);
    TopicLinePrintable(rule);
    PatternLinePrintable(rule);
    HeaderPrintable(rule);
    if rule.EffectiveSelector() == Pattern {
      InsertPrintable(source, entries, ends, FirstHeader(entries), Entry(PatternEntry, PatternLine(rule), "", Some(rule)));
    } else if rule.EffectiveSelector() == Anonymous {
      InsertPrintable(source, entries, ends, AnonymousEnd(entries), Entry(TopicEntry, TopicLine(rule), "", Some(rule)));
    } else {
      var (index, needsHeader) := UserInsertIndex(entries, rule.principal);
      var e := Entry(TopicEntry, TopicLine(rule), rule.principal, Some(rule));
      if needsHeader {
        InsertPrintable(source, entries, ends, index, Header(rule.principal));
        InsertPrintable(source, Insert(entries, index, Header(rule.principal)), ends, index + 1, e);
      } else {
        InsertPrintable(source, entries, ends, index, e);
      }
    }
  }

  lemma NormalizeWellFormed(rule: Rule)
    requires WellFormed(rule)
    ensures WellFormed(rule.Normalize())
  {
    hide ValidTopicFilter, ValidPlaceholders, ValidListenerId, HasSpace, Fields, Join, TrimSpace, HasControl;
  }

  // ---------------------------------------------------------------- the whole composition

  lemma {:induction false} ComposeAllSound(source: seq<Entry>, ends: bool, managed: seq<Rule>)
    requires Sound(source, source, ends)
    requires forall r :: r in managed ==> WellFormed(r)
    ensures var result := ComposeAll(source, managed);
            && Sound(source, result, ends)
            && Keys(result) == Keys(source) + ManagedKeys(managed)
            && Meanings(result) == Meanings(source) + CoresOf(managed)
  {
    hide WellFormed, Keys, Meanings, Sound, ManagedRuleKey, ManagedKeys, InsertRule;
    NoWarnings(source);
    if managed != [] {
      var init, last := managed[..|managed| - 1], managed[|managed| - 1];
      assert managed == init + [last];
      ComposeAllSound(source, ends, init);
      CoresConcat(init, [last]);
      assert CoresOf([last]) == {last.Meaning()} by { assert last in [last]; }
      ManagedKeysSnoc(init, last);
      ComposeStepSound(source, ComposeAll(source, init), ends, last);
    } else {
      assert CoresOf(managed) == {};
    }
  }

  lemma WellFormedIsValid(rule: Rule)
    requires WellFormed(rule)
    ensures ValidRule(rule)
  {
  }

  /* One rule, skipped when the document has its key. */
  function ComposeRule(entries: seq<Entry>, rule: Rule): seq<Entry> {
    if ManagedRuleKey(rule) in Keys(entries) then entries else InsertRule(entries, rule.Normalize())
  }

  lemma ComposeStepSound(source: seq<Entry>, entries: seq<Entry>, ends: bool, rule: Rule)
    requires Sound(source, entries, ends) && WellFormed(rule)
    ensures var result := ComposeRule(entries, rule);
            && Sound(source, result, ends)
            && Keys(result) == Keys(entries) + {ManagedRuleKey(rule)}
            && Meanings(result) == Meanings(entries) + {rule.Meaning()}
  {
    hide WellFormed, Keys, Meanings, ManagedRuleKey, Consistent, Printable, Subsequence, InsertRule;
    if ManagedRuleKey(rule) in Keys(entries) {
      SkippedRuleIsPresent(entries, "", rule);
      assert Keys(entries) == Keys(entries) + {ManagedRuleKey(rule)};
      assert Meanings(entries) == Meanings(entries) + {rule.Meaning()};
    } else {
      WellFormedIsValid(rule);
      InsertedKey(entries, rule);
      NormalizeWellFormed(rule);
      InsertRuleSound(source, entries, ends, rule.Normalize());
    }
  }

  lemma ParsedIsSound(body: string)
    ensures var doc := ParseDocument(body); Sound(doc.entries, doc.entries, doc.endsWithNewline)
  {
    hide ParseLines, Consistent, Subsequence, Printable;
    ParsedConsistent(Lines(body), "");
    ParsedIsPrintable(body);
    SubsequenceSelf(Raws(ParseDocument(body).entries));
  }

  /* The composed document, rendered and parsed again. */
  function Recomposed(body: string, managed: seq<Rule>): Document {
    ParseDocument(Render(Compose(ParseDocument(body), managed)))
  }

  lemma RecomposedAgrees(body: string, managed: seq<Rule>)
    requires forall r :: r in managed ==> WellFormed(r)
    ensures var source := ParseDocument(body).entries;
            var result := Recomposed(body, managed).entries;
            && Raws(result) == Raws(ComposeAll(source, managed))
            && Keys(result) == Keys(ComposeAll(source, managed))
            && Meanings(result) == Meanings(ComposeAll(source, managed))
  {
    hide ParseDocument, Render, Keys, Meanings, ComposeAll, Consistent, Subsequence, Printable;
    var doc := ParseDocument(body);
    ParsedIsSound(body);
    ComposeAllSound(doc.entries, doc.endsWithNewline, managed);
    var composed := Compose(doc, managed);
    ParseInvertsRender(composed);
    ConsistentReparse(composed.entries, "");
    SameMeanings(composed.entries, Recomposed(body, managed).entries);
    ParsedRaws(Raws(composed.entries), "");
  }

  /* The rules of the composed file are the source's rules and the managed rules, no more, no less. */
  lemma CompositionMeanings(body: string, managed: seq<Rule>)
    requires forall r :: r in managed ==> WellFormed(r)
    ensures Meanings(Recomposed(body, managed).entries)
         == Meanings(ParseDocument(body).entries) + CoresOf(managed)
  {
    hide ParseDocument, Recomposed, ComposeAll, Meanings, Keys, Sound;
    var doc := ParseDocument(body);
    ParsedIsSound(body);
    ComposeAllSound(doc.entries, doc.endsWithNewline, managed);
    RecomposedAgrees(body, managed);
  }

  /* Main theorem: the composed file decides every request as the two rule sets together. */
  lemma CompositionDecides(body: string, managed: seq<Rule>, identity: Identity, topic: string, access: Access)
    requires forall r :: r in managed ==> WellFormed(r)
    ensures Allowed(CoresOf(TypedRules(Recomposed(body, managed).entries)), identity, topic, access)
         == Allowed(CoresOf(TypedRules(ParseDocument(body).entries) + managed), identity, topic, access)
  {
    hide ParseDocument, Recomposed, Meanings, Allowed, CoresOf, TypedRules;
    CompositionMeanings(body, managed);
    TypedRulesMeanings(Recomposed(body, managed).entries);
    TypedRulesMeanings(ParseDocument(body).entries);
    CoresConcat(TypedRules(ParseDocument(body).entries), managed);
  }

  /* Every source line survives verbatim and in order, and no access of the source is missing. */
  lemma CompositionKeepsSource(body: string, managed: seq<Rule>)
    requires forall r :: r in managed ==> WellFormed(r)
    ensures Subsequence(Lines(body), Raws(Recomposed(body, managed).entries))
    ensures Keys(ParseDocument(body).entries) <= Keys(Recomposed(body, managed).entries)
  {
    hide Recomposed, ComposeAll, Keys, Consistent, Printable, Subsequence, ParseLines;
    var doc := ParseDocument(body);
    ParsedIsSound(body);
    ParsedRaws(Lines(body), "");
    ComposeAllSound(doc.entries, doc.endsWithNewline, managed);
    RecomposedAgrees(body, managed);
  }

  lemma {:induction false} NothingToInsert(entries: seq<Entry>, managed: seq<Rule>)
    requires forall r :: r in managed ==> ManagedRuleKey(r) in Keys(entries)
    ensures ComposeAll(entries, managed) == entries
  {
    hide Keys, ManagedRuleKey, InsertRule;
    if managed != [] {
      NothingToInsert(entries, managed[..|managed| - 1]);
    }
  }

  /* Composing the same rules into the re-parsed result inserts nothing. */
  lemma CompositionIdempotent(body: string, managed: seq<Rule>)
    requires forall r :: r in managed ==> WellFormed(r)
    ensures Compose(Recomposed(body, managed), managed) == Recomposed(body, managed)
  {
    hide ParseDocument, Recomposed, ComposeAll, Keys, Sound, ManagedRuleKey;
    var doc := ParseDocument(body);
    ParsedIsSound(body);
    ComposeAllSound(doc.entries, doc.endsWithNewline, managed);
    RecomposedAgrees(body, managed);
    NothingToInsert(Recomposed(body, managed).entries, managed);
  }

  // ---------------------------------------------------------------- exactly which rules survive

  /* What every rule read from a file looks like: a one-word principal, single blanks in the filter. */
  predicate Readable(c: Core) {
    !HasSpace(c.principal) && c.filter == Join(Fields(c.filter), " ")
  }

  lemma BuiltReadable(selector: Selector, principal: string, word: string, words: seq<string>)
    requires !HasSpace(principal) && forall i :: 0 <= i < |words| ==> IsWord(words[i])
    ensures var rule := BuildRule(selector, principal, word, Join(words, " "));
            rule.Some? ==> Readable(rule.value.Meaning())
  {
    hide ValidRule, IsWord, HasSpace;
    FieldsJoin(words);
  }

  lemma EntryReadable(raw: string, scope: string)
    requires !HasSpace(scope)
    ensures var e := ParseEntry(raw, scope);
            && !HasSpace(NextScope(e, scope))
            && (e.rule.Some? ==> Readable(e.rule.value.Meaning()))
  {
    hide ParseEntry, BuildRule, Fields, Join, HasSpace, ToLower, Readable;
    ParseShape(raw, scope);
    var e, fields := ParseEntry(raw, scope), Fields(raw);
    forall i | 0 <= i < |fields| ensures !HasSpace(fields[i]) { assert IsWord(fields[i]); }
    if e.rule.Some? {
      assert |fields| >= 3;
      EmptyHasNoSpace();
      BuiltReadable(if scope == "" then Anonymous else User, scope, fields[1], fields[2..]);
      BuiltReadable(Pattern, "", fields[1], fields[2..]);
    }
  }

  lemma EmptyHasNoSpace()
    ensures !HasSpace("")
  {
  }

  lemma {:induction false} ParsedReadable(lines: seq<string>, scope: string, m: Core)
    requires !HasSpace(scope) && m in Meanings(ParseLines(lines, scope))
    ensures Readable(m)
  {
    hide ParseEntry, Readable, HasSpace;
    var e := ParseEntry(lines[0], scope);
    EntryReadable(lines[0], scope);
    var rest := ParseLines(lines[1..], NextScope(e, scope));
    MeaningsConcat([e], rest);
    OneEntry(e);
    if m in Meanings(rest) {
      ParsedReadable(lines[1..], NextScope(e, scope), m);
    }
  }

  lemma ReadableIsWellFormed(rule: Rule)
    requires ValidRule(rule)
    ensures Readable(rule.Meaning()) <==> WellFormed(rule)
  {
    hide ValidRule, HasSpace, Fields, Join;
  }

  /* Valid rules all reach the composed file with their meaning intact exactly when each of them
     reads back as itself; a principal with a blank in it is valid but does not. */
  lemma CompositionExact(body: string, managed: seq<Rule>)
    requires forall r :: r in managed ==> ValidRule(r)
    ensures Meanings(Recomposed(body, managed).entries) == Meanings(ParseDocument(body).entries) + CoresOf(managed)
       <==> forall r :: r in managed ==> WellFormed(r)
  {
    hide ValidRule, WellFormed, Recomposed, Meanings, ParseDocument;
    if forall r :: r in managed ==> WellFormed(r) {
      CompositionMeanings(body, managed);
    } else if Meanings(Recomposed(body, managed).entries) == Meanings(ParseDocument(body).entries) + CoresOf(managed) {
      forall r | r in managed ensures WellFormed(r) {
        assert r.Meaning() in CoresOf(managed);
        RecomposedReadable(body, managed, r.Meaning());
        ReadableIsWellFormed(r);
      }
    }
  }

  lemma RecomposedReadable(body: string, managed: seq<Rule>, m: Core)
    requires m in Meanings(Recomposed(body, managed).entries)
    ensures Readable(m)
  {
    hide Readable, Meanings, ParseLines, Render, Compose, Lines;
    EmptyHasNoSpace();
    ParsedReadable(Lines(Render(Compose(ParseDocument(body), managed))), "", m);
  }

  /* A rule the validation accepts and no composed file carries: whatever the source, and whatever
     rules are composed with it, it is not among the rules read back. */
  lemma BlankInPrincipal(body: string, managed: seq<Rule>)
    ensures var rule := Rule("", User, Global, "", "bob x", "t", Read, "");
            && ValidRule(rule) && !WellFormed(rule)
            && rule.Meaning() !in Meanings(Recomposed(body, managed).entries)
  {
    hide ValidPlaceholders, Fields, Join, WellFormed, TrimSpace, ValidTopicFilter, HasSpace, HasControl, Readable, Meanings,
         Recomposed;
    var p, t := "bob x", "t";
    var rule := Rule("", User, Global, "", p, t, Read, "");
    TrimNothing(p);
    TrimNothing(t);
    SampleNames(p, t);
    SpacedIsNotWellFormed(rule);
    ReadableIsWellFormed(rule);
    if rule.Meaning() in Meanings(Recomposed(body, managed).entries) {
      RecomposedReadable(body, managed, rule.Meaning());
    }
  }

  lemma SampleNames(p: string, t: string)
    requires p == "bob x" && t == "t"
    ensures ValidTopicFilter(t) && !HasControl(p) && HasSpace(p)
  {
    SplitWhole(t, '/');
    assert IsSpace(p[3]);
  }

  lemma SpacedIsNotWellFormed(rule: Rule)
    requires HasSpace(rule.principal)
    ensures !WellFormed(rule)
  {
  }
}
