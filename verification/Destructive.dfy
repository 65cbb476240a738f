/**
 The refusal of destructive applies (`blockingACLEntries`, internal/deploy/service.go).

 The check works on text keys. The theorem says what it means for the files: it passes exactly when the
 new file keeps every grant of a principal MCM does not know and, if the old file is an ACL document at
 all, every directive MCM cannot interpret.
 */
module Destructive {
  import opened Options
  import opened Strings
  import opened AclDocument
  import opened ComposedMeaning

  const UNKNOWN_PREFIX := "unknown | "
  const USER_PREFIX := "user "
  const SEPARATOR := " | "

  /* The principal a semantic key names, if it names one. */
  function AclKeyPrincipal(key: string): Option<string> {
    if !HasPrefix(key, USER_PREFIX) then None
    else
      var rest := key[|USER_PREFIX|..];
      var index := IndexOf(rest, SEPARATOR);
      if index == |rest| then None else Some(rest[..index])
  }

  predicate CarriesContent(entries: seq<Entry>) {
    exists i :: 0 <= i < |entries| && entries[i].kind in {UserHeader, TopicEntry, PatternEntry}
  }

  predicate Blocks(key: string, carries: bool, known: set<string>) {
    if HasPrefix(key, UNKNOWN_PREFIX) then carries
    else
      match AclKeyPrincipal(key)
      case None => false
      case Some(principal) => principal !in known
  }

  method BaseCarriesACLContent(doc: Document) returns (carries: bool)
    ensures carries == CarriesContent(doc.entries)
  {
    for i := 0 to |doc.entries|
      invariant forall k :: 0 <= k < i ==> doc.entries[k].kind !in {UserHeader, TopicEntry, PatternEntry}
    {
      if doc.entries[i].kind in {UserHeader, TopicEntry, PatternEntry} {
        return true;
      }
    }
    return false;
  }

  method BlockingACLEntries(base: Document, atRisk: seq<string>, known: set<string>) returns (blocking: seq<string>)
    ensures forall k :: k in blocking <==> k in atRisk && Blocks(k, CarriesContent(base.entries), known)
  {
    hide AclKeyPrincipal, HasPrefix, CarriesContent;
    blocking := [];
    if |atRisk| == 0 {
      return;
    }
    var carries := BaseCarriesACLContent(base);
    for i := 0 to |atRisk|
      invariant forall k :: k in blocking <==> k in atRisk[..i] && Blocks(k, carries, known)
    {
      PrefixStep(atRisk, i);
      var key := atRisk[i];
      if HasPrefix(key, UNKNOWN_PREFIX) {
        if carries {
          blocking := blocking + [key];
        }
        continue;
      }
      var principal := AclKeyPrincipal(key);
      if principal.Some? && principal.value !in known {
        blocking := blocking + [key];
      }
    }
    assert atRisk[..|atRisk|] == atRisk;
  }

  /* The whole refusal: what of the old file would be lost, and whether that blocks. */
  method DestructiveEntries(oldBody: string, newBody: string, known: set<string>) returns (blocking: seq<string>)
    ensures forall k :: k in blocking <==>
              && k in Keys(ParseDocument(oldBody).entries) && k !in Keys(ParseDocument(newBody).entries)
              && Blocks(k, CarriesContent(ParseDocument(oldBody).entries), known)
  {
    hide ParseDocument, Keys, Blocks, CarriesContent;
    var base := ParseACLDocument(oldBody);
    var next := ParseACLDocument(newBody);
    var atRisk := MissingSemanticEntries(base, next);
    blocking := BlockingACLEntries(base, atRisk, known);
  }

  ghost predicate Passes(oldBody: string, newBody: string, known: set<string>) {
    forall k :: k in Keys(ParseDocument(oldBody).entries) && k !in Keys(ParseDocument(newBody).entries) ==>
      !Blocks(k, CarriesContent(ParseDocument(oldBody).entries), known)
  }

  // ---------------------------------------------------------------- what a key says

  lemma UserKeyPrincipal(p: string, tail: string)
    requires IsWord(p)
    ensures AclKeyPrincipal(USER_PREFIX + p + SEPARATOR + tail) == Some(p)
    ensures !HasPrefix(USER_PREFIX + p + SEPARATOR + tail, UNKNOWN_PREFIX)
  {
    hide HasSpace;
    WordNoBlank(p);
    var key := USER_PREFIX + p + SEPARATOR + tail;
    var rest := p + SEPARATOR + tail;
    assert key == USER_PREFIX + rest;
    assert key[..|USER_PREFIX|] == USER_PREFIX && key[|USER_PREFIX|..] == rest;
    hide IsWord;
    IndexAfter(p, SEPARATOR, tail);
    assert rest[..|p|] == p;
    assert key[1] == 's' && UNKNOWN_PREFIX[1] == 'n';
    NotPrefix(key, UNKNOWN_PREFIX, 1);
  }

  /* Which entries of a file a blocked key can come from. */
  lemma EntryBlocks(e: Entry, carries: bool, known: set<string>)
    requires e.principal == "" || IsWord(e.principal)
    ensures e.kind == Unknown ==> (Blocks(SemanticKey(e), carries, known) <==> carries)
    ensures e.kind == PatternEntry ==> !Blocks(SemanticKey(e), carries, known)
    ensures e.kind == TopicEntry ==>
              (Blocks(SemanticKey(e), carries, known) <==> e.principal != "" && e.principal !in known)
  {
    hide IsWord, PermissionAndFilter, TrimSpace, IndexOf;
    var (perm, filter) := PermissionAndFilter(e);
    var key := SemanticKey(e);
    if e.kind == Unknown {
      assert key[..|UNKNOWN_PREFIX|] == UNKNOWN_PREFIX;
    } else if e.kind == PatternEntry {
      OtherKey(key, 'p');
    } else if e.kind == TopicEntry {
      if e.principal == "" {
        OtherKey(key, 'a');
      } else {
        var tail := "topic " + perm + " " + filter;
        assert key == USER_PREFIX + e.principal + SEPARATOR + tail;
        UserKeyPrincipal(e.principal, tail);
      }
    }
  }

  lemma OtherKey(key: string, first: char)
    requires key != "" && key[0] == first && first != 'u'
    ensures !HasPrefix(key, UNKNOWN_PREFIX) && !HasPrefix(key, USER_PREFIX)
  {
    NotPrefix(key, UNKNOWN_PREFIX, 0);
    NotPrefix(key, USER_PREFIX, 0);
  }

  lemma {:induction false} ParsedPrincipals(lines: seq<string>, scope: string)
    requires scope == "" || IsWord(scope)
    ensures forall e :: e in ParseLines(lines, scope) ==> e.principal == "" || IsWord(e.principal)
  {
    hide ParseEntry, IsWord;
    if lines != [] {
      ScopeIsWord(lines[0], scope);
      ParsedPrincipal(lines[0], scope);
      ParsedPrincipals(lines[1..], NextScope(ParseEntry(lines[0], scope), scope));
    }
  }

  lemma ParsedPrincipal(raw: string, scope: string)
    requires scope == "" || IsWord(scope)
    ensures ParseEntry(raw, scope).principal == "" || IsWord(ParseEntry(raw, scope).principal)
  {
    hide ParseEntry, BuildRule, ToLower, Join, Fields, IsWord;
    ParseShape(raw, scope);
  }

  // ---------------------------------------------------------------- the meaning of passing

  /* The new file has an entry with the same kind, principal, permission and filter. */
  ghost predicate KeepsGrant(e: Entry, next: seq<Entry>) {
    exists n :: n in next && n.kind == TopicEntry && n.principal == e.principal
                && PermissionAndFilter(n) == PermissionAndFilter(e)
  }

  ghost predicate KeepsDirective(e: Entry, next: seq<Entry>) {
    exists n :: n in next && n.kind == Unknown && TrimSpace(n.raw) == TrimSpace(e.raw)
  }

  ghost predicate Preserves(oldBody: string, newBody: string, known: set<string>) {
    var base, next := ParseDocument(oldBody).entries, ParseDocument(newBody).entries;
    forall e :: e in base ==>
      && (e.kind == TopicEntry && e.principal != "" && e.principal !in known ==> KeepsGrant(e, next))
      && (e.kind == Unknown && CarriesContent(base) ==> KeepsDirective(e, next))
  }

  lemma KeyOfKept(e: Entry, next: seq<Entry>, lines: seq<string>)
    requires next == ParseLines(lines, "")
    requires exists raw, scope :: (scope == "" || IsWord(scope)) && e == ParseEntry(raw, scope)
    requires (e.kind == TopicEntry && e.principal != "") || e.kind == Unknown
    ensures SemanticKey(e) in Keys(next) <==> if e.kind == Unknown then KeepsDirective(e, next) else KeepsGrant(e, next)
  {
    hide ParseLines, ParseEntry, IsWord, PermissionAndFilter, TrimSpace;
    if SemanticKey(e) in Keys(next) {
      var n :| n in next && SemanticKey(n) == SemanticKey(e);
      ParsedFrom(lines, "", n);
      SameKeySameEntry(e, n);
    }
  }

  lemma {:induction false} ParsedFrom(lines: seq<string>, scope: string, e: Entry)
    requires scope == "" || IsWord(scope)
    requires e in ParseLines(lines, scope)
    ensures exists raw, s :: (s == "" || IsWord(s)) && e == ParseEntry(raw, s)
  {
    hide ParseEntry, IsWord;
    var head := ParseEntry(lines[0], scope);
    if e != head {
      ScopeIsWord(lines[0], scope);
      ParsedFrom(lines[1..], NextScope(head, scope), e);
    }
  }

  lemma PermissionHasNoBlank(raw: string, scope: string)
    requires ParseEntry(raw, scope).kind in {TopicEntry, PatternEntry}
    ensures ' ' !in PermissionAndFilter(ParseEntry(raw, scope)).0
  {
    hide ParseEntry, Fields, ToLower, Join, PermissionAndFilter;
    DirectiveKey(raw, scope);
    LowerWord(Fields(raw)[1]);
  }

  /* Equal keys name the same user, permission and filter, or the same directive. */
  lemma SameKeySameEntry(e: Entry, n: Entry)
    requires SemanticKey(e) == SemanticKey(n) != ""
    requires exists raw, s :: (s == "" || IsWord(s)) && e == ParseEntry(raw, s)
    requires exists raw, s :: (s == "" || IsWord(s)) && n == ParseEntry(raw, s)
    requires (e.kind == TopicEntry && e.principal != "") || e.kind == Unknown
    ensures n.kind == e.kind
    ensures e.kind == Unknown ==> TrimSpace(n.raw) == TrimSpace(e.raw)
    ensures e.kind == TopicEntry ==>
              n.principal == e.principal && PermissionAndFilter(n) == PermissionAndFilter(e)
  {
    hide ParseEntry, IsWord, PermissionAndFilter, TrimSpace;
    KindsByKey(e, n);
    if e.kind == Unknown {
      StripPrefix("unknown | ", TrimSpace(e.raw), TrimSpace(n.raw));
    } else {
      var raw, s :| (s == "" || IsWord(s)) && e == ParseEntry(raw, s);
      var raw', s' :| (s' == "" || IsWord(s')) && n == ParseEntry(raw', s');
      PermissionHasNoBlank(raw, s);
      PermissionHasNoBlank(raw', s');
      TopicPrincipal(raw, s);
      TopicPrincipal(raw', s');
      WordNoBlank(s);
      WordNoBlank(s');
      var (q, f) := PermissionAndFilter(e);
      var (q', f') := PermissionAndFilter(n);
      UserKeyInjective(s, q, f, s', q', f');
    }
  }

  lemma TopicPrincipal(raw: string, scope: string)
    requires ParseEntry(raw, scope).kind == TopicEntry
    ensures ParseEntry(raw, scope).principal == scope
  {
    hide ParseEntry, Fields, ToLower, Join, PermissionAndFilter, BuildRule;
    DirectiveKey(raw, scope);
  }

  lemma KindsByKey(e: Entry, n: Entry)
    requires SemanticKey(e) == SemanticKey(n) != ""
    requires (e.kind == TopicEntry && e.principal != "") || e.kind == Unknown
    ensures n.kind == e.kind && (e.kind == TopicEntry ==> n.principal != "")
  {
    hide PermissionAndFilter, TrimSpace;
    KeyHead(e);
    KeyHead(n);
  }

  lemma KeyHead(e: Entry)
    requires SemanticKey(e) != ""
    ensures var k := SemanticKey(e);
            && |k| >= 2
            && (e.kind == Unknown <==> k[0] == 'u' && k[1] == 'n')
            && (e.kind == TopicEntry && e.principal != "" <==> k[0] == 'u' && k[1] == 's')
  {
    hide PermissionAndFilter, TrimSpace;
  }

  /* Main theorem: the check passes exactly when nothing of value to others is dropped. */
  lemma PassingPreserves(oldBody: string, newBody: string, known: set<string>)
    ensures Passes(oldBody, newBody, known) <==> Preserves(oldBody, newBody, known)
  {
    hide ParseLines, IsWord, KeepsGrant, KeepsDirective, Blocks, CarriesContent, Lines;
    var base, next := ParseDocument(oldBody).entries, ParseDocument(newBody).entries;
    var carries := CarriesContent(base);
    ParsedPrincipals(Lines(oldBody), "");
    forall e | e in base && e.kind in {TopicEntry, PatternEntry, Unknown}
      ensures Blocks(SemanticKey(e), carries, known) <==>
              (e.kind == TopicEntry && e.principal != "" && e.principal !in known) || (e.kind == Unknown && carries)
      ensures Blocks(SemanticKey(e), carries, known) ==>
              (SemanticKey(e) in Keys(next) <==> if e.kind == Unknown then KeepsDirective(e, next) else KeepsGrant(e, next))
    {
      EntryBlocks(e, carries, known);
      ParsedFrom(Lines(oldBody), "", e);
      if Blocks(SemanticKey(e), carries, known) {
        KeyOfKept(e, next, Lines(newBody));
      }
    }
    PassingByEntries(base, next, carries, known);
  }

  lemma PassingByEntries(base: seq<Entry>, next: seq<Entry>, carries: bool, known: set<string>)
    ensures (forall k :: k in Keys(base) && k !in Keys(next) ==> !Blocks(k, carries, known))
       <==> (forall e :: e in base && SemanticKey(e) != "" && Blocks(SemanticKey(e), carries, known) ==> SemanticKey(e) in Keys(next))
  {
    hide Blocks, SemanticKey;
    forall e | e in base && SemanticKey(e) != "" ensures SemanticKey(e) in Keys(base) {}
  }
}
