/**
 What every rendered ACL file holds (`renderConfig` and `serviceUserACL`, internal/deploy/service.go):
 the stored rules of its scope without those of orphaned principals, and the access of MCM's own account,
 by which a deploy can always be verified.
 */
module ServiceAccess {
  import opened Strings
  import opened Rules
  import opened Topics
  import opened AclDocument
  import opened Effective
  import opened Composition
  import opened AclFile
  import opened AclFileTheorems
  import opened CompositionTheorems
  import opened Simulator
  import opened Probe
  import opened Readers

  predicate Adopted(input: RenderInput, target: Target) {
    SourceAt(input.sources, input.Path(target)).Some?
  }

  /* The rules of a rendered file as they are read back: a composed file as a document, any other as is. */
  function ReadBack(input: RenderInput, target: Target): seq<Rule> {
    if Adopted(input, target) then TypedRules(ParseDocument(input.Body(target)).entries)
    else ReadFile(input.Body(target))
  }

  /* A stored rule with this meaning that belongs into the file. */
  ghost predicate Stored(input: RenderInput, target: Target, c: Core) {
    exists r :: r in input.rules && r.Meaning() == c
             && (if target.GlobalFile? then r.EffectiveScope() != Listener
                 else r.EffectiveScope() == Listener && r.listenerId == target.id)
             && !(c.selector == User && c.principal in input.orphans)
  }

  predicate OwnAccess(service: string, c: Core) {
    && service != "" && c.selector == User && c.principal == service
    && (c.permission, c.filter) in {(Read, "#"), (Read, "$SYS/#"), (ReadWrite, "mcm/healthcheck")}
  }

  lemma OwnAccessExactly(service: string, c: Core)
    ensures c in CoresOf(ServiceRules(service)) <==> OwnAccess(service, c)
  {
    if service != "" {
      var acl := ServiceUserACL(service);
      assert acl[0] in acl && acl[1] in acl && acl[2] in acl;
    }
  }

  lemma FileRulesExactly(input: RenderInput, target: Target, c: Core)
    ensures c in CoresOf(FileRules(input.rules, input.orphans, input.service, target))
       <==> Stored(input, target, c) || OwnAccess(input.service, c)
  {
    hide OwnAccess, ServiceRules, Stored, ScopeRules, ActiveRules, CoresOf;
    OwnAccessExactly(input.service, c);
    ActiveExactly(input, target, c);
    CoresConcat(ScopeRules(ActiveRules(input.rules, input.orphans), target), ServiceRules(input.service));
  }

  lemma ActiveExactly(input: RenderInput, target: Target, c: Core)
    ensures c in CoresOf(ScopeRules(ActiveRules(input.rules, input.orphans), target)) <==> Stored(input, target, c)
  {
    var active := ScopeRules(ActiveRules(input.rules, input.orphans), target);
    assert forall r :: r in active <==> r in input.rules && InScope(r, target) && !IsOrphan(r, input.orphans);
    hide ScopeRules, ActiveRules;
  }

  /* Main theorem: what is read back is the adopted source, the stored rules of the scope that are no
     orphan's, and MCM's own three grants; nothing is missing and nothing else is there. */
  lemma FileHoldsExactly(input: RenderInput, target: Target, c: Core)
    requires (forall r :: r in input.rules ==> WellFormed(r)) && ReadableService(input.service)
    ensures c in CoresOf(ReadBack(input, target))
       <==> || (Adopted(input, target) && c in CoresOf(SourceRules(input, target)))
            || Stored(input, target, c) || OwnAccess(input.service, c)
  {
    hide CoresOf, TypedRules, ParseDocument, WellFormed, IsWord, HasControl, Compose, Render, ReadFile, RenderFile,
         FileRules, FileReadable, Stored, OwnAccess;
    var managed := FileRules(input.rules, input.orphans, input.service, target);
    FileRulesExactly(input, target, c);
    if Adopted(input, target) {
      var body := SourceAt(input.sources, input.Path(target)).value;
      ManagedWellFormed(input, target);
      CompositionMeanings(body, managed);
      TypedRulesMeanings(ParseDocument(body).entries);
      TypedRulesMeanings(Recomposed(body, managed).entries);
    } else {
      FileRulesReadable(input.rules, input.orphans, input.service, target);
      RenderedFileMeanings(managed);
    }
  }

  lemma ManagedWellFormed(input: RenderInput, target: Target)
    requires (forall r :: r in input.rules ==> WellFormed(r)) && ReadableService(input.service)
    ensures forall r :: r in FileRules(input.rules, input.orphans, input.service, target) ==> WellFormed(r)
  {
    hide WellFormed, ServiceRules, ReadableService;
    ServiceRulesWellFormed(input.service);
  }

  /* No file grants or denies an orphan anything by name, unless its source does. */
  lemma OrphansLeftOut(input: RenderInput, target: Target, r: Rule)
    requires (forall stored :: stored in input.rules ==> WellFormed(stored)) && ReadableService(input.service)
    requires r in ReadBack(input, target) && r.EffectiveSelector() == User
    requires r.principal in input.orphans && r.principal != input.service
    ensures Adopted(input, target) && r.Meaning() in CoresOf(SourceRules(input, target))
  {
    hide ReadBack, SourceRules, WellFormed, ReadableService;
    FileHoldsExactly(input, target, r.Meaning());
  }

  lemma OwnAccessHeld(input: RenderInput, target: Target, c: Core)
    requires (forall r :: r in input.rules ==> WellFormed(r)) && ReadableService(input.service)
    requires OwnAccess(input.service, c)
    ensures c in CoresOf(ReadBack(input, target))
  {
    hide CoresOf, ReadBack, WellFormed, ReadableService, Stored, OwnAccess;
    FileHoldsExactly(input, target, c);
  }

  /* A grant of a list allows what nothing in the list denies. */
  lemma GrantDecides(rules: set<Core>, c: Core, who: Identity, topic: string, access: Access)
    requires c in rules && Hits(c, who, topic) && PermissionGrants(c.permission, access)
    ensures Allowed(rules, who, topic, access) <==> !Denied(rules, who, topic)
  {
    hide Hits, PermissionGrants;
  }

  /* MCM's own account reads every topic and writes the healthcheck topic, unless a rule denies it. */
  lemma ServiceKeepsAccess(input: RenderInput, target: Target, clientId: string, topic: string)
    requires (forall r :: r in input.rules ==> WellFormed(r)) && ReadableService(input.service)
    requires input.service != "" && topic != ""
    ensures var rules, who := CoresOf(ReadBack(input, target)), Identity(input.service, clientId);
            && (Allowed(rules, who, topic, AccessRead) <==> !Denied(rules, who, topic))
            && (Allowed(rules, who, "mcm/healthcheck", AccessWrite) <==> !Denied(rules, who, "mcm/healthcheck"))
  {
    hide CoresOf, ReadBack, WellFormed, ReadableService, Matches, Allowed, Denied;
    var rules, who := CoresOf(ReadBack(input, target)), Identity(input.service, clientId);
    var everything := Core(User, input.service, Read, "#");
    OwnAccessHeld(input, target, everything);
    EverythingMatches(topic);
    GrantDecides(rules, everything, who, topic, AccessRead);
    var healthcheck := Core(User, input.service, ReadWrite, "mcm/healthcheck");
    OwnAccessHeld(input, target, healthcheck);
    PlainMatches("mcm/healthcheck", "mcm/healthcheck");
    GrantDecides(rules, healthcheck, who, "mcm/healthcheck", AccessWrite);
  }

  /* So the last resort of the verifier is there for every file, as long as no `user` line of an adopted
     source carries more than one name. */
  lemma ServiceProbeOffered(input: RenderInput, target: Target, account: ServiceAccount, usernames: seq<string>)
    requires (forall r :: r in input.rules ==> WellFormed(r)) && ReadableService(input.service)
    requires account.username == input.service && account.username in usernames
    requires account.username != "" && account.password != ""
    requires Adopted(input, target) ==> PlainHeaders(Split(input.Body(target), '\n'))
    ensures ServiceOffers(ReadFile(input.Body(target)), account, usernames)
  {
    hide ReadFile, WellFormed, ReadableService, Split, PlainHeaders, TypedRules, ParseDocument, Accepted, ValidRule,
         RenderInput.Body, SourceAt, Stored;
    var c := Core(User, account.username, ReadWrite, HEALTHCHECK_TOPIC);
    FileHoldsExactly(input, target, c);
    var body := input.Body(target);
    var found := ReadBack(input, target);
    var r :| r in found && r.Meaning() == c;
    if Adopted(input, target) {
      ReadersAgree(body);
      SameMeaningsSameCores(found, Accepted(ReadFile(body)));
      assert c in CoresOf(found);
      AcceptedMembers(ReadFile(body));
    }
  }
}
