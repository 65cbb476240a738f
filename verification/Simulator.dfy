/**
 The access simulator (internal/server/acl_scopes_handler.go) against the files the deploy renders
 (`renderConfig` and `splitRulesByScope`, internal/deploy/service.go).

 The simulator answers from the stored rules; the broker answers from a rendered file that also holds
 the service account's rules, leaves out orphans and may be composed into an adopted source. The
 theorems say when both give the same answer.
 */
module Simulator {
  import opened Options
  import opened Strings
  import opened Rules
  import opened Topics
  import opened AclDocument
  import opened Effective
  import opened Composition
  import opened AclFile
  import opened AclFileTheorems
  import opened ComposedMeaning
  import opened CompositionTheorems
  import DeployPlan

  /* One rendered ACL file: the broker-wide one or the one of a listener. */
  datatype Target = GlobalFile | ListenerFile(id: string)

  predicate InScope(rule: Rule, target: Target) {
    match target
    case GlobalFile => !rule.IsListenerScoped()
    case ListenerFile(id) => rule.IsListenerScoped() && rule.listenerId == id
  }

  function ScopeRules(rules: seq<Rule>, target: Target): seq<Rule> {
    Select(rules, (r: Rule) => InScope(r, target))
  }

  // ---------------------------------------------------------------- what the deploy renders

  predicate IsOrphan(rule: Rule, orphans: set<string>) {
    rule.IsUserScoped() && rule.principal in orphans
  }

  function ActiveRules(rules: seq<Rule>, orphans: set<string>): seq<Rule> {
    Select(rules, (r: Rule) => !IsOrphan(r, orphans))
  }

  /* The rules MCM always adds for its own account. */
  function ServiceUserACL(username: string): seq<Rule> {
    [Rule("", UnsetSelector, UnsetScope, "", username, "#", Read, ""),
     Rule("", UnsetSelector, UnsetScope, "", username, "$SYS/#", Read, ""),
     Rule("", UnsetSelector, UnsetScope, "", username, HEALTHCHECK_TOPIC, ReadWrite, "")]
  }

  function ServiceRules(username: string): seq<Rule> {
    if username == "" then [] else ServiceUserACL(username)
  }

  function FileRules(rules: seq<Rule>, orphans: set<string>, service: string, target: Target): seq<Rule> {
    ScopeRules(ActiveRules(rules, orphans), target) + ServiceRules(service)
  }

  predicate HasFile(rules: seq<Rule>, orphans: set<string>, target: Target) {
    target == GlobalFile || ScopeRules(ActiveRules(rules, orphans), target) != []
  }

  method SplitRulesByScope(rules: seq<Rule>) returns (global: seq<Rule>, byListener: map<string, seq<Rule>>)
    ensures global == ScopeRules(rules, GlobalFile)
    ensures forall id :: id in byListener <==> ScopeRules(rules, ListenerFile(id)) != []
    ensures forall id :: id in byListener ==> byListener[id] == ScopeRules(rules, ListenerFile(id))
  {
    hide ScopeRules;
    global, byListener := [], map[];
    NothingInScope();
    assert rules[..0] == [];
    for k := 0 to |rules|
      invariant global == ScopeRules(rules[..k], GlobalFile)
      invariant forall id :: id in byListener <==> ScopeRules(rules[..k], ListenerFile(id)) != []
      invariant forall id :: id in byListener ==> byListener[id] == ScopeRules(rules[..k], ListenerFile(id))
    {
      var rule := rules[k];
      ScopeStep(rules, k);
      if !rule.IsListenerScoped() {
        global := global + [rule];
        continue;
      }
      var sofar := if rule.listenerId in byListener then byListener[rule.listenerId] else [];
      assert sofar == ScopeRules(rules[..k], ListenerFile(rule.listenerId));
      byListener := byListener[rule.listenerId := sofar + [rule]];
    }
    assert rules[..|rules|] == rules;
  }

  lemma NothingInScope()
    ensures forall t :: ScopeRules([], t) == []
  {
  }

  lemma ScopeStep(rules: seq<Rule>, k: nat)
    requires k < |rules|
    ensures forall t :: ScopeRules(rules[..k + 1], t)
                     == ScopeRules(rules[..k], t) + (if InScope(rules[k], t) then [rules[k]] else [])
  {
    assert rules[..k + 1][..k] == rules[..k];
  }

  /* The verbatim bodies MCM adopted, by the path of the file each was taken from. */
  function SourceAt(sources: map<string, string>, path: string): Option<string> {
    if path != "" && path in sources then Some(sources[path]) else None
  }

  /* The rules alone, or composed into the adopted source of the file. */
  function FileBody(rules: seq<Rule>, source: Option<string>): string {
    if source.None? then RenderFile(rules) else Render(Compose(ParseDocument(source.value), rules))
  }

  method RenderBody(rules: seq<Rule>, source: Option<string>) returns (body: string)
    ensures body == FileBody(rules, source)
  {
    hide RenderFile, Compose, ParseDocument, Render;
    body := RenderACLFile(rules);
    if source.Some? {
      var document := ParseACLDocument(source.value);
      var composed, _ := ComposeACLDocument(document, rules);
      body := Render(composed);
    }
  }

  function ListenerPath(aclPath: string, dir: string, id: string): string {
    if aclPath == "" then "" else DeployPlan.ListenerACLPath(dir, id)
  }

  /* What a render reads: the stored rules, the orphaned principals, MCM's own account, the adopted
     sources, and the configured path with its directory. */
  datatype RenderInput = RenderInput(rules: seq<Rule>, orphans: set<string>, service: string,
                                     sources: map<string, string>, aclPath: string, dir: string) {
    function Path(target: Target): string {
      match target
      case GlobalFile => aclPath
      case ListenerFile(id) => ListenerPath(aclPath, dir, id)
    }

    function Body(target: Target): string {
      FileBody(FileRules(rules, orphans, service, target), SourceAt(sources, Path(target)))
    }

    function File(target: Target): DeployPlan.FileRender {
      match target
      case GlobalFile => DeployPlan.FileRender(Global, "", Path(target), Body(target))
      case ListenerFile(id) => DeployPlan.FileRender(Listener, id, Path(target), Body(target))
    }
  }

  /* The listener files of the ids, in that order. */
  function ListenerFiles(input: RenderInput, ids: seq<string>): seq<DeployPlan.FileRender> {
    seq(|ids|, k requires 0 <= k < |ids| => input.File(ListenerFile(ids[k])))
  }

  function ListenerIds(files: seq<DeployPlan.FileRender>): seq<string> {
    seq(|files|, k requires 0 <= k < |files| => files[k].listenerId)
  }

  lemma ListenerIdsOf(input: RenderInput, ids: seq<string>)
    ensures ListenerIds(ListenerFiles(input, ids)) == ids
  {
    hide RenderInput.Body, RenderInput.Path;
  }

  /* The broker-wide file first, then the files of exactly the listeners that own an active rule,
     sorted by listener id, each with the body of its scope. */
  ghost predicate IsRender(input: RenderInput, files: seq<DeployPlan.FileRender>) {
    && |files| >= 1 && files[0] == input.File(GlobalFile)
    && var ids := ListenerIds(files[1..]);
       && files[1..] == ListenerFiles(input, ids)
       && StrictlySorted(ids)
       && Owners(input.rules, input.orphans, ids)
  }

  ghost predicate Owners(rules: seq<Rule>, orphans: set<string>, ids: seq<string>) {
    forall id :: id in ids <==> HasFile(rules, orphans, ListenerFile(id))
  }

  lemma ListenerFilesSnoc(input: RenderInput, ids: seq<string>, k: nat)
    requires k < |ids|
    ensures ListenerFiles(input, ids[..k + 1]) == ListenerFiles(input, ids[..k]) + [input.File(ListenerFile(ids[k]))]
  {
    hide RenderInput.File;
  }

  method SortedListenerIDs(keys: set<string>) returns (ids: seq<string>)
    ensures StrictlySorted(ids)
    ensures forall id :: id in ids <==> id in keys
  {
    hide StrictlySorted, SortedInsert;
    ids := [];
    NothingSorted();
    var pending := keys;
    while pending != {}
      invariant pending <= keys
      invariant StrictlySorted(ids)
      invariant forall id :: id in ids <==> id in keys - pending
      decreases |pending|
    {
      var id :| id in pending;
      ids := SortedInsert(ids, id);
      pending := pending - {id};
    }
  }

  lemma NothingSorted()
    ensures StrictlySorted([])
  {
  }

  /* Renders the broker-wide file, then one file per listener that owns an active rule, by listener id. */
  method RenderScopedFiles(input: RenderInput) returns (files: seq<DeployPlan.FileRender>)
    ensures IsRender(input, files)
  {
    hide ScopeRules, FileBody, ServiceRules, StrictlySorted, ListenerFiles, SourceAt, ListenerPath;
    var active := ActiveOf(input.rules, input.orphans);
    var globalRules, byListener := SplitRulesByScope(active);
    var global := RenderBody(globalRules + ServiceRules(input.service), SourceAt(input.sources, input.aclPath));
    files := [DeployPlan.FileRender(Global, "", input.aclPath, global)];
    var order := SortedListenerIDs(byListener.Keys);
    NoListenerFiles(input);
    assert order[..0] == [];
    for k := 0 to |order|
      invariant files == [input.File(GlobalFile)] + ListenerFiles(input, order[..k])
    {
      var id := order[k];
      ListenerFilesSnoc(input, order, k);
      assert id in byListener.Keys;
      var path := ListenerPath(input.aclPath, input.dir, id);
      var body := RenderBody(byListener[id] + ServiceRules(input.service), SourceAt(input.sources, path));
      files := files + [DeployPlan.FileRender(Listener, id, path, body)];
    }
    assert order[..|order|] == order;
    assert files[1..] == ListenerFiles(input, order);
    ListenerIdsOf(input, order);
  }

  lemma NoListenerFiles(input: RenderInput)
    ensures ListenerFiles(input, []) == []
  {
  }

  /* A render of valid rules has the shape every deployment of it relies on. */
  lemma RenderIsDeployable(input: RenderInput, files: seq<DeployPlan.FileRender>, passwdBody: string)
    requires input.aclPath != "" && (forall r :: r in input.rules ==> ValidRule(r))
    requires IsRender(input, files)
    ensures DeployPlan.RenderedFor(DeployPlan.Rendered(input.Body(GlobalFile), passwdBody, files), input.aclPath, input.dir)
  {
    hide RenderInput.Body, ValidListenerId, ValidRule, HasFile, StrictlySorted, DeployPlan.ListenerACLPath;
    var ids := ListenerIds(files[1..]);
    forall id | id in ids ensures ValidListenerId(id) {
      ScopedListenerIsValid(input, id);
    }
    SortedAreDistinct(ids);
    forall i | 1 <= i < |files| ensures files[i] == input.File(ListenerFile(ids[i - 1])) {
      assert files[i] == files[1..][i - 1];
    }
  }

  lemma SortedAreDistinct(ids: seq<string>)
    requires StrictlySorted(ids)
    ensures forall i, j :: 0 <= i < j < |ids| ==> ids[i] != ids[j]
  {
    hide Less;
    forall i, j | 0 <= i < j < |ids| ensures ids[i] != ids[j] {
      LessIrreflexive(ids[i]);
    }
  }

  lemma ScopedListenerIsValid(input: RenderInput, id: string)
    requires forall r :: r in input.rules ==> ValidRule(r)
    requires HasFile(input.rules, input.orphans, ListenerFile(id))
    ensures ValidListenerId(id)
  {
    hide ValidListenerId, ValidTopicFilter, ValidPlaceholders, ValidPrincipal;
    var scoped := ScopeRules(ActiveRules(input.rules, input.orphans), ListenerFile(id));
    assert scoped[0] in scoped;
    assert ValidRule(scoped[0]);
  }

  method ActiveOf(rules: seq<Rule>, orphans: set<string>) returns (active: seq<Rule>)
    ensures active == ActiveRules(rules, orphans)
  {
    active := [];
    for k := 0 to |rules|
      invariant active == ActiveRules(rules[..k], orphans)
    {
      assert rules[..k + 1][..k] == rules[..k];
      if !IsOrphan(rules[k], orphans) {
        active := active + [rules[k]];
      }
    }
    assert rules[..|rules|] == rules;
  }

  // ---------------------------------------------------------------- what the simulator answers

  datatype SimulateResult = BadRequest | Simulated(decision: Decision)

  function SimulatedTarget(scope: Scope, listenerId: string): Target {
    if scope == Listener then ListenerFile(listenerId) else GlobalFile
  }

  method HandleSimulate(rules: seq<Rule>, scope: Scope, listenerId: string, identity: Identity,
                        topic: string, access: Access) returns (result: SimulateResult)
    ensures result.BadRequest? <==> TrimSpace(topic) == "" || (scope == Listener && listenerId == "")
    ensures result.Simulated? ==>
              (result.decision.allowed <==>
               Allowed(CoresOf(ScopeRules(rules, SimulatedTarget(scope, listenerId))), identity, topic, access))
    ensures result.Simulated? ==>
              (result.decision.reason.DenyCovers? <==>
               Denied(CoresOf(ScopeRules(rules, SimulatedTarget(scope, listenerId))), identity, topic))
    ensures result.Simulated? ==> (result.decision.reason.GrantCovers? <==> result.decision.allowed)
    ensures result.Simulated? ==>
              result.decision.matching == HitRules(ScopeRules(rules, SimulatedTarget(scope, listenerId)), identity, topic)
  {
    if TrimSpace(topic) == "" {
      return BadRequest;
    }
    hide Allowed, Denied, CoresOf, HitRules;
    ghost var target := SimulatedTarget(scope, listenerId);
    var scoped: seq<Rule> := [];
    for k := 0 to |rules|
      invariant scoped == ScopeRules(rules[..k], target)
    {
      ScopeStep(rules, k);
      var rule := rules[k];
      if rule.IsListenerScoped() {
        if scope == Listener && rule.listenerId == listenerId {
          scoped := scoped + [rule];
        }
        continue;
      }
      if scope != Listener {
        scoped := scoped + [rule];
      }
    }
    assert rules[..|rules|] == rules;
    if scope == Listener && listenerId == "" {
      return BadRequest;
    }
    var decision := EffectivePermission(scoped, identity, topic, access);
    result := Simulated(decision);
  }

  // ---------------------------------------------------------------- agreement

  lemma ServiceRulesReadable(service: string)
    requires service == "" || IsWord(service)
    ensures forall r :: r in ServiceRules(service) ==> FileReadable(r)
  {
    hide IsWord, FileReadable;
    forall r | r in ServiceRules(service) ensures FileReadable(r) {
      ServiceFilters(service, r);
      ServiceRuleReadable(r);
    }
  }

  lemma ServiceFilters(service: string, r: Rule)
    requires r in ServiceRules(service)
    ensures service != "" && r.principal == service && r.selector == UnsetSelector
    ensures r.filter in {"#", "$SYS/#", HEALTHCHECK_TOPIC} && !r.permission.Unsupported?
  {
  }

  lemma ServiceRuleReadable(r: Rule)
    requires r.selector == UnsetSelector && IsWord(r.principal)
    requires r.filter in {"#", "$SYS/#", HEALTHCHECK_TOPIC} && !r.permission.Unsupported?
    ensures FileReadable(r)
  {
    hide IsWord, Fields, Join;
    OneWordFilter(r.filter);
  }

  lemma OneWordFilter(w: string)
    requires w in {"#", "$SYS/#", HEALTHCHECK_TOPIC}
    ensures Fields(w) == [w] && Join([w], " ") == w
  {
    WordFields(w);
  }

  lemma WordFields(w: string)
    requires IsWord(w)
    ensures Fields(w) == [w] && Join([w], " ") == w
  {
    assert w == w + "";
    FieldsCons(w, "");
  }

  lemma FileRulesReadable(rules: seq<Rule>, orphans: set<string>, service: string, target: Target)
    requires forall r :: r in rules ==> WellFormed(r)
    requires service == "" || IsWord(service)
    ensures forall r :: r in FileRules(rules, orphans, service, target) ==> FileReadable(r)
  {
    hide FileReadable, WellFormed, IsWord, ServiceRules;
    ServiceRulesReadable(service);
    forall r | r in FileRules(rules, orphans, service, target) ensures FileReadable(r) {
      if r !in ServiceRules(service) {
        WellFormedIsFileReadable(r);
      }
    }
  }

  /* The file of a scope decides as the scope's active rules and the service rules do. */
  lemma FileDecides(rules: seq<Rule>, orphans: set<string>, service: string, target: Target,
                    identity: Identity, topic: string, access: Access)
    requires forall r :: r in rules ==> WellFormed(r)
    requires service == "" || IsWord(service)
    ensures Allowed(CoresOf(ReadFile(RenderFile(FileRules(rules, orphans, service, target)))), identity, topic, access)
         == Allowed(CoresOf(FileRules(rules, orphans, service, target)), identity, topic, access)
  {
    hide Allowed, CoresOf, ReadFile, RenderFile, FileReadable, WellFormed, FileRules;
    FileRulesReadable(rules, orphans, service, target);
    RenderedFileMeanings(FileRules(rules, orphans, service, target));
  }

  /* Rule sets that hold the same rules for an identity decide the same for it. */
  lemma SameApplicable(a: set<Core>, b: set<Core>, identity: Identity, topic: string, access: Access)
    requires forall c :: Applies(c, identity) ==> (c in a <==> c in b)
    ensures Allowed(a, identity, topic, access) == Allowed(b, identity, topic, access)
  {
    hide Applies, FilterFor, PermissionGrants;
    forall c | Hits(c, identity, topic) ensures c in a <==> c in b {}
  }

  lemma SameForIdentity(rules: seq<Rule>, orphans: set<string>, service: string, target: Target, identity: Identity)
    requires identity.IsAnonymous() || (identity.username !in orphans && identity.username != service)
    ensures forall c :: Applies(c, identity) ==>
              (c in CoresOf(FileRules(rules, orphans, service, target)) <==> c in CoresOf(ScopeRules(rules, target)))
  {
    var file, stored := FileRules(rules, orphans, service, target), ScopeRules(rules, target);
    forall c | Applies(c, identity) ensures c in CoresOf(file) <==> c in CoresOf(stored) {
      if c in CoresOf(file) {
        var r :| r in file && r.Meaning() == c;
        if r in ServiceRules(service) {
          ServiceFilters(service, r);
        }
        assert r in stored;
      }
      if c in CoresOf(stored) {
        var r :| r in stored && r.Meaning() == c;
        assert r in file;
      }
    }
  }

  /* Main theorem: for everyone but the service account and orphaned users, the simulator's verdict
     is the verdict of the rendered file of the same scope. */
  lemma SimulatorAgreesWithFile(rules: seq<Rule>, orphans: set<string>, service: string, target: Target,
                                identity: Identity, topic: string, access: Access)
    requires forall r :: r in rules ==> WellFormed(r)
    requires service == "" || IsWord(service)
    requires identity.IsAnonymous() || (identity.username !in orphans && identity.username != service)
    ensures Allowed(CoresOf(ScopeRules(rules, target)), identity, topic, access)
         == Allowed(CoresOf(ReadFile(RenderFile(FileRules(rules, orphans, service, target)))), identity, topic, access)
  {
    hide Allowed, CoresOf, ReadFile, RenderFile, WellFormed, FileRules, ScopeRules, Applies, IsWord;
    FileDecides(rules, orphans, service, target, identity, topic, access);
    SameForIdentity(rules, orphans, service, target, identity);
    SameApplicable(CoresOf(FileRules(rules, orphans, service, target)), CoresOf(ScopeRules(rules, target)),
                   identity, topic, access);
  }

  // ---------------------------------------------------------------- a file with an adopted source

  /* The name of MCM's own account is one word, if it has one. */
  predicate ReadableService(service: string) {
    service == "" || (IsWord(service) && !HasControl(service))
  }

  lemma ServiceRulesWellFormed(service: string)
    requires ReadableService(service)
    ensures forall r :: r in ServiceRules(service) ==> WellFormed(r)
  {
    hide IsWord, WellFormed, HasControl, HasSpace;
    forall r | r in ServiceRules(service) ensures WellFormed(r) {
      ServiceFilters(service, r);
      ServiceRuleWellFormed(r);
    }
  }

  lemma ServiceRuleWellFormed(r: Rule)
    requires r in ServiceRules(r.principal) && IsWord(r.principal) && !HasControl(r.principal)
    ensures WellFormed(r)
  {
    hide HasControl, Fields, Join, ValidTopicFilter, TrimSpace;
    ServiceFilters(r.principal, r);
    OneWordFilter(r.filter);
    ServiceFilterIsValid(r.filter);
    TrimNothing(r.principal);
    TrimNothing(r.filter);
  }

  lemma TwoLevelFilter(head: string, tail: string)
    requires '/' !in head && '#' !in head && '+' !in head
    requires '/' !in tail && '+' !in tail && ('#' in tail ==> tail == "#")
    requires !HasControl(head + ['/'] + tail)
    ensures ValidTopicFilter(head + ['/'] + tail)
  {
    hide HasControl, Split;
    SplitConcat(head, tail, '/');
    SplitWhole(head, '/');
    SplitWhole(tail, '/');
  }

  lemma ServiceFilterIsValid(filter: string)
    requires filter in {"#", "$SYS/#", HEALTHCHECK_TOPIC}
    ensures ValidTopicFilter(filter)
  {
    hide Split;
    if filter == "#" {
      SplitWhole(filter, '/');
    } else {
      hide ValidTopicFilter;
      var head, tail := if filter == "$SYS/#" then "$SYS" else "mcm", if filter == "$SYS/#" then "#" else "healthcheck";
      assert filter == head + ['/'] + tail;
      TwoLevelFilter(head, tail);
    }
  }

  /* The file of a scope with an adopted source decides as the source, the scope's active rules and
     the service rules do together. */
  lemma AdoptedFileDecides(input: RenderInput, target: Target, identity: Identity, topic: string, access: Access)
    requires forall r :: r in input.rules ==> WellFormed(r)
    requires ReadableService(input.service)
    requires SourceAt(input.sources, input.Path(target)).Some?
    ensures Allowed(CoresOf(TypedRules(ParseDocument(input.Body(target)).entries)), identity, topic, access)
         == Allowed(CoresOf(TypedRules(ParseDocument(SourceAt(input.sources, input.Path(target)).value).entries)
                            + FileRules(input.rules, input.orphans, input.service, target)),
                    identity, topic, access)
  {
    hide Allowed, CoresOf, TypedRules, ParseDocument, WellFormed, IsWord, HasControl, Compose, Render, ServiceRules;
    var managed := FileRules(input.rules, input.orphans, input.service, target);
    ServiceRulesWellFormed(input.service);
    assert forall r :: r in managed ==> WellFormed(r);
    CompositionDecides(SourceAt(input.sources, input.Path(target)).value, managed, identity, topic, access);
  }

  // ---------------------------------------------------------------- what the simulator does not see

  /* The typed rules of the source of a file. */
  function SourceRules(input: RenderInput, target: Target): seq<Rule>
    requires SourceAt(input.sources, input.Path(target)).Some?
  {
    TypedRules(ParseDocument(SourceAt(input.sources, input.Path(target)).value).entries)
  }

  /* Rules beside the stored ones leave the verdict alone: the request is denied anyway, or it is
     granted and they do not deny it, or it is not granted and they do not allow it. */
  predicate LeavesVerdict(stored: set<Core>, source: set<Core>, identity: Identity, topic: string, access: Access) {
    || Denied(stored, identity, topic)
    || if Granted(stored, identity, topic, access) then !Denied(source, identity, topic)
       else !Allowed(source, identity, topic, access)
  }

  lemma LeavesVerdictExactly(stored: set<Core>, source: set<Core>, identity: Identity, topic: string, access: Access)
    ensures Allowed(stored, identity, topic, access) == Allowed(source + stored, identity, topic, access)
       <==> LeavesVerdict(stored, source, identity, topic, access)
  {
    hide Hits, PermissionGrants;
  }

  /* The identities whose verdict can be compared: the file leaves out the rules of orphans and adds
     those of the service account. */
  predicate Ordinary(input: RenderInput, identity: Identity) {
    identity.IsAnonymous() || (identity.username !in input.orphans && identity.username != input.service)
  }

  /* The simulated verdict on a request is that of the file as it is read back. */
  ghost predicate Agrees(input: RenderInput, target: Target, identity: Identity, topic: string, access: Access) {
    Allowed(CoresOf(ScopeRules(input.rules, target)), identity, topic, access)
      == Allowed(CoresOf(TypedRules(ParseDocument(input.Body(target)).entries)), identity, topic, access)
  }

  /* The simulator never looks at a source: its verdict is the file's exactly when the rules of the
     source leave it alone. */
  lemma SimulatorAgreesWithAdoptedFile(input: RenderInput, target: Target, identity: Identity, topic: string,
                                       access: Access)
    requires forall r :: r in input.rules ==> WellFormed(r)
    requires ReadableService(input.service) && Ordinary(input, identity)
    requires SourceAt(input.sources, input.Path(target)).Some?
    ensures Agrees(input, target, identity, topic, access)
       <==> LeavesVerdict(CoresOf(ScopeRules(input.rules, target)), CoresOf(SourceRules(input, target)),
                          identity, topic, access)
  {
    hide Allowed, TypedRules, ParseDocument, WellFormed, IsWord, HasControl, Applies, FileRules, ScopeRules,
         RenderInput.Body, RenderInput.Path, SourceAt, LeavesVerdict;
    var source, stored := SourceRules(input, target), ScopeRules(input.rules, target);
    var managed := FileRules(input.rules, input.orphans, input.service, target);
    AdoptedFileDecides(input, target, identity, topic, access);
    CoresConcat(source, managed);
    SameForIdentity(input.rules, input.orphans, input.service, target, identity);
    SameApplicable(CoresOf(source) + CoresOf(stored), CoresOf(source + managed), identity, topic, access);
    LeavesVerdictExactly(CoresOf(stored), CoresOf(source), identity, topic, access);
  }

  /* A rule that decides some request of an identity. */
  predicate BearsOn(c: Core, identity: Identity) {
    Applies(c, identity) && Matchable(FilterFor(c, identity))
  }

  /* Whatever rules are stored, whatever is asked. */
  ghost predicate AlwaysAgrees(input: RenderInput, target: Target, identity: Identity) {
    forall rules, topic, access | forall r :: r in rules ==> WellFormed(r) ::
      Agrees(input.(rules := rules), target, identity, topic, access)
  }

  /* The simulator can be trusted for an identity exactly when no rule of the source bears on it. */
  lemma SimulatorTrustedExactly(input: RenderInput, target: Target, identity: Identity)
    requires ReadableService(input.service) && Ordinary(input, identity)
    requires SourceAt(input.sources, input.Path(target)).Some?
    requires target.ListenerFile? ==> ValidListenerId(target.id)
    ensures AlwaysAgrees(input, target, identity) <==> forall r :: r in SourceRules(input, target) ==> !BearsOn(r.Meaning(), identity)
  {
    hide RenderInput.Body, SourceAt, Agrees, BearsOn, ValidListenerId, WellFormed, TypedRules, ParseDocument, IsWord, HasControl;
    if r :| r in SourceRules(input, target) && BearsOn(r.Meaning(), identity) {
      Disagreement(input, target, identity, r);
    } else {
      forall rules, topic, access | forall r :: r in rules ==> WellFormed(r)
        ensures Agrees(input.(rules := rules), target, identity, topic, access)
      {
        NothingBears(input.(rules := rules), target, identity, topic, access);
      }
    }
  }

  lemma NothingBears(input: RenderInput, target: Target, identity: Identity, topic: string, access: Access)
    requires forall r :: r in input.rules ==> WellFormed(r)
    requires ReadableService(input.service) && Ordinary(input, identity)
    requires SourceAt(input.sources, input.Path(target)).Some?
    requires forall r :: r in SourceRules(input, target) ==> !BearsOn(r.Meaning(), identity)
    ensures Agrees(input, target, identity, topic, access)
  {
    hide RenderInput.Body, SourceAt, Agrees, WellFormed, TypedRules, ParseDocument, Applies, FilterFor, Matches, Matchable,
         ScopeRules, ReadableService;
    var source := CoresOf(SourceRules(input, target));
    forall c | c in source ensures !Hits(c, identity, topic) {
      MatchableExactly(FilterFor(c, identity));
    }
    SimulatorAgreesWithAdoptedFile(input, target, identity, topic, access);
  }

  /* One rule that grants everything to everybody in a scope. */
  function OpenRule(target: Target): Rule {
    match target
    case GlobalFile => Rule("", Pattern, Global, "", "", "#", ReadWrite, "")
    case ListenerFile(id) => Rule("", Pattern, Listener, id, "", "#", ReadWrite, "")
  }

  lemma OpenRuleGrants(target: Target, identity: Identity, topic: string, access: Access)
    requires target.ListenerFile? ==> ValidListenerId(target.id)
    requires topic != ""
    ensures WellFormed(OpenRule(target))
    ensures ScopeRules([OpenRule(target)], target) == [OpenRule(target)]
    ensures Granted(CoresOf([OpenRule(target)]), identity, topic, access)
    ensures !Denied(CoresOf([OpenRule(target)]), identity, topic)
  {
    hide WellFormed, Substitute, Matches;
    var rule := OpenRule(target);
    OpenRuleWellFormed(target);
    assert [rule][..0] == [];
    assert rule in [rule] && rule.Meaning() in CoresOf([rule]);
    HashMatches(identity, topic);
    assert Hits(rule.Meaning(), identity, topic);
  }

  lemma OpenRuleWellFormed(target: Target)
    requires target.ListenerFile? ==> ValidListenerId(target.id)
    ensures WellFormed(OpenRule(target))
  {
    hide ValidListenerId, HasSpace, ValidTopicFilter, ValidPlaceholders, Fields, Join, TrimSpace;
    ServiceFilterIsValid("#");
    OneWordFilter("#");
    EmptyHasNoSpace();
    TrimNothing("#");
    NoPlaceholder();
  }

  lemma NoPlaceholder()
    ensures ValidPlaceholders("#")
  {
    hide Split;
    SplitWhole("#", '/');
    assert Split("#", '/')[0] == "#";
    assert !Contains("#", "%u") && !Contains("#", "%c");
  }

  lemma HashMatches(identity: Identity, topic: string)
    requires topic != ""
    ensures Substitute("#", identity) == "#" && Matches("#", topic)
  {
    hide Split, Join;
    SplitWhole("#", '/');
    JoinSplit("#", '/');
    assert SubstituteLevels(["#"], identity) == ["#"];
  }

  /* A rule of the source that bears on the identity is missed with one stored rule or none. */
  lemma Disagreement(input: RenderInput, target: Target, identity: Identity, rule: Rule)
    requires ReadableService(input.service) && Ordinary(input, identity)
    requires SourceAt(input.sources, input.Path(target)).Some?
    requires target.ListenerFile? ==> ValidListenerId(target.id)
    requires rule in SourceRules(input, target) && BearsOn(rule.Meaning(), identity)
    ensures !AlwaysAgrees(input, target, identity)
  {
    hide RenderInput.Body, SourceAt, Agrees, WellFormed, TypedRules, ParseDocument, Applies, FilterFor, Matches, Matchable,
         ScopeRules, ReadableService, OpenRule, ValidListenerId;
    var source := CoresOf(SourceRules(input, target));
    var c := rule.Meaning();
    var topic := FilterFor(c, identity);
    MatchableExactly(topic);
    assert c in source && Hits(c, identity, topic) && topic != "" by {
      MatchedIsNotEmpty(topic, topic);
    }
    if Denied(source, identity, topic) {
      OpenRuleGrants(target, identity, topic, AccessRead);
      SimulatorAgreesWithAdoptedFile(input.(rules := [OpenRule(target)]), target, identity, topic, AccessRead);
      assert !Agrees(input.(rules := [OpenRule(target)]), target, identity, topic, AccessRead);
    } else {
      SourcePermission(input, target, rule);
      var access := if c.permission == Write then AccessWrite else AccessRead;
      assert Allowed(source, identity, topic, access);
      NothingInScope();
      SimulatorAgreesWithAdoptedFile(input.(rules := []), target, identity, topic, access);
      assert !Agrees(input.(rules := []), target, identity, topic, access);
    }
  }

  lemma MatchedIsNotEmpty(filter: string, topic: string)
    requires Matches(filter, topic)
    ensures topic != ""
  {
  }

  /* What is read from a source has one of the four permissions. */
  lemma SourcePermission(input: RenderInput, target: Target, rule: Rule)
    requires SourceAt(input.sources, input.Path(target)).Some? && rule in SourceRules(input, target)
    ensures !rule.permission.Unsupported?
  {
    hide SourceAt, ParseLines, Lines;
    ParsedPermission(Lines(SourceAt(input.sources, input.Path(target)).value), "", rule);
  }

  lemma {:induction false} ParsedPermission(lines: seq<string>, scope: string, rule: Rule)
    requires rule in TypedRules(ParseLines(lines, scope))
    ensures !rule.permission.Unsupported?
  {
    hide ParseEntry;
    var e := ParseEntry(lines[0], scope);
    BuiltPermission(lines[0], scope);
    if rule in TypedRules(ParseLines(lines[1..], NextScope(e, scope))) {
      ParsedPermission(lines[1..], NextScope(e, scope), rule);
    }
  }

  lemma BuiltPermission(raw: string, scope: string)
    ensures var e := ParseEntry(raw, scope); e.rule.Some? ==> !e.rule.value.permission.Unsupported?
  {
    hide ValidRule, TrimSpace, HasPrefix, Fields, ToLower, Join, PermissionOf;
  }

  // ---------------------------------------------------------------- a source at work

  const SAMPLE_SOURCE := "user bob\ntopic read t"

  /* A broker-wide file with the sample adopted and no stored rule at all. */
  function SampleInput(aclPath: string, dir: string): RenderInput {
    RenderInput([], {}, "", map[aclPath := SAMPLE_SOURCE], aclPath, dir)
  }

  /* The simulator refuses what the file of the broker grants. */
  lemma SourceSample(aclPath: string, dir: string, clientId: string)
    requires aclPath != ""
    ensures var bob := Identity("bob", clientId);
            var input := SampleInput(aclPath, dir);
            && !Allowed(CoresOf(ScopeRules(input.rules, GlobalFile)), bob, "t", AccessRead)
            && Allowed(CoresOf(TypedRules(ParseDocument(input.Body(GlobalFile)).entries)), bob, "t", AccessRead)
  {
    hide RenderInput.Body, TypedRules, ParseDocument, Matches, ReadableService;
    var bob := Identity("bob", clientId);
    var input := SampleInput(aclPath, dir);
    NoService(input);
    SampleSourceRules();
    SampleMatches();
    NothingInScope();
    var c := Core(User, "bob", Read, "t");
    assert CoresOf(SourceRules(input, GlobalFile)) == {c};
    assert Hits(c, bob, "t");
    SimulatorAgreesWithAdoptedFile(input, GlobalFile, bob, "t", AccessRead);
  }

  lemma NoService(input: RenderInput)
    requires input.service == ""
    ensures ReadableService(input.service)
  {
  }

  lemma SampleMatches()
    ensures Matches("t", "t")
  {
    SplitWhole("t", '/');
  }

  lemma SampleRuleWellFormed(rule: Rule)
    requires rule == Rule("", User, Global, "", "bob", "t", Read, "")
    ensures WellFormed(rule) && IsWord("bob")
  {
    hide Fields, Join, TrimSpace, ValidTopicFilter, HasControl, HasSpace;
    SampleWords();
    SampleFilter();
    WordFields("t");
    TrimNothing("t");
    TrimNothing("bob");
  }

  lemma SampleWords()
    ensures IsWord("bob") && IsWord("t") && !HasControl("bob") && !HasControl("t")
  {
  }

  lemma SampleFilter()
    ensures ValidTopicFilter("t")
  {
    hide Split;
    SplitWhole("t", '/');
  }

  lemma SampleLines()
    ensures Lines(SAMPLE_SOURCE) == ["user bob", "topic read t"]
  {
    hide Split;
    var a, b := "user bob", "topic read t";
    assert SAMPLE_SOURCE == a + ['\n'] + b;
    SplitConcat(a, b, '\n');
    SplitWhole(a, '\n');
    SplitWhole(b, '\n');
  }

  lemma SampleSourceRules()
    ensures CoresOf(TypedRules(ParseDocument(SAMPLE_SOURCE).entries)) == {Core(User, "bob", Read, "t")}
  {
    hide ParseEntry, WellFormed, IsWord, Lines;
    var rule := Rule("", User, Global, "", "bob", "t", Read, "");
    SampleLines();
    SampleRuleWellFormed(rule);
    HeaderReads("bob", "");
    TopicLineReads(rule, "bob");
    assert "user " + "bob" == "user bob" && TopicLine(rule) == "topic read t";
    var header, topic := ParseEntry("user bob", ""), ParseEntry("topic read t", "bob");
    assert ParseDocument(SAMPLE_SOURCE).entries == [header, topic];
    assert header.rule.None? && topic.rule.Some? && topic.rule.value.Meaning() == rule.Meaning();
    TypedRulesMeanings([header, topic]);
    assert Meanings([header, topic]) == {rule.Meaning()} by {
      assert topic in [header, topic];
    }
  }
}
