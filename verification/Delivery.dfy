/**
 Deploys of what is rendered from stored rules (internal/deploy/service.go, internal/deploy/acl_scope.go):
 when an apply hands over what its preview showed, what the broker then decides, and when a file composed
 into an adopted source is refused.
 */
module Delivery {
  import opened Options
  import opened Strings
  import opened Rules
  import opened AclDocument
  import opened Effective
  import opened Composition
  import opened CompositionTheorems
  import opened AclFile
  import opened Disks
  import opened DeployPlan
  import opened Destructive
  import opened Simulator
  import Deploy

  // ---------------------------------------------------------------- renders of stored rules

  /* What rendering valid rules for a configured path yields. */
  ghost predicate RendersAt(input: RenderInput, r: Rendered, aclPath: string, dir: string) {
    && input.aclPath == aclPath && input.dir == dir
    && (forall rule :: rule in input.rules ==> ValidRule(rule))
    && r.aclBody == input.Body(GlobalFile) && IsRender(input, r.files) && NulFree(r.files)
  }

  lemma RendersAreDeployable(input: RenderInput, r: Rendered, aclPath: string, dir: string)
    requires RendersAt(input, r, aclPath, dir) && aclPath != ""
    ensures RenderedFor(r, aclPath, dir)
  {
    hide RenderedFor, IsRender, NulFree, ValidRule, RenderInput.Body;
    RenderIsDeployable(input, r.files, r.passwdBody);
  }

  /* An apply takes its bodies from the preview and its files from the render of the moment. */
  ghost predicate DriftFree(preview: Rendered, current: Rendered, plan: Plan, files: Files, registry: map<string, string>,
                            aclPath: string) {
    && FilesHash(preview.files) == FilesHash(current.files) && preview.aclBody == current.aclBody
    && |current.files| >= 1
    && IsPlan(plan, files, current, RevisionBodies(aclPath, preview.aclBody, ListenerBodies(preview.files)), registry)
  }

  /* Whatever rules are stored at the preview and at the apply, a drift-free apply hands over what
     the preview showed. */
  ghost predicate AlwaysHandsOver(aclPath: string, dir: string) {
    forall p, c, preview, current, plan, files, registry ::
      && RendersAt(p, preview, aclPath, dir) && RendersAt(c, current, aclPath, dir)
      && DriftFree(preview, current, plan, files, registry, aclPath)
      ==> HandsOver(plan, preview)
  }

  /* The broker-wide file lies neither in the working directory under a bare name nor where the file
     of a listener goes. */
  ghost predicate PathApart(aclPath: string, dir: string) {
    dir != "." && forall id :: ValidListenerId(id) ==> aclPath != ListenerACLPath(dir, id)
  }

  lemma HandsOverExactly(aclPath: string, dir: string)
    requires DirectoryOf(dir, aclPath) && aclPath != "" && '\0' !in aclPath
    ensures AlwaysHandsOver(aclPath, dir) <==> PathApart(aclPath, dir)
  {
    hide HandsOver, FilesHash, LookupsAgree, ValidListenerId, ListenerACLPath, DriftFree, RendersAt;
    if dir == "." {
      OneLetterId("x");
      var input, r, plan := WrongBody(aclPath, "x");
    } else if id :| ValidListenerId(id) && aclPath == ListenerACLPath(dir, id) {
      var input, r, plan := SharedPath(aclPath, dir, id);
    } else {
      forall p, c, preview, current, plan, files, registry
        | && RendersAt(p, preview, aclPath, dir) && RendersAt(c, current, aclPath, dir)
          && DriftFree(preview, current, plan, files, registry, aclPath)
        ensures HandsOver(plan, preview)
      {
        ApartHandsOver(p, c, preview, current, plan, files, registry, aclPath, dir);
      }
    }
  }

  lemma ApartHandsOver(p: RenderInput, c: RenderInput, preview: Rendered, current: Rendered, plan: Plan, files: Files,
                       registry: map<string, string>, aclPath: string, dir: string)
    requires RendersAt(p, preview, aclPath, dir) && RendersAt(c, current, aclPath, dir)
    requires DriftFree(preview, current, plan, files, registry, aclPath)
    requires DirectoryOf(dir, aclPath) && aclPath != "" && PathApart(aclPath, dir)
    ensures HandsOver(plan, preview)
  {
    hide HandsOver, FilesHash, IsPlan, LookupsAgree, ListenersApart, RenderedFor, PathApart, NulFree, IsRender, ValidRule,
         RenderInput.Body;
    RendersAreDeployable(p, preview, aclPath, dir);
    RendersAreDeployable(c, current, aclPath, dir);
    ApartLookups(preview, aclPath, dir);
    PlanHandsOverPreview(plan, files, preview, current, aclPath, dir, registry);
  }

  /* No lookup goes wrong where no listener file has the path of the broker-wide file. */
  lemma ApartLookups(r: Rendered, aclPath: string, dir: string)
    requires RenderedFor(r, aclPath, dir) && DirectoryOf(dir, aclPath) && PathApart(aclPath, dir)
    ensures LookupsAgree(r, aclPath)
  {
    hide LookupsAgree, ValidListenerId, ListenerACLPath;
    LookupsOutside(r, aclPath, dir);
  }

  // ---------------------------------------------------------------- the two ways to fail

  /* One rule of a listener, on a line of its own. */
  function LineRule(id: string, filter: string): Rule {
    Rule("", Anonymous, Listener, id, "", filter, Read, "")
  }

  lemma LineRuleValid(id: string, filter: string)
    requires ValidListenerId(id) && filter in {"one", "two"}
    ensures ValidRule(LineRule(id, filter))
  {
    hide ValidListenerId, Split, TrimSpace;
    SplitWhole(filter, '/');
    TrimNothing(filter);
  }

  lemma LineRuleFile(id: string, filter: string)
    ensures RenderFile([LineRule(id, filter)]) == "topic read " + filter
  {
    var rules := [LineRule(id, filter)];
    assert rules[..0] == [];
    assert AnonymousRules(rules) == rules && PatternRules(rules) == [];
    assert Principals(rules) == [];
    assert "topic " + "read" + " " == "topic read ";
    assert TopicLine(rules[0]) == "topic read " + filter;
    assert TopicLines(rules) == ["topic read " + filter];
    assert Sections(rules) == [["topic read " + filter]];
  }

  lemma NoRulesFile()
    ensures RenderFile([]) == ""
  {
  }

  function WitnessInput(rules: seq<Rule>, aclPath: string, dir: string): RenderInput {
    RenderInput(rules, {}, "", map[], aclPath, dir)
  }

  lemma {:induction false} NoOrphans(rules: seq<Rule>)
    ensures ActiveRules(rules, {}) == rules
  {
    if rules != [] {
      var n := |rules| - 1;
      NoOrphans(rules[..n]);
      assert rules == rules[..n] + [rules[n]];
    }
  }

  predicate IsLine(rule: Rule) {
    rule.selector == Anonymous && rule.scope == Listener
  }

  /* The scopes of one rule or two rules of different listeners. */
  lemma WitnessScopes(rules: seq<Rule>, target: Target)
    requires 1 <= |rules| <= 2 && IsLine(rules[0])
    requires |rules| == 2 ==> IsLine(rules[1]) && rules[0].listenerId != rules[1].listenerId
    ensures var scoped := ScopeRules(ActiveRules(rules, {}), target);
            if target == ListenerFile(rules[0].listenerId) then scoped == [rules[0]]
            else if |rules| == 2 && target == ListenerFile(rules[1].listenerId) then scoped == [rules[1]]
            else scoped == []
  {
    hide ScopeRules, ActiveRules;
    NoOrphans(rules);
    NothingInScope();
    ScopeStep(rules, 0);
    assert rules[..0] == [];
    assert ScopeRules(rules[..1], target) == if InScope(rules[0], target) then [rules[0]] else [];
    if |rules| == 2 {
      ScopeStep(rules, 1);
      assert rules[..2] == rules;
      assert ScopeRules(rules[..2], target)
          == ScopeRules(rules[..1], target) + if InScope(rules[1], target) then [rules[1]] else [];
    } else {
      assert rules[..1] == rules;
    }
  }

  lemma WitnessBody(rules: seq<Rule>, aclPath: string, dir: string, target: Target)
    ensures WitnessInput(rules, aclPath, dir).Body(target) == RenderFile(ScopeRules(ActiveRules(rules, {}), target))
  {
    hide RenderFile, ScopeRules, ActiveRules;
    var scoped := ScopeRules(ActiveRules(rules, {}), target);
    assert scoped + [] == scoped;
  }

  /* The broker-wide file and one listener file at the same path: the plan puts the broker-wide body
     there, and the rule of the listener is in no planned body. */
  lemma SharedPath(aclPath: string, dir: string, id: string) returns (input: RenderInput, r: Rendered, plan: Plan)
    requires ValidListenerId(id) && aclPath == ListenerACLPath(dir, id) && '\0' !in aclPath
    ensures input.rules == [LineRule(id, "one")] && RendersAt(input, r, aclPath, dir)
    ensures DriftFree(r, r, plan, map[], map[], aclPath)
    ensures r.files == [FileRender(Global, "", aclPath, ""), FileRender(Listener, id, aclPath, "topic read one")]
    ensures forall f :: f in [plan.global] + plan.listener ==> f.body == ""
    ensures !HandsOver(plan, r) && !AlwaysHandsOver(aclPath, dir)
  {
    hide ValidListenerId, ListenerACLPath, FilesHash, RenderFile, RenderInput.Body, ValidRule, ScopeRules, ActiveRules,
         HasFile, StrictlySorted;
    input := WitnessInput([LineRule(id, "one")], aclPath, dir);
    LineRuleValid(id, "one");
    r := SharedRender(input, id);
    NotItsOwnPath(dir, id);
    var bodies := RevisionBodies(aclPath, "", ListenerBodies(r.files));
    OneListenerBody(r.files);
    plan := Plan(PlanFile(r.files[0], map[], bodies), [PlanFile(r.files[1], map[], bodies)], []);
    assert IsPlan(plan, map[], r, bodies, map[]);
    assert r.files[1] in r.files;
    assert (aclPath, "topic read one") in PairSet(r.files);
    assert RendersAt(input, r, aclPath, dir) && DriftFree(r, r, plan, map[], map[], aclPath);
  }

  lemma OneListenerBody(files: seq<FileRender>)
    requires |files| == 2 && files[0].scope == Global && files[1].scope == Listener
    ensures ListenerBodies(files) == map[files[1].listenerId := files[1].body]
  {
    assert files[..1][..0] == [];
    assert ListenerBodies(files[..1]) == map[];
  }

  lemma NotItsOwnPath(dir: string, id: string)
    ensures ListenerACLPath(dir, id) != id && ListenerACLPath(dir, id) != ""
  {
    assert |ListenerACLPath(dir, id)| > |id|;
  }

  lemma SharedRender(input: RenderInput, id: string) returns (r: Rendered)
    requires ValidListenerId(id) && input.aclPath == ListenerACLPath(input.dir, id) && '\0' !in input.aclPath
    requires input == WitnessInput([LineRule(id, "one")], input.aclPath, input.dir)
    ensures r.files == [FileRender(Global, "", input.aclPath, ""), FileRender(Listener, id, input.aclPath, "topic read one")]
    ensures r.aclBody == "" == input.Body(GlobalFile) && IsRender(input, r.files) && NulFree(r.files)
  {
    hide ValidListenerId, ListenerACLPath, RenderFile, RenderInput.Body, ScopeRules, ActiveRules, HasFile;
    NotItsOwnPath(input.dir, id);
    SharedScopes(input, id);
    SharedBodies(input, id);
    r := Rendered("", "", [input.File(GlobalFile), input.File(ListenerFile(id))]);
    assert r.files[1..] == [input.File(ListenerFile(id))];
    assert ListenerIds(r.files[1..]) == [id];
    assert ListenerFiles(input, [id]) == r.files[1..];
  }

  lemma SharedScopes(input: RenderInput, id: string)
    requires input.orphans == {} && input.rules == [LineRule(id, "one")]
    ensures forall target :: HasFile(input.rules, {}, target) <==> target in {GlobalFile, ListenerFile(id)}
  {
    hide ScopeRules, ActiveRules;
    forall target ensures HasFile(input.rules, {}, target) <==> target in {GlobalFile, ListenerFile(id)} {
      WitnessScopes(input.rules, target);
    }
  }

  lemma SharedBodies(input: RenderInput, id: string)
    requires input == WitnessInput([LineRule(id, "one")], input.aclPath, input.dir)
    ensures input.Body(GlobalFile) == "" && input.Body(ListenerFile(id)) == "topic read one"
  {
    hide RenderFile, RenderInput.Body, ScopeRules, ActiveRules;
    WitnessScopes(input.rules, GlobalFile);
    WitnessScopes(input.rules, ListenerFile(id));
    WitnessBody(input.rules, input.aclPath, input.dir, GlobalFile);
    WitnessBody(input.rules, input.aclPath, input.dir, ListenerFile(id));
    NoRulesFile();
    LineRuleFile(id, "one");
  }

  /* In the working directory the path of one listener's file is the id of another listener: the file of
     the first is handed the body of the second. */
  lemma WrongBody(aclPath: string, id: string) returns (input: RenderInput, r: Rendered, plan: Plan)
    requires ValidListenerId(id) && |id| <= 32 && aclPath != "" && '\0' !in aclPath
    ensures input.rules == [LineRule(id, "one"), LineRule("acl." + id, "two")] && RendersAt(input, r, aclPath, ".")
    ensures DriftFree(r, r, plan, map[], map[], aclPath)
    ensures input.Body(ListenerFile(id)) == "topic read one"
    ensures exists f :: f in plan.listener && f.path == "acl." + id && f.body == "topic read two"
    ensures !HandsOver(plan, r) && !AlwaysHandsOver(aclPath, ".")
  {
    hide ValidListenerId, FilesHash, RenderFile, RenderInput.Body, ValidRule, IsRender, NulFree, ListenerBodies, LookupsAgree,
         HandsOver, RenderedFor, IsPlan;
    var other := "acl." + id;
    PrefixedIdIsValid(id);
    LineRuleValid(id, "one");
    LineRuleValid(other, "two");
    input := WitnessInput([LineRule(id, "one"), LineRule(other, "two")], aclPath, ".");
    var i;
    r, i := CrossedRender(input, id);
    assert RendersAt(input, r, aclPath, ".");
    RendersAreDeployable(input, r, aclPath, ".");
    var bodies := RevisionBodies(aclPath, r.aclBody, ListenerBodies(r.files));
    CrossedLookup(r, aclPath, i, other);
    plan := MisledPlan(r, aclPath, ".");
    CrossedPlan(plan, r, bodies, i);
    assert DriftFree(r, r, plan, map[], map[], aclPath);
  }

  lemma CrossedLookup(r: Rendered, aclPath: string, i: nat, other: string)
    requires i < |r.files| && r.files[i].path == other && r.files[i].body == "topic read one"
    requires other in ListenerBodies(r.files) && ListenerBodies(r.files)[other] == "topic read two"
    ensures !LookupsAgree(r, aclPath)
    ensures PlanFile(r.files[i], map[], RevisionBodies(aclPath, r.aclBody, ListenerBodies(r.files))).body == "topic read two"
  {
    hide ListenerBodies;
    assert r.files[i] in r.files;
  }

  lemma CrossedPlan(plan: Plan, r: Rendered, bodies: map<string, string>, i: nat)
    requires 1 <= i < |r.files| && IsPlan(plan, map[], r, bodies, map[])
    ensures PlanFile(r.files[i], map[], bodies) in plan.listener
  {
    hide InRender, PlanFile;
    assert plan.listener[i - 1] == PlanFile(r.files[i], map[], bodies);
  }

  /* The render of the two rules; `i` is where the file of the first listener is. */
  lemma CrossedRender(input: RenderInput, id: string) returns (r: Rendered, i: nat)
    requires ValidListenerId(id) && |id| <= 32 && input.aclPath != "" && '\0' !in input.aclPath
    requires input == WitnessInput([LineRule(id, "one"), LineRule("acl." + id, "two")], input.aclPath, ".")
    ensures r.aclBody == input.Body(GlobalFile) && IsRender(input, r.files) && NulFree(r.files)
    ensures input.Body(ListenerFile(id)) == "topic read one"
    ensures 1 <= i < |r.files| && r.files[i].path == "acl." + id && r.files[i].body == "topic read one"
    ensures "acl." + id in ListenerBodies(r.files) && ListenerBodies(r.files)["acl." + id] == "topic read two"
  {
    hide ValidListenerId, RenderFile, RenderInput.Body, ScopeRules, ActiveRules, StrictlySorted, ListenerBodies, SortedInsert,
         HasFile, NulFree, ListenerACLPath, ListenerFiles, ListenerIds;
    var other := "acl." + id;
    assert |other| > |id|;
    CrossedScopes(input, id, other);
    CrossedBodies(input, id, other);
    OneIsSorted(id);
    var ids := SortedInsert([id], other);
    assert id in [id] && id in ids && other in ids;
    r := Rendered(input.Body(GlobalFile), "", [input.File(GlobalFile)] + ListenerFiles(input, ids));
    assert r.files[1..] == ListenerFiles(input, ids);
    ListenerIdsOf(input, ids);
    i := FileOfListener(input, ids, r.files, id);
    var m := FileOfListener(input, ids, r.files, other);
    ListenerBodiesAt(r.files, m);
    PathOfId(id);
    PrefixedIdIsValid(id);
    CrossedNulFree(input, r, ids, id, other);
  }

  /* Where the file of a listener is in a render. */
  lemma FileOfListener(input: RenderInput, ids: seq<string>, files: seq<FileRender>, id: string) returns (i: nat)
    requires id in ids && StrictlySorted(ids) && files == [input.File(GlobalFile)] + ListenerFiles(input, ids)
    ensures 1 <= i < |files| && files[i] == input.File(ListenerFile(id))
    ensures forall j :: i < j < |files| ==> files[j].listenerId != id
  {
    hide StrictlySorted, RenderInput.Body, RenderInput.Path;
    SortedAreDistinct(ids);
    var k :| 0 <= k < |ids| && ids[k] == id;
    i := k + 1;
    forall j | i < j < |files| ensures files[j].listenerId != id {
      assert files[j] == input.File(ListenerFile(ids[j - 1]));
    }
  }

  lemma PathOfId(id: string)
    ensures ListenerACLPath(".", id) == "acl." + id
  {
  }

  lemma OneIsSorted(id: string)
    ensures StrictlySorted([id])
  {
  }

  lemma CrossedScopes(input: RenderInput, id: string, other: string)
    requires id != other && input.orphans == {} && input.rules == [LineRule(id, "one"), LineRule(other, "two")]
    ensures forall target :: HasFile(input.rules, {}, target) <==> target in {GlobalFile, ListenerFile(id), ListenerFile(other)}
  {
    hide ScopeRules, ActiveRules;
    forall target ensures HasFile(input.rules, {}, target) <==> target in {GlobalFile, ListenerFile(id), ListenerFile(other)} {
      WitnessScopes(input.rules, target);
    }
  }

  lemma CrossedBodies(input: RenderInput, id: string, other: string)
    requires id != other && input == WitnessInput([LineRule(id, "one"), LineRule(other, "two")], input.aclPath, input.dir)
    ensures input.Body(GlobalFile) == "" && input.Body(ListenerFile(id)) == "topic read one"
    ensures input.Body(ListenerFile(other)) == "topic read two"
  {
    hide RenderFile, RenderInput.Body, ScopeRules, ActiveRules;
    var rules := input.rules;
    WitnessScopes(rules, GlobalFile);
    WitnessScopes(rules, ListenerFile(id));
    WitnessScopes(rules, ListenerFile(other));
    WitnessBody(rules, input.aclPath, input.dir, GlobalFile);
    WitnessBody(rules, input.aclPath, input.dir, ListenerFile(id));
    WitnessBody(rules, input.aclPath, input.dir, ListenerFile(other));
    NoRulesFile();
    LineRuleFile(id, "one");
    LineRuleFile(other, "two");
  }

  lemma CrossedNulFree(input: RenderInput, r: Rendered, ids: seq<string>, id: string, other: string)
    requires ValidListenerId(id) && ValidListenerId(other) && forall x :: x in ids <==> x in {id, other}
    requires input.dir == "." && '\0' !in input.aclPath && input.aclPath != ""
    requires input.Body(GlobalFile) == "" && input.Body(ListenerFile(id)) == "topic read one"
    requires input.Body(ListenerFile(other)) == "topic read two"
    requires r.files == [input.File(GlobalFile)] + ListenerFiles(input, ids)
    ensures NulFree(r.files)
  {
    hide ValidListenerId, RenderInput.Body, ListenerACLPath;
    PathOfId(id);
    PathOfId(other);
    ValidIdNulFree(id);
    ValidIdNulFree(other);
    var a, b := input.File(ListenerFile(id)), input.File(ListenerFile(other));
    assert a.path == "acl." + id && b.path == "acl." + other;
    forall f | f in r.files ensures f in [input.File(GlobalFile), a, b] {
      hide RenderInput.File;
      var k :| 0 <= k < |r.files| && r.files[k] == f;
      if k > 0 {
        assert f == ListenerFiles(input, ids)[k - 1];
        assert ids[k - 1] in ids;
      }
    }
    ThreeNulFree(r.files, input.File(GlobalFile), a, b);
  }

  lemma ThreeNulFree(files: seq<FileRender>, a: FileRender, b: FileRender, c: FileRender)
    requires forall f :: f in files ==> f in [a, b, c]
    requires '\0' !in a.path && '\0' !in b.path && '\0' !in c.path
    requires a.body == "" && b.body == "topic read one" && c.body == "topic read two"
    ensures NulFree(files)
  {
  }

  /* A configured path that meets it: the file of listener `x` next to the broker-wide `/e/acl.x`. */
  lemma SharedPathSample() returns (input: RenderInput, r: Rendered, plan: Plan)
    ensures DirectoryOf("/e", "/e/acl.x") && input.rules == [LineRule("x", "one")]
    ensures RendersAt(input, r, "/e/acl.x", "/e") && DriftFree(r, r, plan, map[], map[], "/e/acl.x")
    ensures FileRender(Listener, "x", "/e/acl.x", "topic read one") in r.files
    ensures forall f :: f in [plan.global] + plan.listener ==> f.body == ""
    ensures !AlwaysHandsOver("/e/acl.x", "/e")
  {
    hide RendersAt, DriftFree, ValidListenerId;
    assert "/e" + "/acl." + "x" == "/e/acl.x";
    OneLetterId("x");
    input, r, plan := SharedPath("/e/acl.x", "/e", "x");
  }

  // ---------------------------------------------------------------- what the broker then decides

  /* An apply of the revision of a preview that ended verified: what it planned and what it left on disk. */
  ghost predicate Activated(revision: Deploy.Revision, preview: Rendered, current: Rendered, plan: Plan, before: Files,
                            after: Files, registry: map<string, string>, aclPath: string, passwdPath: string, dir: string) {
    && Deploy.StoredFrom(revision, preview, aclPath, dir)
    && FilesHash(current.files) == revision.filesHash && current.aclBody == revision.renderedACL
    && |current.files| >= 1
    && IsPlan(plan, before, current, RevisionBodies(aclPath, revision.aclRendered, revision.listenerRendered), registry)
    && after == Applier.NewFiles(before, aclPath, passwdPath,
                                 Deploy.RequestFor(plan, revision.passwdRendered, Reads(before, passwdPath)))
  }

  /* The password file is neither an ACL file of the plan with another body nor a retired one, and the
     broker-wide file is apart from the files of the listeners. */
  ghost predicate PathsApart(revision: Deploy.Revision, plan: Plan, aclPath: string, passwdPath: string, dir: string) {
    && DirectoryOf(dir, aclPath) && aclPath != "" && PathApart(aclPath, dir)
    && Deploy.PasswdApart(plan, passwdPath, revision.passwdRendered)
  }

  /* Every file of the preview is on disk with the body the preview showed. */
  lemma ServedAsPreviewed(p: RenderInput, c: RenderInput, revision: Deploy.Revision, preview: Rendered, current: Rendered,
                          plan: Plan, before: Files, after: Files, registry: map<string, string>, aclPath: string,
                          passwdPath: string, dir: string, target: Simulator.Target)
    requires RendersAt(p, preview, aclPath, dir) && RendersAt(c, current, aclPath, dir)
    requires Activated(revision, preview, current, plan, before, after, registry, aclPath, passwdPath, dir)
    requires PathsApart(revision, plan, aclPath, passwdPath, dir)
    requires HasFile(p.rules, p.orphans, target)
    ensures p.Path(target) in after && after[p.Path(target)] == p.Body(target)
  {
    hide RenderInput.Body, RenderInput.Path, IsPlan, FilesHash, ListenerBodies, RenderedFor, PathApart, HandsOver, NulFree,
         IsRender, ValidRule, HasFile, Applier.NewFiles, Deploy.PasswdApart, Deploy.RequestFor, RevisionBodies, Reads;
    RendersAreDeployable(c, current, aclPath, dir);
    ApartHandsOver(p, c, preview, current, plan, before, registry, aclPath, dir);
    Deploy.ActivatedFiles(before, after, aclPath, passwdPath, dir, plan, current, revision.aclRendered,
                          revision.listenerRendered, registry, revision.passwdRendered, Reads(before, passwdPath));
    RenderHolds(p, preview, target);
    PlannedOnDisk(plan, preview, after, passwdPath, revision.passwdRendered, p.Path(target), p.Body(target));
  }

  /* The file of a scope is in the render. */
  lemma RenderHolds(input: RenderInput, r: Rendered, target: Simulator.Target)
    requires IsRender(input, r.files) && HasFile(input.rules, input.orphans, target)
    ensures (input.Path(target), input.Body(target)) in PairSet(r.files)
  {
    hide RenderInput.Body, RenderInput.Path, StrictlySorted, HasFile;
    if target == GlobalFile {
      assert r.files[0] in r.files;
    } else {
      var ids := ListenerIds(r.files[1..]);
      var k :| 0 <= k < |ids| && ids[k] == target.id;
      assert r.files[k + 1] == r.files[1..][k];
      assert r.files[k + 1] in r.files;
    }
  }

  lemma PlannedOnDisk(plan: Plan, preview: Rendered, after: Files, passwdPath: string, passwdBody: string, path: string,
                      body: string)
    requires HandsOver(plan, preview) && (path, body) in PairSet(preview.files)
    requires Deploy.ServesPlan(after, plan, passwdPath, passwdBody)
    ensures path in after && after[path] == body
  {
    assert (path, body) in {(plan.global.path, plan.global.body)} + PlanBodies(plan.listener);
    if (path, body) == (plan.global.path, plan.global.body) {
      assert plan.global in [plan.global] + plan.listener;
    } else {
      var f :| f in plan.listener && (f.path, f.body) == (path, body);
      assert f in [plan.global] + plan.listener;
    }
  }

  /* Main theorem: after a verified deploy the broker decides as the simulator said at the preview, in
     every scope without an adopted source. */
  lemma DeployedAsSimulated(p: RenderInput, c: RenderInput, revision: Deploy.Revision, preview: Rendered, current: Rendered,
                            plan: Plan, before: Files, after: Files, registry: map<string, string>, aclPath: string,
                            passwdPath: string, dir: string, target: Simulator.Target,
                            identity: Identity, topic: string, access: Access)
    requires RendersAt(p, preview, aclPath, dir) && RendersAt(c, current, aclPath, dir)
    requires Activated(revision, preview, current, plan, before, after, registry, aclPath, passwdPath, dir)
    requires PathsApart(revision, plan, aclPath, passwdPath, dir)
    requires HasFile(p.rules, p.orphans, target) && SourceAt(p.sources, p.Path(target)).None?
    requires (forall r :: r in p.rules ==> WellFormed(r)) && ReadableService(p.service) && Ordinary(p, identity)
    ensures p.Path(target) in after
    ensures Allowed(CoresOf(ReadFile(after[p.Path(target)])), identity, topic, access)
         == Allowed(CoresOf(ScopeRules(p.rules, target)), identity, topic, access)
  {
    hide RendersAt, Activated, PathsApart, HasFile, RenderInput.Path, SourceAt, WellFormed, Allowed, ReadFile, RenderFile,
         FileRules, ScopeRules, CoresOf, IsWord;
    ServedAsPreviewed(p, c, revision, preview, current, plan, before, after, registry, aclPath, passwdPath, dir, target);
    SimulatorAgreesWithFile(p.rules, p.orphans, p.service, target, identity, topic, access);
  }

  /* In a scope with an adopted source it decides as the source, the stored rules and the service
     grants do together. */
  lemma DeployedAsComposed(p: RenderInput, c: RenderInput, revision: Deploy.Revision, preview: Rendered, current: Rendered,
                           plan: Plan, before: Files, after: Files, registry: map<string, string>, aclPath: string,
                           passwdPath: string, dir: string, target: Simulator.Target,
                           identity: Identity, topic: string, access: Access)
    requires RendersAt(p, preview, aclPath, dir) && RendersAt(c, current, aclPath, dir)
    requires Activated(revision, preview, current, plan, before, after, registry, aclPath, passwdPath, dir)
    requires PathsApart(revision, plan, aclPath, passwdPath, dir)
    requires HasFile(p.rules, p.orphans, target) && SourceAt(p.sources, p.Path(target)).Some?
    requires (forall r :: r in p.rules ==> WellFormed(r)) && ReadableService(p.service)
    ensures p.Path(target) in after
    ensures Allowed(CoresOf(TypedRules(ParseDocument(after[p.Path(target)]).entries)), identity, topic, access)
         == Allowed(CoresOf(SourceRules(p, target) + FileRules(p.rules, p.orphans, p.service, target)),
                    identity, topic, access)
  {
    hide RendersAt, Activated, PathsApart, HasFile, RenderInput.Path, RenderInput.Body, SourceAt, WellFormed, Allowed, ParseDocument, TypedRules,
         FileRules, CoresOf, ReadableService;
    ServedAsPreviewed(p, c, revision, preview, current, plan, before, after, registry, aclPath, passwdPath, dir, target);
    AdoptedFileDecides(p, target, identity, topic, access);
  }

  // ---------------------------------------------------------------- what is never refused

  /* Composing into the body that is on disk loses nothing: such an apply is never refused. */
  lemma ComposedIsKept(onDisk: string, managed: seq<Rule>, known: set<string>)
    requires forall r :: r in managed ==> WellFormed(r)
    ensures Preserves(onDisk, Render(Compose(ParseDocument(onDisk), managed)), known)
  {
    hide ParseDocument, Keys, Render, Compose, Passes, Preserves, WellFormed;
    CompositionKeepsSource(onDisk, managed);
    KeptKeysPass(onDisk, Render(Compose(ParseDocument(onDisk), managed)), known);
    PassingPreserves(onDisk, Render(Compose(ParseDocument(onDisk), managed)), known);
  }

  lemma KeptKeysPass(oldBody: string, newBody: string, known: set<string>)
    requires Keys(ParseDocument(oldBody).entries) <= Keys(ParseDocument(newBody).entries)
    ensures Passes(oldBody, newBody, known)
  {
    hide Keys, ParseDocument, Blocks, CarriesContent;
  }

  /* A rule that is in the file on disk and neither in the source nor among the new rules. */
  predicate Dropped(source: string, now: seq<Rule>, rule: Rule) {
    ManagedRuleKey(rule) !in Keys(ParseDocument(source).entries) + ManagedKeys(now)
  }

  /* The next apply over the same source is refused exactly when a user rule it drops is of a principal
     MCM no longer knows. */
  lemma RecomposedPassesExactly(source: string, was: seq<Rule>, now: seq<Rule>, known: set<string>)
    requires forall r :: r in was || r in now ==> WellFormed(r)
    ensures Passes(Render(Compose(ParseDocument(source), was)), Render(Compose(ParseDocument(source), now)), known)
       <==> forall r :: r in was && r.EffectiveSelector() == User && Dropped(source, now, r) ==> r.principal in known
  {
    hide ParseDocument, Render, Compose, Keys, WellFormed, CarriesContent, ManagedRuleKey, AclKeyPrincipal, HasPrefix;
    RecomposedKeys(source, was);
    RecomposedKeys(source, now);
    var carries := CarriesContent(Recomposed(source, was).entries);
    forall r | r in was ensures Blocks(ManagedRuleKey(r), carries, known) <==> r.EffectiveSelector() == User && r.principal !in known {
      RuleBlocks(r, carries, known);
    }
  }

  lemma RecomposedKeys(source: string, managed: seq<Rule>)
    requires forall r :: r in managed ==> WellFormed(r)
    ensures Keys(Recomposed(source, managed).entries) == Keys(ParseDocument(source).entries) + ManagedKeys(managed)
  {
    hide ParseDocument, Recomposed, ComposeAll, Keys, Sound, ManagedKeys;
    var doc := ParseDocument(source);
    ParsedIsSound(source);
    ComposeAllSound(doc.entries, doc.endsWithNewline, managed);
    RecomposedAgrees(source, managed);
  }

  /* Only the key of a user rule can block, when its principal is unknown. */
  lemma RuleBlocks(rule: Rule, carries: bool, known: set<string>)
    requires WellFormed(rule)
    ensures Blocks(ManagedRuleKey(rule), carries, known) <==> rule.EffectiveSelector() == User && rule.principal !in known
  {
    hide WellFormed, IsWord, PermissionText, AclKeyPrincipal, HasPrefix;
    PrincipalIsWord(rule);
    var key := ManagedRuleKey(rule);
    if rule.EffectiveSelector() == User {
      var tail := "topic " + PermissionText(rule.permission) + " " + rule.filter;
      assert key == USER_PREFIX + rule.principal + SEPARATOR + tail;
      UserKeyPrincipal(rule.principal, tail);
    } else {
      assert key != "" && key[0] in {'a', 'p'};
      OtherKey(key, key[0]);
      NoPrincipal(key);
    }
  }

  lemma NoPrincipal(key: string)
    requires !HasPrefix(key, USER_PREFIX)
    ensures AclKeyPrincipal(key) == None
  {
  }
}
