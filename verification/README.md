# Verification of MCM's hard core

A Dafny model of five connected parts of MCM, the management server of a Mosquitto broker, and
proofs about them. `dafny verify dfyconfig.toml` checks everything.

**The ACL language.** Topic matching and filter containment (`Topics`), the resolver of effective
permissions and the grants view (`Effective`), the renderer and parser of Mosquitto ACL files
(`AclFile`, `AclFileTheorems`), the lossless document into which managed rules are spliced
(`AclDocument`, `Composition`, `CompositionPlaces`, `ComposedMeaning`, `CompositionTheorems`), the two
readers side by side (`Readers`) and the simulator (`Simulator`). Wildcards follow section 4.7.1 of
MQTT Version 3.1.1; the code does not implement section 4.7.2 and neither does the model. A rule is *well formed* when it passes validation, its
principal is one word and its filter is its own words joined by single blanks.

**The transactional deploy.** The staged, restorable apply (`Disks`, `Applier`), the file plan and
its hash (`DeployPlan`), the one-shot revision, the deployment record and the registry (`Deploy`),
the check for destructive content (`Destructive`), the choice of the verification probe (`Probe`) and
what every rendered file leaves to MCM's own account (`ServiceAccess`). `Delivery` joins them with the
language: what an apply hands over of rendered rules, and what the broker then decides. Every primitive step may fail, in any pattern;
failures are counted, so that what happens without one is stated too. A missing file reads as the
empty text.

**The Dynamic Security planner.** Documents, validation and normalisation (`DynsecModel`), the
planner (`DynsecPlan`), the database of the plugin as the planner relies on it (`DynsecDatabase`),
what the commands do to it (`DynsecObjects`, `DynsecPhases`), the comparison (`DynsecVerify`) and the
theorems that connect them (`DynsecTheorems`, `DynsecReplan`, `DynsecMembers`). In that database an
added access entry replaces the one with the same type and topic, a membership is a set of
(group, client) pairs that does not need the client to exist, a deletion removes all references, and
a field that a command does not carry leaves what is held alone.

**The listener apply and the log tailer.** A lock-and-flag protocol whose calls interleave in every
order (`Listener`), and an incremental scanner with a bounded ring, tied to a whole-file
specification and to a history (`BrokerLog`, `LogSource`).

**The bounded JSON Schema checker** (`Schema`).

`Strings`, `Rules` and `Options` hold what the others share. Code that works by changing things step
by step is a method or a class proved against a specification; the lemmas are about the
specification.

## Where the code does less than its documentation says

- Validation accepts a principal with a blank. Such a rule is read back as another one, and exactly
  the well-formed rules survive a file (`CompositionTheorems.CompositionExact`,
  `AclFileTheorems.RenderedFileExact`, `CompositionTheorems.BlankInPrincipal`).
- The plain parser of ACL files takes the first name of a `user` line of two names, the document takes
  such a line for unknown; only with such a line do they read different valid rules (`Readers.ReadersAgree`,
  `Readers.TwoNamesDisagree`).
- The containment test says no on three pairs of filters whose containment holds only because the
  empty topic is excluded (`Topics.GapContained`).
- Listener bodies of a preview are stored by listener id and looked up by path, next to the body of
  the broker-wide file. Every apply hands over what was previewed if and only if the ACL file is not
  a bare name in the working directory and its path is not that of a possible listener file
  (`Delivery.HandsOverExactly`). With a bare name one listener is handed the body of another
  (`Delivery.WrongBody`); with the path `/e/acl.x` the listener `x` is handed the broker-wide body
  and the body of its own rules is in no planned file (`Delivery.SharedPath`,
  `Delivery.SharedPathSample`).
- The configuration keeps the password file apart from the broker-wide ACL file only. An activated
  deploy serves every body it handed over if and only if the path of the password file is neither that
  of a planned ACL file with another body nor that of a retired one (`Deploy.ActivatedFiles`); with the password file at `/e/acl.x` the
  rules of the listener `x` are overwritten (`Deploy.PasswdPathSample`).
- A rollback writes its snapshots as bodies and has no snapshots of its own. When it fails halfway
  and is restored in turn, every file the apply touched reads as nothing
  (`Deploy.RestoredRollbackBlanks`, `Deploy.DeployService.RollbackAfterVerifyFailure`); no other file
  changes (`Deploy.RollbackFrame`).
- The plan creates clients enabled. A new client that is to be disabled fails the comparison of the
  same apply, and a second plan disables it (`DynsecTheorems.BornEnabled`,
  `DynsecTheorems.PlanVerifiesExactly`, `DynsecReplan.ReplanIsEmptyExactly`).
- The updates of a group that exists already add clients that are created only later
  (`DynsecMembers.EarlyMember`, `DynsecMembers.MembersExistExactly`).
- A changed priority of a role that a group or a client already holds is never sent
  (`DynsecReplan.UnsentPriority`): the held roles come out as wanted if and only if none of them is
  to change its priority (`DynsecObjects.MergedExactly`). The database is what the desired document
  says, priorities and disabled flags included, if and only if the document lists nothing twice, no
  held role changes its priority and no created client is disabled
  (`DynsecTheorems.PlanFulfilsExactly`).
- An empty text puts no field into a command, so a plan cannot clear a description, a name, a client
  id or the anonymous group: the command is sent, nothing changes, and the next plan sends it again
  (`DynsecReplan.UnclearedText`, `DynsecTheorems.PlanFulfilsExactly`,
  `DynsecReplan.ReplanIsEmptyExactly`). The comparison notices only an anonymous group that is cleared
  and kept (`DynsecTheorems.PlanVerifiesExactly`).
- docs/acl.md promises that the simulator resolves the rules the way Mosquitto does, but it answers from
  the stored rules only. Where a file is composed into an adopted source, its verdict on a request is the
  broker's if and only if the source leaves it alone (`Simulator.SimulatorAgreesWithAdoptedFile`), and
  for all stored rules and requests if and only if no rule of the source bears on the identity
  (`Simulator.SimulatorTrustedExactly`). `Simulator.SourceSample` is an input on which it is wrong.
- The topic matcher of the schema package and that of the ACL package differ on the empty topic
  (`Schema.MatchersDifferExactly`).

## Model

| member | source | states |
|---|---|---|
| Topics.TopicMatchesFilter | internal/acl/effective.go:256-279 | the loop decides matching as section 4.7.1 of MQTT Version 3.1.1 states it level by level; an empty filter or topic matches nothing |
| Topics.FilterCovers | internal/acl/effective.go:287-336 | the two loops decide level-wise containment of the grant in the deny |
| Topics.CoversSound | internal/acl/effective.go:281-336 | for all strings: when the test says yes, every topic the grant matches is matched by the deny |
| Topics.NotCoveredWitness | internal/acl/effective.go:281-336 | for valid filters the test rejects, outside the three gaps, a concrete wildcard-free topic matches the grant and escapes the deny |
| Topics.GapContained | internal/acl/effective.go:281-336 | `#` under `+/#`, and `/#` under `/+/#` or `+/+/#`: the test says no although every topic of the grant is matched by the deny |
| Topics.CoversDecidesContainment | internal/acl/effective.go:281-336 | for valid filters containment holds if and only if the test says yes or the pair is one of the gaps |
| Topics.MatchableExactly | internal/acl/effective.go:256-279 | a filter matches some topic if and only if it is not empty and `#` is at most its last level |
| Topics.PlainMatches | internal/acl/effective.go:256-279 | a filter without wildcards matches the topic of that name and no other |
| Topics.SubtreeMatches | internal/acl/effective.go:256-279 | `p/#` matches exactly `p` and every topic that begins with `p/` |
| Topics.ChildMatches | internal/acl/effective.go:256-279 | `p/+` matches exactly the topics that are one level below `p` |
| Effective.SubstitutePlaceholders | internal/acl/effective.go:222-236 | equals the level-wise substitution, which never changes the number of levels |
| Effective.SubstituteKeepsLevels | internal/acl/effective.go:222-236 | the levels of a substituted filter are the substituted levels, whatever the username and client id hold |
| Effective.SubstituteByLevel | internal/acl/effective.go:222-236 | substituting `a/b` is substituting `a` and `b` |
| Effective.SubstituteOneLevel | internal/acl/effective.go:222-236 | `%u` and `%c` become the username and the client id, with `_` for each slash; any other level stays |
| Effective.EffectivePermission | internal/acl/effective.go:91-129 | allowed if and only if some applicable grant matches and no applicable deny does, where the laws below fix what applies and what grants; the reason is deny exactly when a deny matches and grant exactly when allowed; `matching` lists the rules that match in their order, repetitions included |
| Effective.MeaningWitnesses | internal/acl/effective.go:91-129 | the set of meanings denies or grants exactly when some listed rule does |
| Effective.NoGrantNoAccess | internal/acl/effective.go:239-248 | without a write or readwrite rule nothing is allowed to be written, without a read or readwrite rule nothing to be read |
| Effective.ReadWriteIsBoth | internal/acl/effective.go:239-248 | replacing a readwrite rule by a read rule and a write rule changes no verdict |
| Effective.OneRuleDecides | internal/acl/effective.go:91-129 | one rule alone allows a request if and only if it is for the identity, its filter matches and its permission is the access or readwrite |
| Effective.DenyWins | internal/acl/effective.go:91-129 | a deny rule that would allow a request were it a grant refuses it, whatever else is in the list |
| Effective.ForeignRulesDoNotMatter | internal/acl/effective.go:185-203 | leaving out anonymous rules, and rules of other users, changes no verdict of a user; leaving out user rules changes none of an anonymous client |
| Effective.EffectiveGrants | internal/acl/effective.go:137-178 | one shown grant per applicable non-deny rule with the covering deny filters in rule order, marked denied exactly when there is one, in display order |
| Effective.MarkedExactly | internal/acl/effective.go:137-178 | a shown grant names exactly the filters of the applicable denies that cover it and is marked denied if and only if there is one |
| Effective.SortGrantsSorts | internal/acl/effective.go:169-177 | the display sort keeps every grant as often as it is there and puts none behind a later one by selector, principal and filter |
| Effective.SortedIsView | internal/acl/effective.go:137-178 | the returned list shows every grant rule that applies and nothing else, and is in display order |
| Effective.DeniedGrantIsRefused | internal/acl/effective.go:91-178 | a grant marked denied is refused on every topic its filter matches, for both accesses |
| Effective.AllowedIsJustified | internal/acl/effective.go:91-178 | every allowed request is justified by a listed grant that is not denied, matches the topic and covers the access |
| Effective.GrantsViewDecides | internal/acl/effective.go:91-178 | the decision equals: no deny matches and some listed grant does |
| AclDocument.ParseACLDocument | internal/mosquitto/acldoc.go:74-147 | the scope-threading loop yields the entries that line-by-line reading in the scope in effect yields |
| AclDocument.RenderInvertsParse | internal/mosquitto/acldoc.go:74-91 | rendering a parsed body gives the body back, for every body |
| AclDocument.ParseInvertsRender | internal/mosquitto/acldoc.go:173-186 | re-parsing a rendered document with one-line entries gives the same lines and the same final newline |
| AclDocument.ParsedIsPrintable | internal/mosquitto/acldoc.go:74-91 | every parsed document can be rendered without losing a line |
| AclDocument.TypedRulesMeanings | internal/mosquitto/acldoc.go:189-197 | the typed rules of a document mean exactly what its interpreted entries mean |
| AclDocument.MissingSemanticEntries | internal/mosquitto/acldoc.go:295-309 | returns exactly the keys of the base that the next document lacks |
| Composition.ComposeUserInsertIndex | internal/mosquitto/acldoc.go:409-429 | a header is needed if and only if there is none of the principal; otherwise no header lies between the first one and the position, no topic of the principal between the position and the next header, and right before the position is that header or a topic of the principal |
| Composition.ComposeInsertIndex | internal/mosquitto/acldoc.go:433-460 | a pattern goes right before the first header; an anonymous topic goes where no header precedes it, right behind an anonymous topic or at the start, and no anonymous topic lies between it and the first header |
| Composition.ComposeACLDocument | internal/mosquitto/acldoc.go:343-405 | the loop inserts every managed rule whose key is absent, in order, rules that fail validation included, each at the position of its section, and warns about each rule |
| CompositionPlaces.ManagedRulesPlaced | internal/mosquitto/acldoc.go:343-460 | in the composed file the rules of the patterns, of the anonymous clients and of each principal are those of the source, as they were, followed by the inserted managed rules of that section in list order |
| Composition.InsertedKey | internal/mosquitto/acldoc.go:343-405 | inserting a valid rule adds exactly its key and its meaning |
| ComposedMeaning.InsertRuleConsistent | internal/mosquitto/acldoc.go:343-460 | an inserted well-formed rule reads back as itself in the scope in effect where it lands, and no later line changes scope |
| ComposedMeaning.KeyDeterminesRule | internal/mosquitto/acldoc.go:239-325 | a line whose key equals the key of a well-formed rule is read as that rule |
| ComposedMeaning.SkippedRuleIsPresent | internal/mosquitto/acldoc.go:343-405 | a rule skipped as duplicate is already among the typed rules |
| CompositionTheorems.CompositionMeanings | internal/mosquitto/acldoc.go:343-405 | compose, render and re-parse: the typed rules mean the source's rules plus the managed rules, nothing else |
| CompositionTheorems.CompositionDecides | internal/mosquitto/acldoc.go:343-460 | the rewritten file decides every identity, topic and access as the source's typed rules together with the managed rules do |
| CompositionTheorems.CompositionKeepsSource | internal/mosquitto/acldoc.go:173-186 | the source lines are an ordered subsequence of the result and no semantic key of the source is lost |
| CompositionTheorems.CompositionIdempotent | internal/mosquitto/acldoc.go:343-405 | composing the same rules into the re-parsed result inserts nothing |
| CompositionTheorems.CompositionExact | internal/mosquitto/acldoc.go:343-405 | for valid rules the re-read meanings are the expected ones if and only if every managed rule is well formed |
| CompositionTheorems.BlankInPrincipal | internal/acl/acl.go:170-229 | validation accepts a principal with a blank; whatever the source and the rules composed into it, such a rule is not among the rules read back |
| AclFile.ParseACLFile | internal/mosquitto/acl.go:156-207 | the loop with a current user yields what reading line by line yields |
| AclFile.GroupRules | internal/mosquitto/acl.go:75-112 | the maps filled by the loop hold the anonymous, pattern and per-principal rules in order, with the principals sorted |
| AclFile.RenderACLFile | internal/mosquitto/acl.go:75-139 | the rendered text is the three kinds of sections joined by blank lines |
| AclFileTheorems.RenderedFileReadsBack | internal/mosquitto/acl.go:75-207 | reading a rendered file gives the rules back, grouped by sorted principal and stable within a group |
| AclFileTheorems.RenderedFileMeanings | internal/mosquitto/acl.go:75-207 | the rules read back mean exactly what the rendered rules mean |
| AclFileTheorems.RenderedFileExact | internal/mosquitto/acl.go:75-207 | for valid rules the file means what the rules mean if and only if every rule is well formed |
| Readers.LinesMean | internal/mosquitto/acl.go:156-207 | what `user`, `topic` and `pattern` lines with each of the four permission words mean, for every name and filter |
| Readers.ReadersAgree | internal/mosquitto/acl.go:156-207 | when no `user` line has more than one name, the typed rules of the document of a body are the valid ones of the rules the plain parser reads, in order |
| Readers.TwoNamesDisagree | internal/mosquitto/acl.go:156-207 | below a line `user a b` a topic is granted to `a` by the plain parser and to anonymous clients by the document |
| Simulator.SplitRulesByScope | internal/deploy/service.go:740-751 | the global list and the per-listener map partition the rules by scope, in order |
| Simulator.RenderScopedFiles | internal/deploy/service.go:620-698 | the broker-wide file, then one file per listener with an active rule, by listener id; orphans are left out, the service grants come last, and a file with an adopted source is the rules composed into it |
| Simulator.RenderIsDeployable | internal/deploy/service.go:655-698 | a render of valid rules has the shape the deploy theorems ask for: the broker-wide file first, then files of distinct valid listeners at the paths of those listeners |
| Simulator.HandleSimulate | internal/server/acl_scopes_handler.go:463-508 | the selected rules are those of the asked scope, in order; verdict, reason and matching rules are the resolver's on them; a blank topic or a missing listener id is a bad request |
| Simulator.FileDecides | internal/deploy/service.go:630-695 | a rendered scope file without an adopted source decides as the rules put into it |
| Simulator.AdoptedFileDecides | internal/deploy/service.go:641-692 | a scope file with an adopted source decides as the source's rules together with the active rules of the scope and the service grants |
| Simulator.SimulatorAgreesWithFile | internal/server/acl_scopes_handler.go:488-506 | for every identity but the service account and orphans, in any scope without an adopted source, the simulated verdict equals the resolver's on the re-read file of that scope |
| Simulator.SimulatorAgreesWithAdoptedFile | internal/server/acl_scopes_handler.go:488-506 | with an adopted source the simulated verdict on a request is that of the re-read file if and only if the source leaves it alone: the stored rules deny it, or they grant it and the source does not deny it, or they do not grant it and the source does not allow it |
| Simulator.SimulatorTrustedExactly | internal/server/acl_scopes_handler.go:463-508 | whatever well-formed rules are stored and whatever is asked, the simulator agrees with the file for an identity if and only if no rule of the source applies to it with a filter that can match |
| Simulator.SourceSample | internal/server/acl_scopes_handler.go:463-508 | with the source `user bob`, `topic read t` and no stored rule, the simulator refuses bob what the file grants |
| ServiceAccess.FileHoldsExactly | internal/deploy/service.go:613-698 | what is read back from any rendered file is the adopted source, the stored rules of its scope that are no orphan's, and the three grants of MCM's own account; nothing is missing and nothing else is there |
| ServiceAccess.OrphansLeftOut | internal/deploy/service.go:613-624 | no file holds a user rule of an orphan unless its source does |
| ServiceAccess.ServiceKeepsAccess | internal/deploy/service.go:915-947 | in every file MCM's own account may read every topic and write the healthcheck topic unless a rule read back denies it |
| ServiceAccess.ServiceProbeOffered | internal/deploy/service.go:1827-1868 | the service account offers a verification probe on every rendered file, an adopted one provided no `user` line has more than one name |
| Destructive.BlockingACLEntries | internal/deploy/service.go:809-836 | returns exactly the lost keys that block: of an unknown principal, or uninterpretable while the file carries recognised content |
| Destructive.BaseCarriesACLContent | internal/deploy/service.go:840-848 | whether the old file has any recognised directive |
| Destructive.DestructiveEntries | internal/deploy/service.go:1461-1469 | the lost keys that block an apply, from the two bodies |
| Destructive.PassingPreserves | internal/deploy/service.go:809-908 | nothing blocks if and only if the new broker-wide file keeps every grant of a principal MCM does not know and, when the old file has a recognised directive, every directive MCM cannot interpret |
| Probe.ConcreteProbeTopic | internal/deploy/service.go:1904-1947 | a topic is built exactly for usable filters, has no wildcard level and matches the filter applied to the user |
| Probe.UsableExactly | internal/deploy/service.go:1904-1947 | a user's filter can be made concrete if and only if it is valid |
| Probe.UsablePatternExactly | internal/deploy/service.go:1904-1947 | a valid pattern can be made concrete for a user if and only if no level of it is `%c` and, if one is `%u`, the username can stand as a level |
| Probe.UserScopedGrants | internal/deploy/service.go:1785-1800 | reports whether the user has a grant and the first readwrite rule |
| Probe.FirstReadWriteIsFirst | internal/deploy/service.go:1785-1800 | the rule taken is a readwrite rule of the user that no other precedes, and there is none only where the user has none |
| Probe.DeniedTopicFor | internal/deploy/service.go:1877-1888 | the filter of the first deny rule of the user, and nothing when there is none |
| Probe.DeniedFilterOfFirst | internal/deploy/service.go:1877-1888 | what is reported is the filter of a deny rule of the user that no other such rule precedes, or it is empty and there is no such rule |
| Probe.PickUserProbe | internal/deploy/service.go:1711-1780 | the first user that can be probed is, on its first readwrite rule, with its password, if and only if it comes before any granted user without a known password; the scan stops if and only if such a user comes first; otherwise no user decides |
| Probe.PickPatternProbe | internal/deploy/service.go:1711-1780 | the first readwrite pattern that works for any user with a known password is taken, for the first user it works for, with the password of that user; none if and only if there is none |
| Probe.ServiceVerificationProbe | internal/deploy/service.go:1827-1868 | the service account probes `mcm/healthcheck` with its own password if and only if it offers that |
| Probe.PickVerificationProbe | internal/deploy/service.go:1711-1868 | the probe chosen is that of the first phase that offers one, for the first rule and user of the phase; its topic has no wildcard and matches, after substitution, a readwrite rule that applies to the probed user; none is chosen if and only if the scan stopped or no phase offers one |
| Applier.WriteStage | internal/mosquitto/applier.go:198-223 | a staged body is in a fresh temporary file, or nothing but a failed removal is left of it |
| Applier.StageAll | internal/mosquitto/applier.go:316-335 | every body is in a temporary file of its own, or none is left if removals succeed |
| Applier.CommitAll | internal/mosquitto/applier.go:337-350 | every staged body is at its path, renamed in order, or only those paths may have changed and the first rename was that of the first body |
| Applier.AtomicWrite | internal/mosquitto/applier.go:260-266 | one file is replaced whole or not at all |
| Applier.FileApplier.RemoveRetired | internal/mosquitto/applier.go:352-360 | every retired file is gone, or only touched paths changed |
| Applier.RollbackFromSnapshot | internal/mosquitto/applier.go:273-293 | success leaves every touched path with its snapshot content; failure confines the damage to those paths |
| Applier.FileApplier.RollbackAfterPartialApply | internal/mosquitto/applier.go:380-388 | the outcome is restored or rollback-failed, and restored means all snapshots are written |
| Applier.FileApplier.Replace | internal/mosquitto/applier.go:337-370 | from staged bodies on: applied with the reload sent, or restored, or rollback-failed; the first rename is that of the new broker-wide body |
| Applier.FileApplier.Apply | internal/mosquitto/applier.go:301-370 | for any failures: applied with all bodies in place, retired files gone and the reload sent only then; or restored; or rollback-failed; or refused with no target touched. Staging failed if and only if one staging failure is all that happened; in the other cases but the two refusals before it the first rename is that of the new broker-wide body, so nothing is restored before something was replaced; no temporary file survives if removals succeed |
| Applier.AppliedMeans | internal/mosquitto/applier.go:301-370 | after an applied request every retired file is absent, and every body is readable at its path if and only if no two targets want different contents at one path and none is at a retired path |
| Applier.AppliedFrame | internal/mosquitto/applier.go:301-370 | an applied request changes no other path |
| Applier.RestoreReads | internal/mosquitto/applier.go:273-293 | with true snapshots a restored path reads its old content |
| DeployPlan.EncodeInjective | internal/deploy/acl_scope.go:493-505 | the hashed text of NUL-free files determines the paths and bodies in order |
| DeployPlan.HashDetectsDrift | internal/deploy/acl_scope.go:493-505 | equal hashes of NUL-free renders mean the same set of paths with bodies |
| DeployPlan.PlanHandsOverPreview | internal/deploy/acl_scope.go:71-116 | a drift-free plan hands over exactly the previewed paths and bodies if and only if every lookup by path finds the body of the file there |
| DeployPlan.LookupsOutside | internal/deploy/acl_scope.go:209-241 | outside a bare working directory the lookups find the right bodies if and only if no listener file has the path of the broker-wide file with a body of its own |
| DeployPlan.MisledPlan | internal/deploy/acl_scope.go:71-116 | wherever a lookup by path finds another body than that of the file, a plan exists that does not hand over the preview |
| Deploy.DeployService.InsertPreviewRevision | internal/deploy/service.go:454-462 | without a fault a revision is stored if and only if its id is new |
| Deploy.DeployService.ConsumePreviewRevision | internal/deploy/service.go:474-487 | without a fault the flag is set if and only if the revision is there and unconsumed |
| Deploy.DeployService.SyncRegistry | internal/deploy/acl_scope.go:136-198 | on success the registry holds exactly the wanted rows |
| Deploy.DeployService.RecordManagedACLFiles | internal/deploy/acl_scope.go:136-166 | on success the registry names exactly the listener files of the render |
| Deploy.DeployService.RestoreManagedACLFiles | internal/deploy/acl_scope.go:171-198 | on success the registry is the previous one |
| Deploy.DeployService.PlanACLFiles | internal/deploy/acl_scope.go:71-116 | the plan pairs every rendered file with its body and true snapshot, and retires exactly the registered files the render dropped |
| Deploy.DeployService.Retired | internal/deploy/acl_scope.go:95-115 | the registered files the render dropped, sorted |
| Deploy.DeployService.Preview | internal/deploy/service.go:1154-1263 | a stored preview records what the ACL file and the password file read as, the time, the rendered bodies and the hash of all files, unconsumed, under a fresh id; without a fault it succeeds if and only if the render did and the id is new; a preview that fails stored at most that |
| Deploy.DeployService.CheckRevision | internal/deploy/service.go:1389-1469 | without a fault an apply passes if and only if the revision is there, unconsumed and at most an hour old, both files read as at its preview, the render is the previewed one, the scope is wired and nothing of others is lost; every refusal but a failed store is given exactly for its reason |
| Deploy.DeployService.CheckStored | internal/deploy/service.go:1389-1437 | the checks against the store and the two files; a failed store is reported if and only if something failed |
| Deploy.DeployService.OneAnswer | internal/deploy/service.go:1389-1469 | for every revision and state either it can be applied or exactly one refusal is right |
| Deploy.RestoredReads | internal/deploy/service.go:1522-1534 | after an internal restore every path reads as before the apply, deleted listener files included |
| Deploy.RollbackReads | internal/deploy/service.go:1967-1985 | after a rollback from the stored snapshots every path reads as before the apply |
| Deploy.DeployService.RollbackAfterVerifyFailure | internal/deploy/service.go:1992-2035 | applied means every path reads as before and, without registry faults, the registry is restored; a rollback that fails keeps the registry and leaves the disk as it was when nothing was staged, every touched file reading as nothing when it was restored in turn, and only touched paths changed otherwise; the status says which of the two it was |
| Deploy.RollbackFrame | internal/deploy/service.go:1967-2035 | whatever a rollback does, paths the apply did not touch read as before the apply |
| Deploy.RestoredRollbackBlanks | internal/deploy/service.go:1967-2035 | an inner restore of a rollback request leaves every file the apply touched reading as nothing |
| Deploy.DeployService.Activate | internal/deploy/service.go:1515-1600 | active means the verifier succeeded, the registry names the render and the disk was left as applied |
| Deploy.DeployService.HandOver | internal/deploy/service.go:1515-1600 | failed and rolled back mean every path reads as before; failed keeps the registry |
| Deploy.DeployService.Execute | internal/deploy/service.go:1503-1600 | the revision is consumed before the applier is reached |
| Deploy.DeployService.Carry | internal/deploy/service.go:1471-1600 | a deployment that cannot be recorded leaves no trace; a recorded one ends in a status that agrees with the disk and the registry |
| Deploy.DeployService.ApplyRevision | internal/deploy/service.go:1375-1600 | without a fault an apply is refused if and only if the revision cannot be applied, for the right reason, and otherwise ends as the request, the reload and the verifier decide; it is recorded only if both files read as when the preview was stored, within the hour; a refused apply leaves no trace; a revision reaches the applier at most once; the recorded final status agrees with the disk and the registry for every pattern of failures; only touched paths can differ however it ends |
| Deploy.DeployService.PreviewAndApply | internal/deploy/service.go:1154-1600 | a preview and its apply within the hour, with nothing changed in between, no fault, the scope wired, nothing lost, a reload configured, no cancellation and a verifier that succeeds, end verified active |
| Deploy.DeployService.Run | internal/deploy/service.go:1365-1600 | over any sequence of previews and applies that settle with working registry writes, the registry names exactly the listener files in force, and every other listener file owned at the start or since, unless it is at one of the two broker-wide paths, reads as nothing |
| Deploy.ActivationLeavesNothing | internal/deploy/acl_scope.go:95-115 | an activation removes what its render dropped and writes nothing that was dropped before |
| Deploy.AppliesWhatWasPreviewed | internal/deploy/service.go:1389-1531 | the password body handed over is that of the preview; the ACL bodies are, if and only if the lookups by path find the right ones: outside a bare working directory, if and only if no listener file has the broker-wide path with a body of its own |
| Deploy.ActivatedFiles | internal/deploy/service.go:1515-1589 | an active deploy leaves no listener file the render dropped, and every body on disk if and only if the password file is neither at the path of a planned ACL file with another body nor at that of a retired one |
| Deploy.PasswdPathSample | internal/config/config.go:683-687 | with the password file at `/e/acl.x`, which validation accepts, the body of the listener `x` is not what is on disk |
| Delivery.HandsOverExactly | internal/deploy/acl_scope.go:71-116 | whatever valid rules are stored at the preview and at the apply, a drift-free apply hands over what the preview showed, if and only if the ACL file is not a bare name in the working directory and its path is not the file path of any valid listener id |
| Delivery.SharedPath | internal/deploy/acl_scope.go:71-116 | whenever the path of the broker-wide file is that of a valid listener: one rule of that listener renders a body that is in no planned file |
| Delivery.SharedPathSample | internal/deploy/acl_scope.go:71-116 | with the ACL file `/e/acl.x`, one rule of the listener `x` renders a body that no planned file carries |
| Delivery.WrongBody | internal/deploy/acl_scope.go:209-241 | with a bare ACL file name, for every short listener id: of two rules of two listeners, the file of the first is handed the body of the second |
| Delivery.ServedAsPreviewed | internal/deploy/service.go:1389-1600 | after a verified apply, with the configured paths apart, every file of the preview is on disk with the body the preview showed |
| Delivery.DeployedAsSimulated | internal/deploy/service.go:1389-1600 | after a verified apply, with the configured paths apart, reading the file of any scope without an adopted source from disk decides as the simulator decides on the rules of the preview, for every identity but the service account and orphans |
| Delivery.DeployedAsComposed | internal/deploy/service.go:1389-1600 | in a scope with an adopted source it decides as the source, the active rules and the service grants together |
| Delivery.ComposedIsKept | internal/deploy/service.go:1458-1469 | a file composed into the body that is on disk is never refused as destructive |
| Delivery.RecomposedPassesExactly | internal/deploy/service.go:809-908 | the next apply over the same source passes the check if and only if every user rule that it drops is of a principal MCM still knows |
| DynsecModel.Validate | internal/dynsec/model.go:418-605 | no finding if and only if names are valid and distinct, entries are valid and every reference names an object |
| DynsecModel.Memberships | internal/dynsec/model.go:321-329 | the record holds for every client exactly the groups that list it |
| DynsecModel.Normalize | internal/dynsec/model.go:320-338 | only the group lists of the clients change, and each then lists once exactly the groups that list the client |
| DynsecModel.NormalisedIsValid | internal/dynsec/model.go:320-338 | normalising keeps a document valid |
| DynsecPlan.DiffACLs | internal/dynsec/plan.go:578-606 | the two loops return the entries that are new or differ, and the entries that are gone |
| DynsecPlan.RoleUpdates | internal/dynsec/plan.go:288-350 | the changes are updates of the role only, each with commands about it, and run the description, removals and additions in order, a changed priority as remove then add |
| DynsecPlan.GroupUpdates | internal/dynsec/plan.go:353-439 | the changes are updates of the group only, each with commands about it: description, missing roles, extra roles, missing clients, extra clients |
| DynsecPlan.GroupMembershipUpdates | internal/dynsec/plan.go:446-482 | adds the missing clients and removes the extra ones, those being deleted left alone |
| DynsecPlan.ClientUpdates | internal/dynsec/plan.go:485-575 | the changes are updates of the client only, each with commands about it: details, password when given, state, missing roles, extra roles |
| DynsecPlan.PlanRoles | internal/dynsec/plan.go:89-108 | a change that creates every role that is not there, and the updates of every other; each with commands that are about the role it names and do what its action says |
| DynsecPlan.PlanGroups | internal/dynsec/plan.go:110-132 | a change that creates every group that is not there, and the updates of every other; each with commands that are about the group it names and do what its action says |
| DynsecPlan.PlanClients | internal/dynsec/plan.go:134-158 | a change that creates every client that is not there, and the updates of every other; each with commands that are about the client it names and do what its action says |
| DynsecPlan.PlanMembers | internal/dynsec/plan.go:160-190 | the clients of every created group and the membership updates of every other, all as updates of desired groups; a new group only has clients added |
| DynsecPlan.PlanDeletions | internal/dynsec/plan.go:192-239 | one deletion for every current object the desired document does not have, of that kind and name |
| DynsecPlan.BuildPlan | internal/dynsec/plan.go:86-273 | the commands of the plan, flattened, are the phases in order: roles, groups, clients, memberships, deletions of clients, groups and roles, settings; every change carries commands about the object it names that do what its action says; an object is created if and only if it is new, deleted if and only if it is gone, and updated only if it stays, except that clients join new groups; a setting is changed if and only if it differs |
| DynsecDatabase.StepKeepsSound | internal/dynsec/plan.go:80-85 | every command keeps every held role, every group with members and the anonymous group existing |
| DynsecObjects.PatchEntries | internal/dynsec/plan.go:288-350 | removing and adding the difference turns the entries of a role into exactly the wanted ones, priorities included |
| DynsecObjects.MergeRefs | internal/dynsec/plan.go:353-439 | adding the missing references and removing the extra ones yields the wanted names, the held ones with the priority they had |
| DynsecObjects.MergedExactly | internal/dynsec/plan.go:353-439 | the references come out with the wanted priorities if and only if no held one is to change its own |
| DynsecObjects.RoleEditsRun | internal/dynsec/plan.go:288-350 | running the updates of a role turns it into the desired one and changes nothing else |
| DynsecObjects.GroupEditsRun | internal/dynsec/plan.go:353-439 | running the updates of a group gives it the desired description, roles and clients and changes nothing else |
| DynsecObjects.ClientEditsRun | internal/dynsec/plan.go:485-575 | running the updates of a client gives it the desired fields and roles and changes nothing else |
| DynsecPhases.RolesRun | internal/dynsec/plan.go:89-108 | the role phase builds every desired role and touches no other |
| DynsecPhases.GroupsRun | internal/dynsec/plan.go:110-132 | the group phase builds every desired group, replacing the clients of those that existed |
| DynsecPhases.ClientsRun | internal/dynsec/plan.go:134-158 | the client phase builds every desired client and touches no other |
| DynsecPhases.MembersRun | internal/dynsec/plan.go:160-190 | the membership phase gives every desired group its clients, repeating harmlessly what the group phase did |
| DynsecPhases.DeleteRolesRun | internal/dynsec/plan.go:225-239 | deleting roles nothing refers to changes nothing but the roles |
| DynsecTheorems.PlanReaches | internal/dynsec/plan.go:86-273 | from any sound database and any document read from it, the plan for a valid document is refused nowhere and ends in the state the document describes, up to the priorities of roles already held, the disabled flag of created clients and what is to be cleared |
| DynsecTheorems.PlanFulfilsExactly | internal/dynsec/plan.go:86-273 | the database after the plan is what the desired document says, texts, priorities and disabled flags included, if and only if the document lists nothing twice, no held role changes its priority, no created client is disabled and no held text, client id or anonymous group is to be cleared |
| DynsecTheorems.PlanSafeThroughout | internal/dynsec/plan.go:89-239 | in every intermediate state every role reference names an existing role, the next command finds the roles and groups it names, and no role is deleted while referred to |
| DynsecTheorems.PlanVerifiesExactly | internal/dynsec/service.go:210-348 | after the plan the comparison of the desired document with whatever is read back finds nothing if and only if nothing is listed twice, no created client is disabled and the anonymous group is not cleared while it is kept |
| DynsecTheorems.BornEnabled | internal/dynsec/plan.go:137-156 | the command that creates a client leaves it enabled even when the document disables it |
| DynsecTheorems.AclKeyInjective | internal/dynsec/service.go:423-425 | the compared string identifies the type and topic of an entry |
| DynsecReplan.ReplanIsEmptyExactly | internal/dynsec/plan.go:86-273 | planning again from what is read back plans nothing if and only if no client carries a password, none was created to be disabled and nothing held was to be cleared |
| DynsecReplan.UnsentPriority | internal/dynsec/plan.go:353-439 | a group that holds a role at priority 0 and is to hold it at 5: the plan is empty |
| DynsecReplan.UnclearedText | internal/dynsec/plan.go:288-306 | a role described as `x` that is to have no description: the plan is one command that leaves the database as it was |
| DynsecMembers.MembersExistExactly | internal/dynsec/plan.go:405-464 | every client a plan adds to a group exists at that point if and only if no group that exists already gains a client that does not |
| DynsecMembers.EarlyMember | internal/dynsec/plan.go:110-190 | a whole plan that adds a client to a group before it creates the client: add, create, add again |
| DynsecVerify.CompareRefs | internal/dynsec/service.go:359-401 | true if and only if the second list repeats no name and both lists hold the same names |
| DynsecVerify.CompareEntries | internal/dynsec/service.go:406-425 | true if and only if the second list repeats no key, the keys are the same and the last entry found under each gives the same verdict |
| DynsecVerify.VerifyClients | internal/dynsec/service.go:213-259 | no difference if and only if the clients agree, each name once |
| DynsecVerify.VerifyGroups | internal/dynsec/service.go:261-299 | no difference if and only if the groups agree, each name once |
| DynsecVerify.VerifyRoles | internal/dynsec/service.go:301-331 | no difference if and only if the roles agree, each name once |
| DynsecVerify.Verify | internal/dynsec/service.go:210-348 | no difference if and only if the documents agree on objects, references, entries, states and settings |
| Listener.ListenerService.StorePreview | internal/listener/listener_service.go:301-309 | expired previews are dropped and the fresh one stored unconsumed |
| Listener.ListenerService.CollectPreviews | internal/listener/listener_service.go:605-611 | exactly the previews past their expiry are dropped, consumed ones included |
| Listener.ListenerService.Claim | internal/listener/listener_service.go:329-355 | each of the six answers is given exactly on its condition, in the order gone, expired, consumed, not confirmed, busy, claimed; nothing but an expired preview changes when the apply is not claimed |
| Listener.ListenerService.Resolve | internal/listener/listener_service.go:362-375 | a call that cannot decode or resolve its rows ends with nothing touched, and any other goes on; so for every step, a failure is counted exactly where the way to success is left |
| Listener.ListenerService.Snapshot | internal/listener/listener_service.go:377-384 | the bytes in place are kept aside, or the call ends with nothing touched |
| Listener.ListenerService.Write | internal/listener/listener_service.go:385-393 | the rendered bytes are in place, or a restoration is due |
| Listener.ListenerService.Restart | internal/listener/listener_service.go:395-407 | the broker runs the bytes in place, or what it runs is unknown and a restoration is due |
| Listener.ListenerService.Restore | internal/listener/listener_service.go:386-413 | the bytes kept aside are back, or the call ends with a failed restoration |
| Listener.ListenerService.Recover | internal/listener/listener_service.go:414-419 | the compensating restart runs on the restored bytes |
| Listener.ListenerService.ReplaceAll | internal/listener/listener_service.go:409-422 | the rows are stored whole or not at all |
| Listener.ListenerService.MarkConsumed | internal/listener/listener_service.go:423-427 | the preview is consumed even if it was collected meanwhile |
| Listener.ListenerService.Release | internal/listener/listener_service.go:356-360 | what the configuration, the specs and the broker are when an apply ends |
| Listener.ListenerService.Finish | internal/listener/listener_service.go:356-432 | what is left of a claimed apply ends successfully, with its rows stored, if and only if no step failed since the claim |
| Listener.ListenerService.Apply | internal/listener/listener_service.go:329-432 | with any steps of others in between: a claimed apply fails if and only if one of its steps does; success stores rows never stored before; an error without a failed restoration leaves configuration and specs as they were, and without a failed restart the broker too |
| Listener.ListenerService.Interleave | internal/listener/listener_service.go:301-432 | under every interleaving at most one call is in the body and no revision is stored twice |
| BrokerLog.LineFeed | internal/brokerlog/source.go:208-214 | what a line feed adds to the complete lines and to those that count |
| BrokerLog.WorthMembers | internal/brokerlog/source.go:202-221 | the lines that count are exactly the complete lines within the limit that are not empty without their carriage return |
| BrokerLog.RingKeeps | internal/brokerlog/source.go:227-246 | the ring holds every entry that no poll dropped and that fewer lines than its capacity followed |
| BrokerLog.RingSurvives | internal/brokerlog/source.go:235-246 | the ring holds nothing a poll dropped |
| BrokerLog.RingOrdered | internal/brokerlog/source.go:227-246 | the ring keeps the order of emission and never exceeds its capacity |
| BrokerLog.RingExactly | internal/brokerlog/source.go:227-246 | with lines in chronological order the ring is exactly the newest lines no poll dropped |
| LogSource.FileSource.Feed | internal/brokerlog/source.go:200-221 | one byte keeps the scanner where a single pass over all consumed bytes would be |
| LogSource.NewFileSource | internal/brokerlog/source.go:119-139 | a source is created if and only if the path is not blank and the limits are within their bounds |
| LogSource.FileSource.Locate | internal/brokerlog/source.go:180-183 | a replaced or truncated file is read from its first byte; otherwise nothing changes |
| LogSource.FileSource.Forget | internal/brokerlog/source.go:223-224 | the poll leaves in the ring exactly what the history with it leaves |
| LogSource.FileSource.Append | internal/brokerlog/source.go:227-233 | drops the oldest entry when full, then appends |
| LogSource.FileSource.Expire | internal/brokerlog/source.go:235-246 | keeps exactly the entries young enough, in order |
| LogSource.FileSource.Filtered | internal/brokerlog/source.go:248-268 | the newest admitted entries up to the bound, in order |
| LogSource.FileSource.Consume | internal/brokerlog/source.go:187-222 | a poll consumes the bytes from where it stands, in order; one cancelled anywhere keeps what it consumed; it consumes all there is up to its bound if and only if nothing failed |
| LogSource.FileSource.Read | internal/brokerlog/source.go:144-225 | without a fault and with a valid filter the result is unavailable if and only if the file is missing, failed if and only if it may not be read, and available if and only if it is a regular file, read up to the bound; a poll of any file keeps scanner and ring tied to the history, keeps what was consumed and reads on, or restarts on a replaced or truncated file, and returns the newest admitted entries; if the consumed bytes were still in place they are a prefix of the file again |
| LogSource.FileSource.Follow | internal/brokerlog/source.go:144-225 | polls of a file left alone reach its end if and only if nothing fails, and have then emitted exactly the lines of its complete content that count |
| LogSource.PollsDoNotMatter | internal/brokerlog/source.go:144-225 | sources that consumed the same bytes hold the same partial line and discard flag and emitted the same lines |
| Schema.ValidateSchemaNode | internal/schema/schema.go:71-155 | accepts exactly the schemas whose keywords are of the supported subset at every level, in any map order |
| Schema.NoErrorsExactly | internal/schema/schema.go:166-241 | no error is counted if and only if the value conforms to the schema |
| Schema.TakeProperty | internal/schema/schema.go:225-233 | the number of errors of the properties does not depend on the order in which the map yields them |
| Schema.CheckScalar | internal/schema/schema.go:174-201 | adds the problem of each failing enumeration or limit at the place of the value, and no other |
| Schema.CheckItems | internal/schema/schema.go:202-211 | the problems due in the elements are added at their places, each as often as it is due while within the bound, and fewer beyond it |
| Schema.CheckRequired | internal/schema/schema.go:216-223 | adds the problem of each missing required name at its place, as often as it is listed, and no other |
| Schema.CheckProperties | internal/schema/schema.go:224-233 | in any order, the problems due in the properties are added at their places, each as often as it is due while within the bound, and fewer beyond it |
| Schema.CheckExtra | internal/schema/schema.go:234-240 | adds one problem for each property a closed schema does not know, at its place, and no other |
| Schema.ValidateValue | internal/schema/schema.go:166-241 | the shared list grows by the problems due, each at its place and as often as it is due while within the bound; beyond it by some of them, and its length says that it is beyond |
| Schema.DueParts | internal/schema/schema.go:166-241 | what is due below a place is what is due of the value itself, of its elements, of its missing and unknown names and of its properties |
| Schema.ValidateJSONPayload | internal/schema/schema.go:51-69 | the verdict is uncut conformance; up to five problems the messages list exactly those due, each a place and a keyword that fails there, as often as it is due; beyond five they list the first five found, all due, and then that there are more |
| Schema.ValidateSchemaDocument | internal/schema/schema.go:42-48 | a document is accepted if and only if it decodes to an accepted schema; `null` decodes to the empty one |
| Schema.TopicFilterMatches | internal/schema/schema.go:21-39 | matches level by level, without the special case of empty strings |
| Schema.MatchersDifferExactly | internal/schema/schema.go:21-39 | this matcher and the ACL resolver's differ exactly on the empty topic under `+`, `#`, `/#`, `+/#` and the empty filter |

## Left out

- HTTP handlers, the UI, audit, metrics, logging and alert delivery: no deep invariant.
- MQTT, TLS, Docker, signals and processes: steps that succeed or fail. `DockerApplier` repeats the logic of `FileApplier`.
- SHA-256 is the identity on the hashed text, so collisions are not modelled. Password hashing is not part of this model.
- SQLite, `conf`, `listeners`, `bridges`, `plugins`, `settings` and `catalog`: abstract stores; the wiring check of a scope is a boolean of the world, and what listeners render to is arbitrary.
- JSON encoding of listener bodies, snapshots, payloads and schemas: a faithful map; the decoded value is the input.
- Time-outs, sleeps, retries and time zones: a clock reading is an integer parameter.
- The mutation lock of the deploy service: applies are serialised, so `Deploy` is a sequence of operations.
- Explanation texts, diffs, summaries of changes and the order in which issues are listed.
- `filepath.Join` and `filepath.Dir`: the directory of the ACL file is a parameter, of which only `DirectoryOf` is used; paths are compared as they are written.
- Strings are sequences of characters: invalid UTF-8, and the lower-casing of letters beyond ASCII except the two that lower-case to an ASCII letter, are not modelled.
- The password file parser and `CheckControlChannel`.
- `Sort` of a security document: its readers look at it as a set.
- The three reference types of the security document share one shape here.
- DynsecModel.Normalize: returns the normalised document instead of writing it in place, because documents are values everywhere else in the planner.
- The transport of the plugin, its answers and the retried read: the plan runs on the database directly. How the plugin treats an absent field is not in the repository; here such a field leaves what is held alone, and a `setAnonymousGroup` without a group changes nothing, whether or not it is answered with an error.
- Priorities of group members are not part of the database, which holds memberships as pairs.
- The classification of a log line by regular expressions: a parameter of the source.
- Schema.Whole: a number beyond the 64-bit range is no integer, which is what the conversion gives on amd64.
- Schema.ValidateJSONPayload: beyond five problems it says that the five listed are due, not which five they are, because maps are walked in any order.
- The version parameter of rule validation: rules are checked against the supported version, which has every permission.
